/** What the stall counter counts and when the watermark moves, over any cycles (daemon.go: cookieWatermark). */
module Stalls {
  import opened Text
  import opened Markdown
  import opened Fetch
  import opened Engine
  import opened Cycles

  /** One cycle: the Cookie DB's modification time, the clock, the listing, and what it meets. */
  datatype Day = Day(mod: string, now: string, all: seq<ConvSummary>, weather: Weather)

  ghost predicate AreDays(days: nat -> Day) {
    forall i :: |days(i).weather.envs| == |days(i).all|
  }

  /** State and disk after n cycles of any kind. */
  function Life(p: Persisted, disk: Disk, days: nat -> Day, n: nat): (r: (Persisted, Disk))
    requires AreDays(days)
  {
    if n == 0 then (p, disk)
    else
      var (q, d) := Life(p, disk, days, n - 1);
      var x := days(n - 1);
      AnyCycle(q, d, x.mod, x.now, x.all, x.weather)
  }

  /** How a cycle ends. Stalled: with errors, and nothing new or changed written. */
  datatype Verdict = Unsaved | Clean | Progressed | Stalled

  function VerdictOf(p: Persisted, disk: Disk, x: Day): (v: Verdict)
    requires |x.weather.envs| == |x.all|
  {
    if !Completes(p, disk, x.mod, x.all, x.weather) then Unsaved
    else
      var r := Sync(x.all, x.weather.envs, p.conversations, disk);
      if r.errN == 0 then Clean else if r.newN + r.changedN > 0 then Progressed else Stalled
  }

  function VerdictAt(p: Persisted, disk: Disk, days: nat -> Day, i: nat): (v: Verdict)
    requires AreDays(days)
  {
    var (q, d) := Life(p, disk, days, i);
    VerdictOf(q, d, days(i))
  }

  /** How many stalled cycles in a row the saved ones among the first n end with. A state found at first brings its own
  count, one that cannot have been counted being as good as two. */
  function InARow(p: Persisted, disk: Disk, days: nat -> Day, n: nat): (k: nat)
    requires AreDays(days)
  {
    if n == 0 then if p.retryCycles < 3 then p.retryCycles else 2
    else
      match VerdictAt(p, disk, days, n - 1)
      case Unsaved => InARow(p, disk, days, n - 1)
      case Stalled => InARow(p, disk, days, n - 1) + 1
      case Clean | Progressed => 0
  }

  /** One cycle: the counter, the watermark and the rest of the state. */
  lemma CycleMoves(p: Persisted, disk: Disk, x: Day)
    requires |x.weather.envs| == |x.all|
    ensures
      var q := AnyCycle(p, disk, x.mod, x.now, x.all, x.weather).0;
      var givesUp := p.retryCycles >= 2;
      match VerdictOf(p, disk, x)
      case Unsaved => q == p
      case Clean => q.retryCycles == 0 && q.lastCookieMod == x.mod
      case Progressed => q.retryCycles == 0 && q.lastCookieMod == p.lastCookieMod
      case Stalled =>
        && q.retryCycles == (if givesUp then 0 else p.retryCycles + 1)
        && q.lastCookieMod == (if givesUp then x.mod else p.lastCookieMod)
  {
    hide Sync;
  }

  lemma NextDay(p: Persisted, disk: Disk, days: nat -> Day, i: nat)
    requires AreDays(days)
    ensures
      var (q, d), x := Life(p, disk, days, i), days(i);
      && Life(p, disk, days, i + 1) == AnyCycle(q, d, x.mod, x.now, x.all, x.weather)
      && VerdictAt(p, disk, days, i) == VerdictOf(q, d, x)
  {
    hide AnyCycle, VerdictOf;
  }

  /** The counter is the number of stalled cycles in a row, up to the last one at which the daemon gave up: every third.
  A cycle that was clean or made progress starts the count anew; one that was not saved leaves it alone. */
  lemma {:induction false} CounterCounts(p: Persisted, disk: Disk, days: nat -> Day, n: nat)
    requires AreDays(days)
    ensures
      var q := Life(p, disk, days, n).0;
      q.retryCycles == InARow(p, disk, days, n) % 3 || (q == p && p.retryCycles >= 3 && InARow(p, disk, days, n) == 2)
  {
    hide AnyCycle, VerdictAt, VerdictOf;
    if n > 0 {
      CounterCounts(p, disk, days, n - 1);
      NextDay(p, disk, days, n - 1);
      var (q, d) := Life(p, disk, days, n - 1);
      CycleMoves(q, d, days(n - 1));
    }
  }

  /** The trigger counts as handled, that is the watermark takes the modification time this cycle started from, exactly
  after a saved cycle that was clean or was the third stalled one in a row. */
  lemma {:induction false} WatermarkMovesExactly(p: Persisted, disk: Disk, days: nat -> Day, n: nat)
    requires AreDays(days)
    ensures
      var q, q' := Life(p, disk, days, n).0, Life(p, disk, days, n + 1).0;
      var v := VerdictAt(p, disk, days, n);
      q'.lastCookieMod ==
        if v == Clean || (v == Stalled && InARow(p, disk, days, n + 1) % 3 == 0) then days(n).mod else q.lastCookieMod
  {
    hide AnyCycle, VerdictAt, VerdictOf;
    CounterCounts(p, disk, days, n);
    NextDay(p, disk, days, n);
    var (q, d) := Life(p, disk, days, n);
    CycleMoves(q, d, days(n));
    var k := InARow(p, disk, days, n);
    assert (k + 1) % 3 == 0 <==> k % 3 == 2;
  }

  /** What was counted: the last k saved cycles, for any k up to the count, were stalled, unless the count goes back to
  the state found at first. */
  lemma {:induction false} CountedWereStalled(p: Persisted, disk: Disk, days: nat -> Day, n: nat, k: nat)
    returns (i: nat)
    requires AreDays(days) && k <= InARow(p, disk, days, n)
    ensures i <= n
    ensures forall j :: i <= j < n ==> VerdictAt(p, disk, days, j) in {Unsaved, Stalled}
    ensures
      || StalledIn(p, disk, days, i, n) == k
      || (i == 0 && k <= StalledIn(p, disk, days, 0, n) + InARow(p, disk, days, 0))
  {
    hide VerdictAt, AreDays;
    if n == 0 {
      i := 0;
    } else if k == 0 {
      i := n;
    } else {
      var last := if VerdictAt(p, disk, days, n - 1) == Stalled then 1 else 0;
      i := CountedWereStalled(p, disk, days, n - 1, k - last);
    }
  }

  /** How many stalled cycles there were from i on, before n. */
  function StalledIn(p: Persisted, disk: Disk, days: nat -> Day, i: nat, n: nat): (k: nat)
    requires AreDays(days) && i <= n
  {
    if i == n then 0
    else StalledIn(p, disk, days, i, n - 1) + if VerdictAt(p, disk, days, n - 1) == Stalled then 1 else 0
  }
}
