/** The autostart loop that syncs only while Claude Desktop or VS Code is open (daemon.go:
nextSuperviseState, superviseLoop). */
module Supervise {
  import opened Text

  const GRACE_OFF_POLLS: nat := 3

  const POLL_INTERVAL: nat := 20

  datatype Machine = Machine(active: bool, missCount: nat)

  function NextSuperviseState(desktopUp: bool, vscodeUp: bool, m: Machine): (r: Machine) {
    if desktopUp || vscodeUp then Machine(true, 0)
    else if !m.active then Machine(false, 0)
    else if m.missCount + 1 >= GRACE_OFF_POLLS then Machine(false, 0)
    else Machine(true, m.missCount + 1)
  }

  /** One poll: what was found running, how long looking took and how long a cycle takes, should one run. */
  datatype Poll = Poll(desktopUp: bool, vscodeUp: bool, looking: nat, cycling: nat)

  /** The machine after the first n polls. */
  function After(polls: seq<Poll>, n: nat): (r: Machine)
    requires n <= |polls|
  {
    if n == 0 then Machine(false, 0)
    else NextSuperviseState(polls[n - 1].desktopUp, polls[n - 1].vscodeUp, After(polls, n - 1))
  }

  // ---- the sliding window ----

  predicate UpAt(polls: seq<Poll>, k: int) {
    0 <= k < |polls| && (polls[k].desktopUp || polls[k].vscodeUp)
  }

  /** One of the last three of the first n polls found something running. */
  predicate WindowUp(polls: seq<Poll>, n: nat) {
    UpAt(polls, n - 1) || UpAt(polls, n - 2) || UpAt(polls, n - 3)
  }

  /** From idle, over every sequence of polls, the machine is active exactly if one of the last three polls
  found something running, and while it is active missCount is the distance to the last one that did. */
  lemma {:induction false} SlidingWindow(polls: seq<Poll>, n: nat)
    requires n <= |polls|
    ensures
      var m := After(polls, n);
      && (m.active <==> WindowUp(polls, n))
      && (if m.active
          then m.missCount < GRACE_OFF_POLLS && UpAt(polls, n - 1 - m.missCount)
               && forall k :: n - 1 - m.missCount < k < n ==> !UpAt(polls, k)
          else m.missCount == 0)
  {
    if n > 0 {
      SlidingWindow(polls, n - 1);
    }
  }

  // ---- the loop ----

  /** A cycle that ran, at which poll and when. */
  datatype Cycle = Cycle(poll: nat, begin: nat, end: nat)

  ghost predicate RanAt(cycles: seq<Cycle>, k: nat) {
    exists i :: 0 <= i < |cycles| && cycles[i].poll == k
  }

  /** At time t, at poll k: no earlier cycle ended less than an interval ago. */
  ghost predicate IsDue(cycles: seq<Cycle>, interval: nat, k: nat, t: nat) {
    forall i :: 0 <= i < |cycles| && cycles[i].poll < k ==> cycles[i].end + interval <= t
  }

  /** Cycles come in order, each with its own poll, an interval after the one before has ended. */
  ghost predicate AreSpaced(cycles: seq<Cycle>, interval: nat) {
    && (forall i :: 0 <= i < |cycles| ==> cycles[i].begin <= cycles[i].end)
    && (forall i, j :: 0 <= i < j < |cycles| ==>
          cycles[i].poll < cycles[j].poll && cycles[i].end + interval <= cycles[j].begin)
  }

  /** The times of the first n polls and the cycles that ran at them: a cycle ran at a poll exactly if one of
  the last three polls found something running and no earlier cycle ended less than an interval ago. */
  ghost predicate IsSchedule(polls: seq<Poll>, interval: nat, cycles: seq<Cycle>, times: seq<nat>) {
    && |times| <= |polls|
    && ArePolls(times) && AreSpaced(cycles, interval) && AreAtPolls(cycles, times)
    && forall k: nat :: k < |times| ==> (RanAt(cycles, k) <==> Runs(polls, interval, cycles, k, times[k]))
  }

  ghost predicate ArePolls(times: seq<nat>) {
    forall k :: 0 <= k < |times| - 1 ==> times[k] + 20 <= times[k + 1]
  }

  ghost predicate AreAtPolls(cycles: seq<Cycle>, times: seq<nat>) {
    forall i :: 0 <= i < |cycles| ==> cycles[i].poll < |times| && cycles[i].begin == times[cycles[i].poll]
  }

  ghost predicate Runs(polls: seq<Poll>, interval: nat, cycles: seq<Cycle>, k: nat, t: nat) {
    WindowUp(polls, k + 1) && IsDue(cycles, interval, k, t)
  }

  method SuperviseLoop(polls: seq<Poll>, interval: nat, start: nat) returns (cycles: seq<Cycle>, times: seq<nat>)
    ensures |times| == |polls| && IsSchedule(polls, interval, cycles, times)
  {
    var m := Machine(false, 0);
    var lastCycle: Option<nat> := None;
    var now: nat := start;
    cycles, times := [], [];
    NoPollYet(polls, interval);
    hide IsSchedule, Runs, RanAt, After, NextSuperviseState, LastEnd, WindowUp, IsDue;
    for n := 0 to |polls|
      invariant m == After(polls, n)
      invariant |times| == n && IsSchedule(polls, interval, cycles, times)
      invariant times != [] ==> times[|times| - 1] + POLL_INTERVAL <= now
      invariant lastCycle == LastEnd(cycles)
      invariant lastCycle.Some? ==> lastCycle.value <= now
    {
      var p := polls[n];
      now := now + p.looking;
      m := NextSuperviseState(p.desktopUp, p.vscodeUp, m);
      RunsIsChecked(polls, interval, cycles, times, m, now);
      if m.active && (lastCycle.None? || now - lastCycle.value >= interval) {
        var c := Cycle(n, now, now + p.cycling);
        OneMoreCycle(polls, interval, cycles, times, now, c.end);
        LastIsEnd(cycles, c);
        cycles, times := cycles + [c], times + [now];
        now := c.end;
        lastCycle := Some(now);
      } else {
        NoCycle(polls, interval, cycles, times, now);
        times := times + [now];
      }
      now := now + POLL_INTERVAL;
    }
  }

  function LastEnd(cycles: seq<Cycle>): (r: Option<nat>) {
    if cycles == [] then None else Some(cycles[|cycles| - 1].end)
  }

  lemma LastIsEnd(cycles: seq<Cycle>, c: Cycle)
    ensures LastEnd(cycles + [c]) == Some(c.end)
  {
  }

  lemma NoPollYet(polls: seq<Poll>, interval: nat)
    ensures IsSchedule(polls, interval, [], []) && After(polls, 0) == Machine(false, 0)
  {
  }

  /** What the loop checks is what the schedule asks. */
  lemma {:induction false} RunsIsChecked(polls: seq<Poll>, interval: nat, cycles: seq<Cycle>, times: seq<nat>,
          m: Machine, now: nat)
    requires IsSchedule(polls, interval, cycles, times) && |times| < |polls|
    requires
      var p := polls[|times|];
      m == NextSuperviseState(p.desktopUp, p.vscodeUp, After(polls, |times|))
    ensures m == After(polls, |times| + 1)
    ensures !RanAt(cycles, |times|)
    ensures Runs(polls, interval, cycles, |times|, now) <==>
      m.active && (LastEnd(cycles).None? || now - LastEnd(cycles).value >= interval)
  {
    SlidingWindow(polls, |times| + 1);
    hide WindowUp, RanAt;
    DueIsLast(cycles, interval, |times|, now);
  }

  /** Only the last cycle matters for the next. */
  lemma DueIsLast(cycles: seq<Cycle>, interval: nat, n: nat, t: nat)
    requires AreSpaced(cycles, interval) && forall i :: 0 <= i < |cycles| ==> cycles[i].poll < n
    ensures IsDue(cycles, interval, n, t) <==> cycles == [] || cycles[|cycles| - 1].end + interval <= t
    ensures !RanAt(cycles, n)
  {
  }

  /** A cycle at poll n says nothing about earlier polls. */
  lemma EarlierPolls(cycles: seq<Cycle>, interval: nat, c: Cycle, k: nat, t: nat)
    requires k <= c.poll
    ensures IsDue(cycles + [c], interval, k, t) <==> IsDue(cycles, interval, k, t)
    ensures RanAt(cycles + [c], k) <==> RanAt(cycles, k) || k == c.poll
  {
    var cycles' := cycles + [c];
    assert cycles'[|cycles|] == c && forall i :: 0 <= i < |cycles| ==> cycles'[i] == cycles[i];
    if i :| 0 <= i < |cycles| && cycles[i].poll == k {
      assert cycles'[i].poll == k;
    }
  }

  lemma OneMorePoll(polls: seq<Poll>, interval: nat, cycles: seq<Cycle>, times: seq<nat>, t: nat)
    requires ArePolls(times) && AreAtPolls(cycles, times)
    requires times != [] ==> times[|times| - 1] + POLL_INTERVAL <= t
    ensures ArePolls(times + [t]) && AreAtPolls(cycles, times + [t])
  {
  }

  lemma OneMoreSpaced(cycles: seq<Cycle>, interval: nat, c: Cycle)
    requires AreSpaced(cycles, interval) && IsDue(cycles, interval, c.poll, c.begin) && c.begin <= c.end
    requires forall i :: 0 <= i < |cycles| ==> cycles[i].poll < c.poll
    ensures AreSpaced(cycles + [c], interval)
  {
  }

  lemma OneMoreCycle(polls: seq<Poll>, interval: nat, cycles: seq<Cycle>, times: seq<nat>, begin: nat, end: nat)
    requires IsSchedule(polls, interval, cycles, times) && |times| < |polls| && begin <= end
    requires times != [] ==> times[|times| - 1] + POLL_INTERVAL <= begin
    requires Runs(polls, interval, cycles, |times|, begin)
    ensures IsSchedule(polls, interval, cycles + [Cycle(|times|, begin, end)], times + [begin])
  {
    var c := Cycle(|times|, begin, end);
    var cycles', times' := cycles + [c], times + [begin];
    OneMorePoll(polls, interval, cycles, times, begin);
    OneMoreSpaced(cycles, interval, c);
    hide ArePolls, AreSpaced, WindowUp, IsDue, RanAt;
    assert AreAtPolls(cycles', times');
    hide AreAtPolls;
    forall k: nat | k < |times'| ensures RanAt(cycles', k) <==> Runs(polls, interval, cycles', k, times'[k]) {
      EarlierPolls(cycles, interval, c, k, times'[k]);
    }
  }

  lemma NoCycle(polls: seq<Poll>, interval: nat, cycles: seq<Cycle>, times: seq<nat>, t: nat)
    requires IsSchedule(polls, interval, cycles, times) && |times| < |polls|
    requires times != [] ==> times[|times| - 1] + POLL_INTERVAL <= t
    requires !Runs(polls, interval, cycles, |times|, t) && !RanAt(cycles, |times|)
    ensures IsSchedule(polls, interval, cycles, times + [t])
  {
    OneMorePoll(polls, interval, cycles, times, t);
    hide ArePolls, AreSpaced, AreAtPolls, Runs, RanAt;
  }
}
