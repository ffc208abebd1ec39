/** The persisted state and the life of a trigger over many cycles (daemon.go: cookieWatermark, runCycle). */
module Cycles {
  import opened Text
  import opened Markdown
  import opened Filenames
  import opened Fetch
  import opened Engine

  /** .sync-state.json */
  datatype Persisted = Persisted(conversations: Known, lastSync: string, lastCookieMod: string,
                                 lastSurfaces: string, retryCycles: nat)

  /** Before the first run, and where the state file is lost or unreadable. */
  const EMPTY := Persisted(map[], "", "", "", 0)

  const MAX_RETRY_CYCLES := 3

  function CookieWatermark(cur: string, prev: string, madeProgress: bool, errN: nat, retries: nat): (r: (string, nat)) {
    if errN == 0 then (cur, 0)
    else if madeProgress then (prev, 0)
    else if retries + 1 >= MAX_RETRY_CYCLES then (cur, 0)
    else (prev, retries + 1)
  }

  /** Cookie activity since the last handled trigger, or no sync yet. `mod` is "" if unreadable. */
  predicate Triggered(p: Persisted, mod: string) {
    (mod != "" && mod != p.lastCookieMod) || p.lastSync == ""
  }

  /** What a completed run persists. */
  function AfterRun(p: Persisted, mod: string, now: string, r: Run): (res: Persisted) {
    var (watermark, retries) := CookieWatermark(mod, p.lastCookieMod, r.newN + r.changedN > 0, r.errN, p.retryCycles);
    p.(conversations := r.known, lastSync := now, lastCookieMod := watermark, retryCycles := retries)
  }

  /** The chat half of a cycle that could list the conversations; a deadline discards the state in
  memory, not what is on disk. */
  function ChatCycle(p: Persisted, disk: Disk, mod: string, now: string, all: seq<ConvSummary>,
          envs: seq<ItemEnv>): (res: (Persisted, Disk))
    requires |envs| == |all|
  {
    if !Triggered(p, mod) then (p, disk)
    else
      var r := Sync(all, envs, p.conversations, disk);
      (if r.aborted then p else AfterRun(p, mod, now, r), r.disk)
  }

  /** A hard abort leaves the persisted state, and with it the trigger, exactly as before, and keeps every
  file already written. The next cycle takes a conversation unknown to the state whose file was written as
  listed without asking for it again. */
  lemma {:induction false} DeadlineCycleResumes(p: Persisted, disk: Disk, mod: string, now: string,
          all: seq<ConvSummary>, envs: seq<ItemEnv>,
                             envs2: seq<ItemEnv>, j: nat)
    requires IsListing(all) && |envs| == |all| == |envs2| && j < |all|
    requires Triggered(p, mod) && Sync(all, envs, p.conversations, disk).aborted
    requires all[j].uuid !in p.conversations && all[j].uuid in Sync(all, envs, p.conversations, disk).gets
    requires envs[j].writeOk && IsFresh(Content(envs[j]), all[j].updatedAt)
    ensures
      var (q, d) := ChatCycle(p, disk, mod, now, all, envs);
      var r2 := Sync(all, envs2, q.conversations, d);
      && q == p && Triggered(q, mod)
      && At(d, ConvFilename(all[j])) == Some(Content(envs[j]))
      && all[j].uuid !in r2.gets
      && (!r2.aborted ==>
            At(ChatCycle(q, d, mod, now, all, envs2).0.conversations, all[j].uuid) == Some(all[j].updatedAt))
  {
    hide SyncUpTo, Decide, KindOf, Content, IsFresh, ConvFilename, IsListing, MarkdownOf, Triggered, CookieWatermark;
    DeadlineIsResumable(all, envs, p.conversations, disk, envs2, j);
    var d := Sync(all, envs, p.conversations, disk).disk;
    if !Sync(all, envs2, p.conversations, d).aborted {
      SeededIsRecorded(all, envs2, p.conversations, d, j);
    }
  }

  lemma {:induction false} SeededIsRecorded(all: seq<ConvSummary>, envs: seq<ItemEnv>, known: Known, disk: Disk, j: nat)
    requires IsListing(all) && |envs| == |all| && j < |all| && !Sync(all, envs, known, disk).aborted
    requires Decide(known, disk, all[j]) == ActionSeed
    ensures At(Sync(all, envs, known, disk).known, all[j].uuid) == Some(all[j].updatedAt)
  {
    hide Decide, Content, ConvFilename, IsListing;
    LoopIsPointwise(all, envs, FreshRun(known, disk), |all|);
    var q0 := FreshRun(known, disk);
    assert Settled(q0, Sync(all, envs, known, disk), all[j], envs[j], KindAt(all, envs, q0, j));
  }

  // ---- no livelock ----

  /** Strictly smaller after every cycle that leaves its trigger armed. */
  ghost function Measure(p: Persisted, all: seq<ConvSummary>): (n: nat) {
    3 * Stale(all, p.conversations) + if p.retryCycles < 3 then 3 - p.retryCycles else 1
  }

  ghost predicate NoDeadline(envs: seq<ItemEnv>) {
    forall j :: 0 <= j < |envs| ==> envs[j].fetched != Failed(DeadlineExceeded)
  }

  lemma {:induction false} NoDeadlineNoAbort(all: seq<ConvSummary>, envs: seq<ItemEnv>, r0: Run, i: nat)
    requires i <= |all| == |envs| && NoDeadline(envs) && !r0.aborted
    ensures !SyncUpTo(all, envs, r0, i).aborted
  {
    hide Decide;
    if i > 0 {
      NoDeadlineNoAbort(all, envs, r0, i - 1);
      assert envs[i - 1].fetched != Failed(DeadlineExceeded);
    }
  }

  lemma HeldCycleDecreases(p: Persisted, disk: Disk, mod: string, now: string, all: seq<ConvSummary>,
          envs: seq<ItemEnv>)
    requires VersionsAgree(all) && |envs| == |all| && !Sync(all, envs, p.conversations, disk).aborted
    requires mod != "" && now != "" && Triggered(p, mod)
    ensures
      var p' := ChatCycle(p, disk, mod, now, all, envs).0;
      p'.lastSync == now && (Triggered(p', mod) ==> Measure(p', all) < Measure(p, all))
  {
    hide SyncUpTo, Stale, VersionsAgree;
    LoopStaleAtMost(all, envs, FreshRun(p.conversations, disk), |all|);
  }

  /** n cycles in a row with one listing and one cookie time; the environment of each is free. */
  function Iterate(p: Persisted, disk: Disk, mod: string, now: string, all: seq<ConvSummary>,
          envs: nat -> seq<ItemEnv>, n: nat): (r: (Persisted, Disk))
    requires forall i :: |envs(i)| == |all|
  {
    if n == 0 then (p, disk)
    else
      var (q, d) := Iterate(p, disk, mod, now, all, envs, n - 1);
      ChatCycle(q, d, mod, now, all, envs(n - 1))
  }

  lemma {:induction false} ArmedCyclesPayUp(p: Persisted, disk: Disk, mod: string, now: string, all: seq<ConvSummary>,
          envs: nat -> seq<ItemEnv>, n: nat)
    requires forall i :: |envs(i)| == |all|
    requires VersionsAgree(all) && (forall i :: NoDeadline(envs(i))) && mod != "" && now != ""
    ensures
      var q := Iterate(p, disk, mod, now, all, envs, n).0;
      Triggered(q, mod) ==> Measure(q, all) + n <= Measure(p, all)
  {
    hide ChatCycle, Measure, VersionsAgree, NoDeadline;
    if n > 0 {
      ArmedCyclesPayUp(p, disk, mod, now, all, envs, n - 1);
      var (q, d) := Iterate(p, disk, mod, now, all, envs, n - 1);
      if Triggered(q, mod) {
        NoDeadlineNoAbort(all, envs(n - 1), FreshRun(q.conversations, d), |all|);
        HeldCycleDecreases(q, d, mod, now, all, envs(n - 1));
      } else {
        QuietCycle(q, d, mod, now, all, envs(n - 1));
      }
    }
  }

  lemma QuietCycle(p: Persisted, disk: Disk, mod: string, now: string, all: seq<ConvSummary>, envs: seq<ItemEnv>)
    requires |envs| == |all| && !Triggered(p, mod)
    ensures ChatCycle(p, disk, mod, now, all, envs) == (p, disk)
  {
  }

  lemma {:induction false} QuietForever(p: Persisted, disk: Disk, mod: string, now: string, all: seq<ConvSummary>,
          envs: nat -> seq<ItemEnv>, k: nat, n: nat)
    requires forall i :: |envs(i)| == |all|
    requires k <= n && !Triggered(Iterate(p, disk, mod, now, all, envs, k).0, mod)
    ensures Iterate(p, disk, mod, now, all, envs, n) == Iterate(p, disk, mod, now, all, envs, k)
    decreases n
  {
    hide ChatCycle, Triggered;
    if k < n {
      QuietForever(p, disk, mod, now, all, envs, k, n - 1);
      var (q, d) := Iterate(p, disk, mod, now, all, envs, n - 1);
      QuietCycle(q, d, mod, now, all, envs(n - 1));
    }
  }

  /** No livelock. With a listing that names no conversation at two versions, in cycles that complete and whatever
  items fail, a trigger is handled within 3 * stale + 3 cycles; from then on the daemon is quiet: no cycle
  runs, state and disk stay. */
  lemma TriggerIsHandled(p: Persisted, disk: Disk, mod: string, now: string, all: seq<ConvSummary>,
          envs: nat -> seq<ItemEnv>, n: nat)
    requires forall i :: |envs(i)| == |all|
    requires VersionsAgree(all) && (forall i :: NoDeadline(envs(i))) && mod != "" && now != ""
    requires n >= 3 * Stale(all, p.conversations) + 3
    ensures
      var k := 3 * Stale(all, p.conversations) + 3;
      && !Triggered(Iterate(p, disk, mod, now, all, envs, k).0, mod)
      && Iterate(p, disk, mod, now, all, envs, n) == Iterate(p, disk, mod, now, all, envs, k)
  {
    hide Stale, Iterate, VersionsAgree, NoDeadline, Triggered;
    var k := 3 * Stale(all, p.conversations) + 3;
    ArmedCyclesPayUp(p, disk, mod, now, all, envs, k);
    QuietForever(p, disk, mod, now, all, envs, k, n);
  }

  // ---- cycles that do not complete ----

  /** What a cycle meets: a listing or none, the items' environments, and a state file that takes the result or not. */
  datatype Weather = Weather(listed: bool, envs: seq<ItemEnv>, saved: bool)

  /** The cycle lists the conversations, comes to the end of the loop and saves. */
  predicate Completes(p: Persisted, disk: Disk, mod: string, all: seq<ConvSummary>, x: Weather)
    requires |x.envs| == |all|
  {
    Triggered(p, mod) && x.listed && x.saved && !Sync(all, x.envs, p.conversations, disk).aborted
  }

  function AnyCycle(p: Persisted, disk: Disk, mod: string, now: string, all: seq<ConvSummary>, x: Weather)
    : (r: (Persisted, Disk))
    requires |x.envs| == |all|
  {
    if !x.listed then (p, disk)
    else
      var (q, d) := ChatCycle(p, disk, mod, now, all, x.envs);
      (if x.saved then q else p, d)
  }

  /** n cycles in any weather: the state, the disk, and how many completed. */
  function AnyCycles(p: Persisted, disk: Disk, mod: string, now: string, all: seq<ConvSummary>, xs: nat -> Weather,
          n: nat)
    : (r: (Persisted, Disk, nat))
    requires forall i :: |xs(i).envs| == |all|
  {
    if n == 0 then (p, disk, 0)
    else
      var (q, d, k) := AnyCycles(p, disk, mod, now, all, xs, n - 1);
      var (q', d') := AnyCycle(q, d, mod, now, all, xs(n - 1));
      (q', d', k + if Completes(q, d, mod, all, xs(n - 1)) then 1 else 0)
  }

  lemma AnyCycleCounts(p: Persisted, disk: Disk, mod: string, now: string, all: seq<ConvSummary>, x: Weather)
    requires VersionsAgree(all) && |x.envs| == |all| && mod != "" && now != ""
    ensures
      var q := AnyCycle(p, disk, mod, now, all, x).0;
      if Completes(p, disk, mod, all, x)
      then Triggered(p, mod) && (Triggered(q, mod) ==> Measure(q, all) < Measure(p, all))
      else q == p
  {
    hide Sync, Stale, VersionsAgree, Measure;
    if Completes(p, disk, mod, all, x) {
      HeldCycleDecreases(p, disk, mod, now, all, x.envs);
    }
  }

  /** Only cycles that complete cost anything, and of those there are few. With a listing that names no conversation
  at two versions, over any number of cycles of which some cannot list, meet a deadline or cannot save, at most
  3 * stale + 3 complete; then the trigger is handled. Until the first completes the state stays as it was. */
  lemma {:induction false} CompletedCyclesAreFew(p: Persisted, disk: Disk, mod: string, now: string,
          all: seq<ConvSummary>, xs: nat -> Weather, n: nat)
    requires forall i :: |xs(i).envs| == |all|
    requires VersionsAgree(all) && mod != "" && now != ""
    ensures
      var (q, _, k) := AnyCycles(p, disk, mod, now, all, xs, n);
      && k <= Measure(p, all) <= 3 * Stale(all, p.conversations) + 3
      && (Triggered(q, mod) ==> k + Measure(q, all) <= Measure(p, all))
      && (k == 3 * Stale(all, p.conversations) + 3 ==> !Triggered(q, mod))
      && (k == 0 ==> q == p)
  {
    MeasureIsPositive(p, all);
    hide AnyCycle, Completes, Triggered, Stale, VersionsAgree, Measure;
    if n > 0 {
      CompletedCyclesAreFew(p, disk, mod, now, all, xs, n - 1);
      var (q, d, k) := AnyCycles(p, disk, mod, now, all, xs, n - 1);
      AnyCycleCounts(q, d, mod, now, all, xs(n - 1));
      MeasureIsPositive(q, all);
    }
    var (q, d, k) := AnyCycles(p, disk, mod, now, all, xs, n);
    MeasureIsPositive(q, all);
  }

  lemma MeasureIsPositive(p: Persisted, all: seq<ConvSummary>)
    ensures 1 <= Measure(p, all) <= 3 * Stale(all, p.conversations) + 3
  {
  }

  // ---- cycles in which all items fail but one ----

  /** A body that is written as it is, one byte. */
  const BRACE := Body("{", None, None)

  lemma BraceIsWritten()
    ensures MarkdownOf(BRACE) == "{" && |Utf8("{")| == 1
  {
    Utf8Ascii("{");
    assert TrimSpace("{") == "{";
  }

  /** No file is large enough to be trusted. */
  ghost predicate AllTiny(disk: Disk) {
    forall f :: f in disk ==> |disk[f]| <= MIN_FILE_BYTES
  }

  /** Only item t is answered, none if there is no such item. */
  function Only(n: nat, t: nat): (envs: seq<ItemEnv>)
    ensures |envs| == n
  {
    seq(n, j => if j == t then ItemEnv(Got(BRACE), true) else ItemEnv(Failed(OtherError), true))
  }

  lemma TinyIsFetched(known: Known, disk: Disk, c: ConvSummary)
    requires AllTiny(disk)
    ensures Decide(known, disk, c) == ActionFetch
  {
    hide ConvFilename;
  }

  lemma FailingItem(c: ConvSummary, r: Run)
    requires AllTiny(r.disk) && !r.aborted
    ensures
      var r' := SyncItem(c, ItemEnv(Failed(OtherError), true), r);
      && r'.known == r.known && r'.disk == r.disk && r'.errN == r.errN + 1 && !r'.aborted
      && r'.newN == r.newN && r'.changedN == r.changedN
  {
    TinyIsFetched(r.known, r.disk, c);
    hide ConvFilename, Decide, Content, AllTiny;
  }

  lemma AnsweredItem(c: ConvSummary, r: Run)
    requires AllTiny(r.disk) && !r.aborted
    ensures
      var r' := SyncItem(c, ItemEnv(Got(BRACE), true), r);
      && r'.known == r.known[c.uuid := c.updatedAt] && AllTiny(r'.disk) && r'.errN == r.errN && !r'.aborted
      && r'.newN + r'.changedN == r.newN + r.changedN + if IsStale(r.known, c) then 1 else 0
  {
    TinyIsFetched(r.known, r.disk, c);
    BraceIsWritten();
    hide ConvFilename, Decide, MarkdownOf, Utf8;
  }

  lemma {:induction false} OnlyRun(all: seq<ConvSummary>, t: nat, known: Known, disk: Disk, i: nat)
    requires i <= |all| && AllTiny(disk)
    ensures
      var r := SyncUpTo(all, Only(|all|, t), FreshRun(known, disk), i);
      && !r.aborted && AllTiny(r.disk)
      && r.known == (if t < i then known[all[t].uuid := all[t].updatedAt] else known)
      && r.newN + r.changedN == (if t < i && IsStale(known, all[t]) then 1 else 0)
      && r.errN == i - (if t < i then 1 else 0)
  {
    hide SyncItem, AllTiny, IsStale;
    if i > 0 {
      OnlyRun(all, t, known, disk, i - 1);
      var r := SyncUpTo(all, Only(|all|, t), FreshRun(known, disk), i - 1);
      if t == i - 1 {
        AnsweredItem(all[i - 1], r);
      } else {
        FailingItem(all[i - 1], r);
      }
    }
  }

  lemma OnlyHasNoDeadline(n: nat, t: nat)
    ensures NoDeadline(Only(n, t))
  {
  }

  /** With an error among the others, an answered stale item holds the trigger and resets the stall counter; without
  an answer the counter goes up, and at the cap the trigger is given up. */
  lemma OnlyCycle(p: Persisted, disk: Disk, mod: string, now: string, all: seq<ConvSummary>, t: nat)
    requires AllTiny(disk) && Triggered(p, mod) && |all| > 0 && (t < |all| ==> |all| > 1)
    requires t < |all| ==> IsStale(p.conversations, all[t])
    ensures
      var (q, d) := ChatCycle(p, disk, mod, now, all, Only(|all|, t));
      && AllTiny(d)
      && q == if t < |all|
              then
                var known := p.conversations[all[t].uuid := all[t].updatedAt];
                p.(conversations := known, lastSync := now, retryCycles := 0)
              else if p.retryCycles + 1 >= MAX_RETRY_CYCLES
              then p.(lastSync := now, lastCookieMod := mod, retryCycles := 0)
              else p.(lastSync := now, retryCycles := p.retryCycles + 1)
  {
    hide Only, SyncUpTo, AllTiny, Triggered, IsStale;
    OnlyRun(all, t, p.conversations, disk, |all|);
  }

  // ---- exactly when every trigger is handled ----

  ghost predicate AreEnvs(envs: nat -> seq<ItemEnv>, all: seq<ConvSummary>) {
    forall n :: |envs(n)| == |all| && NoDeadline(envs(n))
  }

  /** From every state and disk, whatever items fail in cycles that complete, the trigger is handled at some time. */
  ghost predicate AlwaysHandled(all: seq<ConvSummary>, mod: string, now: string) {
    forall p: Persisted, disk: Disk, envs: nat -> seq<ItemEnv> ::
      AreEnvs(envs, all) ==> IsHandled(p, disk, mod, now, all, envs)
  }

  ghost predicate IsHandled(p: Persisted, disk: Disk, mod: string, now: string, all: seq<ConvSummary>,
          envs: nat -> seq<ItemEnv>)
    requires AreEnvs(envs, all)
  {
    exists n :: !Triggered(Iterate(p, disk, mod, now, all, envs, n).0, mod)
  }

  /** The two versions are answered in turn, and all else fails. */
  function InTurn(n: nat, i: nat, j: nat): (envs: nat -> seq<ItemEnv>)
    ensures forall k :: |envs(k)| == n
  {
    (k: nat) => Only(n, if k % 2 == 0 then i else j)
  }

  /** From the start, for as long as every cycle lists both versions. */
  lemma {:induction false} TwoVersionsStayArmed(all: seq<ConvSummary>, i: nat, j: nat, mod: string, now: string, n: nat)
    requires i < |all| && j < |all| && all[i].uuid == all[j].uuid && all[i].updatedAt != all[j].updatedAt && mod != ""
    ensures
      var (q, d) := Iterate(EMPTY, map[], mod, now, all, InTurn(|all|, i, j), n);
      && AllTiny(d) && q.lastCookieMod == "" && Triggered(q, mod)
      && q.conversations ==
           if n == 0 then map[]
           else map[all[i].uuid := (if n % 2 == 1 then all[i] else all[j]).updatedAt]
  {
    hide ChatCycle, AllTiny, Only;
    if n == 0 {
      NothingIsTiny();
    } else {
      TwoVersionsStayArmed(all, i, j, mod, now, n - 1);
      var (q, d) := Iterate(EMPTY, map[], mod, now, all, InTurn(|all|, i, j), n - 1);
      OnlyCycle(q, d, mod, now, all, if (n - 1) % 2 == 0 then i else j);
    }
  }

  lemma NothingIsTiny()
    ensures AllTiny(map[])
  {
  }

  /** In cycles that complete, every trigger is handled if and only if the listing names no conversation at two
  versions. One that it does name so can keep the trigger armed for as long as every cycle lists it so. */
  lemma AlwaysHandledExactly(all: seq<ConvSummary>, mod: string, now: string)
    requires mod != "" && now != ""
    ensures AlwaysHandled(all, mod, now) <==> VersionsAgree(all)
  {
    hide Triggered, Iterate, NoDeadline, Stale;
    if VersionsAgree(all) {
      forall p: Persisted, disk: Disk, envs: nat -> seq<ItemEnv> | AreEnvs(envs, all)
        ensures IsHandled(p, disk, mod, now, all, envs)
      {
        TriggerIsHandled(p, disk, mod, now, all, envs, 3 * Stale(all, p.conversations) + 3);
      }
    } else {
      var i, j :| 0 <= i < j < |all| && all[i].uuid == all[j].uuid && all[i].updatedAt != all[j].updatedAt;
      var envs := InTurn(|all|, i, j);
      forall n: nat ensures NoDeadline(envs(n)) {
        OnlyHasNoDeadline(|all|, if n % 2 == 0 then i else j);
      }
      assert AreEnvs(envs, all);
      forall n: nat ensures Triggered(Iterate(EMPTY, map[], mod, now, all, envs, n).0, mod) {
        TwoVersionsStayArmed(all, i, j, mod, now, n);
      }
      assert !IsHandled(EMPTY, map[], mod, now, all, envs);
    }
  }

  /** Such listings are real. If a conversation at the end of the first page changes, and another one is added,
  before the second page is read, the listing brings it at both versions. */
  lemma ListingWithTwoVersions(n: nat, org: string, before: seq<ConvSummary>, added: ConvSummary, changed: ConvSummary,
          mod: string, now: string)
    requires PAGE_LIMIT <= |before| < 2 * PAGE_LIMIT - 1 && mod != "" && now != ""
    requires changed.uuid == before[PAGE_LIMIT - 1].uuid && changed.updatedAt != before[PAGE_LIMIT - 1].updatedAt
    ensures
      var server := ListServer(org, ChangesAfter(n, before, [added] + before[PAGE_LIMIT - 1 := changed]));
      && EndsAfter(server, org, n, 2) && PageOf(server, org, n, 1).Some?
      && !AlwaysHandled(PagesUpTo(server, org, n, 2), mod, now)
  {
    hide AlwaysHandled, EndsAfter, ListServer, ChangesAfter, PageOf, PagesUpTo;
    var after := [added] + before[PAGE_LIMIT - 1 := changed];
    ChangingListIsMixed(n, before, after, org);
    var all := before[..PAGE_LIMIT] + after[PAGE_LIMIT..];
    assert all[PAGE_LIMIT - 1] == before[PAGE_LIMIT - 1] && all[PAGE_LIMIT] == after[PAGE_LIMIT] == changed;
    AlwaysHandledExactly(all, mod, now);
  }

  // ---- the bound is attained ----

  /** The state in which the first k conversations are recorded as listed. */
  function Recorded(all: seq<ConvSummary>, k: nat): (known: Known)
    requires k <= |all|
  {
    if k == 0 then map[] else Recorded(all, k - 1)[all[k - 1].uuid := all[k - 1].updatedAt]
  }

  lemma {:induction false} RecordedAreListed(all: seq<ConvSummary>, k: nat)
    requires DistinctUuids(all) && k <= |all|
    ensures forall u :: u in Recorded(all, k) ==> IsFrom(all, k, u)
    ensures forall j :: k <= j < |all| ==> IsStale(Recorded(all, k), all[j])
  {
    hide IsFrom, DistinctUuids;
    if k > 0 {
      RecordedAreListed(all, k - 1);
      IsFromStep(all, k);
    }
    forall j | k <= j < |all| ensures all[j].uuid !in Recorded(all, k) {
      if IsFrom(all, k, all[j].uuid) {
        NotFromLater(all, k, j);
      }
    }
  }

  lemma NotFromLater(all: seq<ConvSummary>, k: nat, j: nat)
    requires DistinctUuids(all) && k <= j < |all|
    ensures !IsFrom(all, k, all[j].uuid)
  {
  }

  lemma {:induction false} StaleBesideFirst(all: seq<ConvSummary>, i: nat)
    requires DistinctUuids(all) && i <= |all|
    ensures i > 0 ==> StaleUpTo(all, Recorded(all, 1), i) == i - 1
  {
    if i > 1 {
      StaleBesideFirst(all, i - 1);
      RecordedAreListed(all, 1);
    } else if i == 1 {
      assert Recorded(all, 1) == map[all[0].uuid := all[0].updatedAt];
    }
  }

  /** Two cycles in which everything fails, then one more conversation is answered; the first never is. */
  function Slowest(all: seq<ConvSummary>): (envs: nat -> seq<ItemEnv>)
    ensures forall k :: |envs(k)| == |all|
  {
    (k: nat) => Only(|all|, if k % 3 == 2 && k / 3 + 1 < |all| then k / 3 + 1 else |all|)
  }

  /** An earlier run has recorded the first conversation and handled an earlier trigger. */
  function SlowStart(all: seq<ConvSummary>, now: string, prev: string): (p: Persisted)
    requires |all| > 0
  {
    Persisted(Recorded(all, 1), now, prev, "", 0)
  }

  lemma {:induction false} SlowestRun(all: seq<ConvSummary>, mod: string, now: string, prev: string, n: nat)
    requires DistinctUuids(all) && |all| > 0 && mod != "" && prev != mod && n <= 3 * |all| - 1
    ensures
      var (q, d) := Iterate(SlowStart(all, now, prev), map[], mod, now, all, Slowest(all), n);
      && AllTiny(d) && q.lastCookieMod == prev && q.retryCycles == n % 3 && q.conversations == Recorded(all, n / 3 + 1)
  {
    hide ChatCycle, AllTiny, Only, DistinctUuids;
    if n == 0 {
      NothingIsTiny();
    } else {
      SlowestRun(all, mod, now, prev, n - 1);
      var (q, d) := Iterate(SlowStart(all, now, prev), map[], mod, now, all, Slowest(all), n - 1);
      var k := n - 1;
      RecordedAreListed(all, k / 3 + 1);
      assert k % 3 == 2 ==> k / 3 + 1 < |all|;
      OnlyCycle(q, d, mod, now, all, if k % 3 == 2 then k / 3 + 1 else |all|);
    }
  }

  lemma SlowestIsPlain(all: seq<ConvSummary>)
    ensures AreEnvs(Slowest(all), all)
    ensures |all| > 0 ==> Slowest(all)(3 * |all| - 1) == Only(|all|, |all|)
  {
    forall n: nat ensures NoDeadline(Slowest(all)(n)) {
      OnlyHasNoDeadline(|all|, if n % 3 == 2 && n / 3 + 1 < |all| then n / 3 + 1 else |all|);
    }
  }

  /** The third cycle in a row without an answer gives up the trigger. */
  lemma ThirdGivesUp(q: Persisted, d: Disk, mod: string, now: string, all: seq<ConvSummary>)
    requires AllTiny(d) && mod != "" && now != "" && |all| > 0 && q.lastCookieMod != mod && q.retryCycles == 2
    ensures Triggered(q, mod) && !Triggered(ChatCycle(q, d, mod, now, all, Only(|all|, |all|)).0, mod)
  {
    hide ChatCycle, Only, AllTiny;
    OnlyCycle(q, d, mod, now, all, |all|);
  }

  lemma SlowestAttains(all: seq<ConvSummary>, mod: string, now: string, prev: string)
    requires DistinctUuids(all) && |all| > 0 && mod != "" && now != "" && prev != mod
    ensures Triggered(Iterate(SlowStart(all, now, prev), map[], mod, now, all, Slowest(all), 3 * |all| - 1).0, mod)
    ensures !Triggered(Iterate(SlowStart(all, now, prev), map[], mod, now, all, Slowest(all), 3 * |all|).0, mod)
  {
    SlowestRun(all, mod, now, prev, 3 * |all| - 1);
    SlowestIsPlain(all);
    hide ChatCycle, SlowStart, DistinctUuids, Only, AreEnvs, Slowest, Triggered, Recorded, AllTiny;
    var (q, d) := Iterate(SlowStart(all, now, prev), map[], mod, now, all, Slowest(all), 3 * |all| - 1);
    ThirdGivesUp(q, d, mod, now, all);
  }

  /** No smaller bound would do: for every listing there are a state and environments in which the trigger is
  still armed one cycle before the bound, and handled at it. */
  lemma BoundIsAttained(all: seq<ConvSummary>, mod: string, now: string, prev: string)
    requires DistinctUuids(all) && |all| > 0 && mod != "" && now != "" && prev != mod
    ensures AreEnvs(Slowest(all), all)
    ensures 3 * Stale(all, SlowStart(all, now, prev).conversations) + 3 == 3 * |all|
    ensures Triggered(Iterate(SlowStart(all, now, prev), map[], mod, now, all, Slowest(all), 3 * |all| - 1).0, mod)
    ensures !Triggered(Iterate(SlowStart(all, now, prev), map[], mod, now, all, Slowest(all), 3 * |all|).0, mod)
  {
    StaleBesideFirst(all, |all|);
    SlowestIsPlain(all);
    SlowestAttains(all, mod, now, prev);
  }
}
