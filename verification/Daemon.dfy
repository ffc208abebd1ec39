/** The loops and the cycle as written (daemon.go: syncConversations, loadState, saveState, runCycle; cdp.go:
the loop of cdpHarvest), proved against Engine and Cycles. */
module Daemon {
  import opened Text
  import opened Markdown
  import opened Header
  import opened Filenames
  import opened Fetch
  import opened Integrity
  import opened Engine
  import opened Cycles
  import opened Surfaces
  import opened Serving

  /** syncState, changed in place by the loop. */
  class SyncState {
    var conversations: Known
    var lastSync: string
    var lastCookieMod: string
    var lastSurfaces: string
    var retryCycles: nat

    constructor (p: Persisted)
      ensures Value() == p
    {
      conversations, lastSync, lastCookieMod := p.conversations, p.lastSync, p.lastCookieMod;
      lastSurfaces, retryCycles := p.lastSurfaces, p.retryCycles;
    }

    function Value(): (r: Persisted)
      reads this
    {
      Persisted(conversations, lastSync, lastCookieMod, lastSurfaces, retryCycles)
    }
  }

  // ---- what a loop meets, item by item ----

  /** The two loops: the daemon's and the one-shot harvest's. */
  datatype Mode = Watch | OneShot

  /** A loop under way: what it has done, and how many requests and writes came before. */
  datatype Progress = Progress(run: Run, requests: nat, writes: nat)

  function Fetching(o: Outside, n: nat, uuid: string): (t: Try) {
    FetchConvBody(o.server, n, o.org, uuid, RETRY_BASE, VARIANT_GAP)
  }

  /** What an item meets, should it be asked for: the server's answer to a fetch of this very conversation with
  the next request, and the outcome of the next write. */
  function Meets(o: Outside, q: Progress, c: ConvSummary): (e: ItemEnv) {
    ItemEnv(Fetching(o, q.requests, c.uuid).outcome, o.writeOk(q.writes))
  }

  predicate Asks(mode: Mode, r: Run, c: ConvSummary) {
    match mode
    case Watch => Decide(r.known, r.disk, c) == ActionFetch
    case OneShot => !FileIsCurrent(r.disk, c)
  }

  predicate TriesToWrite(f: Fetched) {
    f.Got? && MarkdownOf(f.body) != ""
  }

  function ItemRun(mode: Mode, c: ConvSummary, e: ItemEnv, r: Run): (r': Run) {
    match mode
    case Watch => SyncItem(c, e, r)
    case OneShot => HarvestItem(c, e, r)
  }

  function Advance(mode: Mode, o: Outside, q: Progress, c: ConvSummary): (q': Progress) {
    var e := Meets(o, q, c);
    Progress(ItemRun(mode, c, e, q.run),
             q.requests + (if Asks(mode, q.run, c) then Fetching(o, q.requests, c.uuid).requests else 0),
             q.writes + (if Asks(mode, q.run, c) && TriesToWrite(e.fetched) then 1 else 0))
  }

  /** The loop after its first i items. */
  function ProgressAt(mode: Mode, o: Outside, all: seq<ConvSummary>, q0: Progress, i: nat): (q: Progress)
    requires i <= |all|
  {
    if i == 0 then q0
    else
      var q := ProgressAt(mode, o, all, q0, i - 1);
      if q.run.aborted then q else Advance(mode, o, q, all[i - 1])
  }

  /** What each item meets, or would. */
  function Met(mode: Mode, o: Outside, all: seq<ConvSummary>, q0: Progress): (envs: seq<ItemEnv>)
    ensures |envs| == |all|
  {
    seq(|all|, j requires 0 <= j < |all| => Meets(o, ProgressAt(mode, o, all, q0, j), all[j]))
  }

  lemma MetAt(mode: Mode, o: Outside, all: seq<ConvSummary>, q0: Progress, j: nat)
    requires j < |all|
    ensures Met(mode, o, all, q0)[j] == Meets(o, ProgressAt(mode, o, all, q0, j), all[j])
  {
    hide Meets, ProgressAt;
  }

  lemma AdvancedRun(mode: Mode, o: Outside, q: Progress, c: ConvSummary)
    ensures Advance(mode, o, q, c).run == ItemRun(mode, c, Meets(o, q, c), q.run)
  {
    hide ItemRun, Meets, Asks, Fetching, TriesToWrite;
  }

  lemma NextRun(mode: Mode, o: Outside, all: seq<ConvSummary>, q0: Progress, i: nat)
    requires i < |all|
    ensures
      var r := ProgressAt(mode, o, all, q0, i).run;
      ProgressAt(mode, o, all, q0, i + 1).run ==
        if r.aborted then r else ItemRun(mode, all[i], Met(mode, o, all, q0)[i], r)
  {
    MetAt(mode, o, all, q0, i);
    hide Met, Advance, ItemRun, Meets;
    AdvancedRun(mode, o, ProgressAt(mode, o, all, q0, i), all[i]);
  }

  /** The loop is the run of the Engine among what it meets. */
  lemma {:induction false} LoopIsSync(o: Outside, all: seq<ConvSummary>, q0: Progress, i: nat)
    requires i <= |all|
    ensures ProgressAt(Watch, o, all, q0, i).run == SyncUpTo(all, Met(Watch, o, all, q0), q0.run, i)
  {
    hide SyncItem, Met, Advance;
    if i > 0 {
      LoopIsSync(o, all, q0, i - 1);
      NextRun(Watch, o, all, q0, i - 1);
    }
  }

  lemma {:induction false} LoopIsHarvest(o: Outside, all: seq<ConvSummary>, q0: Progress, i: nat)
    requires i <= |all|
    ensures ProgressAt(OneShot, o, all, q0, i).run == HarvestUpTo(all, Met(OneShot, o, all, q0), q0.run, i)
  {
    hide HarvestItem, Met, Advance;
    if i > 0 {
      LoopIsHarvest(o, all, q0, i - 1);
      NextRun(OneShot, o, all, q0, i - 1);
    }
  }

  /** Never a rate-limited text and never an HTML page. */
  predicate IsClean(f: Fetched) {
    f.Got? ==> !IsRateLimited(f.body.text) && !LooksLikeChallenge(f.body.text)
  }

  lemma FetchingIsClean(o: Outside, n: nat, uuid: string)
    ensures IsClean(Fetching(o, n, uuid).outcome) && 1 <= Fetching(o, n, uuid).requests <= 15
  {
    FetchOutcome(o.server, n, o.org, uuid, RETRY_BASE, VARIANT_GAP);
  }

  /** A conversation costs at most fifteen requests and ninety-nine seconds of waiting. */
  lemma FetchingCost(o: Outside, n: nat, uuid: string)
    ensures 1 <= Fetching(o, n, uuid).requests <= 15 && Fetching(o, n, uuid).slept <= 99
  {
    hide FetchConvBody;
    FetchOutcome(o.server, n, o.org, uuid, RETRY_BASE, VARIANT_GAP);
  }

  /** An item adds to `gets` exactly if it is asked for. */
  lemma AskedItem(mode: Mode, c: ConvSummary, e: ItemEnv, r: Run)
    ensures ItemRun(mode, c, e, r).gets == if Asks(mode, r, c) then r.gets + [c.uuid] else r.gets
  {
    FetchingKind(r.known, r.disk, c, e);
    hide Decide, ConvFilename, Content, KindOf, FileIsCurrent, MarkdownOf, Utf8;
  }

  /** The cost of a run, and what it can meet: between one and fifteen requests for every conversation asked
  for, and never a rate-limited text or an HTML page. */
  lemma {:induction false} LoopCost(mode: Mode, o: Outside, all: seq<ConvSummary>, q0: Progress, i: nat)
    requires i <= |all|
    ensures
      var q := ProgressAt(mode, o, all, q0, i);
      && |q.run.gets| - |q0.run.gets| <= q.requests - q0.requests <= 15 * (|q.run.gets| - |q0.run.gets|)
      && forall j :: 0 <= j < i ==> IsClean(Met(mode, o, all, q0)[j].fetched)
  {
    hide Met, ItemRun, Asks, Fetching, IsClean;
    if i > 0 {
      LoopCost(mode, o, all, q0, i - 1);
      MetAt(mode, o, all, q0, i - 1);
      var q := ProgressAt(mode, o, all, q0, i - 1);
      FetchingIsClean(o, q.requests, all[i - 1].uuid);
      AskedItem(mode, all[i - 1], Meets(o, q, all[i - 1]), q.run);
    }
  }

  lemma {:induction false} AbortedStays(mode: Mode, o: Outside, all: seq<ConvSummary>, q0: Progress, i: nat, n: nat)
    requires i <= n <= |all| && ProgressAt(mode, o, all, q0, i).run.aborted
    ensures ProgressAt(mode, o, all, q0, n) == ProgressAt(mode, o, all, q0, i)
    decreases n
  {
    hide Advance;
    if i < n {
      AbortedStays(mode, o, all, q0, i, n - 1);
    }
  }

  lemma ProgressStarts(mode: Mode, o: Outside, all: seq<ConvSummary>, q0: Progress)
    ensures ProgressAt(mode, o, all, q0, 0) == q0
  {
  }

  lemma ProgressGoesOn(mode: Mode, o: Outside, all: seq<ConvSummary>, q0: Progress, i: nat)
    requires i < |all| && !ProgressAt(mode, o, all, q0, i).run.aborted
    ensures ProgressAt(mode, o, all, q0, i + 1) == Advance(mode, o, ProgressAt(mode, o, all, q0, i), all[i])
  {
    hide Advance;
  }

  /** What the state, the disk and the counters are after an item that is asked for, by what it met. */
  function Asked(r: Run, c: ConvSummary, f: Fetched, writeOk: bool, oneShot: bool): (r': Run) {
    var asked := r.(gets := r.gets + [c.uuid]);
    if f == Failed(DeadlineExceeded) then asked.(aborted := true)
    else if !TriesToWrite(f) || !writeOk then asked.(errN := r.errN + 1, failed := r.failed + {c.uuid})
    else
      var written := asked.(disk := r.disk[ConvFilename(c) := Utf8(MarkdownOf(f.body))]);
      if oneShot then written.(newN := r.newN + 1)
      else if c.uuid !in r.known then written.(known := r.known[c.uuid := c.updatedAt], newN := r.newN + 1)
      else if r.known[c.uuid] != c.updatedAt
      then written.(known := r.known[c.uuid := c.updatedAt], changedN := r.changedN + 1)
      else written.(known := r.known[c.uuid := c.updatedAt])
  }

  lemma WatchAdvances(o: Outside, q: Progress, c: ConvSummary)
    requires !q.run.aborted
    ensures
      var r, f := q.run, Fetching(o, q.requests, c.uuid);
      Advance(Watch, o, q, c) ==
        match Decide(r.known, r.disk, c)
        case ActionSkip => q
        case ActionSeed => q.(run := r.(known := r.known[c.uuid := c.updatedAt], seedN := r.seedN + 1))
        case ActionFetch => Progress(Asked(r, c, f.outcome, o.writeOk(q.writes), false), q.requests + f.requests,
                                     q.writes + if TriesToWrite(f.outcome) then 1 else 0)
  {
    hide Decide, ConvFilename, MarkdownOf, Utf8, Fetching;
  }

  lemma OneShotAdvances(o: Outside, q: Progress, c: ConvSummary)
    requires !q.run.aborted
    ensures
      var r, f := q.run, Fetching(o, q.requests, c.uuid);
      Advance(OneShot, o, q, c) ==
        if FileIsCurrent(r.disk, c) then q.(run := r.(seedN := r.seedN + 1))
        else Progress(Asked(r, c, f.outcome, o.writeOk(q.writes), true), q.requests + f.requests,
                      q.writes + if TriesToWrite(f.outcome) then 1 else 0)
  {
    hide FileIsCurrent, ConvFilename, MarkdownOf, Utf8, Fetching;
  }

  // ---- every file is its own conversation's ----

  /** The answer is one of the renderings that the store keeps of this conversation. */
  ghost predicate IsOwnAnswer(store: map<string, Renderings>, uuid: string, f: Fetched) {
    f.Got? ==> uuid in store && f.body in {store[uuid].full, store[uuid].withoutTools, store[uuid].branch}
  }

  /** From a server that reads the path, each item meets an answer of its own conversation. */
  lemma MetIsOwn(mode: Mode, o: Outside, all: seq<ConvSummary>, q0: Progress, store: map<string, Renderings>, j: nat)
    requires ServesStore(o.server, o.org, store) && j < |all| && '?' !in all[j].uuid
    ensures IsOwnAnswer(store, all[j].uuid, Met(mode, o, all, q0)[j].fetched)
  {
    hide ServesStore, FetchConvBody, ProgressAt;
    MetAt(mode, o, all, q0, j);
    OwnBodyIsFetched(o.server, o.org, store, ProgressAt(mode, o, all, q0, j).requests, all[j].uuid, RETRY_BASE,
                     VARIANT_GAP);
  }

  /** The file changed, and then to what is written for one of the renderings of this conversation. */
  ghost predicate IsOwnFile(store: map<string, Renderings>, c: ConvSummary, disk: Disk, disk': Disk) {
    At(disk', ConvFilename(c)) == At(disk, ConvFilename(c)) || exists b: Body ::
      IsOwnAnswer(store, c.uuid, Got(b)) && At(disk', ConvFilename(c)) == Some(Utf8(MarkdownOf(b)))
  }

  /** After a run, every file of a listed conversation is as it was or what is written for a rendering of this very
  conversation: no conversation is ever stored under another's name. */
  lemma {:induction false} FilesAreOwn(o: Outside, all: seq<ConvSummary>, q0: Progress, store: map<string, Renderings>,
          j: nat)
    requires ServesStore(o.server, o.org, store) && IsListing(all) && j < |all| && '?' !in all[j].uuid
    requires !ProgressAt(Watch, o, all, q0, |all|).run.aborted
    ensures IsOwnFile(store, all[j], q0.run.disk, ProgressAt(Watch, o, all, q0, |all|).run.disk)
  {
    hide ServesStore, ProgressAt, Met, IsOwnAnswer, SyncUpTo, KindOf, IsListing, ConvFilename, MarkdownOf, Utf8;
    var envs := Met(Watch, o, all, q0);
    MetIsOwn(Watch, o, all, q0, store, j);
    LoopIsSync(o, all, q0, |all|);
    LoopIsPointwise(all, envs, q0.run, |all|);
    var r := SyncUpTo(all, envs, q0.run, |all|);
    assert Settled(q0.run, r, all[j], envs[j], KindAt(all, envs, q0.run, j));
    WritesWhatWasGot(q0.run.known, q0.run.disk, all[j], envs[j]);
    if envs[j].fetched.Got? {
      assert envs[j].fetched == Got(envs[j].fetched.body);
    }
  }

  lemma WritesWhatWasGot(known: Known, disk: Disk, c: ConvSummary, e: ItemEnv)
    ensures Writes(KindOf(known, disk, c, e)) ==> e.fetched.Got? && Content(e) == Utf8(MarkdownOf(e.fetched.body))
  {
    hide Decide, MarkdownOf, Utf8;
  }

  /** Only a deadline of the session ends a loop early. */
  lemma {:induction false} OnlyTimeoutsAbort(mode: Mode, o: Outside, all: seq<ConvSummary>, q0: Progress, i: nat)
    requires i <= |all| && !q0.run.aborted && forall n: nat, path: string :: o.server(n, path) != TimedOut
    ensures !ProgressAt(mode, o, all, q0, i).run.aborted
  {
    hide Advance;
    if i > 0 {
      OnlyTimeoutsAbort(mode, o, all, q0, i - 1);
      ItemSurvives(mode, o, ProgressAt(mode, o, all, q0, i - 1), all[i - 1]);
    }
  }

  lemma ItemSurvives(mode: Mode, o: Outside, q: Progress, c: ConvSummary)
    requires !q.run.aborted && forall n: nat, path: string :: o.server(n, path) != TimedOut
    ensures !Advance(mode, o, q, c).run.aborted
  {
    hide FetchConvBody, NthAnswer, ConvPath, OpensWithAngle, ItemRun, TriesToWrite, Asks;
    FailureIsNamed(o.server, q.requests, o.org, c.uuid, RETRY_BASE, VARIANT_GAP);
    var f := FetchConvBody(o.server, q.requests, o.org, c.uuid, RETRY_BASE, VARIANT_GAP);
    if f.outcome != Failed(RateLimited) {
      AnswersAreServers(o.server, q.requests, ConvPath(o.org, c.uuid), f.requests - 1);
    }
    NoDeadlineNoEnd(mode, c, Meets(o, q, c), q.run);
  }

  lemma AnswersAreServers(server: Server, n: nat, base: string, k: nat)
    requires k < 15 && forall n: nat, path: string :: server(n, path) != TimedOut
    ensures NthAnswer(server, n, base, k) != TimedOut
  {
    hide Variant;
  }

  lemma NoDeadlineNoEnd(mode: Mode, c: ConvSummary, e: ItemEnv, r: Run)
    requires !r.aborted && e.fetched != Failed(DeadlineExceeded)
    ensures !ItemRun(mode, c, e, r).aborted
  {
    hide Decide, FileIsCurrent, ConvFilename, MarkdownOf, Utf8, Content;
  }

  // ---- the loops as written ----

  datatype Outcome = Deadline | Error | Written(manifestOK: bool)

  /** Fetch one conversation, render it and write it: what both loops do with an item they do not skip. What is
  written for it is what the server answered to a fetch of it. */
  method FetchAndWrite(session: Session, out: OutDir, c: ConvSummary) returns (o: Outcome)
    modifies session, out
    ensures
      var f := Fetching(Facing(session, out), old(session.requests), c.uuid);
      && session.requests == old(session.requests) + f.requests
      && (o == Deadline <==> f.outcome == Failed(DeadlineExceeded))
      && (o.Written? <==> TriesToWrite(f.outcome) && out.writeOk(old(out.writes)))
      && out.writes == old(out.writes) + (if TriesToWrite(f.outcome) then 1 else 0)
      && out.files == if o.Written? then old(out.files)[ConvFilename(c) := Utf8(MarkdownOf(f.outcome.body))]
                      else old(out.files)
    ensures o.Written? ==> o.manifestOK == out.saveOk(old(out.saves)) && out.saves == old(out.saves) + 1
    ensures !o.Written? ==> out.saves == old(out.saves)
    ensures out.manifestFile ==
      if o == Written(true)
      then Some(Load(old(out.manifestFile))[ConvFilename(c) := out.hash(out.files[ConvFilename(c)])])
      else old(out.manifestFile)
  {
    hide ConvFilename, MarkdownOf, Utf8, FetchConvBody;
    var body := session.FetchConv(c.uuid, RETRY_BASE, VARIANT_GAP);
    if body.Failed? {
      return if body.error == DeadlineExceeded then Deadline else Error;
    }
    var md := MarkdownOf(body.body);
    if md == "" {
      return Error;
    }
    var manifestOK, written := out.WriteMarkdown(ConvFilename(c), Utf8(md));
    o := if written then Written(manifestOK) else Error;
  }

  method SyncConversations(session: Session, out: OutDir, s: SyncState, all: seq<ConvSummary>)
    returns (newN: nat, changedN: nat, seedN: nat, errN: nat, deadline: bool)
    modifies session, out, s`conversations
    ensures
      var q0 := Progress(FreshRun(old(s.conversations), old(out.files)), old(session.requests), old(out.writes));
      var q := ProgressAt(Watch, Facing(session, out), all, q0, |all|);
      && s.conversations == q.run.known && out.files == q.run.disk
      && newN == q.run.newN && changedN == q.run.changedN && seedN == q.run.seedN && errN == q.run.errN
      && deadline == q.run.aborted && session.requests == q.requests && out.writes == q.writes
  {
    hide ProgressAt, Advance, ConvFilename, FileConvUpdatedAt, MarkdownOf, Utf8, Fetching, TriesToWrite, VersionBytes;
    newN, changedN, seedN, errN, deadline := 0, 0, 0, 0, false;
    ghost var o := Facing(session, out);
    ghost var q0 := Progress(FreshRun(s.conversations, out.files), session.requests, out.writes);
    ghost var q := q0;
    ProgressStarts(Watch, o, all, q0);
    for i := 0 to |all|
      invariant q == ProgressAt(Watch, o, all, q0, i) && !q.run.aborted
      invariant s.conversations == q.run.known && out.files == q.run.disk
      invariant newN == q.run.newN && changedN == q.run.changedN && seedN == q.run.seedN && errN == q.run.errN
      invariant session.requests == q.requests && out.writes == q.writes
      invariant !deadline
    {
      var c := all[i];
      var fname := ConvFilename(c);
      var fileOK := fname in out.files && |out.files[fname]| > MIN_FILE_BYTES;
      var seen := c.uuid in s.conversations;
      var known := if seen then s.conversations[c.uuid] else "";
      var fileUpdated := if fileOK then FileConvUpdatedAt(out.files[fname]) else [];
      var action := ConvAction(c, known, seen, fileOK, fileUpdated);
      assert action == Decide(q.run.known, q.run.disk, c);
      hide Decide, ConvAction;
      if action == ActionSeed {
        s.conversations := s.conversations[c.uuid := c.updatedAt];
        seedN := seedN + 1;
      } else if action == ActionFetch {
        var outcome := FetchAndWrite(session, out, c);
        match outcome {
          case Deadline => deadline := true;
          case Error => errN := errN + 1;
          case Written(_) =>
            if !seen {
              newN := newN + 1;
            } else if known != c.updatedAt {
              changedN := changedN + 1;
            }
            s.conversations := s.conversations[c.uuid := c.updatedAt];
        }
      }
      WatchAdvances(o, q, c);
      ProgressGoesOn(Watch, o, all, q0, i);
      q := Advance(Watch, o, q, c);
      if deadline {
        AbortedStays(Watch, o, all, q0, i + 1, |all|);
        return;
      }
    }
  }

  /** The loop of the one-shot harvest, which ends the program at a deadline. */
  /** How many of the saves i, i + 1, ..., n - 1 do not work. */
  function FailedSaves(saveOk: nat -> bool, i: nat, n: nat): (k: nat)
    requires i <= n
  {
    if i == n then 0 else FailedSaves(saveOk, i, n - 1) + if saveOk(n - 1) then 0 else 1
  }

  method CdpHarvest(session: Session, out: OutDir, all: seq<ConvSummary>)
    returns (newN: nat, skip: nat, errN: nat, manifestErrN: nat, deadline: bool)
    modifies session, out
    ensures out.saves == old(out.saves) + newN
    ensures manifestErrN == FailedSaves(out.saveOk, old(out.saves), out.saves)
    ensures
      var q0 := Progress(FreshRun(map[], old(out.files)), old(session.requests), old(out.writes));
      var q := ProgressAt(OneShot, Facing(session, out), all, q0, |all|);
      && out.files == q.run.disk && newN == q.run.newN && skip == q.run.seedN && errN == q.run.errN
      && deadline == q.run.aborted && session.requests == q.requests && out.writes == q.writes
  {
    hide ProgressAt, Advance, ConvFilename, MarkdownOf, Utf8, Fetching, TriesToWrite, FileIsCurrent;
    newN, skip, errN, manifestErrN, deadline := 0, 0, 0, 0, false;
    ghost var o := Facing(session, out);
    ghost var q0 := Progress(FreshRun(map[], out.files), session.requests, out.writes);
    ghost var q := q0;
    ProgressStarts(OneShot, o, all, q0);
    for i := 0 to |all|
      invariant q == ProgressAt(OneShot, o, all, q0, i) && !q.run.aborted
      invariant out.saves == old(out.saves) + newN
      invariant manifestErrN == FailedSaves(out.saveOk, old(out.saves), out.saves)
      invariant out.files == q.run.disk && newN == q.run.newN && skip == q.run.seedN && errN == q.run.errN
      invariant session.requests == q.requests && out.writes == q.writes
      invariant !deadline
    {
      var c := all[i];
      if FileIsCurrent(out.files, c) {
        skip := skip + 1;
      } else {
        var outcome := FetchAndWrite(session, out, c);
        match outcome {
          case Deadline => deadline := true;
          case Error => errN := errN + 1;
          case Written(manifestOK) =>
            if !manifestOK {
              manifestErrN := manifestErrN + 1;
            }
            newN := newN + 1;
        }
      }
      OneShotAdvances(o, q, c);
      ProgressGoesOn(OneShot, o, all, q0, i);
      q := Advance(OneShot, o, q, c);
      if deadline {
        AbortedStays(OneShot, o, all, q0, i + 1, |all|);
        return;
      }
    }
  }

  // ---- the state file ----

  function Stored(content: Option<Persisted>): (p: Persisted) {
    match content case None => EMPTY case Some(p) => p
  }

  /** None: missing or corrupt. Replaced by an atomic rename, or not at all: whether the k-th save works is up to
  the file system. */
  class StateFile {
    const saveOk: nat -> bool
    var saves: nat
    var content: Option<Persisted>

    constructor (saveOk: nat -> bool, content: Option<Persisted>)
      ensures this.saveOk == saveOk && saves == 0 && this.content == content
    {
      this.saveOk, this.saves, this.content := saveOk, 0, content;
    }

    method LoadState() returns (s: SyncState)
      ensures fresh(s) && s.Value() == Stored(content)
    {
      s := new SyncState(Stored(content));
    }

    method SaveState(s: SyncState) returns (ok: bool)
      modifies this
      ensures ok == saveOk(old(saves)) && saves == old(saves) + 1
      ensures content == if ok then Some(s.Value()) else old(content)
    {
      ok := saveOk(saves);
      saves := saves + 1;
      if ok {
        content := Some(s.Value());
      }
    }
  }

  // ---- one cycle ----

  /** The pages that a listing takes which starts with request n and ends with page `stop` at the latest. */
  function PagesFrom(o: Outside, n: nat, p: nat, stop: nat): (pages: nat)
    requires p <= stop && IsLastPage(o.server, o.org, n, stop)
    decreases stop - p
  {
    if IsLastPage(o.server, o.org, n, p) then p + 1 else PagesFrom(o, n, p + 1, stop)
  }

  lemma {:induction false} PagesAreUnique(o: Outside, n: nat, p: nat, stop: nat, pages: nat)
    requires p <= stop && IsLastPage(o.server, o.org, n, stop) && EndsAfter(o.server, o.org, n, pages) && p < pages
    ensures PagesFrom(o, n, p, stop) == pages
    decreases stop - p
  {
    hide IsLastPage;
    if p + 1 < pages {
      PagesAreUnique(o, n, p + 1, stop, pages);
    }
  }

  /** What listAllConversations brings, starting with request n. */
  function Listed(o: Outside, n: nat, stop: nat): (all: Option<seq<ConvSummary>>)
    requires IsLastPage(o.server, o.org, n, stop)
  {
    var pages := PagesFrom(o, n, 0, stop);
    if pages > 0 && PageOf(o.server, o.org, n, pages - 1).Some?
    then Some(PagesUpTo(o.server, o.org, n, pages))
    else None
  }

  /** The number of requests after it. */
  function AfterListing(o: Outside, n: nat, stop: nat): (n': nat)
    requires IsLastPage(o.server, o.org, n, stop)
  {
    PageStart(o.server, o.org, n, PagesFrom(o, n, 0, stop))
  }

  /** While the server serves one list, the listing is that list or an error. */
  lemma ListedIsServed(o: Outside, n: nat, stop: nat, list: seq<ConvSummary>)
    requires IsLastPage(o.server, o.org, n, stop) && PagesByOffset(o.server, o.org, list)
    ensures Listed(o, n, stop) in {None, Some(list)}
  {
    var pages := PagesFrom(o, n, 0, stop);
    PagesEnd(o, n, 0, stop);
    hide PagesByOffset, PageOf, PagesUpTo, IsLastPage;
    FixedListIsListed(o.server, o.org, n, list, pages);
  }

  lemma {:induction false} PagesEnd(o: Outside, n: nat, p: nat, stop: nat)
    requires p <= stop && IsLastPage(o.server, o.org, n, stop)
    requires forall q: nat :: q < p ==> !IsLastPage(o.server, o.org, n, q)
    ensures EndsAfter(o.server, o.org, n, PagesFrom(o, n, p, stop))
    decreases stop - p
  {
    hide IsLastPage;
    if !IsLastPage(o.server, o.org, n, p) {
      PagesEnd(o, n, p + 1, stop);
    }
  }

  /** `conn` is None if no session could be opened or no organization is named. */
  method HarvestOnce(conn: Option<Session>, ghost stop: nat, out: OutDir, s: SyncState)
    returns (newN: nat, changedN: nat, seedN: nat, errN: nat, err: bool)
    requires conn.Some? ==> IsLastPage(conn.value.server, conn.value.org, conn.value.requests, stop)
    modifies out, s`conversations, if conn.Some? then {conn.value} else {}
    ensures conn.None? || Listed(Facing(conn.value, out), old(conn.value.requests), stop).None? ==>
      && err && out.files == old(out.files) && out.writes == old(out.writes)
      && s.conversations == old(s.conversations)
    ensures conn.Some? && Listed(Facing(conn.value, out), old(conn.value.requests), stop).Some? ==>
      var o, n := Facing(conn.value, out), old(conn.value.requests);
      var all := Listed(o, n, stop).value;
      var q0 := Progress(FreshRun(old(s.conversations), old(out.files)), AfterListing(o, n, stop), old(out.writes));
      var q := ProgressAt(Watch, o, all, q0, |all|);
      && err == q.run.aborted && out.files == q.run.disk && s.conversations == q.run.known && out.writes == q.writes
      && newN == q.run.newN && changedN == q.run.changedN && seedN == q.run.seedN && errN == q.run.errN
  {
    hide ProgressAt, IsLastPage, PageOf, PagesUpTo, PageStart, PagesFrom;
    newN, changedN, seedN, errN, err := 0, 0, 0, 0, true;
    if conn.None? {
      return;
    }
    ghost var n := conn.value.requests;
    var listing, pages := ListAllConversations(conn.value, stop);
    PagesAreUnique(Facing(conn.value, out), n, 0, stop, pages);
    if listing.None? {
      return;
    }
    newN, changedN, seedN, errN, err := SyncConversations(conn.value, out, s, listing.value);
  }

  /** What is in the state file and in the directory, and how many saves and writes there were. */
  datatype Stand = Stand(state: Persisted, disk: Disk, saves: nat, writes: nat)

  function StandOf(out: OutDir, st: StateFile): (d: Stand)
    reads out, st
  {
    Stand(Stored(st.content), out.files, st.saves, out.writes)
  }

  /** The chat half of a cycle in an open session, starting with request n. */
  function ChatHalf(o: Outside, saveOk: nat -> bool, n: nat, stop: nat, d: Stand, mod: string, now: string): (d': Stand)
    requires IsLastPage(o.server, o.org, n, stop)
  {
    if !Triggered(d.state, mod) then d
    else
      match Listed(o, n, stop)
      case None => d
      case Some(all) => SyncHalf(o, saveOk, AfterListing(o, n, stop), d, mod, now, all)
  }

  /** What is left of it once the conversations are listed. */
  function SyncHalf(o: Outside, saveOk: nat -> bool, n: nat, d: Stand, mod: string, now: string, all: seq<ConvSummary>)
    : (d': Stand)
  {
    var q := ProgressAt(Watch, o, all, Progress(FreshRun(d.state.conversations, d.disk), n, d.writes), |all|);
    if q.run.aborted then d.(disk := q.run.disk, writes := q.writes)
    else Stand(if saveOk(d.saves) then AfterRun(d.state, mod, now, q.run) else d.state,
               q.run.disk, d.saves + 1, q.writes)
  }

  /** What the cycle meets, in the terms of Cycles. */
  ghost function WeatherOf(o: Outside, saveOk: nat -> bool, n: nat, d: Stand, all: seq<ConvSummary>): (x: Weather) {
    Weather(true, Met(Watch, o, all, Progress(FreshRun(d.state.conversations, d.disk), n, d.writes)), saveOk(d.saves))
  }

  /** The chat half is one of the cycles of Cycles among what it meets. */
  lemma ChatHalfIsCycle(o: Outside, saveOk: nat -> bool, n: nat, stop: nat, d: Stand, mod: string, now: string)
    requires IsLastPage(o.server, o.org, n, stop)
    ensures
      var d' := ChatHalf(o, saveOk, n, stop, d, mod, now);
      match Listed(o, n, stop)
      case None => d' == d
      case Some(all) =>
        (d'.state, d'.disk) ==
          AnyCycle(d.state, d.disk, mod, now, all, WeatherOf(o, saveOk, AfterListing(o, n, stop), d, all))
  {
    hide ProgressAt, SyncUpTo, CookieWatermark, Triggered, Listed, AfterListing, IsLastPage;
    match Listed(o, n, stop)
    case None =>
    case Some(all) =>
      LoopIsSync(o, all, Progress(FreshRun(d.state.conversations, d.disk), AfterListing(o, n, stop), d.writes), |all|);
  }

  const SURFACES_REFRESH_EVERY: nat := 24 * 3600

  /** `age` says how many seconds ago a recorded time was, if it can be parsed. */
  predicate SurfacesAreDue(lastSurfaces: string, age: string -> Option<nat>) {
    lastSurfaces == "" || age(lastSurfaces).None? || age(lastSurfaces).value >= SURFACES_REFRESH_EVERY
  }

  /** Where the state file is missing or corrupt, everything starts over: no conversation is known, both halves run, and
  nothing has been counted. */
  lemma LostStateStartsOver(mod: string, age: string -> Option<nat>, disk: Disk, c: ConvSummary)
    ensures
      var p := Stored(None);
      && Triggered(p, mod) && SurfacesAreDue(p.lastSurfaces, age) && p.retryCycles == 0
      && Decide(p.conversations, disk, c) != ActionSkip
  {
    hide ConvFilename, FileConvUpdatedAt, VersionBytes;
  }

  /** With a clock that reads recorded times back: one day, to the second, and at once where there is no such time. */
  lemma RefreshIsDaily(age: string -> Option<nat>, stamp: nat -> string, t: nat, now: nat, other: string)
    requires t <= now && stamp(t) != "" && age(stamp(t)) == Some(now - t)
    ensures SurfacesAreDue(stamp(t), age) <==> now >= t + 86400
    ensures SurfacesAreDue("", age) && (age(other).None? ==> SurfacesAreDue(other, age))
  {
  }

  /** The surfaces half of a cycle in an open session, if it is due: all chat fields stay, and the time moves only
  after a refresh without errors. */
  function SurfacesHalf(o: Outside, dec: Decoder, saveOk: nat -> bool, n: nat, d: Stand, now: string): (d': Stand) {
    var r := Refresh(o, dec, now, d.disk, n, d.writes);
    if !r.ok then d.(disk := r.files, writes := r.writes)
    else Stand(if saveOk(d.saves) then d.state.(lastSurfaces := now) else d.state, r.files, d.saves + 1, r.writes)
  }

  method RunChatHalf(mod: string, now: string, conn: Option<Session>, ghost stop: nat, out: OutDir, st: StateFile)
    requires conn.Some? ==> IsLastPage(conn.value.server, conn.value.org, conn.value.requests, stop)
    modifies out, st, if conn.Some? then {conn.value} else {}
    ensures StandOf(out, st) ==
      if conn.Some?
      then ChatHalf(Facing(conn.value, out), st.saveOk, old(conn.value.requests), stop, old(StandOf(out, st)), mod, now)
      else old(StandOf(out, st))
  {
    hide ProgressAt, CookieWatermark, Listed, AfterListing, IsLastPage;
    var s := st.LoadState();
    var activity := mod != "" && mod != s.lastCookieMod;
    var first := s.lastSync == "";
    if activity || first {
      var newN, changedN, seedN, errN, err := HarvestOnce(conn, stop, out, s);
      if !err {
        s.lastSync := now;
        var (watermark, retries) := CookieWatermark(mod, s.lastCookieMod, newN + changedN > 0, errN, s.retryCycles);
        s.lastCookieMod, s.retryCycles := watermark, retries;
        var ok := st.SaveState(s);
      }
    }
  }

  method RunSurfacesHalf(now: string, age: string -> Option<nat>, conn: Option<Session>, dec: Decoder, out: OutDir,
          st: StateFile)
    modifies out, st, if conn.Some? then {conn.value} else {}
    ensures StandOf(out, st) ==
      if conn.Some? && SurfacesAreDue(old(StandOf(out, st)).state.lastSurfaces, age)
      then SurfacesHalf(Facing(conn.value, out), dec, st.saveOk, old(conn.value.requests), old(StandOf(out, st)), now)
      else old(StandOf(out, st))
  {
    hide Refresh;
    var s := st.LoadState();
    if SurfacesAreDue(s.lastSurfaces, age) {
      var done := RefreshSurfaces(conn, out, dec, now);
      if done {
        s.lastSurfaces := now;
        var saved := st.SaveState(s);
      }
    }
  }

  /** One cycle: nothing while Desktop runs, else the chat half and then the surfaces half, each with a session of
  its own and the second on the state that the first left in the file. */
  method RunCycle(desktopUp: bool, mod: string, now: string, conn: Option<Session>, ghost stop: nat,
                  later: string, age: string -> Option<nat>, conn2: Option<Session>, dec: Decoder, out: OutDir,
                  st: StateFile)
    requires conn.Some? && conn2.Some? ==> conn.value != conn2.value
    requires conn.Some? ==> IsLastPage(conn.value.server, conn.value.org, conn.value.requests, stop)
    modifies out, st, if conn.Some? then {conn.value} else {}, if conn2.Some? then {conn2.value} else {}
    ensures desktopUp ==> StandOf(out, st) == old(StandOf(out, st))
    ensures !desktopUp ==>
      var d :=
        if conn.Some?
        then
          ChatHalf(Facing(conn.value, out), st.saveOk, old(conn.value.requests), stop, old(StandOf(out, st)), mod,
                   now)
        else old(StandOf(out, st));
      StandOf(out, st) ==
        if conn2.Some? && SurfacesAreDue(d.state.lastSurfaces, age)
        then SurfacesHalf(Facing(conn2.value, out), dec, st.saveOk, old(conn2.value.requests), d, later)
        else d
  {
    hide ChatHalf, SurfacesHalf, SurfacesAreDue, IsLastPage;
    if desktopUp {
      return;
    }
    RunChatHalf(mod, now, conn, stop, out, st);
    RunSurfacesHalf(later, age, conn2, dec, out, st);
  }

  // ---- what a cycle keeps ----

  /** The listing failed, or a deadline ended the loop. */
  ghost predicate EndsHard(o: Outside, n: nat, stop: nat, d: Stand)
    requires IsLastPage(o.server, o.org, n, stop)
  {
    match Listed(o, n, stop)
    case None => true
    case Some(all) =>
      var q0 := Progress(FreshRun(d.state.conversations, d.disk), AfterListing(o, n, stop), d.writes);
      ProgressAt(Watch, o, all, q0, |all|).run.aborted
  }

  /** A cycle whose chat half ends in a hard error keeps every chat field and every file written before the error,
  and stays triggered, whatever its surfaces half does. */
  lemma HardErrorKeepsChat(o: Outside, saveOk: nat -> bool, n: nat, stop: nat, d: Stand, mod: string, now: string,
          o2: Outside, dec: Decoder, n2: nat, later: string)
    requires IsLastPage(o.server, o.org, n, stop) && EndsHard(o, n, stop, d) && Triggered(d.state, mod)
    ensures
      var d1 := ChatHalf(o, saveOk, n, stop, d, mod, now);
      var d2 := SurfacesHalf(o2, dec, saveOk, n2, d1, later);
      && d1.state == d.state
      && d2.state.(lastSurfaces := d.state.lastSurfaces) == d.state && Triggered(d2.state, mod)
      && OnlySurfaceFiles(d1.disk, d2.disk)
  {
    var d1 := ChatHalf(o, saveOk, n, stop, d, mod, now);
    RefreshIsComplete(o2, dec, later, d1.disk, n2, d1.writes);
    hide ProgressAt, Refresh, OnlySurfaceFiles, IsComplete, MemoryIsKept, Listed, AfterListing, IsLastPage;
  }

  /** The surfaces half changes no chat field and no file of a conversation, and moves its time only with every
  document of every project and the memory on disk. */
  lemma SurfacesHalfIsHonest(o: Outside, dec: Decoder, saveOk: nat -> bool, n: nat, d: Stand, now: string)
    ensures
      var d' := SurfacesHalf(o, dec, saveOk, n, d, now);
      && d'.state.(lastSurfaces := d.state.lastSurfaces) == d.state && OnlySurfaceFiles(d.disk, d'.disk)
      && (d'.state.lastSurfaces != d.state.lastSurfaces ==>
            && d'.state.lastSurfaces == now && IsComplete(o, dec, n, d'.disk)
            && MemoryIsKept(o, dec, now, ProjectHarvest(o, dec, d.disk, n, d.writes).requests, d'.disk))
  {
    RefreshIsComplete(o, dec, now, d.disk, n, d.writes);
    hide Refresh, OnlySurfaceFiles, IsComplete, MemoryIsKept, ProjectHarvest;
  }
}
