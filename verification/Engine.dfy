/** The decision for one conversation and the loop over a listing (daemon.go: convAction,
syncConversations; cdp.go: fileIsCurrent, the loop of cdpHarvest). */
module Engine {
  import opened Text
  import opened Markdown
  import opened Header
  import opened Filenames
  import opened Fetch

  type Known = map<string, string>

  type Disk = map<string, Bytes>

  const MIN_FILE_BYTES := 100

  // ---- one decision ----

  datatype Action = ActionFetch | ActionSkip | ActionSeed

  function ConvAction(c: ConvSummary, known: string, seen: bool, fileOK: bool, fileUpdated: Bytes): (r: Action) {
    if seen && known == c.updatedAt && fileOK && fileUpdated == VersionBytes(c.updatedAt) then ActionSkip
    else if !seen && fileOK && fileUpdated == VersionBytes(c.updatedAt) then ActionSeed
    else ActionFetch
  }

  /** The action that the loop takes for `c`, given the state and the disk. */
  function Decide(known: Known, disk: Disk, c: ConvSummary): (r: Action) {
    var name := ConvFilename(c);
    var fileOK := name in disk && |disk[name]| > MIN_FILE_BYTES;
    ConvAction(c, if c.uuid in known then known[c.uuid] else "", c.uuid in known, fileOK,
               if fileOK then FileConvUpdatedAt(disk[name]) else [])
  }

  /** A file that counts as an export of the given version. */
  predicate IsFresh(file: Bytes, updatedAt: string) {
    |file| > MIN_FILE_BYTES && FileConvUpdatedAt(file) == VersionBytes(updatedAt)
  }

  /** The one-shot harvest's rule. */
  predicate FileIsCurrent(disk: Disk, c: ConvSummary) {
    ConvFilename(c) in disk && IsFresh(disk[ConvFilename(c)], c.updatedAt)
  }

  /** A file of a hundred bytes or less is never trusted, whatever its header says. */
  lemma TinyIsDistrusted(disk: Disk, c: ConvSummary)
    requires ConvFilename(c) in disk && |disk[ConvFilename(c)]| <= 100
    ensures !FileIsCurrent(disk, c)
  {
    hide ConvFilename, FileConvUpdatedAt;
  }

  /** The two freshness rules agree: the daemon fetches a conversation that the one-shot harvest would
  skip only if the state records another version of it. */
  lemma OneFreshnessRule(known: Known, disk: Disk, c: ConvSummary)
    ensures Decide(known, disk, c) != ActionFetch <==>
      FileIsCurrent(disk, c) && (c.uuid in known ==> known[c.uuid] == c.updatedAt)
    ensures Decide(known, disk, c) == ActionSeed <==> FileIsCurrent(disk, c) && c.uuid !in known
  {
  }

  // ---- one item ----

  /** What the environment does for one item, should it come to that. */
  datatype ItemEnv = ItemEnv(fetched: Fetched, writeOk: bool)

  /** What the loop does with an item. Healed: fetched and written although the state already had the
  listed version, which does not count as progress. */
  datatype Kind = Skipped | Seeded | New | Changed | Healed | Errored | Aborted

  predicate Fetches(k: Kind) {
    k != Skipped && k != Seeded
  }

  predicate Writes(k: Kind) {
    k == New || k == Changed || k == Healed
  }

  predicate Records(k: Kind) {
    Writes(k) || k == Seeded
  }

  function KindOf(known: Known, disk: Disk, c: ConvSummary, e: ItemEnv): (r: Kind) {
    match Decide(known, disk, c)
    case ActionSkip => Skipped
    case ActionSeed => Seeded
    case ActionFetch =>
      match e.fetched
      case Failed(err) => if err == DeadlineExceeded then Aborted else Errored
      case Got(body) =>
        if MarkdownOf(body) == "" || !e.writeOk then Errored
        else if c.uuid !in known then New
        else if known[c.uuid] != c.updatedAt then Changed
        else Healed
  }

  function Content(e: ItemEnv): (b: Bytes) {
    match e.fetched
    case Got(body) => Utf8(MarkdownOf(body))
    case Failed(_) => []
  }

  /** The state, the disk and the counters of a run. `failed` and `gets` record which conversations were
  error items and which were asked for. */
  datatype Run = Run(known: Known, disk: Disk, newN: nat, changedN: nat, seedN: nat, errN: nat,
                     failed: set<string>, gets: seq<string>, aborted: bool)

  function FreshRun(known: Known, disk: Disk): (r: Run) {
    Run(known, disk, 0, 0, 0, 0, {}, [], false)
  }

  function SyncItem(c: ConvSummary, e: ItemEnv, r: Run): (res: Run) {
    var k := KindOf(r.known, r.disk, c, e);
    Run(if Records(k) then r.known[c.uuid := c.updatedAt] else r.known,
        if Writes(k) then r.disk[ConvFilename(c) := Content(e)] else r.disk,
        r.newN + (if k == New then 1 else 0),
        r.changedN + (if k == Changed then 1 else 0),
        r.seedN + (if k == Seeded then 1 else 0),
        r.errN + (if k == Errored then 1 else 0),
        if k == Errored then r.failed + {c.uuid} else r.failed,
        if Fetches(k) then r.gets + [c.uuid] else r.gets,
        k == Aborted)
  }

  /** The loop after its first i items; a deadline ends it. */
  function SyncUpTo(all: seq<ConvSummary>, envs: seq<ItemEnv>, r0: Run, i: nat): (res: Run)
    requires i <= |all| && |envs| == |all|
  {
    if i == 0 then r0
    else
      var r := SyncUpTo(all, envs, r0, i - 1);
      if r.aborted then r else SyncItem(all[i - 1], envs[i - 1], r)
  }

  function Sync(all: seq<ConvSummary>, envs: seq<ItemEnv>, known: Known, disk: Disk): (r: Run)
    requires |envs| == |all|
  {
    SyncUpTo(all, envs, FreshRun(known, disk), |all|)
  }

  /** Only the environment of the items already done matters. */
  lemma {:induction false} LaterEnvsDoNotMatter(all: seq<ConvSummary>, envs: seq<ItemEnv>, envs': seq<ItemEnv>,
          r0: Run, i: nat)
    requires i <= |all| == |envs| == |envs'| && forall j :: 0 <= j < i ==> envs[j] == envs'[j]
    ensures SyncUpTo(all, envs, r0, i) == SyncUpTo(all, envs', r0, i)
  {
    hide SyncItem;
    if i > 0 {
      LaterEnvsDoNotMatter(all, envs, envs', r0, i - 1);
    }
  }

  lemma RunGoesOn(all: seq<ConvSummary>, envs: seq<ItemEnv>, r0: Run, i: nat, e: ItemEnv)
    requires i < |all| == |envs| && !SyncUpTo(all, envs, r0, i).aborted
    ensures SyncUpTo(all, envs[i := e], r0, i + 1) == SyncItem(all[i], e, SyncUpTo(all, envs, r0, i))
  {
    hide SyncItem;
    LaterEnvsDoNotMatter(all, envs, envs[i := e], r0, i);
  }

  // ---- every item is decided on its own ----

  /** Listings as the server intends them: no conversation twice, no two files with one name. */
  ghost predicate IsListing(all: seq<ConvSummary>) {
    DistinctUuids(all) && DistinctFiles(all)
  }

  ghost predicate DistinctUuids(all: seq<ConvSummary>) {
    forall i, j :: 0 <= i < j < |all| ==> all[i].uuid != all[j].uuid
  }

  ghost predicate DistinctFiles(all: seq<ConvSummary>) {
    forall i, j :: 0 <= i < j < |all| ==> ConvFilename(all[i]) != ConvFilename(all[j])
  }

  ghost predicate SameOn(known: Known, disk: Disk, known': Known, disk': Disk, c: ConvSummary) {
    At(known, c.uuid) == At(known', c.uuid) && At(disk, ConvFilename(c)) == At(disk', ConvFilename(c))
  }

  lemma KindDependsOnItem(known: Known, disk: Disk, known': Known, disk': Disk, c: ConvSummary, e: ItemEnv)
    requires SameOn(known, disk, known', disk', c)
    ensures KindOf(known, disk, c, e) == KindOf(known', disk', c, e)
  {
  }

  /** What an item of kind k leaves at its own entry and its own file. */
  ghost predicate Settled(r0: Run, r: Run, c: ConvSummary, e: ItemEnv, k: Kind) {
    && At(r.known, c.uuid) == (if Records(k) then Some(c.updatedAt) else At(r0.known, c.uuid))
    && At(r.disk, ConvFilename(c)) == (if Writes(k) then Some(Content(e)) else At(r0.disk, ConvFilename(c)))
    && (c.uuid in r.failed <==> c.uuid in r0.failed || k == Errored)
    && (c.uuid in r.gets <==> c.uuid in r0.gets || Fetches(k))
  }

  ghost predicate Untouched(r0: Run, r: Run, c: ConvSummary) {
    && SameOn(r0.known, r0.disk, r.known, r.disk, c)
    && (c.uuid in r.failed <==> c.uuid in r0.failed)
    && (c.uuid in r.gets <==> c.uuid in r0.gets)
  }

  function KindAt(all: seq<ConvSummary>, envs: seq<ItemEnv>, r0: Run, j: nat): (r: Kind)
    requires j < |all| == |envs|
  {
    KindOf(r0.known, r0.disk, all[j], envs[j])
  }

  ghost predicate Pointwise(all: seq<ConvSummary>, envs: seq<ItemEnv>, r0: Run, r: Run, i: nat)
    requires i <= |all| == |envs|
  {
    && (forall j :: 0 <= j < i ==> Settled(r0, r, all[j], envs[j], KindAt(all, envs, r0, j)))
    && (forall j :: i <= j < |all| ==> Untouched(r0, r, all[j]))
  }

  lemma ItemSettles(c: ConvSummary, e: ItemEnv, r0: Run, r: Run)
    requires Untouched(r0, r, c)
    ensures Settled(r0, SyncItem(c, e, r), c, e, KindOf(r0.known, r0.disk, c, e))
    ensures KindOf(r.known, r.disk, c, e) == KindOf(r0.known, r0.disk, c, e)
  {
    KindDependsOnItem(r.known, r.disk, r0.known, r0.disk, c, e);
    hide KindOf, ConvFilename, Content;
  }

  lemma ItemLeavesOthers(c: ConvSummary, e: ItemEnv, r: Run, d: ConvSummary)
    requires d.uuid != c.uuid && ConvFilename(d) != ConvFilename(c)
    ensures Untouched(r, SyncItem(c, e, r), d)
  {
    hide KindOf, ConvFilename, Content;
  }

  lemma SettledThrough(r0: Run, r: Run, r': Run, c: ConvSummary, e: ItemEnv, k: Kind)
    requires Settled(r0, r, c, e, k) && Untouched(r, r', c)
    ensures Settled(r0, r', c, e, k)
  {
  }

  lemma UntouchedSelf(r: Run, c: ConvSummary)
    ensures Untouched(r, r, c)
  {
  }

  lemma UntouchedThrough(r0: Run, r: Run, r': Run, c: ConvSummary)
    requires Untouched(r0, r, c) && Untouched(r, r', c)
    ensures Untouched(r0, r', c)
  {
  }

  lemma DistinctAt(all: seq<ConvSummary>, i: nat, j: nat)
    requires IsListing(all) && i < |all| && j < |all| && i != j
    ensures all[i].uuid != all[j].uuid && ConvFilename(all[i]) != ConvFilename(all[j])
  {
  }

  lemma {:induction false} PointwiseStep(all: seq<ConvSummary>, envs: seq<ItemEnv>, r0: Run, r: Run, n: nat)
    requires IsListing(all) && n < |all| == |envs| && Pointwise(all, envs, r0, r, n)
    ensures Pointwise(all, envs, r0, SyncItem(all[n], envs[n], r), n + 1)
    ensures SyncItem(all[n], envs[n], r).aborted <==> KindAt(all, envs, r0, n) == Aborted
  {
    var r' := SyncItem(all[n], envs[n], r);
    ItemSettles(all[n], envs[n], r0, r);
    assert r'.aborted <==> KindAt(all, envs, r0, n) == Aborted;
    hide KindOf, ConvFilename, Content, Settled, Untouched, SyncItem, KindAt, IsListing;
    forall j | 0 <= j < n + 1 ensures Settled(r0, r', all[j], envs[j], KindAt(all, envs, r0, j)) {
      if j < n {
        DistinctAt(all, j, n);
        ItemLeavesOthers(all[n], envs[n], r, all[j]);
        SettledThrough(r0, r, r', all[j], envs[j], KindAt(all, envs, r0, j));
      }
    }
    forall j | n + 1 <= j < |all| ensures Untouched(r0, r', all[j]) {
      DistinctAt(all, j, n);
      ItemLeavesOthers(all[n], envs[n], r, all[j]);
      UntouchedThrough(r0, r, r', all[j]);
    }
  }

  /** The loop decides each item on what it started from: earlier items never change the fate of later
  ones. */
  lemma {:induction false} LoopIsPointwise(all: seq<ConvSummary>, envs: seq<ItemEnv>, r0: Run, i: nat)
    requires IsListing(all) && i <= |all| == |envs|
    requires !SyncUpTo(all, envs, r0, i).aborted
    ensures Pointwise(all, envs, r0, SyncUpTo(all, envs, r0, i), i)
    ensures forall j :: 0 <= j < i ==> KindAt(all, envs, r0, j) != Aborted
  {
    hide SyncItem, KindAt, Settled, Untouched, IsListing;
    if i == 0 {
      forall j | 0 <= j < |all| ensures Untouched(r0, r0, all[j]) {
        UntouchedSelf(r0, all[j]);
      }
    } else if !SyncUpTo(all, envs, r0, i - 1).aborted {
      LoopIsPointwise(all, envs, r0, i - 1);
      PointwiseStep(all, envs, r0, SyncUpTo(all, envs, r0, i - 1), i - 1);
    }
  }

  // ---- the loop on a whole listing ----

  ghost predicate IsStale(known: Known, c: ConvSummary) {
    At(known, c.uuid) != Some(c.updatedAt)
  }

  /** How many of the first i conversations have a version that the state does not record. */
  ghost function StaleUpTo(all: seq<ConvSummary>, known: Known, i: nat): (n: nat)
    requires i <= |all|
  {
    if i == 0 then 0 else StaleUpTo(all, known, i - 1) + if IsStale(known, all[i - 1]) then 1 else 0
  }

  ghost function Stale(all: seq<ConvSummary>, known: Known): (n: nat) {
    StaleUpTo(all, known, |all|)
  }

  lemma {:induction false} StaleAfterRecord(all: seq<ConvSummary>, known: Known, k: nat, i: nat)
    requires DistinctUuids(all) && k < |all| && i <= |all|
    ensures StaleUpTo(all, known[all[k].uuid := all[k].updatedAt], i)
         == StaleUpTo(all, known, i) - if k < i && IsStale(known, all[k]) then 1 else 0
  {
    if i > 0 {
      StaleAfterRecord(all, known, k, i - 1);
      var c, d := all[k], all[i - 1];
      RecordStale(known, c, d);
      assert i - 1 != k ==> d.uuid != c.uuid;
    }
  }

  lemma RecordStale(known: Known, c: ConvSummary, d: ConvSummary)
    ensures d.uuid != c.uuid ==> (IsStale(known[c.uuid := c.updatedAt], d) <==> IsStale(known, d))
    ensures !IsStale(known[c.uuid := c.updatedAt], c)
  {
  }

  /** Each recorded item that counts takes exactly one conversation out of the stale ones; a healing
  rewrite takes none and does not count. */
  lemma ItemStale(all: seq<ConvSummary>, e: ItemEnv, r: Run, n: nat)
    requires DistinctUuids(all) && n < |all|
    ensures
      var r' := SyncItem(all[n], e, r);
      Stale(all, r'.known) + r'.newN + r'.changedN + r'.seedN == Stale(all, r.known) + r.newN + r.changedN + r.seedN
  {
    var k := KindOf(r.known, r.disk, all[n], e);
    if Records(k) {
      StaleAfterRecord(all, r.known, n, |all|);
    }
    assert k == New || k == Changed || k == Seeded ==> IsStale(r.known, all[n]);
    assert k == Healed ==> !IsStale(r.known, all[n]);
  }

  lemma {:induction false} LoopStale(all: seq<ConvSummary>, envs: seq<ItemEnv>, r0: Run, i: nat)
    requires DistinctUuids(all) && i <= |all| == |envs|
    ensures
      var r := SyncUpTo(all, envs, r0, i);
      Stale(all, r.known) + r.newN + r.changedN + r.seedN == Stale(all, r0.known) + r0.newN + r0.changedN + r0.seedN
  {
    hide SyncItem, Stale;
    if i > 0 {
      LoopStale(all, envs, r0, i - 1);
      ItemStale(all, envs[i - 1], SyncUpTo(all, envs, r0, i - 1), i - 1);
    }
  }

  /** No conversation is listed at two versions. It may be listed twice. */
  ghost predicate VersionsAgree(all: seq<ConvSummary>) {
    forall i, j :: 0 <= i < j < |all| && all[i].uuid == all[j].uuid ==> all[i].updatedAt == all[j].updatedAt
  }

  lemma {:induction false} StaleAfterRecordAtMost(all: seq<ConvSummary>, known: Known, k: nat, i: nat)
    requires VersionsAgree(all) && k < |all| && i <= |all|
    ensures StaleUpTo(all, known[all[k].uuid := all[k].updatedAt], i)
         <= StaleUpTo(all, known, i) - if k < i && IsStale(known, all[k]) then 1 else 0
  {
    if i > 0 {
      StaleAfterRecordAtMost(all, known, k, i - 1);
      RecordStale(known, all[k], all[i - 1]);
      assert all[i - 1].uuid == all[k].uuid ==> all[i - 1].updatedAt == all[k].updatedAt;
    }
  }

  /** Each counted item takes at least one entry out of the stale ones. */
  lemma ItemStaleAtMost(all: seq<ConvSummary>, e: ItemEnv, r: Run, n: nat)
    requires VersionsAgree(all) && n < |all|
    ensures
      var r' := SyncItem(all[n], e, r);
      Stale(all, r'.known) + r'.newN + r'.changedN + r'.seedN <= Stale(all, r.known) + r.newN + r.changedN + r.seedN
  {
    var k := KindOf(r.known, r.disk, all[n], e);
    if Records(k) {
      StaleAfterRecordAtMost(all, r.known, n, |all|);
    }
    assert k == New || k == Changed || k == Seeded ==> IsStale(r.known, all[n]);
  }

  lemma {:induction false} LoopStaleAtMost(all: seq<ConvSummary>, envs: seq<ItemEnv>, r0: Run, i: nat)
    requires VersionsAgree(all) && i <= |all| == |envs|
    ensures
      var r := SyncUpTo(all, envs, r0, i);
      Stale(all, r.known) + r.newN + r.changedN + r.seedN <= Stale(all, r0.known) + r0.newN + r0.changedN + r0.seedN
  {
    hide SyncItem, Stale;
    if i > 0 {
      LoopStaleAtMost(all, envs, r0, i - 1);
      ItemStaleAtMost(all, envs[i - 1], SyncUpTo(all, envs, r0, i - 1), i - 1);
    }
  }

  ghost predicate IsFrom(all: seq<ConvSummary>, i: nat, uuid: string)
    requires i <= |all|
  {
    exists j :: 0 <= j < i && all[j].uuid == uuid
  }

  lemma IsFromStep(all: seq<ConvSummary>, i: nat)
    requires DistinctUuids(all) && 0 < i <= |all|
    ensures IsFrom(all, i, all[i - 1].uuid)
    ensures forall u :: IsFrom(all, i - 1, u) ==> IsFrom(all, i, u) && u != all[i - 1].uuid
  {
  }

  /** The error items are as many as the error count, and all from the listing. */
  lemma {:induction false} LoopFailures(all: seq<ConvSummary>, envs: seq<ItemEnv>, known: Known, disk: Disk, i: nat)
    requires DistinctUuids(all) && i <= |all| == |envs|
    ensures
      var r := SyncUpTo(all, envs, FreshRun(known, disk), i);
      |r.failed| == r.errN && forall u :: u in r.failed ==> IsFrom(all, i, u)
  {
    hide KindOf, IsFrom, DistinctUuids;
    if i > 0 {
      LoopFailures(all, envs, known, disk, i - 1);
      IsFromStep(all, i);
    }
  }

  lemma {:induction false} LoopFrame(all: seq<ConvSummary>, envs: seq<ItemEnv>, r0: Run, i: nat)
    requires i <= |all| == |envs|
    ensures
      var r := SyncUpTo(all, envs, r0, i);
      && (forall u :: !IsFrom(all, i, u) ==> At(r.known, u) == At(r0.known, u))
      && (forall f :: !IsFileFrom(all, i, f) ==> At(r.disk, f) == At(r0.disk, f))
  {
    hide KindOf, ConvFilename, Content;
    if i > 0 {
      LoopFrame(all, envs, r0, i - 1);
      var r := SyncUpTo(all, envs, r0, i - 1);
      var c := all[i - 1];
      forall u | !IsFrom(all, i, u) ensures !IsFrom(all, i - 1, u) && u != c.uuid {
      }
      forall f | !IsFileFrom(all, i, f) ensures !IsFileFrom(all, i - 1, f) && f != ConvFilename(c) {
      }
    }
  }

  ghost predicate IsFileFrom(all: seq<ConvSummary>, i: nat, f: string)
    requires i <= |all|
  {
    exists j :: 0 <= j < i && ConvFilename(all[j]) == f
  }

  /** What one completed loop does to one listed conversation, and to every other file. */
  ghost predicate ItemIsDone(all: seq<ConvSummary>, known: Known, disk: Disk, r: Run, j: nat)
    requires j < |all|
  {
    var c := all[j];
    && (if c.uuid in r.failed
        then At(r.known, c.uuid) == At(known, c.uuid)
        else At(r.known, c.uuid) == Some(c.updatedAt))
    && (c.uuid in r.gets <==> Decide(known, disk, c) == ActionFetch)
    && (c.uuid !in r.gets || c.uuid in r.failed ==> At(r.disk, ConvFilename(c)) == At(disk, ConvFilename(c)))
  }

  /** A rendered conversation, or a body that opens with a brace. */
  predicate IsExportText(md: string) {
    md != "" && (StartsWith(md, "# ") || StartsWith(TrimSpace(md), "{"))
  }

  /** The loop without a deadline. Every listed conversation ends recorded at its listed version, or is one
  of exactly errN error items whose entry and file are as before; the stale ones fall by exactly the counted
  items; only files of fetched conversations change, and only to export texts. */
  lemma LoopSpecification(all: seq<ConvSummary>, envs: seq<ItemEnv>, known: Known, disk: Disk)
    requires IsListing(all) && |envs| == |all|
    requires !Sync(all, envs, known, disk).aborted
    ensures
      var r := Sync(all, envs, known, disk);
      && |r.failed| == r.errN
      && (forall u :: u in r.failed ==> IsFrom(all, |all|, u))
      && (forall j :: 0 <= j < |all| ==> ItemIsDone(all, known, disk, r, j))
      && Stale(all, r.known) + r.newN + r.changedN + r.seedN == Stale(all, known)
      && (forall f :: At(r.disk, f) != At(disk, f) ==> IsExportOf(all, envs, r, f))
  {
    var r0 := FreshRun(known, disk);
    var r := Sync(all, envs, known, disk);
    LoopIsPointwise(all, envs, r0, |all|);
    LoopFailures(all, envs, known, disk, |all|);
    LoopStale(all, envs, r0, |all|);
    LoopFrame(all, envs, r0, |all|);
    forall j | 0 <= j < |all| ensures ItemIsDone(all, known, disk, r, j) {
      SettledIsDone(all, envs, known, disk, r, j);
    }
    forall f | At(r.disk, f) != At(disk, f) ensures IsExportOf(all, envs, r, f) {
      assert IsFileFrom(all, |all|, f);
      var j :| 0 <= j < |all| && ConvFilename(all[j]) == f;
      SettledExport(all, envs, known, disk, r, j);
    }
  }

  lemma SettledIsDone(all: seq<ConvSummary>, envs: seq<ItemEnv>, known: Known, disk: Disk, r: Run, j: nat)
    requires j < |all| == |envs| && KindAt(all, envs, FreshRun(known, disk), j) != Aborted
    requires Settled(FreshRun(known, disk), r, all[j], envs[j], KindAt(all, envs, FreshRun(known, disk), j))
    ensures ItemIsDone(all, known, disk, r, j)
  {
    hide ConvFilename;
    OneFreshnessRule(known, disk, all[j]);
  }

  ghost predicate IsExportOf(all: seq<ConvSummary>, envs: seq<ItemEnv>, r: Run, f: string)
    requires |envs| == |all|
  {
    exists j :: 0 <= j < |all| && IsExport(all[j], envs[j], r, f)
  }

  ghost predicate IsExport(c: ConvSummary, e: ItemEnv, r: Run, f: string) {
    && ConvFilename(c) == f && c.uuid in r.gets && c.uuid !in r.failed
    && e.fetched.Got? && IsExportText(MarkdownOf(e.fetched.body))
    && At(r.disk, f) == Some(Utf8(MarkdownOf(e.fetched.body)))
  }

  lemma {:induction false} SettledExport(all: seq<ConvSummary>, envs: seq<ItemEnv>, known: Known, disk: Disk, r: Run,
          j: nat)
    requires j < |all| == |envs|
    requires Settled(FreshRun(known, disk), r, all[j], envs[j], KindAt(all, envs, FreshRun(known, disk), j))
    requires At(r.disk, ConvFilename(all[j])) != At(disk, ConvFilename(all[j]))
    ensures IsExport(all[j], envs[j], r, ConvFilename(all[j]))
  {
    hide ConvFilename, IsExportText;
    KindWritesExport(known, disk, all[j], envs[j]);
  }

  lemma KindWritesExport(known: Known, disk: Disk, c: ConvSummary, e: ItemEnv)
    requires Writes(KindOf(known, disk, c, e))
    ensures e.fetched.Got? && IsExportText(MarkdownOf(e.fetched.body)) && Content(e) == Utf8(MarkdownOf(e.fetched.body))
  {
    hide ConvFilename;
    WrittenShape(e.fetched.body);
  }

  // ---- what the counters count ----

  /** How many of the first i items are of kind k. */
  ghost function KindsUpTo(all: seq<ConvSummary>, envs: seq<ItemEnv>, r0: Run, k: Kind, i: nat): (n: nat)
    requires i <= |all| == |envs|
  {
    if i == 0 then 0
    else KindsUpTo(all, envs, r0, k, i - 1) + if KindAt(all, envs, r0, i - 1) == k then 1 else 0
  }

  lemma ItemCounts(c: ConvSummary, e: ItemEnv, r: Run)
    ensures
      var r', k := SyncItem(c, e, r), KindOf(r.known, r.disk, c, e);
      && r'.newN == r.newN + (if k == New then 1 else 0) && r'.changedN == r.changedN + (if k == Changed then 1 else 0)
      && r'.seedN == r.seedN + (if k == Seeded then 1 else 0) && r'.errN == r.errN + (if k == Errored then 1 else 0)
  {
    hide KindOf, ConvFilename, Content;
  }

  lemma {:induction false} LoopCounts(all: seq<ConvSummary>, envs: seq<ItemEnv>, known: Known, disk: Disk, i: nat)
    requires IsListing(all) && i <= |all| == |envs|
    requires !SyncUpTo(all, envs, FreshRun(known, disk), i).aborted
    ensures
      var r0 := FreshRun(known, disk);
      var r := SyncUpTo(all, envs, r0, i);
      && r.newN == KindsUpTo(all, envs, r0, New, i) && r.changedN == KindsUpTo(all, envs, r0, Changed, i)
      && r.seedN == KindsUpTo(all, envs, r0, Seeded, i) && r.errN == KindsUpTo(all, envs, r0, Errored, i)
  {
    hide SyncItem, KindOf, Settled, IsListing, ConvFilename;
    if i > 0 {
      var r0 := FreshRun(known, disk);
      var r := SyncUpTo(all, envs, r0, i - 1);
      LoopCounts(all, envs, known, disk, i - 1);
      LoopIsPointwise(all, envs, r0, i - 1);
      assert Untouched(r0, r, all[i - 1]);
      KindDependsOnItem(r0.known, r0.disk, r.known, r.disk, all[i - 1], envs[i - 1]);
      ItemCounts(all[i - 1], envs[i - 1], r);
    }
  }

  /** What became of a conversation, seen from the outside: whether it was asked for, whether it failed, and
  what the state recorded before. */
  ghost predicate IsOutcome(k: Kind, known: Known, r: Run, c: ConvSummary) {
    var done := c.uuid in r.gets && c.uuid !in r.failed;
    match k
    case New => done && c.uuid !in known
    case Changed => done && c.uuid in known && known[c.uuid] != c.updatedAt
    case Healed => done && c.uuid in known && known[c.uuid] == c.updatedAt
    case Seeded => c.uuid !in r.gets && c.uuid !in known
    case Skipped => c.uuid !in r.gets && c.uuid in known
    case Errored => c.uuid in r.failed
    case Aborted => false
  }

  ghost function OutcomesUpTo(all: seq<ConvSummary>, k: Kind, known: Known, r: Run, i: nat): (n: nat)
    requires i <= |all|
  {
    if i == 0 then 0
    else OutcomesUpTo(all, k, known, r, i - 1) + if IsOutcome(k, known, r, all[i - 1]) then 1 else 0
  }

  lemma KindIsOutcome(known: Known, disk: Disk, c: ConvSummary, e: ItemEnv, r: Run, k: Kind)
    requires Settled(FreshRun(known, disk), r, c, e, KindOf(known, disk, c, e)) && KindOf(known, disk, c, e) != Aborted
    ensures KindOf(known, disk, c, e) == k <==> IsOutcome(k, known, r, c)
  {
    OneFreshnessRule(known, disk, c);
    hide Decide, ConvFilename, Content, FileIsCurrent;
  }

  lemma KindAtIsOutcome(all: seq<ConvSummary>, envs: seq<ItemEnv>, known: Known, disk: Disk, k: Kind, j: nat)
    requires IsListing(all) && j < |all| == |envs| && !Sync(all, envs, known, disk).aborted
    ensures
      KindAt(all, envs, FreshRun(known, disk), j) == k <==> IsOutcome(k, known, Sync(all, envs, known, disk), all[j])
  {
    var r := Sync(all, envs, known, disk);
    hide SyncUpTo, KindOf, Settled, Untouched, IsListing, IsOutcome, ConvFilename;
    LoopIsPointwise(all, envs, FreshRun(known, disk), |all|);
    assert Settled(FreshRun(known, disk), r, all[j], envs[j], KindAt(all, envs, FreshRun(known, disk), j));
    KindIsOutcome(known, disk, all[j], envs[j], r, k);
  }

  lemma {:induction false} KindsAreOutcomes(all: seq<ConvSummary>, envs: seq<ItemEnv>, known: Known, disk: Disk,
          k: Kind, i: nat)
    requires IsListing(all) && i <= |all| == |envs| && !Sync(all, envs, known, disk).aborted
    ensures
      KindsUpTo(all, envs, FreshRun(known, disk), k, i) ==
      OutcomesUpTo(all, k, known, Sync(all, envs, known, disk), i)
  {
    hide Sync, KindAt, IsListing, IsOutcome;
    if i > 0 {
      KindsAreOutcomes(all, envs, known, disk, k, i - 1);
      KindAtIsOutcome(all, envs, known, disk, k, i - 1);
    }
  }

  /** Each counter counts what it says: new are the conversations fetched and unknown before, changed those
  fetched and recorded at another version, known those not fetched and not recorded before, errors those that
  failed. */
  lemma CountersCount(all: seq<ConvSummary>, envs: seq<ItemEnv>, known: Known, disk: Disk)
    requires IsListing(all) && |envs| == |all| && !Sync(all, envs, known, disk).aborted
    ensures
      var r := Sync(all, envs, known, disk);
      && r.newN == OutcomesUpTo(all, New, known, r, |all|)
      && r.changedN == OutcomesUpTo(all, Changed, known, r, |all|)
      && r.seedN == OutcomesUpTo(all, Seeded, known, r, |all|)
      && r.errN == OutcomesUpTo(all, Errored, known, r, |all|)
  {
    LoopCounts(all, envs, known, disk, |all|);
    hide SyncUpTo, KindsUpTo, OutcomesUpTo, IsListing;
    KindsAreOutcomes(all, envs, known, disk, New, |all|);
    KindsAreOutcomes(all, envs, known, disk, Changed, |all|);
    KindsAreOutcomes(all, envs, known, disk, Seeded, |all|);
    KindsAreOutcomes(all, envs, known, disk, Errored, |all|);
  }

  // ---- the fixed point ----

  /** Every item that the first run wrote reads back as the listed version. */
  ghost predicate WritesAreFresh(all: seq<ConvSummary>, envs: seq<ItemEnv>, known: Known, disk: Disk)
    requires |envs| == |all|
  {
    forall j :: 0 <= j < |all| && Writes(KindAt(all, envs, FreshRun(known, disk), j)) ==>
      IsFresh(Content(envs[j]), all[j].updatedAt)
  }

  lemma {:induction false} CurrentAfterSync(all: seq<ConvSummary>, envs: seq<ItemEnv>, known: Known, disk: Disk, j: nat)
    requires IsListing(all) && |envs| == |all| && j < |all|
    requires !Sync(all, envs, known, disk).aborted && Sync(all, envs, known, disk).errN == 0
    ensures
      var r := Sync(all, envs, known, disk);
      var k := KindAt(all, envs, FreshRun(known, disk), j);
      && At(r.known, all[j].uuid) == Some(all[j].updatedAt)
      && (FileIsCurrent(r.disk, all[j]) <==> (Writes(k) ==> IsFresh(Content(envs[j]), all[j].updatedAt)))
  {
    LoopSpecification(all, envs, known, disk);
    LoopIsPointwise(all, envs, FreshRun(known, disk), |all|);
    var r := Sync(all, envs, known, disk);
    var k := KindAt(all, envs, FreshRun(known, disk), j);
    assert Settled(FreshRun(known, disk), r, all[j], envs[j], k);
    assert ItemIsDone(all, known, disk, r, j);
    assert r.failed == {};
    hide ConvFilename, IsFresh, Content, MarkdownOf;
    OneFreshnessRule(known, disk, all[j]);
    CurrentByFile(r.disk, disk, all[j]);
  }

  lemma CurrentByFile(disk: Disk, disk0: Disk, c: ConvSummary)
    ensures
      At(disk, ConvFilename(c)) == At(disk0, ConvFilename(c)) ==>
        (FileIsCurrent(disk, c) <==> FileIsCurrent(disk0, c))
    ensures At(disk, ConvFilename(c)).Some? ==>
      (FileIsCurrent(disk, c) <==> IsFresh(At(disk, ConvFilename(c)).value, c.updatedAt))
  {
  }

  lemma SkipIsNothing(c: ConvSummary, e: ItemEnv, r: Run)
    requires Decide(r.known, r.disk, c) == ActionSkip && !r.aborted
    ensures SyncItem(c, e, r) == r
  {
    hide Decide, ConvFilename, Content;
  }

  lemma {:induction false} AllSkipped(all: seq<ConvSummary>, envs: seq<ItemEnv>, known: Known, disk: Disk, i: nat)
    requires i <= |all| == |envs|
    requires forall j :: 0 <= j < i ==> Decide(known, disk, all[j]) == ActionSkip
    ensures SyncUpTo(all, envs, FreshRun(known, disk), i) == FreshRun(known, disk)
  {
    hide Decide, SyncItem;
    if i > 0 {
      AllSkipped(all, envs, known, disk, i - 1);
      SkipIsNothing(all[i - 1], envs[i - 1], FreshRun(known, disk));
    }
  }

  lemma {:induction false} GetsGrow(all: seq<ConvSummary>, envs: seq<ItemEnv>, r0: Run, i: nat, n: nat)
    requires i <= n <= |all| == |envs|
    ensures SyncUpTo(all, envs, r0, i).gets <= SyncUpTo(all, envs, r0, n).gets
    ensures SyncUpTo(all, envs, r0, i).aborted ==> SyncUpTo(all, envs, r0, n) == SyncUpTo(all, envs, r0, i)
    decreases n
  {
    hide KindOf, ConvFilename, Content;
    if i < n {
      GetsGrow(all, envs, r0, i, n - 1);
    }
  }

  /** The first item that is not skipped or seeded is asked for. */
  lemma {:induction false} FirstFetchIsAsked(all: seq<ConvSummary>, envs: seq<ItemEnv>, known: Known, disk: Disk,
          j: nat)
    requires j < |all| == |envs|
    requires forall i :: 0 <= i < j ==> Decide(known, disk, all[i]) == ActionSkip
    requires Decide(known, disk, all[j]) == ActionFetch
    ensures Sync(all, envs, known, disk).gets != []
  {
    hide SyncItem, Decide;
    AllSkipped(all, envs, known, disk, j);
    AskedFor(all[j], envs[j], FreshRun(known, disk));
    GetsGrow(all, envs, FreshRun(known, disk), j + 1, |all|);
  }

  lemma AskedFor(c: ConvSummary, e: ItemEnv, r: Run)
    requires Decide(r.known, r.disk, c) == ActionFetch
    ensures SyncItem(c, e, r).gets == r.gets + [c.uuid]
  {
    hide ConvFilename, Content, Decide;
  }

  lemma {:induction false} FirstOther(all: seq<ConvSummary>, known: Known, disk: Disk, i: nat) returns (j: nat)
    requires i <= |all|
    ensures j <= i && (forall n :: 0 <= n < j ==> Decide(known, disk, all[n]) == ActionSkip)
    ensures j < i ==> Decide(known, disk, all[j]) != ActionSkip
  {
    hide Decide;
    j := 0;
    while j < i && Decide(known, disk, all[j]) == ActionSkip
      invariant j <= i && forall n :: 0 <= n < j ==> Decide(known, disk, all[n]) == ActionSkip
    {
      j := j + 1;
    }
  }

  /** The fixed point, exactly. After a run without errors, a second run on the same listing asks for
  nothing if and only if what the first one wrote reads back as listed; then it is the empty run: no
  counter moves, state and disk stay. */
  lemma SecondRunIsQuiet(all: seq<ConvSummary>, envs: seq<ItemEnv>, known: Known, disk: Disk, envs2: seq<ItemEnv>)
    requires IsListing(all) && |envs| == |all| == |envs2|
    requires !Sync(all, envs, known, disk).aborted && Sync(all, envs, known, disk).errN == 0
    ensures
      var r := Sync(all, envs, known, disk);
      var r2 := Sync(all, envs2, r.known, r.disk);
      && (r2.gets == [] <==> WritesAreFresh(all, envs, known, disk))
      && (WritesAreFresh(all, envs, known, disk) ==> r2 == FreshRun(r.known, r.disk))
  {
    var r := Sync(all, envs, known, disk);
    hide ConvFilename, IsFresh, Decide, KindOf;
    forall j | 0 <= j < |all|
      ensures Decide(r.known, r.disk, all[j]) ==
        if Writes(KindAt(all, envs, FreshRun(known, disk), j)) && !IsFresh(Content(envs[j]), all[j].updatedAt)
        then ActionFetch else ActionSkip
    {
      CurrentAfterSync(all, envs, known, disk, j);
      OneFreshnessRule(r.known, r.disk, all[j]);
    }
    var j := FirstOther(all, r.known, r.disk, |all|);
    if j == |all| {
      AllSkipped(all, envs2, r.known, r.disk, |all|);
    } else {
      FirstFetchIsAsked(all, envs2, r.known, r.disk, j);
    }
  }

  /** A body whose conversation carries the listed version, on a header that fits, in a file that is not
  tiny, reads back as listed. */
  lemma MatchingBodyIsFresh(conv: FullConv, updatedAt: string)
    requires FirstUpdated(Utf8(CreatedLine(conv))).None? && updatedAt != ""
    requires Trunc(conv.updatedAt, 19) == Trunc(updatedAt, 19)
    requires '\n' !in Trunc(updatedAt, 19) && TrimBytes(VersionBytes(updatedAt)) == VersionBytes(updatedAt)
    requires HeaderBytes(conv) <= 512 && |Utf8(Render(conv))| > 100
    ensures IsFresh(Utf8(Render(conv)), updatedAt)
  {
    HeaderRoundTrip(conv);
  }

  // ---- a deadline in the middle ----

  /** Where a deadline ended the loop: the items before it are settled, it and the later ones untouched. */
  lemma {:induction false} AbortPoint(all: seq<ConvSummary>, envs: seq<ItemEnv>, known: Known, disk: Disk,
          i: nat) returns (p: nat)
    requires IsListing(all) && i <= |all| == |envs|
    requires SyncUpTo(all, envs, FreshRun(known, disk), i).aborted
    ensures p < i && KindAt(all, envs, FreshRun(known, disk), p) == Aborted
    ensures forall j :: 0 <= j < p ==> KindAt(all, envs, FreshRun(known, disk), j) != Aborted
    ensures
      var r0 := FreshRun(known, disk);
      var r, r' := SyncUpTo(all, envs, r0, p), SyncUpTo(all, envs, r0, i);
      && !r.aborted && Pointwise(all, envs, r0, r, p)
      && r'.known == r.known && r'.disk == r.disk && r'.failed == r.failed && r'.gets == r.gets + [all[p].uuid]
  {
    hide KindAt, KindOf, ConvFilename, Content, IsListing, Pointwise;
    var r0 := FreshRun(known, disk);
    if SyncUpTo(all, envs, r0, i - 1).aborted {
      p := AbortPoint(all, envs, known, disk, i - 1);
    } else {
      p := i - 1;
      LoopIsPointwise(all, envs, r0, p);
      PointwiseStep(all, envs, r0, SyncUpTo(all, envs, r0, p), p);
      DeadlineItem(all, envs, r0, p);
    }
  }

  lemma DeadlineItem(all: seq<ConvSummary>, envs: seq<ItemEnv>, r0: Run, p: nat)
    requires p < |all| == |envs| && SyncItem(all[p], envs[p], SyncUpTo(all, envs, r0, p)).aborted
    ensures
      var r := SyncUpTo(all, envs, r0, p);
      var r' := SyncItem(all[p], envs[p], r);
      r'.known == r.known && r'.disk == r.disk && r'.failed == r.failed && r'.gets == r.gets + [all[p].uuid]
  {
    hide KindOf, ConvFilename, Content;
  }

  lemma LaterAreNotAsked(all: seq<ConvSummary>, envs: seq<ItemEnv>, r0: Run, r: Run, p: nat)
    requires IsListing(all) && p < |all| == |envs| && Pointwise(all, envs, r0, r, p) && r0.gets == []
    ensures forall j :: p < j < |all| ==> all[j].uuid !in r.gets + [all[p].uuid]
  {
    forall j | p < j < |all| ensures all[j].uuid !in r.gets + [all[p].uuid] {
      assert Untouched(r0, r, all[j]);
      DistinctAt(all, j, p);
    }
  }

  /** Deadline or not, only conversations that needed it when the run started are asked for. */
  lemma OnlyNeededAreAsked(all: seq<ConvSummary>, envs: seq<ItemEnv>, known: Known, disk: Disk, j: nat)
    requires IsListing(all) && |envs| == |all| && j < |all|
    requires all[j].uuid in Sync(all, envs, known, disk).gets
    ensures Decide(known, disk, all[j]) == ActionFetch
  {
    var r0 := FreshRun(known, disk);
    var r := Sync(all, envs, known, disk);
    hide KindOf, ConvFilename, Content, Decide, IsListing;
    if r.aborted {
      var p := AbortPoint(all, envs, known, disk, |all|);
      FetchingKind(known, disk, all[p], envs[p]);
      LaterAreNotAsked(all, envs, r0, SyncUpTo(all, envs, r0, p), p);
      if j < p {
        assert Settled(r0, SyncUpTo(all, envs, r0, p), all[j], envs[j], KindAt(all, envs, r0, j));
        FetchingKind(known, disk, all[j], envs[j]);
        DistinctAt(all, j, p);
      }
    } else {
      LoopIsPointwise(all, envs, r0, |all|);
      assert Settled(r0, r, all[j], envs[j], KindAt(all, envs, r0, j));
      FetchingKind(known, disk, all[j], envs[j]);
    }
  }

  lemma FetchingKind(known: Known, disk: Disk, c: ConvSummary, e: ItemEnv)
    ensures Fetches(KindOf(known, disk, c, e)) <==> Decide(known, disk, c) == ActionFetch
  {
    hide ConvFilename, Decide;
  }

  lemma WouldBeWritten(known: Known, disk: Disk, c: ConvSummary, e: ItemEnv)
    requires Decide(known, disk, c) == ActionFetch && e.writeOk && Content(e) != []
    ensures Writes(KindOf(known, disk, c, e))
  {
    hide Decide, ConvFilename;
  }

  /** Every file written before the deadline is kept. */
  lemma {:induction false} WrittenBeforeDeadline(all: seq<ConvSummary>, envs: seq<ItemEnv>, known: Known, disk: Disk,
          j: nat)
    requires IsListing(all) && |envs| == |all| && j < |all|
    requires Sync(all, envs, known, disk).aborted && all[j].uuid in Sync(all, envs, known, disk).gets
    requires envs[j].writeOk && Content(envs[j]) != []
    ensures At(Sync(all, envs, known, disk).disk, ConvFilename(all[j])) == Some(Content(envs[j]))
  {
    hide ConvFilename, Content, KindOf, IsListing, Decide;
    var r0 := FreshRun(known, disk);
    OnlyNeededAreAsked(all, envs, known, disk, j);
    WouldBeWritten(known, disk, all[j], envs[j]);
    var p := AbortPoint(all, envs, known, disk, |all|);
    var r := SyncUpTo(all, envs, r0, p);
    LaterAreNotAsked(all, envs, r0, r, p);
    assert j < p;
    assert Settled(r0, r, all[j], envs[j], KindAt(all, envs, r0, j));
  }

  /** After a deadline the next run resumes: it starts from the old state and the new disk, where every
  file written before the deadline is kept; a conversation unknown to the state whose file was
  written as listed is not asked for again, in whatever way the next run ends. */
  lemma {:induction false} DeadlineIsResumable(all: seq<ConvSummary>, envs: seq<ItemEnv>, known: Known, disk: Disk,
          envs2: seq<ItemEnv>, j: nat)
    requires IsListing(all) && |envs| == |all| == |envs2| && j < |all|
    requires Sync(all, envs, known, disk).aborted
    requires all[j].uuid !in known && all[j].uuid in Sync(all, envs, known, disk).gets
    requires envs[j].writeOk && IsFresh(Content(envs[j]), all[j].updatedAt)
    ensures
      var r := Sync(all, envs, known, disk);
      && At(r.disk, ConvFilename(all[j])) == Some(Content(envs[j]))
      && Decide(known, r.disk, all[j]) == ActionSeed
      && all[j].uuid !in Sync(all, envs2, known, r.disk).gets
  {
    assert Content(envs[j]) != [];
    hide Decide, KindOf, Content, IsFresh, ConvFilename, SyncUpTo, IsListing;
    var r := Sync(all, envs, known, disk);
    WrittenBeforeDeadline(all, envs, known, disk, j);
    CurrentByFile(r.disk, disk, all[j]);
    OneFreshnessRule(known, r.disk, all[j]);
    if all[j].uuid in Sync(all, envs2, known, r.disk).gets {
      OnlyNeededAreAsked(all, envs2, known, r.disk, j);
    }
  }

  // ---- the one-shot harvest ----

  /** One item of cdpHarvest: the freshness rule alone decides, and no state is kept. `newN` counts the
  written items and `seedN` the skipped ones. */
  function HarvestItem(c: ConvSummary, e: ItemEnv, r: Run): (res: Run) {
    if FileIsCurrent(r.disk, c) then r.(seedN := r.seedN + 1)
    else
      match e.fetched
      case Failed(err) =>
        if err == DeadlineExceeded then r.(gets := r.gets + [c.uuid], aborted := true)
        else r.(gets := r.gets + [c.uuid], errN := r.errN + 1, failed := r.failed + {c.uuid})
      case Got(body) =>
        if MarkdownOf(body) == "" || !e.writeOk
        then r.(gets := r.gets + [c.uuid], errN := r.errN + 1, failed := r.failed + {c.uuid})
        else
          var disk' := r.disk[ConvFilename(c) := Utf8(MarkdownOf(body))];
          r.(gets := r.gets + [c.uuid], newN := r.newN + 1, disk := disk')
  }

  function HarvestUpTo(all: seq<ConvSummary>, envs: seq<ItemEnv>, r0: Run, i: nat): (res: Run)
    requires i <= |all| && |envs| == |all|
  {
    if i == 0 then r0
    else
      var r := HarvestUpTo(all, envs, r0, i - 1);
      if r.aborted then r else HarvestItem(all[i - 1], envs[i - 1], r)
  }

  function Harvest(all: seq<ConvSummary>, envs: seq<ItemEnv>, disk: Disk): (r: Run)
    requires |envs| == |all|
  {
    HarvestUpTo(all, envs, FreshRun(map[], disk), |all|)
  }

  lemma HarvestItemIsSyncItem(c: ConvSummary, e: ItemEnv, h: Run, r: Run)
    requires c.uuid !in r.known && h == r.(known := map[]) && !r.aborted
    ensures HarvestItem(c, e, h) == SyncItem(c, e, r).(known := map[])
    ensures SyncItem(c, e, r).known.Keys <= r.known.Keys + {c.uuid}
  {
    OneFreshnessRule(r.known, r.disk, c);
    hide ConvFilename, IsFresh, Decide;
  }

  /** The one-shot harvest and a first daemon cycle that starts without a state do the same: the same
  requests in the same order, the same files, the same counts. */
  lemma {:induction false} HarvestIsFirstCycle(all: seq<ConvSummary>, envs: seq<ItemEnv>, disk: Disk, i: nat)
    requires DistinctUuids(all) && i <= |all| == |envs|
    ensures
      var r := SyncUpTo(all, envs, FreshRun(map[], disk), i);
      && HarvestUpTo(all, envs, FreshRun(map[], disk), i) == r.(known := map[])
      && forall u :: u in r.known ==> IsFrom(all, i, u)
  {
    hide SyncItem, HarvestItem, DistinctUuids, IsFrom;
    if i > 0 {
      HarvestIsFirstCycle(all, envs, disk, i - 1);
      IsFromStep(all, i);
      var r := SyncUpTo(all, envs, FreshRun(map[], disk), i - 1);
      if !r.aborted {
        HarvestItemIsSyncItem(all[i - 1], envs[i - 1], r.(known := map[]), r);
      }
    }
  }

  /** After an error-free one-shot harvest the first daemon cycle, from no state, asks for nothing and seeds
  every conversation, exactly if what the harvest wrote reads back as listed. */
  lemma {:induction false} DaemonAfterHarvest(all: seq<ConvSummary>, envs: seq<ItemEnv>, disk: Disk,
          envs2: seq<ItemEnv>)
    requires IsListing(all) && |envs| == |all| == |envs2|
    requires !Harvest(all, envs, disk).aborted && Harvest(all, envs, disk).errN == 0
    ensures
      var r2 := Sync(all, envs2, map[], Harvest(all, envs, disk).disk);
      && (r2.gets == [] <==> WritesAreFresh(all, envs, map[], disk))
      && (r2.gets == [] ==>
            r2 == FreshRun(r2.known, Harvest(all, envs, disk).disk).(seedN := |all|) && Stale(all, r2.known) == 0)
  {
    HarvestIsFirstCycle(all, envs, disk, |all|);
    var h := Harvest(all, envs, disk).disk;
    var r := Sync(all, envs, map[], disk);
    hide ConvFilename, IsFresh, Decide, KindOf, Content;
    forall j | 0 <= j < |all|
      ensures Decide(map[], h, all[j]) ==
        if Writes(KindAt(all, envs, FreshRun(map[], disk), j)) && !IsFresh(Content(envs[j]), all[j].updatedAt)
        then ActionFetch else ActionSeed
    {
      CurrentAfterSync(all, envs, map[], disk, j);
      OneFreshnessRule(map[], h, all[j]);
    }
    if WritesAreFresh(all, envs, map[], disk) {
      AllSeeded(all, envs2, h, |all|);
      LoopStale(all, envs2, FreshRun(map[], h), |all|);
      AllStale(all, |all|);
    } else {
      var j :| 0 <= j < |all| && Decide(map[], h, all[j]) == ActionFetch;
      var r2 := Sync(all, envs2, map[], h);
      if r2.gets == [] {
        QuietRunDecides(all, envs2, map[], h, j);
      }
    }
  }

  lemma {:induction false} AllSeeded(all: seq<ConvSummary>, envs: seq<ItemEnv>, disk: Disk, i: nat)
    requires DistinctUuids(all) && i <= |all| == |envs|
    requires forall j :: 0 <= j < |all| ==> Decide(map[], disk, all[j]) == ActionSeed
    ensures
      var r := SyncUpTo(all, envs, FreshRun(map[], disk), i);
      && r == FreshRun(r.known, disk).(seedN := i)
      && forall u :: u in r.known ==> IsFrom(all, i, u)
  {
    hide Decide, DistinctUuids, IsFrom;
    if i > 0 {
      AllSeeded(all, envs, disk, i - 1);
      IsFromStep(all, i);
      var r := SyncUpTo(all, envs, FreshRun(map[], disk), i - 1);
      SeedsAlike(all[i - 1], r.known, disk);
    }
  }

  lemma SeedsAlike(c: ConvSummary, known: Known, disk: Disk)
    requires c.uuid !in known && Decide(map[], disk, c) == ActionSeed
    ensures Decide(known, disk, c) == ActionSeed
  {
    OneFreshnessRule(map[], disk, c);
    OneFreshnessRule(known, disk, c);
  }

  lemma {:induction false} AllStale(all: seq<ConvSummary>, i: nat)
    requires i <= |all|
    ensures StaleUpTo(all, map[], i) == i
  {
    if i > 0 {
      AllStale(all, i - 1);
    }
  }

  /** A run that asked for nothing had nothing to ask for. */
  lemma QuietRunDecides(all: seq<ConvSummary>, envs: seq<ItemEnv>, known: Known, disk: Disk, j: nat)
    requires IsListing(all) && |envs| == |all| && j < |all|
    requires Sync(all, envs, known, disk).gets == []
    ensures Decide(known, disk, all[j]) != ActionFetch
  {
    hide ConvFilename, Decide, KindOf, Content, IsListing;
    var r0 := FreshRun(known, disk);
    if Sync(all, envs, known, disk).aborted {
      var p := AbortPoint(all, envs, known, disk, |all|);
      assert false;
    }
    LoopIsPointwise(all, envs, r0, |all|);
    assert Settled(r0, Sync(all, envs, known, disk), all[j], envs[j], KindAt(all, envs, r0, j));
    FetchingKind(known, disk, all[j], envs[j]);
  }
}
