/** The daemon among a changing server, a changing Cookie DB and crashes: no lost update.

A world is the server, the Cookie DB's modification time, the disk, the persisted state and where the
one daemon stands in its cycle. Desktop activity changes or deletes conversations at any moment, each change
followed, sooner or later, by a write of the Cookie DB with a modification time never seen before. What the server
answers to a fetch is anything at all.
*/
module World {
  import opened Text
  import opened Markdown
  import opened Header
  import opened Filenames
  import opened Fetch
  import opened Engine
  import opened Cycles

  /** One version of one conversation, as it is listed, and its renderings: full, without tool output, only the
  current branch, and whatever else the server makes of it. */
  datatype Version = Version(summary: ConvSummary, renderings: set<FullConv>)

  function FileOf(v: Version): (name: string) {
    ConvFilename(v.summary)
  }

  function Export(c: FullConv): (file: Bytes) {
    Utf8(Render(c))
  }

  function Summaries(all: seq<Version>): (cs: seq<ConvSummary>)
    ensures |cs| == |all|
  {
    seq(|all|, i requires 0 <= i < |all| => all[i].summary)
  }

  // ---- what is assumed of the server ----

  /** At least 19 characters, the first 19 printable and not blank: the shape of a date and time in section
  5.6 of RFC 3339. */
  ghost predicate IsTimestamp(s: string) {
    |s| >= 19 && forall i :: 0 <= i < 19 ==> 0x21 <= s[i] as int <= 0x7E
  }

  /** Every rendering carries the name and the dates of its version. */
  ghost predicate IsPlain(v: Version) {
    && v.summary.createdAt != "" && IsDigit(v.summary.createdAt[0]) && '\n' !in Trunc(v.summary.createdAt, 19)
    && IsTimestamp(v.summary.updatedAt)
    && forall c :: c in v.renderings ==> IsRenderingOf(c, v.summary)
  }

  ghost predicate IsRenderingOf(c: FullConv, s: ConvSummary) {
    c.name == s.name && c.createdAt == s.createdAt && c.updatedAt == s.updatedAt
  }

  function Stamp(v: Version): (s: string) {
    Trunc(v.summary.updatedAt, 19)
  }

  // ---- the world ----

  /** Where the daemon stands. `dirty`: the server has changed since the modification time was read.
  `disk0` and `envs` record what the current loop started from and met. */
  datatype Phase =
    | Idle
    | MtimeRead(mod: string, dirty: bool)
    | Syncing(mod: string, dirty: bool, all: seq<Version>, disk0: Disk, envs: seq<ItemEnv>, i: nat, run: Run,
              fetched: Option<Fetched>)

  /** What the cycle that last advanced the watermark leaves open. `failed`: its error items. `misled`: conversations
  for which it wrote an answer that was no rendering of the listed version. `trusted`: conversations that it did
  not ask for, on a file that is no rendering of any version of theirs. */
  datatype Excuses = Excuses(failed: set<string>, misled: set<string>, trusted: set<string>)

  /** `pending`: a change has not yet reached the Cookie DB. `used`: all modification times so far. `versions`:
  everything the server ever held. */
  datatype World = World(server: map<string, Version>, cookie: string, pending: bool, used: set<string>,
                         versions: set<Version>, disk: Disk, saved: Persisted, excused: Excuses, phase: Phase)

  function Disturbed(ph: Phase): (ph': Phase) {
    match ph
    case Idle => Idle
    case MtimeRead(mod, _) => MtimeRead(mod, true)
    case Syncing(mod, _, all, disk0, envs, i, run, fetched) => Syncing(mod, true, all, disk0, envs, i, run, fetched)
  }

  ghost predicate Change(w: World, w': World, v: Version) {
    && IsPlain(v)
    && (forall x :: x in w.versions && x.summary.uuid == v.summary.uuid ==> Stamp(x) != Stamp(v))
    && (forall x :: x in w.versions && x.summary.uuid != v.summary.uuid ==> FileOf(x) != FileOf(v))
    && w' == w.(server := w.server[v.summary.uuid := v], pending := true, versions := w.versions + {v},
                phase := Disturbed(w.phase))
  }

  ghost predicate Delete(w: World, w': World, uuid: string) {
    w' == w.(server := w.server - {uuid}, pending := true, phase := Disturbed(w.phase))
  }

  /** The Cookie DB is written, with a fresh modification time. */
  ghost predicate Flush(w: World, w': World, mtime: string) {
    && mtime != "" && mtime !in w.used
    && w' == w.(cookie := mtime, used := w.used + {mtime}, pending := false)
  }

  /** runCycle reads the modification time, which may fail, and finds itself triggered. */
  ghost predicate Wake(w: World, w': World, mod: string) {
    && w.phase.Idle? && (mod == w.cookie || mod == "") && Triggered(w.saved, mod)
    && w' == w.(phase := MtimeRead(mod, false))
  }

  /** The listing. Undisturbed it is what the server holds; if the server changes while it is read, page by
  page, it may be any versions, with gaps and duplicates. */
  ghost predicate List(w: World, w': World, all: seq<Version>, envs: seq<ItemEnv>) {
    && w.phase.MtimeRead? && |envs| == |all|
    && (forall j :: 0 <= j < |all| ==> all[j] in w.versions)
    && (!w.phase.dirty ==> ListsServer(w.server, all))
    && w' == w.(phase := Syncing(w.phase.mod, w.phase.dirty, all, w.disk, envs, 0,
                                 FreshRun(w.saved.conversations, w.disk), None))
  }

  ghost predicate ListsServer(server: map<string, Version>, all: seq<Version>) {
    && (forall j :: 0 <= j < |all| ==> At(server, all[j].summary.uuid) == Some(all[j]))
    && (forall u :: u in server ==> server[u] in all)
  }

  /** The answer to the fetch of an item that is asked for: any. */
  ghost predicate Replied(w: World, w': World, f: Fetched) {
    && w.phase.Syncing? && w.phase.i < |w.phase.all| && w.phase.fetched == None
    && Decide(w.phase.run.known, w.phase.run.disk, w.phase.all[w.phase.i].summary) == ActionFetch
    && w' == w.(phase := w.phase.(fetched := Some(f)))
  }

  /** The environment that the item meets: the answer, if it was asked for one. */
  function ItemMet(ph: Phase, writeOk: bool): (e: ItemEnv)
    requires ph.Syncing?
  {
    ItemEnv(if ph.fetched.Some? then ph.fetched.value else Failed(OtherError), writeOk)
  }

  /** The loop body for one item; a deadline leaves the loop and discards the state in memory. */
  ghost predicate Item(w: World, w': World, writeOk: bool) {
    && w.phase.Syncing? && w.phase.i < |w.phase.all| == |w.phase.envs|
    && var ph := w.phase; var c := ph.all[ph.i].summary; var e := ItemMet(ph, writeOk);
       var r := SyncItem(c, e, ph.run);
       && (ph.fetched == None ==> Decide(ph.run.known, ph.run.disk, c) != ActionFetch)
       && w' == w.(disk := r.disk,
                   phase := if r.aborted then Idle
                            else ph.(i := ph.i + 1, run := r, envs := ph.envs[ph.i := e], fetched := None))
  }

  /** The answer is a rendering of this very version. */
  ghost predicate IsFaithful(v: Version, f: Fetched) {
    f.Got? && f.body.conv.Some? && f.body.conv.value in v.renderings
  }

  /** Something is written for the item that is no rendering of the listed version. */
  ghost predicate Misleads(v: Version, e: ItemEnv) {
    e.writeOk && Content(e) != [] && !IsFaithful(v, e.fetched)
  }

  ghost function MisledOf(all: seq<Version>, envs: seq<ItemEnv>, i: nat): (r: set<string>)
    requires i <= |all| == |envs|
  {
    set j | 0 <= j < i && Misleads(all[j], envs[j]) :: all[j].summary.uuid
  }

  /** The file of v is a rendering of some version that its conversation ever had. */
  ghost predicate IsGenuine(versions: set<Version>, disk: Disk, v: Version) {
    exists x, c :: x in versions && x.summary.uuid == v.summary.uuid && c in x.renderings && Holds(disk, v, c)
  }

  ghost predicate Holds(disk: Disk, v: Version, c: FullConv) {
    At(disk, FileOf(v)) == Some(Export(c))
  }

  ghost function TrustedOf(versions: set<Version>, disk: Disk, all: seq<Version>, gets: seq<string>): (r: set<string>) {
    set j | 0 <= j < |all| && all[j].summary.uuid !in gets && !IsGenuine(versions, disk, all[j]) :: all[j].summary.uuid
  }

  ghost function ExcusesOf(w: World): (r: Excuses)
    requires w.phase.Syncing? && w.phase.i <= |w.phase.all| == |w.phase.envs|
  {
    var ph := w.phase;
    Excuses(ph.run.failed, MisledOf(ph.all, ph.envs, ph.i), TrustedOf(w.versions, w.disk, ph.all, ph.run.gets))
  }

  /** The end of the chat half: the state is saved, or saving fails and everything stays as it was. */
  ghost predicate Finish(w: World, w': World, now: string, saveOk: bool) {
    && w.phase.Syncing? && w.phase.i == |w.phase.all| == |w.phase.envs| && now != ""
    && var p := AfterRun(w.saved, w.phase.mod, now, w.phase.run);
       w' == if saveOk
             then w.(saved := p, phase := Idle,
                     excused := if p.lastCookieMod == w.phase.mod != "" then ExcusesOf(w) else w.excused)
             else w.(phase := Idle)
  }

  /** A crash, or a hard error before the loop: what was in memory is gone. */
  ghost predicate Crash(w: World, w': World) {
    w' == w.(phase := Idle)
  }

  /** The surfaces half writes project documents and the memory blob, and the time of its success. */
  ghost predicate WriteSurface(w: World, w': World, name: string, content: Bytes, lastSurfaces: string) {
    && w.phase.Idle? && IsSurfaceName(name)
    && w' == w.(disk := w.disk[name := content], saved := w.saved.(lastSurfaces := lastSurfaces))
  }

  /** The state file is lost or unreadable: the next cycle starts from an empty state. */
  ghost predicate Forget(w: World, w': World) {
    w.phase.Idle? && w' == w.(saved := EMPTY)
  }

  /** What Desktop and the file system do on their own. */
  ghost predicate Environment(w: World, w': World) {
    || (exists v :: Change(w, w', v))
    || (exists u :: Delete(w, w', u))
    || (exists m :: Flush(w, w', m))
    || Forget(w, w')
  }

  ghost predicate Step(w: World, w': World) {
    || Environment(w, w')
    || (exists m :: Wake(w, w', m))
    || (exists all, envs :: List(w, w', all, envs))
    || (exists f :: Replied(w, w', f))
    || (exists ok :: Item(w, w', ok))
    || (exists now, ok :: Finish(w, w', now, ok))
    || Crash(w, w')
    || (exists name, content, t :: WriteSurface(w, w', name, content, t))
  }

  // ---- the invariant ----

  ghost predicate VersionsInv(w: World) {
    && (forall v :: v in w.versions ==> IsPlain(v))
    && (forall v, x ::
          v in w.versions && x in w.versions && v.summary.uuid == x.summary.uuid && Stamp(v) == Stamp(x) ==>
          v == x)
    && (forall v, x ::
          v in w.versions && x in w.versions && v.summary.uuid != x.summary.uuid ==> FileOf(v) != FileOf(x))
    && (forall u :: u in w.server ==> w.server[u] in w.versions && w.server[u].summary.uuid == u)
  }

  ghost predicate CookieInv(w: World) {
    && w.cookie != "" && w.cookie in w.used
    && (w.saved.lastCookieMod == "" || w.saved.lastCookieMod in w.used)
    && (w.saved.lastSync == "" ==> w.saved.lastCookieMod == "")
  }

  /** The file is a rendering of exactly this version. */
  ghost predicate IsCurrent(disk: Disk, v: Version) {
    exists c :: c in v.renderings && Holds(disk, v, c)
  }

  /** Every conversation on the server is current on disk, or excused. */
  ghost predicate InSync(w: World) {
    forall u :: u in w.server ==> IsCurrent(w.disk, w.server[u]) || IsExcused(w.excused, u)
  }

  ghost predicate IsExcused(x: Excuses, u: string) {
    u in x.failed || u in x.misled || u in x.trusted
  }

  /** Nothing that happened is still on its way, and the watermark says the last trigger was handled. */
  ghost predicate Handled(w: World) {
    !w.pending && w.saved.lastCookieMod == w.cookie
  }

  /** What holds for the mtime of a cycle under way. */
  ghost predicate MtimeInv(w: World, mod: string, dirty: bool) {
    && (mod == "" || mod in w.used)
    && Triggered(w.saved, mod)
    && w.saved.lastCookieMod != w.cookie
    && (dirty ==> w.pending || w.cookie != mod)
  }

  ghost predicate LoopInv(w: World)
    requires w.phase.Syncing?
  {
    var ph := w.phase;
    && ph.i <= |ph.all| == |ph.envs|
    && (forall j :: 0 <= j < |ph.all| ==> ph.all[j] in w.versions)
    && ph.run == SyncUpTo(Summaries(ph.all), ph.envs, FreshRun(w.saved.conversations, ph.disk0), ph.i)
    && ph.run.disk == w.disk && !ph.run.aborted
    && (!ph.dirty ==> ListsServer(w.server, ph.all) && Progress(w))
  }

  /** Every item done so far is current, or accounted for. */
  ghost predicate Progress(w: World)
    requires w.phase.Syncing? && w.phase.i <= |w.phase.all| == |w.phase.envs|
  {
    forall j :: 0 <= j < w.phase.i ==>
      IsAccounted(w.versions, w.disk, w.phase.run, MisledOf(w.phase.all, w.phase.envs, w.phase.i), w.phase.all[j])
  }

  ghost predicate IsAccounted(versions: set<Version>, disk: Disk, r: Run, misled: set<string>, v: Version) {
    || IsCurrent(disk, v)
    || v.summary.uuid in r.failed || v.summary.uuid in misled
    || (v.summary.uuid !in r.gets && !IsGenuine(versions, disk, v))
  }

  ghost predicate PhaseInv(w: World) {
    match w.phase
    case Idle => true
    case MtimeRead(mod, dirty) => MtimeInv(w, mod, dirty)
    case Syncing(mod, dirty, _, _, _, _, _, _) => MtimeInv(w, mod, dirty) && LoopInv(w)
  }

  ghost predicate Inv(w: World) {
    CookieInv(w) && VersionsInv(w) && PhaseInv(w) && (Handled(w) ==> InSync(w))
  }

  // ---- a header that matches is a file that is current ----

  lemma TimestampBytes(s: string)
    requires IsTimestamp(s)
    ensures s != "" && IsAscii(Trunc(s, 19)) && |VersionBytes(s)| == 19
    ensures '\n' !in Trunc(s, 19) && TrimBytes(VersionBytes(s)) == VersionBytes(s)
  {
    var t := Trunc(s, 19);
    Utf8Ascii(t);
    assert VersionBytes(s)[0] == t[0] as int && VersionBytes(s)[18] == t[18] as int;
    TrimBytesFixed(VersionBytes(s));
  }

  lemma {:induction false} MatchingHeaderIsSameStamp(v: Version, x: Version, c: FullConv)
    requires IsPlain(v) && IsPlain(x) && c in x.renderings
    requires FileConvUpdatedAt(Export(c)) == VersionBytes(v.summary.updatedAt)
    ensures Stamp(x) == Stamp(v)
  {
    hide Utf8, FileConvUpdatedAt, Render, TrimBytes, IsAscii, Trunc, IsTimestamp;
    assert IsRenderingOf(c, x.summary);
    TimestampBytes(v.summary.updatedAt);
    TimestampBytes(c.updatedAt);
    ReadBackOrShorter(c);
    Utf8Injective(Stamp(x), Stamp(v));
  }

  lemma FileOfStartsWithDigit(v: Version)
    requires IsPlain(v)
    ensures !IsSurfaceName(FileOf(v))
  {
    ConvFilenameNamespace(v.summary, "", "", "");
  }

  lemma FreshFileHasHeader(disk: Disk, v: Version, c: FullConv)
    requires FileIsCurrent(disk, v.summary) && Holds(disk, v, c)
    ensures FileConvUpdatedAt(Export(c)) == VersionBytes(v.summary.updatedAt)
  {
    hide ConvFilename, FileConvUpdatedAt, Export, VersionBytes;
  }

  /** Skipping or seeding is right: a file whose header matches, and which is a rendering of any version of the
  conversation at all, is a rendering of the listed one. */
  lemma {:induction false} FreshFileIsCurrent(w: World, v: Version)
    requires VersionsInv(w) && v in w.versions && FileIsCurrent(w.disk, v.summary) && IsGenuine(w.versions, w.disk, v)
    ensures IsCurrent(w.disk, v)
  {
    hide FileIsCurrent, Export, FileOf, Stamp, IsPlain;
    var x, c :| x in w.versions && x.summary.uuid == v.summary.uuid && c in x.renderings && Holds(w.disk, v, c);
    FreshFileHasHeader(w.disk, v, c);
    MatchingHeaderIsSameStamp(v, x, c);
  }

  /** A file whose header does not match is never trusted, whatever the state records: an HTML page or an old version is
  asked for again. */
  lemma DistrustedIsAskedFor(known: Known, disk: Disk, v: Version)
    requires FileOf(v) in disk ==> FileConvUpdatedAt(disk[FileOf(v)]) != VersionBytes(v.summary.updatedAt)
    ensures Decide(known, disk, v.summary) == ActionFetch
  {
    OneFreshnessRule(known, disk, v.summary);
    hide Decide, ConvFilename, FileConvUpdatedAt, VersionBytes;
  }

  // ---- each step keeps the invariant ----

  lemma {:induction false} ChangeKeeps(w: World, w': World, v: Version)
    requires Inv(w) && Change(w, w', v)
    ensures Inv(w')
  {
    hide SyncUpTo, Export, FileOf, IsPlain, Stamp, Progress, ListsServer, IsCurrent;
  }

  lemma {:induction false} DeleteKeeps(w: World, w': World, u: string)
    requires Inv(w) && Delete(w, w', u)
    ensures Inv(w')
  {
    hide SyncUpTo, Export, FileOf, IsPlain, Stamp, Progress, ListsServer, IsCurrent;
  }

  lemma {:induction false} FlushKeeps(w: World, w': World, m: string)
    requires Inv(w) && Flush(w, w', m)
    ensures Inv(w')
  {
    hide SyncUpTo, Export, FileOf, IsPlain, Stamp, IsAccounted, ListsServer, IsCurrent, MisledOf;
  }

  lemma {:induction false} WakeKeeps(w: World, w': World, mod: string)
    requires Inv(w) && Wake(w, w', mod)
    ensures Inv(w')
  {
    hide SyncUpTo, Export, FileOf, IsPlain, Stamp, IsCurrent;
  }

  lemma {:induction false} ListKeeps(w: World, w': World, all: seq<Version>, envs: seq<ItemEnv>)
    requires Inv(w) && List(w, w', all, envs)
    ensures Inv(w')
  {
    hide Export, FileOf, IsPlain, Stamp, IsAccounted, IsCurrent, MisledOf;
  }

  lemma {:induction false} ReplyKeeps(w: World, w': World, a: Fetched)
    requires Inv(w) && Replied(w, w', a)
    ensures Inv(w')
  {
    hide SyncUpTo, Export, FileOf, IsPlain, Stamp, IsAccounted, ListsServer, IsCurrent, MisledOf, Decide;
  }

  /** What a faithful answer writes is a rendering of the listed version. */
  lemma FaithfulIsExport(v: Version, known: Known, disk: Disk, e: ItemEnv)
    requires IsFaithful(v, e.fetched) && Writes(KindOf(known, disk, v.summary, e))
    ensures Content(e) == Export(e.fetched.body.conv.value)
  {
    hide Utf8, Render, Decide;
  }

  lemma WrittenIsNotEmpty(known: Known, disk: Disk, c: ConvSummary, e: ItemEnv)
    requires Writes(KindOf(known, disk, c, e))
    ensures e.writeOk && Content(e) != []
  {
    hide Decide, Utf8, MarkdownOf;
    Utf8NonEmpty(MarkdownOf(e.fetched.body));
  }

  /** What an item does to the world, by its kind. */
  ghost predicate ItemEffect(w: World, w': World, writeOk: bool, k: Kind)
    requires w.phase.Syncing? && w.phase.i < |w.phase.all| == |w.phase.envs|
  {
    var ph := w.phase; var v := ph.all[ph.i]; var e := ItemMet(ph, writeOk);
    && w' == w.(disk := w'.disk, phase := w'.phase)
    && w'.disk == (if Writes(k) then w.disk[FileOf(v) := Content(e)] else w.disk)
    && (if k == Aborted then w'.phase == Idle
        else
          && w'.phase.Syncing?
          && w'.phase == ph.(i := ph.i + 1, run := w'.phase.run, envs := ph.envs[ph.i := e], fetched := None)
          && w'.phase.run.failed == (if k == Errored then ph.run.failed + {v.summary.uuid} else ph.run.failed)
          && w'.phase.run.gets == (if Fetches(k) then ph.run.gets + [v.summary.uuid] else ph.run.gets))
  }

  lemma {:induction false} ItemHasEffect(w: World, w': World, writeOk: bool) returns (k: Kind)
    requires Inv(w) && Item(w, w', writeOk)
    ensures k == KindOf(w.phase.run.known, w.disk, w.phase.all[w.phase.i].summary, ItemMet(w.phase, writeOk))
    ensures ItemEffect(w, w', writeOk, k)
  {
    hide SyncUpTo, Export, IsPlain, Stamp, Decide, Content, KindOf, ConvFilename, VersionsInv, Progress, InSync;
    k := KindOf(w.phase.run.known, w.disk, w.phase.all[w.phase.i].summary, ItemMet(w.phase, writeOk));
  }

  lemma MisledGrows(all: seq<Version>, envs: seq<ItemEnv>, i: nat, e: ItemEnv)
    requires i < |all| == |envs|
    ensures MisledOf(all, envs[i := e], i + 1)
         == MisledOf(all, envs, i) + if Misleads(all[i], e) then {all[i].summary.uuid} else {}
  {
    hide Misleads;
    var envs' := envs[i := e];
    forall u ensures u in MisledOf(all, envs', i + 1) <==>
                     u in MisledOf(all, envs, i) || (Misleads(all[i], e) && u == all[i].summary.uuid)
    {
      if u in MisledOf(all, envs, i) {
        var j :| 0 <= j < i && Misleads(all[j], envs[j]) && all[j].summary.uuid == u;
        assert envs'[j] == envs[j];
      }
      if u in MisledOf(all, envs', i + 1) {
        var j :| 0 <= j < i + 1 && Misleads(all[j], envs'[j]) && all[j].summary.uuid == u;
        assert j < i ==> envs'[j] == envs[j];
      }
      assert envs'[i] == e;
    }
  }

  /** A conversation that an item does not concern stays as accounted for as it was. */
  lemma OthersStayAccounted(versions: set<Version>, disk: Disk, disk': Disk, r: Run, r': Run, misled: set<string>,
          misled': set<string>, y: Version)
    requires IsAccounted(versions, disk, r, misled, y) && At(disk', FileOf(y)) == At(disk, FileOf(y))
    requires r.failed <= r'.failed && misled <= misled' && (y.summary.uuid in r'.gets ==> y.summary.uuid in r.gets)
    ensures IsAccounted(versions, disk', r', misled', y)
  {
    hide Export, FileOf;
    if IsCurrent(disk, y) {
      var c :| c in y.renderings && Holds(disk, y, c);
      assert Holds(disk', y, c);
    }
    if IsGenuine(versions, disk', y) {
      var x, c :| x in versions && x.summary.uuid == y.summary.uuid && c in x.renderings && Holds(disk', y, c);
      assert Holds(disk, y, c);
    }
  }

  /** The item just done is accounted for: written from a faithful answer it is current, otherwise it misleads;
  skipped or seeded it is current, or on a file that is no rendering of any version. */
  lemma ItemIsAccounted(w: World, v: Version, e: ItemEnv, k: Kind, disk': Disk, r': Run, misled': set<string>)
    requires VersionsInv(w) && w.phase.Syncing? && v in w.versions && k != Aborted
    requires k == KindOf(w.phase.run.known, w.disk, v.summary, e)
    requires disk' == if Writes(k) then w.disk[FileOf(v) := Content(e)] else w.disk
    requires k == Errored ==> v.summary.uuid in r'.failed
    requires !Fetches(k) ==> r'.gets == w.phase.run.gets && w.phase.run.failed <= r'.failed
    requires Misleads(v, e) && Writes(k) ==> v.summary.uuid in misled'
    requires v.summary.uuid in w.phase.run.gets ==>
      IsCurrent(w.disk, v) || v.summary.uuid in w.phase.run.failed || v.summary.uuid in misled'
    ensures IsAccounted(w.versions, disk', r', misled', v)
  {
    FetchingKind(w.phase.run.known, w.disk, v.summary, e);
    OneFreshnessRule(w.phase.run.known, w.disk, v.summary);
    hide Export, FileOf, Stamp, IsPlain, KindOf, Decide, FileIsCurrent, Content, VersionsInv, IsGenuine, ConvFilename;
    if Writes(k) {
      WrittenIsNotEmpty(w.phase.run.known, w.disk, v.summary, e);
      if IsFaithful(v, e.fetched) {
        FaithfulIsExport(v, w.phase.run.known, w.disk, e);
        assert Holds(disk', v, e.fetched.body.conv.value);
      }
    } else if !Fetches(k) && IsGenuine(w.versions, w.disk, v) {
      FreshFileIsCurrent(w, v);
    }
  }

  lemma ListedOnce(server: map<string, Version>, all: seq<Version>, i: nat, j: nat)
    requires ListsServer(server, all) && i < |all| && j < |all| && all[i].summary.uuid == all[j].summary.uuid
    ensures all[i] == all[j]
  {
  }

  lemma OtherFile(w: World, v: Version, y: Version)
    requires VersionsInv(w) && v in w.versions && y in w.versions && v.summary.uuid != y.summary.uuid
    ensures FileOf(v) != FileOf(y)
  {
  }

  lemma AskedWasAccounted(versions: set<Version>, disk: Disk, r: Run, misled: set<string>, v: Version)
    requires IsAccounted(versions, disk, r, misled, v) && v.summary.uuid in r.gets
    ensures IsCurrent(disk, v) || v.summary.uuid in r.failed || v.summary.uuid in misled
  {
  }

  /** Only listed conversations are asked for. */
  lemma {:induction false} AskedAreListed(all: seq<ConvSummary>, envs: seq<ItemEnv>, known: Known, disk: Disk, i: nat)
    requires i <= |all| == |envs|
    ensures forall u :: u in SyncUpTo(all, envs, FreshRun(known, disk), i).gets ==> IsFrom(all, i, u)
  {
    hide KindOf, ConvFilename, Content, IsFrom;
    if i > 0 {
      AskedAreListed(all, envs, known, disk, i - 1);
      FromStep(all, i);
    }
  }

  lemma FromStep(all: seq<ConvSummary>, i: nat)
    requires 0 < i <= |all|
    ensures IsFrom(all, i, all[i - 1].uuid) && forall u :: IsFrom(all, i - 1, u) ==> IsFrom(all, i, u)
  {
  }

  /** If the current item was asked for before, under the same listing, it is accounted for already. */
  lemma EarlierIsAccounted(w: World, misled: set<string>)
    requires Inv(w) && w.phase.Syncing? && !w.phase.dirty && w.phase.i < |w.phase.all|
    requires misled == MisledOf(w.phase.all, w.phase.envs, w.phase.i)
    ensures
      var v := w.phase.all[w.phase.i];
      v.summary.uuid in w.phase.run.gets ==>
        IsCurrent(w.disk, v) || v.summary.uuid in w.phase.run.failed || v.summary.uuid in misled
  {
    var ph := w.phase;
    var v := ph.all[ph.i];
    AskedAreListed(Summaries(ph.all), ph.envs, w.saved.conversations, ph.disk0, ph.i);
    hide SyncUpTo, IsAccounted, ListsServer, VersionsInv, MisledOf, IsCurrent;
    if v.summary.uuid in ph.run.gets {
      assert IsFrom(Summaries(ph.all), ph.i, v.summary.uuid);
      var j :| 0 <= j < ph.i && Summaries(ph.all)[j].uuid == v.summary.uuid;
      ListedOnce(w.server, ph.all, j, ph.i);
      assert IsAccounted(w.versions, w.disk, ph.run, misled, ph.all[j]);
      AskedWasAccounted(w.versions, w.disk, ph.run, misled, v);
    }
  }

  lemma OtherItemStays(w: World, w': World, writeOk: bool, k: Kind, misled: set<string>, misled': set<string>,
          y: Version)
    requires VersionsInv(w) && w.phase.Syncing? && w.phase.i < |w.phase.all| == |w.phase.envs|
    requires ItemEffect(w, w', writeOk, k) && k != Aborted && misled <= misled'
    requires
      var v := w.phase.all[w.phase.i];
      v in w.versions && y in w.versions && v.summary.uuid != y.summary.uuid
    requires IsAccounted(w.versions, w.disk, w.phase.run, misled, y)
    ensures IsAccounted(w.versions, w'.disk, w'.phase.run, misled', y)
  {
    hide Content, FileOf, IsAccounted, VersionsInv;
    OtherFile(w, w.phase.all[w.phase.i], y);
    OthersStayAccounted(w.versions, w.disk, w'.disk, w.phase.run, w'.phase.run, misled, misled', y);
  }

  /** The item just done is accounted for, and no earlier one is spoilt. */
  /** What was accounted for before an item still is after it. */
  lemma EarlierStays(w: World, w': World, writeOk: bool, k: Kind, misled: set<string>, misled': set<string>, y: Version)
    requires VersionsInv(w) && w.phase.Syncing? && w.phase.i < |w.phase.all| == |w.phase.envs|
    requires ListsServer(w.server, w.phase.all) && y in w.phase.all && y in w.versions
    requires w.phase.all[w.phase.i] in w.versions
    requires ItemEffect(w, w', writeOk, k) && k != Aborted && misled <= misled'
    requires IsAccounted(w.versions, w.disk, w.phase.run, misled, y)
    requires IsAccounted(w.versions, w'.disk, w'.phase.run, misled', w.phase.all[w.phase.i])
    ensures IsAccounted(w.versions, w'.disk, w'.phase.run, misled', y)
  {
    hide ItemEffect, IsAccounted, VersionsInv, ListsServer;
    var all, i := w.phase.all, w.phase.i;
    if y.summary.uuid == all[i].summary.uuid {
      var j :| 0 <= j < |all| && all[j] == y;
      ListedOnce(w.server, all, j, i);
    } else {
      OtherItemStays(w, w', writeOk, k, misled, misled', y);
    }
  }

  lemma {:induction false} ItemKeepsProgress(w: World, w': World, writeOk: bool)
    requires Inv(w) && Item(w, w', writeOk) && w'.phase.Syncing? && !w.phase.dirty
    ensures Progress(w')
  {
    hide SyncUpTo, SyncItem, Decide, Content, KindOf, ConvFilename, FileOf, ItemMet, IsAccounted, IsCurrent,
         ListsServer, VersionsInv, MisledOf, Misleads, CookieInv, MtimeInv, InSync, Handled, IsGenuine;
    var ph := w.phase;
    var v, e := ph.all[ph.i], ItemMet(ph, writeOk);
    var misled := MisledOf(ph.all, ph.envs, ph.i);
    var misled' := MisledOf(ph.all, ph.envs[ph.i := e], ph.i + 1);
    var k := ItemHasEffect(w, w', writeOk);
    hide Item;
    MisledGrows(ph.all, ph.envs, ph.i, e);
    EarlierIsAccounted(w, misled);
    ItemIsAccounted(w, v, e, k, w'.disk, w'.phase.run, misled');
    forall j | 0 <= j < w'.phase.i ensures IsAccounted(w'.versions, w'.disk, w'.phase.run, misled', w'.phase.all[j]) {
      if j < ph.i {
        EarlierStays(w, w', writeOk, k, misled, misled', ph.all[j]);
      }
    }
  }

  lemma {:induction false} ItemKeepsLoop(w: World, w': World, writeOk: bool)
    requires Inv(w) && Item(w, w', writeOk) && w'.phase.Syncing?
    ensures
      var ph, ph' := w.phase, w'.phase;
      && ph' == ph.(i := ph.i + 1, run := ph'.run, envs := ph'.envs, fetched := None)
      && |ph'.envs| == |ph.envs| && !ph'.run.aborted && ph'.run.disk == w'.disk
      && ph'.run == SyncUpTo(Summaries(ph.all), ph'.envs, FreshRun(w.saved.conversations, ph.disk0), ph'.i)
  {
    hide Export, IsPlain, Stamp, Decide, Content, KindOf, ConvFilename, VersionsInv, Progress, InSync, ListsServer,
         FileOf, SyncItem, SyncUpTo;
    var ph := w.phase;
    RunGoesOn(Summaries(ph.all), ph.envs, FreshRun(w.saved.conversations, ph.disk0), ph.i, ItemMet(ph, writeOk));
  }

  lemma {:induction false} ItemKeepsRest(w: World, w': World, writeOk: bool)
    requires Inv(w) && Item(w, w', writeOk)
    ensures CookieInv(w') && VersionsInv(w') && !Handled(w')
    ensures w'.phase.Syncing? ==> w'.phase.dirty == w.phase.dirty && MtimeInv(w', w'.phase.mod, w'.phase.dirty)
    ensures w'.versions == w.versions && w'.server == w.server && w'.saved == w.saved
    ensures w'.phase == Idle || w'.phase.Syncing?
  {
    hide SyncUpTo, SyncItem, Export, IsPlain, Stamp, Decide, Content, KindOf, ConvFilename, LoopInv, Progress, InSync,
         ListsServer, FileOf;
  }

  lemma {:induction false} ItemKeeps(w: World, w': World, writeOk: bool)
    requires Inv(w) && Item(w, w', writeOk)
    ensures Inv(w')
  {
    ItemKeepsRest(w, w', writeOk);
    if w'.phase.Syncing? {
      ItemKeepsLoop(w, w', writeOk);
      if !w.phase.dirty {
        ItemKeepsProgress(w, w', writeOk);
      }
    }
    hide SyncUpTo, SyncItem, Decide, Content, KindOf, ConvFilename, VersionsInv, CookieInv, MtimeInv, Progress, InSync,
         ListsServer, FileOf, Item, Handled;
  }

  /** At the end of an undisturbed loop every conversation on the server is current or excused. */
  lemma EndIsInSync(w: World, u: string)
    requires Inv(w) && w.phase.Syncing? && !w.phase.dirty && w.phase.i == |w.phase.all| && u in w.server
    ensures IsCurrent(w.disk, w.server[u]) || IsExcused(ExcusesOf(w), u)
  {
    hide SyncUpTo, IsPlain, Stamp, IsCurrent, MisledOf, IsGenuine, FileOf;
    var ph, v := w.phase, w.server[u];
    var j :| 0 <= j < |ph.all| && ph.all[j] == v;
    assert IsAccounted(w.versions, w.disk, ph.run, MisledOf(ph.all, ph.envs, ph.i), ph.all[j]);
    if u !in ph.run.gets && !IsGenuine(w.versions, w.disk, v) {
      assert u in TrustedOf(w.versions, w.disk, ph.all, ph.run.gets);
    }
  }

  lemma {:induction false} FinishKeeps(w: World, w': World, now: string, saveOk: bool)
    requires Inv(w) && Finish(w, w', now, saveOk)
    ensures Inv(w')
  {
    hide SyncUpTo, Export, FileOf, IsPlain, Stamp, IsCurrent, ExcusesOf, Progress, ListsServer, IsExcused;
    if Handled(w') {
      forall u | u in w'.server ensures IsCurrent(w'.disk, w'.server[u]) || IsExcused(w'.excused, u) {
        EndIsInSync(w, u);
      }
    }
  }

  lemma {:induction false} CrashKeeps(w: World, w': World)
    requires Inv(w) && Crash(w, w')
    ensures Inv(w')
  {
    hide SyncUpTo, Export, FileOf, IsPlain, Stamp, IsCurrent;
  }

  lemma {:induction false} ForgetKeeps(w: World, w': World)
    requires Inv(w) && Forget(w, w')
    ensures Inv(w')
  {
    hide SyncUpTo, Export, FileOf, IsPlain, Stamp, IsCurrent;
  }

  lemma {:induction false} WriteSurfaceKeeps(w: World, w': World, name: string, content: Bytes, lastSurfaces: string)
    requires Inv(w) && WriteSurface(w, w', name, content, lastSurfaces)
    ensures Inv(w')
  {
    hide SyncUpTo, Export, IsPlain, Stamp, IsSurfaceName, ConvFilename;
    forall v | v in w.versions && IsCurrent(w.disk, v) ensures IsCurrent(w'.disk, v) {
      FileOfStartsWithDigit(v);
      var c :| c in v.renderings && Holds(w.disk, v, c);
      assert Holds(w'.disk, v, c);
    }
  }

  // ---- every run ----

  lemma {:induction false} EnvironmentKeepsInv(w: World, w': World)
    requires Inv(w) && Environment(w, w')
    ensures Inv(w')
  {
    hide Inv, Change, Delete, Flush, Forget;
    if v :| Change(w, w', v) {
      ChangeKeeps(w, w', v);
    } else if u :| Delete(w, w', u) {
      DeleteKeeps(w, w', u);
    } else if m :| Flush(w, w', m) {
      FlushKeeps(w, w', m);
    } else {
      ForgetKeeps(w, w');
    }
  }

  lemma {:induction false} StepKeepsInv(w: World, w': World)
    requires Inv(w) && Step(w, w')
    ensures Inv(w')
  {
    hide Inv, Environment, Wake, List, Replied, Item, Finish, Crash, WriteSurface;
    if Environment(w, w') {
      EnvironmentKeepsInv(w, w');
    } else if m :| Wake(w, w', m) {
      WakeKeeps(w, w', m);
    } else if all, envs :| List(w, w', all, envs) {
      ListKeeps(w, w', all, envs);
    } else if f :| Replied(w, w', f) {
      ReplyKeeps(w, w', f);
    } else if ok :| Item(w, w', ok) {
      ItemKeeps(w, w', ok);
    } else if now, ok :| Finish(w, w', now, ok) {
      FinishKeeps(w, w', now, ok);
    } else if Crash(w, w') {
      CrashKeeps(w, w');
    } else {
      var name, content, t :| WriteSurface(w, w', name, content, t);
      WriteSurfaceKeeps(w, w', name, content, t);
    }
  }

  /** The daemon starts with a trigger armed. The state is any, and the directory holds anything: exports of any
  version, outdated or current, as the one-shot harvest leaves them, or pages that an older build stored and
  recorded. */
  ghost predicate Init(w: World) {
    w.phase == Idle && CookieInv(w) && VersionsInv(w) && !Handled(w)
  }

  /** A run: one step after the other. */
  ghost predicate IsRun(ws: seq<World>) {
    && |ws| > 0 && Init(ws[0])
    && forall i :: 0 <= i < |ws| - 1 ==> Step(ws[i], ws[i + 1])
  }

  lemma {:induction false} RunKeepsInv(ws: seq<World>, i: nat)
    requires IsRun(ws) && i < |ws|
    ensures Inv(ws[i])
  {
    hide Step;
    if i == 0 {
    } else {
      hide Inv;
      RunKeepsInv(ws, i - 1);
      assert Step(ws[i - 1], ws[i - 1 + 1]);
      StepKeepsInv(ws[i - 1], ws[i]);
    }
  }

  /** No lost update. Whatever Desktop activity, answers, failures, deadlines and crashes come between the daemon's
  steps: whenever nothing is on its way and the watermark equals the Cookie DB's modification time, every
  conversation on the server is on disk as a rendering of exactly the server's version, except what the
  cycle that advanced the watermark leaves open: its error items, those for which it wrote an answer that was no
  rendering of the listed version, and those it did not ask for on a file that is no rendering of any. */
  lemma NoLostUpdate(ws: seq<World>, i: nat, uuid: string)
    requires IsRun(ws) && i < |ws| && Handled(ws[i])
    requires uuid in ws[i].server && !IsExcused(ws[i].excused, uuid)
    ensures
      var v := ws[i].server[uuid];
      exists c :: c in v.renderings && At(ws[i].disk, FileOf(v)) == Some(Export(c))
  {
    RunKeepsInv(ws, i);
    hide FileOf, Export, Step;
    var v := ws[i].server[uuid];
    var c :| c in v.renderings && Holds(ws[i].disk, v, c);
  }

  /** What a completed cycle leaves is what the cycle as one step computes, from the disk at its start and
  the answers it met. */
  lemma FinishIsChatCycle(w: World, w': World, now: string)
    requires Inv(w) && Finish(w, w', now, true)
    ensures
      var ph := w.phase;
      (w'.saved, w'.disk) == ChatCycle(w.saved, ph.disk0, ph.mod, now, Summaries(ph.all), ph.envs)
  {
    hide SyncUpTo, VersionsInv, CookieInv, ListsServer, Progress, InSync, CookieWatermark, ExcusesOf;
  }

  /** A distrusted file heals as soon as the answer is faithful and the write works, whatever the state recorded. */
  lemma DistrustedHeals(w: World, w': World, writeOk: bool)
    requires Inv(w) && Item(w, w', writeOk) && writeOk
    requires
      var v := w.phase.all[w.phase.i];
      && !FileIsCurrent(w.disk, v.summary)
      && IsFaithful(v, ItemMet(w.phase, writeOk).fetched)
      && !IsEmptyConv(ItemMet(w.phase, writeOk).fetched.body.conv.value)
    ensures IsCurrent(w'.disk, w.phase.all[w.phase.i])
  {
    var v, e := w.phase.all[w.phase.i], ItemMet(w.phase, writeOk);
    var k := ItemHasEffect(w, w', writeOk);
    OneFreshnessRule(w.phase.run.known, w.disk, v.summary);
    FaithfulIsNotEmpty(v, e);
    hide Decide, FileIsCurrent, KindOf, Content, Item, FileOf, Export, ConvFilename, Inv;
    WouldBeWritten(w.phase.run.known, w.disk, v.summary, e);
    FaithfulIsExport(v, w.phase.run.known, w.disk, e);
    assert Holds(w'.disk, v, e.fetched.body.conv.value);
  }

  lemma FaithfulIsNotEmpty(v: Version, e: ItemEnv)
    requires IsFaithful(v, e.fetched) && !IsEmptyConv(e.fetched.body.conv.value)
    ensures Content(e) != []
  {
    HeadStarts(e.fetched.body.conv.value);
    Utf8NonEmpty(Render(e.fetched.body.conv.value));
    hide Utf8, Head, Sections;
  }

  // ---- what is left open ----

  lemma {:induction false} NoErrorNoFailure(all: seq<ConvSummary>, envs: seq<ItemEnv>, known: Known, disk: Disk, i: nat)
    requires i <= |all| == |envs|
    ensures
      var r := SyncUpTo(all, envs, FreshRun(known, disk), i);
      r.errN == 0 ==> r.failed == {}
  {
    hide KindOf, ConvFilename, Content;
    if i > 0 {
      NoErrorNoFailure(all, envs, known, disk, i - 1);
    }
  }

  lemma {:induction false} ItemExcusesNothing(w: World, w': World, writeOk: bool)
    requires Item(w, w', writeOk)
    ensures w'.excused == w.excused
  {
    hide SyncItem, KindOf, Decide, ItemMet, FileOf;
  }

  lemma {:induction false} LoopStartExcusesNothing(w: World, w': World, all: seq<Version>, envs: seq<ItemEnv>)
    requires List(w, w', all, envs)
    ensures w'.excused == w.excused
  {
    hide ListsServer, FreshRun;
  }

  lemma {:induction false} EnvironmentExcusesNothing(w: World, w': World)
    requires Environment(w, w')
    ensures w'.excused == w.excused
  {
    hide Disturbed, IsPlain, FileOf, Stamp;
  }

  lemma {:induction false} ReplyExcusesNothing(w: World, w': World, f: Fetched)
    requires Replied(w, w', f)
    ensures w'.excused == w.excused
  {
    hide Decide;
  }

  lemma {:induction false} FailedSaveExcusesNothing(w: World, w': World, now: string)
    requires Finish(w, w', now, false)
    ensures w'.excused == w.excused
  {
  }

  lemma {:induction false} OnlyFinishExcuses(w: World, w': World) returns (now: string)
    requires Step(w, w') && w'.excused != w.excused
    ensures Finish(w, w', now, true)
  {
    hide Environment, Item, List, Replied, Finish, IsSurfaceName, Triggered;
    if Environment(w, w') {
      EnvironmentExcusesNothing(w, w');
    }
    if ok :| Item(w, w', ok) {
      ItemExcusesNothing(w, w', ok);
    }
    if all, envs :| List(w, w', all, envs) {
      LoopStartExcusesNothing(w, w', all, envs);
    }
    if f :| Replied(w, w', f) {
      ReplyExcusesNothing(w, w', f);
    }
    var n, ok :| Finish(w, w', n, ok);
    if !ok {
      FailedSaveExcusesNothing(w, w', n);
    }
    now := n;
  }

  // ---- the stall counter ----

  /** The end of a chat half whose state is saved. */
  ghost predicate Saves(w: World, w': World) {
    exists now :: Finish(w, w', now, true)
  }

  /** A cycle with errors that wrote nothing new or changed. */
  predicate IsStalled(w: World) {
    w.phase.Syncing? && w.phase.run.errN > 0 && w.phase.run.newN + w.phase.run.changedN == 0
  }

  /** How many saved cycles in a row were stalled, up to world i. The state found at first brings its own count, one
  that cannot have been counted being as good as two. */
  ghost function StallsInARow(ws: seq<World>, i: nat): (k: nat)
    requires i < |ws|
  {
    if i == 0 then FirstCount(ws[0])
    else if Saves(ws[i - 1], ws[i]) then if IsStalled(ws[i - 1]) then StallsInARow(ws, i - 1) + 1 else 0
    else if Forget(ws[i - 1], ws[i]) then 0
    else StallsInARow(ws, i - 1)
  }

  function FirstCount(w: World): (k: nat) {
    if w.saved.retryCycles < 3 then w.saved.retryCycles else 2
  }

  /** Saved or not, only these two steps touch the counter. */
  lemma {:induction false} SaveCounts(w: World, w': World)
    requires Saves(w, w')
    ensures w'.saved.retryCycles ==
      if !IsStalled(w) || w.saved.retryCycles >= 2 then 0 else w.saved.retryCycles + 1
  {
    hide ExcusesOf;
  }

  lemma {:induction false} ItemKeepsCounter(w: World, w': World, writeOk: bool)
    requires Item(w, w', writeOk)
    ensures w'.saved == w.saved
  {
    hide SyncItem, KindOf, Decide, ItemMet, FileOf;
  }

  lemma {:induction false} LoopStartKeepsCounter(w: World, w': World, all: seq<Version>, envs: seq<ItemEnv>)
    requires List(w, w', all, envs)
    ensures w'.saved == w.saved
  {
    hide ListsServer, FreshRun;
  }

  lemma {:induction false} EnvironmentKeepsCounter(w: World, w': World)
    requires Environment(w, w') && !Forget(w, w')
    ensures w'.saved == w.saved
  {
    hide Disturbed, IsPlain, FileOf, Stamp, Forget;
  }

  lemma {:induction false} ReplyKeepsCounter(w: World, w': World, f: Fetched)
    requires Replied(w, w', f)
    ensures w'.saved == w.saved
  {
    hide Decide;
  }

  lemma {:induction false} OthersKeepCounter(w: World, w': World)
    requires Step(w, w') && !Saves(w, w') && !Forget(w, w')
    ensures w'.saved.retryCycles == w.saved.retryCycles
  {
    hide Environment, Item, List, Replied, Finish, IsSurfaceName, Triggered, Forget, Saves;
    if Environment(w, w') {
      EnvironmentKeepsCounter(w, w');
    }
    if ok :| Item(w, w', ok) {
      ItemKeepsCounter(w, w', ok);
    }
    if all, envs :| List(w, w', all, envs) {
      LoopStartKeepsCounter(w, w', all, envs);
    }
    if f :| Replied(w, w', f) {
      ReplyKeepsCounter(w, w', f);
    }
    if now, ok :| Finish(w, w', now, ok) {
      UnsavedKeepsCounter(w, w', now, ok);
    }
  }

  lemma UnsavedKeepsCounter(w: World, w': World, now: string, saveOk: bool)
    requires Finish(w, w', now, saveOk) && !Saves(w, w')
    ensures w'.saved == w.saved
  {
    hide ExcusesOf, AfterRun;
  }

  /** In every run the counter is the number of stalled cycles in a row, up to the last at which the daemon gave up. */
  lemma {:induction false} CounterIsInARow(ws: seq<World>, i: nat)
    requires IsRun(ws) && i < |ws|
    ensures
      var n := ws[i].saved.retryCycles;
      n == StallsInARow(ws, i) % 3 || (n >= 3 && StallsInARow(ws, i) == 2)
  {
    hide Step, Saves, Forget, IsStalled, Init;
    if i > 0 {
      CounterIsInARow(ws, i - 1);
      assert Step(ws[i - 1], ws[i - 1 + 1]);
      var k := StallsInARow(ws, i - 1);
      assert (k + 1) % 3 == if k % 3 == 2 then 0 else k % 3 + 1;
      if Saves(ws[i - 1], ws[i]) {
        SaveCounts(ws[i - 1], ws[i]);
      } else if Forget(ws[i - 1], ws[i]) {
        ForgottenIsZero(ws[i - 1], ws[i]);
      } else {
        OthersKeepCounter(ws[i - 1], ws[i]);
      }
    }
  }

  lemma ForgottenIsZero(w: World, w': World)
    requires Forget(w, w')
    ensures w'.saved.retryCycles == 0
  {
  }

  /** From world a to world i no state is lost, and every cycle that is saved was stalled. */
  ghost predicate OnlyStalls(ws: seq<World>, a: nat, i: nat)
    requires a <= i < |ws|
  {
    forall j :: a <= j < i ==> !Forget(ws[j], ws[j + 1]) && (Saves(ws[j], ws[j + 1]) ==> IsStalled(ws[j]))
  }

  ghost function SavesIn(ws: seq<World>, a: nat, i: nat): (n: nat)
    requires a <= i < |ws|
  {
    if i == a then 0 else SavesIn(ws, a, i - 1) + if Saves(ws[i - 1], ws[i]) then 1 else 0
  }

  /** What was counted: the last k saved cycles were stalled, unless the count goes back to the state found at first. */
  lemma {:induction false} CountedInARow(ws: seq<World>, i: nat, k: nat) returns (a: nat)
    requires i < |ws| && k <= StallsInARow(ws, i)
    ensures a <= i && OnlyStalls(ws, a, i)
    ensures SavesIn(ws, a, i) == k || (a == 0 && k <= SavesIn(ws, 0, i) + FirstCount(ws[0]))
  {
    hide Saves, Forget, IsStalled;
    if i == 0 {
      a := 0;
    } else if k == 0 {
      a := i;
    } else if Saves(ws[i - 1], ws[i]) {
      SavedIsNotForgotten(ws[i - 1], ws[i]);
      a := CountedInARow(ws, i - 1, k - 1);
    } else {
      a := CountedInARow(ws, i - 1, k);
    }
  }

  lemma SavedIsNotForgotten(w: World, w': World)
    requires Saves(w, w')
    ensures !Forget(w, w')
  {
  }

  /** The excuses are those of a cycle that has come to its end. */
  ghost predicate AreExcusesOf(x: Excuses, w: World) {
    w.phase.Syncing? && w.phase.i == |w.phase.all| == |w.phase.envs| && x == ExcusesOf(w)
  }

  lemma {:induction false} FinishExcuses(w: World, w': World, now: string)
    requires Inv(w) && Finish(w, w', now, true) && w'.excused != w.excused
    ensures AreExcusesOf(w'.excused, w)
    ensures w'.excused.failed != {} ==> IsStalled(w) && w'.saved.retryCycles == 0
  {
    hide SyncUpTo, VersionsInv, ListsServer, Progress, InSync, MisledOf, TrustedOf;
    NoErrorNoFailure(Summaries(w.phase.all), w.phase.envs, w.saved.conversations, w.phase.disk0, w.phase.i);
  }

  /** The excuses change only at the end of a cycle, to exactly what that cycle leaves open. */
  lemma ExcusedExactly(ws: seq<World>, i: nat)
    requires IsRun(ws) && i < |ws| - 1 && ws[i + 1].excused != ws[i].excused
    ensures Saves(ws[i], ws[i + 1]) && AreExcusesOf(ws[i + 1].excused, ws[i])
    ensures ws[i + 1].excused.failed != {} ==> IsStalled(ws[i]) && ws[i + 1].saved.retryCycles == 0
  {
    hide Step, Finish, Inv, IsStalled, Init, AreExcusesOf;
    RunKeepsInv(ws, i);
    assert Step(ws[i], ws[i + 1]);
    var now := OnlyFinishExcuses(ws[i], ws[i + 1]);
    FinishExcuses(ws[i], ws[i + 1], now);
  }

  /** Error items are left open only by the third stalled cycle in a row: three saved cycles with errors and without
  progress, with no other saved cycle and no loss of the state between them. Only what the state found at first had
  counted already is not seen in the run. */
  lemma FailedOnlyAfterThree(ws: seq<World>, i: nat) returns (a: nat)
    requires IsRun(ws) && i < |ws| - 1 && ws[i + 1].excused != ws[i].excused && ws[i + 1].excused.failed != {}
    ensures Saves(ws[i], ws[i + 1]) && IsStalled(ws[i])
    ensures a <= i + 1 && OnlyStalls(ws, a, i + 1)
    ensures SavesIn(ws, a, i + 1) == 3 || (a == 0 && SavesIn(ws, 0, i + 1) + FirstCount(ws[0]) >= 3)
  {
    hide Step, Init, Saves, IsStalled, OnlyStalls, SavesIn, FirstCount, Forget, AreExcusesOf;
    ExcusedExactly(ws, i);
    CounterIsInARow(ws, i + 1);
    a := CountedInARow(ws, i + 1, 3);
  }
}
