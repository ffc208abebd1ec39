/** Project documents and the memory blob (surfaces.go; daemon.go: refreshSurfaces). */
module Surfaces {
  import opened Text
  import opened Markdown
  import opened Filenames
  import opened Fetch
  import opened Integrity

  datatype Project = Project(uuid: string, name: string)

  datatype Doc = Doc(uuid: string, fileName: string, content: string, createdAt: string)

  /** JSON decoding of the three kinds of answers. */
  datatype Decoder = Decoder(projects: string -> Option<seq<Project>>, docs: string -> Option<seq<Doc>>,
                             memory: string -> Option<string>)

  function Decoded<T>(f: Fetched, decode: string -> Option<T>): (r: Option<T>) {
    match f case Got(body) => decode(body.text) case Failed(_) => None
  }

  const SURFACE_RETRIES: nat := 5

  function ProjectsPath(org: string): (s: string) {
    "/api/organizations/" + org + "/projects"
  }

  function DocsPath(org: string, p: Project): (s: string) {
    ProjectsPath(org) + "/" + p.uuid + "/docs"
  }

  function MemoryPath(org: string): (s: string) {
    "/api/organizations/" + org + "/memory"
  }

  function DocText(p: Project, d: Doc): (s: string) {
    "# " + d.fileName + "\n\n- Project: " + p.name + " (" + p.uuid + ")\n- Doc UUID: " + d.uuid
    + "\n- Created: " + Trunc(d.createdAt, 19) + "\n\n---\n\n" + d.content + "\n"
  }

  function MemoryText(org: string, now: string, memory: string): (s: string) {
    "# claude.ai Memory (org " + org + ")\n\n- Harvested: " + now + "\n\n---\n\n" + memory + "\n"
  }

  lemma HeadAndBody(head: string, rule: string, body: string, end: string)
    ensures StartsWith(head + rule + body + end, head) && HasSuffix(head + rule + body + end, rule + body + end)
    ensures |head + rule + body + end| == |head| + |rule + body + end|
  {
    assert head + rule + body + end == head + (rule + body + end);
  }

  /** A document's file is a head that names its title, its project and itself, a rule, and its content, all of it. */
  lemma DocIsInItsText(p: Project, d: Doc)
    ensures
      var head := "# " + d.fileName + "\n\n- Project: " + p.name + " (" + p.uuid + ")\n- Doc UUID: " + d.uuid
                  + "\n- Created: " + Trunc(d.createdAt, 19);
      var body := "\n\n---\n\n" + d.content + "\n";
      StartsWith(DocText(p, d), head) && HasSuffix(DocText(p, d), body) && |DocText(p, d)| == |head| + |body|
  {
    hide StartsWith, HasSuffix, Trunc;
    var head := "# " + d.fileName + "\n\n- Project: " + p.name + " (" + p.uuid + ")\n- Doc UUID: " + d.uuid
                + "\n- Created: " + Trunc(d.createdAt, 19);
    HeadAndBody(head, "\n\n---\n\n", d.content, "\n");
  }

  /** So is the memory's. */
  lemma MemoryIsInItsText(org: string, now: string, memory: string)
    ensures
      var head := "# claude.ai Memory (org " + org + ")\n\n- Harvested: " + now;
      var body, text := "\n\n---\n\n" + memory + "\n", MemoryText(org, now, memory);
      StartsWith(text, head) && HasSuffix(text, body) && |text| == |head| + |body|
  {
    hide StartsWith, HasSuffix;
    var head := "# claude.ai Memory (org " + org + ")\n\n- Harvested: " + now;
    HeadAndBody(head, "\n\n---\n\n", memory, "\n");
    assert MemoryText(org, now, memory) == head + "\n\n---\n\n" + memory + "\n";
  }

  /** Different documents have different files as far as the names tell them apart. */
  lemma DocFilesTellApart(p: Project, d: Doc, p': Project, d': Doc)
    requires DocFile(p, d).name == DocFile(p', d').name
    ensures PathSafe(Trunc(p.uuid, 8)) == PathSafe(Trunc(p'.uuid, 8))
    ensures PathSafe(Trunc(d.uuid, 8)) == PathSafe(Trunc(d'.uuid, 8))
  {
    hide PathSafe, Trunc, DocFilename, DocText, Utf8;
    DocFilenameTellsApart(p.uuid, d.uuid, d.fileName, p'.uuid, d'.uuid, d'.fileName);
  }

  // ---- what the server has to say ----

  function AskAt(o: Outside, n: nat, path: string): (r: Try) {
    Retry(o.server, n, path, SURFACE_RETRIES, RETRY_BASE, 0)
  }

  /** Everything here is asked for up to six times; it is given up as a rate limit exactly if all six answers are one,
  and never more than 62 seconds are slept. */
  lemma AskOutcome(o: Outside, n: nat, path: string)
    ensures
      var t := AskAt(o, n, path);
      && 1 <= t.requests <= 6 && t.slept <= 62
      && (t.outcome == Failed(RateLimited) <==> forall m: nat :: n <= m < n + 6 ==> IsLimited(o.server(m, path)))
      && (t.outcome != Failed(RateLimited) ==> t.outcome == Classify(o.server(n + t.requests - 1, path)))
  {
    hide Retry, IsLimited, Classify;
    RetryOutcome(o.server, n, path, SURFACE_RETRIES, RETRY_BASE, 0);
    SixDoublings(AskAt(o, n, path).requests - 1);
  }

  /** The number of requests made before the documents of project i are asked for. */
  function StartOf(o: Outside, projs: seq<Project>, n: nat, i: nat): (r: nat)
    requires i <= |projs|
  {
    if i == 0 then n
    else
      var m := StartOf(o, projs, n, i - 1);
      m + AskAt(o, m, DocsPath(o.org, projs[i - 1])).requests
  }

  /** The documents of project i, None where they cannot be had. */
  function DocsAt(o: Outside, dec: Decoder, projs: seq<Project>, n: nat, i: nat): (r: Option<seq<Doc>>)
    requires i < |projs|
  {
    Decoded(AskAt(o, StartOf(o, projs, n, i), DocsPath(o.org, projs[i])).outcome, dec.docs)
  }

  datatype File = File(name: string, content: Bytes)

  function DocFile(p: Project, d: Doc): (r: File) {
    File(DocFilename(p.uuid, d.uuid, d.fileName), Utf8(DocText(p, d)))
  }

  function DocFiles(p: Project, docs: seq<Doc>): (fs: seq<File>)
    ensures |fs| == |docs|
  {
    seq(|docs|, j requires 0 <= j < |docs| => DocFile(p, docs[j]))
  }

  /** The files of the first i projects, in the order of the listing. */
  function FilesUpTo(o: Outside, dec: Decoder, projs: seq<Project>, n: nat, i: nat): (r: seq<File>)
    requires i <= |projs|
  {
    if i == 0 then []
    else
      FilesUpTo(o, dec, projs, n, i - 1) +
      match DocsAt(o, dec, projs, n, i - 1)
      case None => []
      case Some(docs) => DocFiles(projs[i - 1], docs)
  }

  /** How many of the first i projects have no documents to be had. */
  function MissingUpTo(o: Outside, dec: Decoder, projs: seq<Project>, n: nat, i: nat): (r: nat)
    requires i <= |projs|
  {
    if i == 0 then 0
    else MissingUpTo(o, dec, projs, n, i - 1) + if DocsAt(o, dec, projs, n, i - 1).None? then 1 else 0
  }

  // ---- writing ----

  /** The directory after the writes, those that failed left out. */
  function AfterWrites(files: map<string, Bytes>, fs: seq<File>, oks: seq<bool>): (r: map<string, Bytes>)
    requires |fs| == |oks|
  {
    if fs == [] then files
    else
      var k := |fs| - 1;
      var before := AfterWrites(files, fs[..k], oks[..k]);
      if oks[k] then before[fs[k].name := fs[k].content] else before
  }

  function CountOk(oks: seq<bool>): (n: nat)
    ensures n <= |oks|
  {
    if oks == [] then 0 else CountOk(oks[..|oks| - 1]) + if oks[|oks| - 1] then 1 else 0
  }

  /** Which of k writes work, the m-th of all being the first of them. */
  function Oks(o: Outside, m: nat, k: nat): (oks: seq<bool>)
    ensures |oks| == k
  {
    seq(k, i requires 0 <= i < k => o.writeOk(m + i))
  }

  datatype Harvested = Harvested(files: map<string, Bytes>, docN: nat, errN: nat, requests: nat, writes: nat)

  /** What harvestProjects comes to, starting with request n and write m: the files of all projects written in order,
  and an error for each failed write and each project without documents, or one for the list. */
  function ProjectHarvest(o: Outside, dec: Decoder, files: map<string, Bytes>, n: nat, m: nat): (h: Harvested) {
    var list := AskAt(o, n, ProjectsPath(o.org));
    match Decoded(list.outcome, dec.projects)
    case None => Harvested(files, 0, 1, n + list.requests, m)
    case Some(projs) =>
      var fs := FilesUpTo(o, dec, projs, n + list.requests, |projs|);
      var docN := CountOk(Oks(o, m, |fs|));
      Harvested(AfterWrites(files, fs, Oks(o, m, |fs|)), docN,
                |fs| - docN + MissingUpTo(o, dec, projs, n + list.requests, |projs|),
                StartOf(o, projs, n + list.requests, |projs|), m + |fs|)
  }

  lemma WriteOneMore(files: map<string, Bytes>, fs: seq<File>, oks: seq<bool>, f: File, ok: bool)
    requires |fs| == |oks|
    ensures
      var before := AfterWrites(files, fs, oks);
      AfterWrites(files, fs + [f], oks + [ok]) == if ok then before[f.name := f.content] else before
    ensures CountOk(oks + [ok]) == CountOk(oks) + if ok then 1 else 0
  {
    assert (fs + [f])[..|fs|] == fs && (oks + [ok])[..|oks|] == oks;
  }

  lemma {:induction false} WritesInTurn(files: map<string, Bytes>, fs: seq<File>, oks: seq<bool>, gs: seq<File>,
          oks': seq<bool>)
    requires |fs| == |oks| && |gs| == |oks'|
    ensures AfterWrites(files, fs + gs, oks + oks') == AfterWrites(AfterWrites(files, fs, oks), gs, oks')
    ensures CountOk(oks + oks') == CountOk(oks) + CountOk(oks')
  {
    if gs == [] {
      assert fs + gs == fs && oks + oks' == oks;
    } else {
      var k := |gs| - 1;
      WritesInTurn(files, fs, oks, gs[..k], oks'[..k]);
      assert (fs + gs)[..|fs| + k] == fs + gs[..k] && (oks + oks')[..|oks| + k] == oks + oks'[..k];
    }
  }

  lemma DocFileAt(p: Project, docs: seq<Doc>, j: nat)
    requires j < |docs|
    ensures DocFiles(p, docs)[..j + 1] == DocFiles(p, docs)[..j] + [DocFile(p, docs[j])]
  {
    hide DocFile;
    OneMore(DocFiles(p, docs), j);
  }

  lemma OneMore<T>(s: seq<T>, j: nat)
    requires j < |s|
    ensures s[..j + 1] == s[..j] + [s[j]]
  {
  }

  lemma OksGrow(o: Outside, m: nat, k: nat, l: nat)
    ensures Oks(o, m, k + l) == Oks(o, m, k) + Oks(o, m + k, l)
  {
  }

  method WriteDocs(out: OutDir, ghost o: Outside, p: Project, docs: seq<Doc>) returns (docN: nat, errN: nat)
    requires o.writeOk == out.writeOk
    modifies out
    ensures docN == CountOk(Oks(o, old(out.writes), |docs|)) && docN + errN == |docs|
    ensures out.files == AfterWrites(old(out.files), DocFiles(p, docs), Oks(o, old(out.writes), |docs|))
    ensures out.writes == old(out.writes) + |docs|
  {
    hide DocFile, DocFilename, DocText, Utf8, AfterWrites, CountOk, DocFiles, Oks;
    docN, errN := 0, 0;
    ghost var m, fs: seq<File>, oks: seq<bool> := out.writes, [], [];
    NoWriteYet(out.files);
    OksGrow(o, m, 0, 0);
    assert oks == Oks(o, m, 0);
    for j := 0 to |docs|
      invariant fs == DocFiles(p, docs)[..j] && oks == Oks(o, m, j)
      invariant out.files == AfterWrites(old(out.files), fs, oks) && docN == CountOk(oks)
      invariant docN + errN == j && out.writes == m + j
    {
      DocFileAt(p, docs, j);
      var f := DocFile(p, docs[j]);
      var manifestOK, written := out.WriteMarkdown(f.name, f.content);
      if !written {
        errN := errN + 1;
      } else {
        docN := docN + 1;
      }
      OksGrow(o, m, j, 1);
      OneOk(o, m + j);
      WriteOneMore(old(out.files), fs, oks, f, written);
      fs, oks := fs + [f], oks + [written];
    }
    assert DocFiles(p, docs)[..|docs|] == DocFiles(p, docs);
  }

  lemma OneOk(o: Outside, m: nat)
    ensures Oks(o, m, 1) == [o.writeOk(m)]
  {
  }

  method HarvestProjects(session: Session, out: OutDir, dec: Decoder) returns (docN: nat, errN: nat)
    modifies session, out
    ensures Harvested(out.files, docN, errN, session.requests, out.writes)
         == ProjectHarvest(Facing(session, out), dec, old(out.files), old(session.requests), old(out.writes))
  {
    hide DocFiles, StartOf, DocsAt, CountOk, AfterWrites, FilesUpTo, MissingUpTo, Retry, ProjectsPath, DocsPath, Oks;
    docN, errN := 0, 0;
    ghost var o := Facing(session, out);
    var list := session.GetWithRetry(ProjectsPath(session.org), SURFACE_RETRIES, RETRY_BASE);
    if list.Failed? {
      return 0, 1;
    }
    var parsed := dec.projects(list.body.text);
    if parsed.None? {
      return 0, 1;
    }
    var projs := parsed.value;
    ghost var n, m, files0 := session.requests, out.writes, out.files;
    ghost var fs: seq<File> := [];
    NoProjectYet(o, dec, projs, n, files0);
    NoOks(o, m);
    for i := 0 to |projs|
      invariant fs == FilesUpTo(o, dec, projs, n, i) && out.writes == m + |fs|
      invariant session.requests == StartOf(o, projs, n, i)
      invariant out.files == AfterWrites(files0, fs, Oks(o, m, |fs|)) && docN == CountOk(Oks(o, m, |fs|))
      invariant docN + errN == |fs| + MissingUpTo(o, dec, projs, n, i)
    {
      OneMoreProject(o, dec, projs, n, i);
      var answer := session.GetWithRetry(DocsPath(session.org, projs[i]), SURFACE_RETRIES, RETRY_BASE);
      if answer.Failed? {
        errN := errN + 1;
        continue;
      }
      var docs := dec.docs(answer.body.text);
      if docs.None? {
        errN := errN + 1;
        continue;
      }
      var written, failed := WriteDocs(out, o, projs[i], docs.value);
      docN, errN := docN + written, errN + failed;
      ghost var gs := DocFiles(projs[i], docs.value);
      OksGrow(o, m, |fs|, |gs|);
      WritesInTurn(files0, fs, Oks(o, m, |fs|), gs, Oks(o, m + |fs|, |gs|));
      fs := fs + gs;
    }
  }

  /** What the session and the directory are to the functions above. */
  function Facing(session: Session, out: OutDir): (o: Outside) {
    Outside(session.server, session.org, out.writeOk)
  }

  lemma NoOks(o: Outside, m: nat)
    ensures Oks(o, m, 0) == []
  {
  }

  lemma NoWriteYet(files: map<string, Bytes>)
    ensures AfterWrites(files, [], []) == files && CountOk([]) == 0
  {
  }

  lemma NoProjectYet(o: Outside, dec: Decoder, projs: seq<Project>, n: nat, files: map<string, Bytes>)
    ensures FilesUpTo(o, dec, projs, n, 0) == [] && StartOf(o, projs, n, 0) == n
    ensures MissingUpTo(o, dec, projs, n, 0) == 0
    ensures AfterWrites(files, [], []) == files && CountOk([]) == 0
  {
  }

  lemma OneMoreProject(o: Outside, dec: Decoder, projs: seq<Project>, n: nat, i: nat)
    requires i < |projs|
    ensures
      var ask := AskAt(o, StartOf(o, projs, n, i), DocsPath(o.org, projs[i]));
      && StartOf(o, projs, n, i + 1) == StartOf(o, projs, n, i) + ask.requests
      && match Decoded(ask.outcome, dec.docs)
         case None =>
           && FilesUpTo(o, dec, projs, n, i + 1) == FilesUpTo(o, dec, projs, n, i)
           && MissingUpTo(o, dec, projs, n, i + 1) == MissingUpTo(o, dec, projs, n, i) + 1
         case Some(docs) =>
           && FilesUpTo(o, dec, projs, n, i + 1) == FilesUpTo(o, dec, projs, n, i) + DocFiles(projs[i], docs)
           && MissingUpTo(o, dec, projs, n, i + 1) == MissingUpTo(o, dec, projs, n, i)
  {
    hide AskAt, DocFiles, Decoded;
    assert Decoded(AskAt(o, StartOf(o, projs, n, i), DocsPath(o.org, projs[i])).outcome, dec.docs)
        == DocsAt(o, dec, projs, n, i);
  }

  // ---- what an error-free harvest means ----

  lemma {:induction false} AllOk(oks: seq<bool>)
    ensures CountOk(oks) == |oks| <==> forall k :: 0 <= k < |oks| ==> oks[k]
  {
    if oks != [] {
      AllOk(oks[..|oks| - 1]);
      assert oks == oks[..|oks| - 1] + [oks[|oks| - 1]];
    }
  }

  predicate Worked(ok: bool) {
    ok
  }

  lemma {:induction false} CountOkCounts(oks: seq<bool>) returns (worked: seq<bool>, at: seq<nat>)
    ensures |worked| == CountOk(oks) && IsFiltered(oks, Worked, worked, at)
  {
    if oks == [] {
      worked, at := [], [];
      FilterNothing(Worked);
    } else {
      var front, ok := oks[..|oks| - 1], oks[|oks| - 1];
      worked, at := CountOkCounts(front);
      FilterOneMore(front, Worked, worked, at, ok);
      hide IsFiltered;
      assert front + [ok] == oks;
      if ok {
        worked, at := worked + [ok], at + [|front|];
      }
    }
  }

  /** docN is the number of writes that worked: at lists them, in their order. */
  lemma DocsAreCounted(o: Outside, dec: Decoder, files: map<string, Bytes>, n: nat, m: nat) returns (at: seq<nat>)
    ensures
      var h := ProjectHarvest(o, dec, files, n, m);
      && |at| == h.docN && h.writes >= m
      && (forall k, l :: 0 <= k < l < |at| ==> at[k] < at[l])
      && forall k: nat :: k in at <==> k < h.writes - m && o.writeOk(m + k)
  {
    hide AskAt, ProjectsPath, Decoded, FilesUpTo, StartOf, MissingUpTo, AfterWrites;
    var h := ProjectHarvest(o, dec, files, n, m);
    var oks := Oks(o, m, h.writes - m);
    var worked;
    worked, at := CountOkCounts(oks);
    forall k: nat ensures k in at <==> k < |oks| && oks[k] {
      if k < |oks| && oks[k] {
        assert Worked(oks[k]);
      }
      if k in at {
        var j :| 0 <= j < |at| && at[j] == k;
        assert Worked(oks[at[j]]);
      }
    }
  }

  lemma {:induction false} NoneMissing(o: Outside, dec: Decoder, projs: seq<Project>, n: nat, i: nat)
    requires i <= |projs|
    ensures MissingUpTo(o, dec, projs, n, i) == 0 <==> forall k :: 0 <= k < i ==> DocsAt(o, dec, projs, n, k).Some?
  {
    hide DocsAt;
    if i > 0 {
      NoneMissing(o, dec, projs, n, i - 1);
    }
  }

  lemma {:induction false} EveryDocIsAFile(o: Outside, dec: Decoder, projs: seq<Project>, n: nat, i: nat,
          k: nat, j: nat)
    requires k < i <= |projs| && DocsAt(o, dec, projs, n, k).Some? && j < |DocsAt(o, dec, projs, n, k).value|
    ensures DocFile(projs[k], DocsAt(o, dec, projs, n, k).value[j]) in FilesUpTo(o, dec, projs, n, i)
  {
    hide DocsAt, DocFile;
    if k < i - 1 {
      EveryDocIsAFile(o, dec, projs, n, i - 1, k, j);
    } else {
      var docs := DocsAt(o, dec, projs, n, k).value;
      assert DocFiles(projs[k], docs)[j] == DocFile(projs[k], docs[j]);
    }
  }

  /** Of several writes to one name the last one stands. */
  lemma {:induction false} LastWriteStands(files: map<string, Bytes>, fs: seq<File>, oks: seq<bool>, k: nat)
      returns (last: nat)
    requires |fs| == |oks| && k < |fs| && forall i :: 0 <= i < |oks| ==> oks[i]
    ensures k <= last < |fs| && fs[last].name == fs[k].name
    ensures
      var files' := AfterWrites(files, fs, oks);
      fs[k].name in files' && files'[fs[k].name] == fs[last].content
  {
    var n := |fs| - 1;
    if fs[n].name == fs[k].name {
      last := n;
    } else {
      last := LastWriteStands(files, fs[..n], oks[..n], k);
    }
  }

  ghost predicate AllAnswered(o: Outside, dec: Decoder, projs: seq<Project>, n: nat) {
    forall i :: 0 <= i < |projs| ==> DocsAt(o, dec, projs, n, i).Some?
  }

  /** No error is counted exactly if the project list and the documents of every project could be had and every write
  worked. */
  lemma {:induction false} ErrorFreeExactly(o: Outside, dec: Decoder, files: map<string, Bytes>, n: nat, m: nat)
    ensures
      var list := AskAt(o, n, ProjectsPath(o.org));
      var projs := Decoded(list.outcome, dec.projects);
      ProjectHarvest(o, dec, files, n, m).errN == 0 <==>
        && projs.Some? && AllAnswered(o, dec, projs.value, n + list.requests)
        && AllWork(o, m, |FilesUpTo(o, dec, projs.value, n + list.requests, |projs.value|)|)
  {
    hide AskAt, DocsAt, FilesUpTo, MissingUpTo, StartOf, AfterWrites, CountOk, ProjectsPath, Decoded;
    var list := AskAt(o, n, ProjectsPath(o.org));
    match Decoded(list.outcome, dec.projects)
    case None =>
    case Some(projs) =>
      var k := |FilesUpTo(o, dec, projs, n + list.requests, |projs|)|;
      NoneMissing(o, dec, projs, n + list.requests, |projs|);
      AllOk(Oks(o, m, k));
      AllOksWork(o, m, k);
  }

  ghost predicate AllWork(o: Outside, m: nat, k: nat) {
    forall i :: m <= i < m + k ==> o.writeOk(i)
  }

  lemma AllOksWork(o: Outside, m: nat, k: nat)
    ensures AllWork(o, m, k) <==> forall i :: 0 <= i < k ==> Oks(o, m, k)[i]
  {
    if !AllWork(o, m, k) {
      var i :| m <= i < m + k && !o.writeOk(i);
      assert !Oks(o, m, k)[i - m];
    } else {
      assert forall i :: 0 <= i < k ==> Oks(o, m, k)[i] == o.writeOk(m + i);
    }
  }

  /** The file holds the text of a document of that name. */
  ghost predicate HoldsOneOf(fs: seq<File>, files: map<string, Bytes>, name: string) {
    name in files && exists k :: 0 <= k < |fs| && fs[k] == File(name, files[name])
  }

  /** The document's file holds its text or, where several documents share a file name, that of one of them;
  with distinct names it is its own. */
  ghost predicate IsKept(fs: seq<File>, files: map<string, Bytes>, f: File) {
    && f in fs
    && HoldsOneOf(fs, files, f.name)
    && ((forall g :: g in fs && g.name == f.name ==> g == f) ==> files[f.name] == f.content)
  }

  lemma WrittenIsKept(files: map<string, Bytes>, fs: seq<File>, oks: seq<bool>, f: File)
    requires |fs| == |oks| && f in fs && forall i :: 0 <= i < |oks| ==> oks[i]
    ensures IsKept(fs, AfterWrites(files, fs, oks), f)
  {
    hide AfterWrites;
    var k :| 0 <= k < |fs| && fs[k] == f;
    var last := LastWriteStands(files, fs, oks, k);
    assert fs[last] in fs && fs[last] == File(f.name, fs[last].content);
  }

  ghost predicate EveryDocIsKept(o: Outside, dec: Decoder, projs: seq<Project>, n: nat, files: map<string, Bytes>)
    requires AllAnswered(o, dec, projs, n)
  {
    forall i, j :: 0 <= i < |projs| && 0 <= j < |DocsAt(o, dec, projs, n, i).value| ==>
      IsKept(FilesUpTo(o, dec, projs, n, |projs|), files, DocFile(projs[i], DocsAt(o, dec, projs, n, i).value[j]))
  }

  /** The documents of every project could be had, and are on disk. */
  ghost predicate IsComplete(o: Outside, dec: Decoder, n: nat, files: map<string, Bytes>) {
    var list := AskAt(o, n, ProjectsPath(o.org));
    var projs := Decoded(list.outcome, dec.projects);
    projs.Some? && AllAreKept(o, dec, projs.value, n + list.requests, files)
  }

  ghost predicate AllAreKept(o: Outside, dec: Decoder, projs: seq<Project>, n: nat, files: map<string, Bytes>) {
    AllAnswered(o, dec, projs, n) && EveryDocIsKept(o, dec, projs, n, files)
  }

  /** After an error-free harvest every document of every project is on disk. */
  lemma {:induction false} ErrorFreeIsComplete(o: Outside, dec: Decoder, files: map<string, Bytes>, n: nat, m: nat)
    requires ProjectHarvest(o, dec, files, n, m).errN == 0
    ensures IsComplete(o, dec, n, ProjectHarvest(o, dec, files, n, m).files)
  {
    hide AskAt, DocsAt, FilesUpTo, MissingUpTo, StartOf, AfterWrites, CountOk, ProjectsPath, Decoded, DocFile, IsKept,
         EveryDocIsKept, AllAnswered, Oks;
    ErrorFreeExactly(o, dec, files, n, m);
    var list := AskAt(o, n, ProjectsPath(o.org));
    var projs := Decoded(list.outcome, dec.projects).value;
    var k := |FilesUpTo(o, dec, projs, n + list.requests, |projs|)|;
    AllOksWork(o, m, k);
    CompleteListing(o, dec, projs, n + list.requests, files, Oks(o, m, k));
  }

  lemma {:induction false} CompleteListing(o: Outside, dec: Decoder, projs: seq<Project>, n: nat,
          files: map<string, Bytes>, oks: seq<bool>)
    requires |oks| == |FilesUpTo(o, dec, projs, n, |projs|)| && (forall i :: 0 <= i < |oks| ==> oks[i])
    requires AllAnswered(o, dec, projs, n)
    ensures EveryDocIsKept(o, dec, projs, n, AfterWrites(files, FilesUpTo(o, dec, projs, n, |projs|), oks))
  {
    hide DocsAt, FilesUpTo, AfterWrites, DocFile, IsKept;
    var fs := FilesUpTo(o, dec, projs, n, |projs|);
    forall i, j | 0 <= i < |projs| && 0 <= j < |DocsAt(o, dec, projs, n, i).value|
      ensures IsKept(fs, AfterWrites(files, fs, oks), DocFile(projs[i], DocsAt(o, dec, projs, n, i).value[j]))
    {
      EveryDocIsAFile(o, dec, projs, n, |projs|, i, j);
      WrittenIsKept(files, fs, oks, DocFile(projs[i], DocsAt(o, dec, projs, n, i).value[j]));
    }
  }

  // ---- only files of the surfaces change ----

  ghost predicate OnlySurfaceFiles(files: map<string, Bytes>, files': map<string, Bytes>) {
    forall f :: f in files.Keys + files'.Keys && !IsSurfaceName(f) ==>
      f in files && f in files' && files[f] == files'[f]
  }

  lemma {:induction false} WritesSurfaceFiles(files: map<string, Bytes>, fs: seq<File>, oks: seq<bool>)
    requires |fs| == |oks| && AllSurfaceNames(fs)
    ensures OnlySurfaceFiles(files, AfterWrites(files, fs, oks))
  {
    if fs != [] {
      WritesSurfaceFiles(files, fs[..|fs| - 1], oks[..|fs| - 1]);
    }
  }

  ghost predicate AllSurfaceNames(fs: seq<File>) {
    forall k :: 0 <= k < |fs| ==> IsSurfaceName(fs[k].name)
  }

  lemma SurfaceNamesConcat(fs: seq<File>, gs: seq<File>)
    requires AllSurfaceNames(fs) && AllSurfaceNames(gs)
    ensures AllSurfaceNames(fs + gs)
  {
  }

  lemma {:induction false} DocFilesAreSurfaces(o: Outside, dec: Decoder, projs: seq<Project>, n: nat, i: nat)
    requires i <= |projs|
    ensures AllSurfaceNames(FilesUpTo(o, dec, projs, n, i))
  {
    hide DocsAt, DocFiles, AllSurfaceNames;
    if i > 0 {
      DocFilesAreSurfaces(o, dec, projs, n, i - 1);
      match DocsAt(o, dec, projs, n, i - 1)
      case None =>
        assert FilesUpTo(o, dec, projs, n, i) == FilesUpTo(o, dec, projs, n, i - 1);
      case Some(docs) =>
        DocsAreSurfaces(projs[i - 1], docs);
        SurfaceNamesConcat(FilesUpTo(o, dec, projs, n, i - 1), DocFiles(projs[i - 1], docs));
    } else {
      NoSurfaceName();
    }
  }

  lemma NoSurfaceName()
    ensures AllSurfaceNames([])
  {
  }

  lemma DocsAreSurfaces(p: Project, docs: seq<Doc>)
    ensures AllSurfaceNames(DocFiles(p, docs))
  {
    hide DocFilename, IsSurfaceName, DocText, Utf8;
    var fs := DocFiles(p, docs);
    forall j | 0 <= j < |fs| ensures IsSurfaceName(fs[j].name) {
      DocIsSurface(p, docs[j]);
    }
  }

  lemma DocIsSurface(p: Project, d: Doc)
    ensures IsSurfaceName(DocFile(p, d).name)
  {
    var f := DocFilename(p.uuid, d.uuid, d.fileName);
    assert f[0] == "project_"[0];
  }

  lemma {:induction false} HarvestIsSurface(o: Outside, dec: Decoder, files: map<string, Bytes>, n: nat, m: nat)
    ensures OnlySurfaceFiles(files, ProjectHarvest(o, dec, files, n, m).files)
  {
    hide AskAt, DocsAt, FilesUpTo, MissingUpTo, StartOf, AfterWrites, CountOk, ProjectsPath, Decoded, IsSurfaceName,
         Oks;
    var list := AskAt(o, n, ProjectsPath(o.org));
    match Decoded(list.outcome, dec.projects)
    case None =>
    case Some(projs) =>
      var fs := FilesUpTo(o, dec, projs, n + list.requests, |projs|);
      DocFilesAreSurfaces(o, dec, projs, n + list.requests, |projs|);
      WritesSurfaceFiles(files, fs, Oks(o, m, |fs|));
  }

  // ---- the memory blob, and both ----

  datatype Remembered = Remembered(files: map<string, Bytes>, wrote: bool, failed: bool, requests: nat, writes: nat)

  /** What harvestMemory comes to: a blank memory is nothing to write and no error. */
  function MemoryHarvest(o: Outside, dec: Decoder, now: string, files: map<string, Bytes>, n: nat,
          m: nat): (r: Remembered) {
    var ask := AskAt(o, n, MemoryPath(o.org));
    match Decoded(ask.outcome, dec.memory)
    case None => Remembered(files, false, true, n + ask.requests, m)
    case Some(memory) =>
      if TrimSpace(memory) == "" then Remembered(files, false, false, n + ask.requests, m)
      else if o.writeOk(m)
      then Remembered(files[MEMORY_FILE := Utf8(MemoryText(o.org, now, memory))], true, false, n + ask.requests, m + 1)
      else Remembered(files, false, true, n + ask.requests, m + 1)
  }

  method HarvestMemory(session: Session, out: OutDir, dec: Decoder, now: string) returns (wrote: bool, failed: bool)
    modifies session, out
    ensures Remembered(out.files, wrote, failed, session.requests, out.writes)
         == MemoryHarvest(Facing(session, out), dec, now, old(out.files), old(session.requests), old(out.writes))
  {
    hide Retry, MemoryText, MemoryPath, Utf8, TrimSpace;
    wrote, failed := false, false;
    var answer := session.GetWithRetry(MemoryPath(session.org), SURFACE_RETRIES, RETRY_BASE);
    if answer.Failed? {
      return false, true;
    }
    var memory := dec.memory(answer.body.text);
    if memory.None? {
      return false, true;
    }
    if TrimSpace(memory.value) == "" {
      return;
    }
    var manifestOK, written := out.WriteMarkdown(MEMORY_FILE, Utf8(MemoryText(session.org, now, memory.value)));
    wrote, failed := written, !written;
  }

  datatype Refreshed = Refreshed(files: map<string, Bytes>, ok: bool, requests: nat, writes: nat)

  function Refresh(o: Outside, dec: Decoder, now: string, files: map<string, Bytes>, n: nat, m: nat): (r: Refreshed) {
    var h := ProjectHarvest(o, dec, files, n, m);
    var r := MemoryHarvest(o, dec, now, h.files, h.requests, h.writes);
    Refreshed(r.files, h.errN == 0 && !r.failed, r.requests, r.writes)
  }

  /** refreshSurfaces in an open session (None: it could not be opened, or names no organization). */
  method RefreshSurfaces(conn: Option<Session>, out: OutDir, dec: Decoder, now: string) returns (ok: bool)
    modifies if conn.Some? then {conn.value, out} else {}
    ensures conn.None? ==> !ok && out.files == old(out.files) && out.writes == old(out.writes)
    ensures conn.Some? ==>
      Refreshed(out.files, ok, conn.value.requests, out.writes)
      == Refresh(Facing(conn.value, out), dec, now, old(out.files), old(conn.value.requests), old(out.writes))
  {
    hide ProjectHarvest, MemoryHarvest;
    match conn {
      case None => return false;
      case Some(session) =>
        var docN, errN := HarvestProjects(session, out, dec);
        var wrote, failed := HarvestMemory(session, out, dec, now);
        ok := errN == 0 && !failed;
    }
  }

  /** The memory could be had, and is on disk unless it is blank. */
  ghost predicate MemoryIsKept(o: Outside, dec: Decoder, now: string, n: nat, files: map<string, Bytes>) {
    var memory := Decoded(AskAt(o, n, MemoryPath(o.org)).outcome, dec.memory);
    && memory.Some?
    && (TrimSpace(memory.value) != "" ==> At(files, MEMORY_FILE) == Some(Utf8(MemoryText(o.org, now, memory.value))))
  }

  lemma MemoryLeavesDocs(o: Outside, dec: Decoder, now: string, files: map<string, Bytes>, n: nat, m: nat)
    ensures
      var r := MemoryHarvest(o, dec, now, files, n, m);
      && (!r.failed ==> MemoryIsKept(o, dec, now, n, r.files))
      && forall f :: f != MEMORY_FILE ==> At(r.files, f) == At(files, f)
  {
    hide AskAt, MemoryText, MemoryPath, Utf8, TrimSpace;
  }

  lemma DocIsNotMemory(p: Project, d: Doc)
    ensures DocFile(p, d).name != MEMORY_FILE
  {
    var f := DocFilename(p.uuid, d.uuid, d.fileName);
    assert f[0] == "project_"[0];
  }

  lemma KeptElsewhere(fs: seq<File>, files: map<string, Bytes>, files': map<string, Bytes>, f: File)
    requires IsKept(fs, files, f) && At(files', f.name) == At(files, f.name)
    ensures IsKept(fs, files', f)
  {
  }

  lemma {:induction false} StillKept(o: Outside, dec: Decoder, projs: seq<Project>, n: nat, files: map<string, Bytes>,
          files': map<string, Bytes>)
    requires AllAreKept(o, dec, projs, n, files) && forall f :: f != MEMORY_FILE ==> At(files', f) == At(files, f)
    ensures AllAreKept(o, dec, projs, n, files')
  {
    hide DocsAt, FilesUpTo, IsKept, DocFile;
    forall i, j | 0 <= i < |projs| && 0 <= j < |DocsAt(o, dec, projs, n, i).value|
      ensures
        IsKept(FilesUpTo(o, dec, projs, n, |projs|), files', DocFile(projs[i], DocsAt(o, dec, projs, n, i).value[j]))
    {
      DocIsNotMemory(projs[i], DocsAt(o, dec, projs, n, i).value[j]);
      KeptElsewhere(FilesUpTo(o, dec, projs, n, |projs|), files, files',
                    DocFile(projs[i], DocsAt(o, dec, projs, n, i).value[j]));
    }
  }

  /** A refresh that counts has every document of every project and the memory on disk; counting or not, it changes no
  file of a conversation. */
  lemma RefreshIsComplete(o: Outside, dec: Decoder, now: string, files: map<string, Bytes>, n: nat, m: nat)
    ensures
      var r := Refresh(o, dec, now, files, n, m);
      && (r.ok ==> IsComplete(o, dec, n, r.files))
      && (r.ok ==> MemoryIsKept(o, dec, now, ProjectHarvest(o, dec, files, n, m).requests, r.files))
      && OnlySurfaceFiles(files, r.files)
  {
    var h := ProjectHarvest(o, dec, files, n, m);
    HarvestIsSurface(o, dec, files, n, m);
    MemoryLeavesDocs(o, dec, now, h.files, h.requests, h.writes);
    MemoryIsSurface(o, dec, now, h.files, h.requests, h.writes);
    hide ProjectHarvest, MemoryHarvest, MemoryIsKept, AllAreKept, OnlySurfaceFiles, AskAt, Decoded, ProjectsPath;
    SurfaceFilesInTurn(files, h.files, Refresh(o, dec, now, files, n, m).files);
    if Refresh(o, dec, now, files, n, m).ok {
      ErrorFreeIsComplete(o, dec, files, n, m);
      var list := AskAt(o, n, ProjectsPath(o.org));
      StillKept(o, dec, Decoded(list.outcome, dec.projects).value, n + list.requests, h.files,
        Refresh(o, dec, now, files, n, m).files);
    }
  }

  lemma MemoryIsSurface(o: Outside, dec: Decoder, now: string, files: map<string, Bytes>, n: nat, m: nat)
    ensures OnlySurfaceFiles(files, MemoryHarvest(o, dec, now, files, n, m).files)
  {
    hide AskAt, MemoryText, MemoryPath, Utf8, TrimSpace;
  }

  lemma SurfaceFilesInTurn(a: map<string, Bytes>, b: map<string, Bytes>, c: map<string, Bytes>)
    requires OnlySurfaceFiles(a, b) && OnlySurfaceFiles(b, c)
    ensures OnlySurfaceFiles(a, c)
  {
    hide IsSurfaceName;
  }
}
