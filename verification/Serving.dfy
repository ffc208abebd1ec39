/** Servers that read the request: what is asked for is what is answered (cdp.go: fetchConvBodyDelay; surfaces.go). */
module Serving {
  import opened Text
  import opened Markdown
  import opened Filenames
  import opened Fetch
  import opened Surfaces

  // ---- conversations ----

  /** The three renderings that a server keeps of a conversation. */
  datatype Renderings = Renderings(full: Body, withoutTools: Body, branch: Body)

  /** The query begins with the first question mark. */
  function QueryStart(s: string): (i: nat)
    ensures i <= |s|
  {
    if s == "" || s[0] == '?' then 0 else 1 + QueryStart(s[1..])
  }

  lemma {:induction false} QueryStartsAt(s: string, query: string)
    requires '?' !in s && query != "" && query[0] == '?'
    ensures QueryStart(s + query) == |s|
  {
    if s == "" {
      assert s + query == query;
    } else {
      QueryStartsAt(s[1..], query);
      assert (s + query)[0] == s[0] && (s + query)[1..] == s[1..] + query;
    }
  }

  datatype Request = Request(uuid: string, query: string)

  /** The conversation and the query that a path names. */
  function ReadRequest(org: string, path: string): (r: Option<Request>) {
    match Behind("/api/organizations/" + org + "/chat_conversations/", path)
    case None => None
    case Some(rest) => Some(Request(rest[..QueryStart(rest)], rest[QueryStart(rest)..]))
  }

  /** The rendering that a query asks for. */
  function Rendering(r: Renderings, query: string): (b: Option<Body>) {
    if query == "?tree=True&rendering_mode=messages&render_all_tools=true&consistency=strong" then Some(r.full)
    else if query == "?tree=True&rendering_mode=messages" then Some(r.withoutTools)
    else if query == "?rendering_mode=messages" then Some(r.branch)
    else None
  }

  function InStore(store: map<string, Renderings>, org: string, path: string): (b: Option<Body>) {
    match ReadRequest(org, path)
    case None => None
    case Some(r) => if r.uuid in store then Rendering(store[r.uuid], r.query) else None
  }

  /** Whatever comes back and is no rate limit is what the path names in the store. The server may fail in any way, as
  often as it likes. */
  ghost predicate ServesStore(server: Server, org: string, store: map<string, Renderings>) {
    forall n: nat, path: string ::
      server(n, path).Reply? && !IsLimited(server(n, path)) ==> InStore(store, org, path) == Some(server(n, path).body)
  }

  /** A server that never fails. */
  function StoreServer(org: string, store: map<string, Renderings>): (server: Server) {
    (n: nat, path: string) =>
      match InStore(store, org, path) case None => NetworkError case Some(b) => Reply(b)
  }

  lemma FullQueryGoesOn()
    ensures "?tree=True&rendering_mode=messages&render_all_tools=true&consistency=strong"
         == "?tree=True&rendering_mode=messages" + "&render_all_tools=true&consistency=strong"
  {
  }

  lemma QueryGoesOn(s: string, t: string, u: string)
    requires s == t + u && t != "" && t[0] == '?'
    ensures s != "" && s[0] == '?'
  {
  }

  lemma VariantIsQuery(v: nat)
    requires v < VARIANT_COUNT
    ensures Variant(v) != "" && Variant(v)[0] == '?'
  {
    var light := if v == 2 then "?rendering_mode=messages" else "?tree=True&rendering_mode=messages";
    assert light[0] == '?';
    if v == 0 {
      FullQueryGoesOn();
      QueryGoesOn(Variant(0), light, "&render_all_tools=true&consistency=strong");
    }
  }

  /** What a request of a fetch names: this conversation, and the three queries in turn. */
  lemma ConvPathReadsBack(org: string, uuid: string, v: nat)
    requires v < VARIANT_COUNT && '?' !in uuid
    ensures ReadRequest(org, ConvPath(org, uuid) + Variant(v)) == Some(Request(uuid, Variant(v)))
  {
    hide Variant;
    VariantIsQuery(v);
    var rest := uuid + Variant(v);
    QueryStartsAt(uuid, Variant(v));
    var prefix := "/api/organizations/" + org + "/chat_conversations/";
    Assoc(prefix, uuid, Variant(v));
    StandsBehind(prefix, rest);
    assert rest[..|uuid|] == uuid && rest[|uuid|..] == Variant(v);
  }

  lemma ConvPathInjective(org: string, u: string, v: nat, u': string, v': nat)
    requires v < VARIANT_COUNT && v' < VARIANT_COUNT && '?' !in u && '?' !in u'
    requires ConvPath(org, u) + Variant(v) == ConvPath(org, u') + Variant(v')
    ensures u == u' && v == v'
  {
    hide ConvPath, ReadRequest;
    ConvPathReadsBack(org, u, v);
    ConvPathReadsBack(org, u', v');
  }

  /** The first request of a fetch, to the letter. */
  lemma FirstRequest(server: Server, n: nat, org: string, uuid: string)
    ensures NthAnswer(server, n, ConvPath(org, uuid), 0) ==
      server(n, "/api/organizations/" + org + "/chat_conversations/" + uuid
                + "?tree=True&rendering_mode=messages&render_all_tools=true&consistency=strong")
  {
  }

  /** What a fetch brings is the answer to its last request. */
  lemma LastAnswerIsBrought(server: Server, n: nat, org: string, uuid: string, retryBase: nat, gap: nat)
    ensures
      var f := FetchConvBody(server, n, org, uuid, retryBase, gap);
      f.outcome.Got? ==>
        && 1 <= f.requests <= 15
        && var a := NthAnswer(server, n, ConvPath(org, uuid), f.requests - 1);
           a.Reply? && !IsLimited(a) && a.body == f.outcome.body
  {
    hide FetchConvBody, ConvPath, NthAnswer, IsRateLimited, LooksLikeChallenge;
    FetchOutcome(server, n, org, uuid, retryBase, gap);
  }

  lemma StoredAnswer(server: Server, org: string, store: map<string, Renderings>, n: nat, uuid: string, k: nat)
    requires ServesStore(server, org, store) && '?' !in uuid && k < 15
    requires
      var a := NthAnswer(server, n, ConvPath(org, uuid), k);
      a.Reply? && !IsLimited(a)
    ensures uuid in store
    ensures Rendering(store[uuid], Variant(k / 5)) == Some(NthAnswer(server, n, ConvPath(org, uuid), k).body)
  {
    hide Variant, ReadRequest, ConvPath, IsLimited, Rendering;
    ConvPathReadsBack(org, uuid, k / 5);
    var path := ConvPath(org, uuid) + Variant(k / 5);
    assert InStore(store, org, path) == Some(server(n + k, path).body);
  }

  lemma VariantAsksFor(r: Renderings, v: nat)
    requires v < VARIANT_COUNT
    ensures Rendering(r, Variant(v)) == Some(if v == 0 then r.full else if v == 1 then r.withoutTools else r.branch)
  {
    assert |"?tree=True&rendering_mode=messages&render_all_tools=true&consistency=strong"| == 75;
    assert |"?tree=True&rendering_mode=messages"| == 34 && |"?rendering_mode=messages"| == 24;
  }

  /** A conversation is fetched as itself. From a server that reads the path, whatever fails on the way: what comes back
  is one of the renderings kept of this conversation, the full one if it took at most five requests, then the one
  without tools, then the current branch. */
  lemma OwnBodyIsFetched(server: Server, org: string, store: map<string, Renderings>, n: nat, uuid: string,
          retryBase: nat, gap: nat)
    requires ServesStore(server, org, store) && '?' !in uuid
    ensures
      var f := FetchConvBody(server, n, org, uuid, retryBase, gap);
      f.outcome.Got? ==>
        && uuid in store
        && f.outcome.body == if f.requests <= 5 then store[uuid].full
                             else if f.requests <= 10 then store[uuid].withoutTools
                             else store[uuid].branch
  {
    hide FetchConvBody, ConvPath, NthAnswer, IsLimited, Variant, Rendering, ServesStore;
    var f := FetchConvBody(server, n, org, uuid, retryBase, gap);
    LastAnswerIsBrought(server, n, org, uuid, retryBase, gap);
    if f.outcome.Got? {
      StoredAnswer(server, org, store, n, uuid, f.requests - 1);
      VariantAsksFor(store[uuid], (f.requests - 1) / 5);
    }
  }

  // ---- a server that never fails ----

  /** The first of the three renderings that is not taken for a rate limit, or the rate limit that all three are. */
  function FirstServed(r: Renderings): (f: Fetched) {
    if !IsRateLimited(r.full.text) then Classify(Reply(r.full))
    else if !IsRateLimited(r.withoutTools.text) then Classify(Reply(r.withoutTools))
    else if !IsRateLimited(r.branch.text) then Classify(Reply(r.branch))
    else Failed(RateLimited)
  }

  lemma StoreServerAnswers(org: string, store: map<string, Renderings>, m: nat, uuid: string, v: nat)
    requires v < VARIANT_COUNT && '?' !in uuid && uuid in store
    ensures
      var r := store[uuid];
      StoreServer(org, store)(m, ConvPath(org, uuid) + Variant(v)) ==
        Reply(if v == 0 then r.full else if v == 1 then r.withoutTools else r.branch)
  {
    hide ConvPath, Variant, ReadRequest, Rendering;
    ConvPathReadsBack(org, uuid, v);
    VariantAsksFor(store[uuid], v);
  }

  lemma {:induction false} SteadyAnswer(server: Server, m: nat, path: string, maxRetry: nat, delay: nat, i: nat,
          b: Body)
    requires i <= maxRetry && forall q: nat :: server(q, path) == Reply(b)
    ensures Retry(server, m, path, maxRetry, delay, i).outcome ==
      if IsRateLimited(b.text) then Failed(RateLimited) else Classify(Reply(b))
    decreases maxRetry - i
  {
    hide IsRateLimited, Classify;
    if IsRateLimited(b.text) && i < maxRetry {
      SteadyAnswer(server, m + 1, path, maxRetry, delay * 2, i + 1, b);
    }
  }

  /** From a server that keeps three renderings of each conversation and never fails, a fetch brings the first rendering
  of this conversation that does not read like a rate limit. */
  lemma StoredIsFetched(org: string, store: map<string, Renderings>, n: nat, uuid: string, retryBase: nat, gap: nat)
    requires '?' !in uuid && uuid in store
    ensures FetchConvBody(StoreServer(org, store), n, org, uuid, retryBase, gap).outcome == FirstServed(store[uuid])
  {
    var server, r := StoreServer(org, store), store[uuid];
    hide StoreServer, ConvPath, Variant, Retry, IsRateLimited, Classify;
    forall m: nat, v: nat | v < VARIANT_COUNT
      ensures server(m, ConvPath(org, uuid) + Variant(v)) ==
        Reply(if v == 0 then r.full else if v == 1 then r.withoutTools else r.branch)
    {
      StoreServerAnswers(org, store, m, uuid, v);
    }
    StoredFrom(server, n, ConvPath(org, uuid), 0, retryBase, gap, r);
  }

  lemma {:induction false} StoredFrom(server: Server, m: nat, base: string, v: nat, retryBase: nat, gap: nat,
          r: Renderings)
    requires v <= VARIANT_COUNT
    requires forall q: nat, u: nat :: u < VARIANT_COUNT ==>
      server(q, base + Variant(u)) == Reply(if u == 0 then r.full else if u == 1 then r.withoutTools else r.branch)
    ensures FetchFrom(server, m, base, v, retryBase, gap).outcome ==
      FirstServed(if v == 0 then r
                  else if v == 1 then r.(full := r.withoutTools)
                  else r.(full := r.branch, withoutTools := r.branch))
      || v == VARIANT_COUNT
    decreases VARIANT_COUNT - v
  {
    hide Variant, Retry, IsRateLimited;
    if v < VARIANT_COUNT {
      var b := if v == 0 then r.full else if v == 1 then r.withoutTools else r.branch;
      SteadyAnswer(server, m, base + Variant(v), CONV_RETRIES, retryBase, 0, b);
      var t := Retry(server, m, base + Variant(v), CONV_RETRIES, retryBase, 0);
      StoredFrom(server, m + t.requests, base, v + 1, retryBase, gap, r);
    }
  }

  // ---- project documents and the memory ----

  /** What a server keeps: the list of projects, the documents of each, by its uuid, and the memory. */
  datatype Site = Site(projects: string, docs: map<string, string>, memory: string)

  /** What stands before the end. */
  function Before(s: string, end: string): (r: Option<string>) {
    if |end| <= |s| && s[|s| - |end|..] == end then Some(s[..|s| - |end|]) else None
  }

  lemma StandsBefore(s: string, end: string)
    ensures Before(s + end, end) == Some(s)
  {
  }

  /** The project whose documents a path asks for. */
  function ReadProject(org: string, path: string): (uuid: Option<string>) {
    match Behind("/api/organizations/" + org + "/projects/", path)
    case None => None
    case Some(rest) => Before(rest, "/docs")
  }

  lemma DocsPathReadsBack(org: string, p: Project)
    ensures ReadProject(org, DocsPath(org, p)) == Some(p.uuid)
  {
    var prefix := "/api/organizations/" + org;
    assert DocsPath(org, p) == prefix + "/projects/" + (p.uuid + "/docs") by {
      assert "/projects" + "/" == "/projects/";
      assert prefix + "/projects" + "/" == prefix + "/projects/";
    }
    StandsBehind(prefix + "/projects/", p.uuid + "/docs");
    StandsBefore(p.uuid, "/docs");
  }

  /** Whatever comes back and is no rate limit is what the path names. */
  ghost predicate ServesSite(server: Server, org: string, site: Site) {
    forall n: nat, path: string :: server(n, path).Reply? && !IsLimited(server(n, path)) ==>
      var text := server(n, path).body.text;
      && (path == "/api/organizations/" + org + "/projects" ==> text == site.projects)
      && (path == "/api/organizations/" + org + "/memory" ==> text == site.memory)
      && (ReadProject(org, path).Some? ==> At(site.docs, ReadProject(org, path).value) == Some(text))
  }

  lemma AskedAnswer(o: Outside, n: nat, path: string)
    ensures
      var t := AskAt(o, n, path);
      t.outcome.Got? ==>
        && t.requests >= 1
        && var a := o.server(n + t.requests - 1, path);
           a.Reply? && !IsLimited(a) && a.body == t.outcome.body
  {
    RetryOutcome(o.server, n, path, SURFACE_RETRIES, RETRY_BASE, 0);
    hide Retry, IsRateLimited, LooksLikeChallenge;
  }

  lemma ProjectsAreOwn(o: Outside, site: Site, n: nat)
    requires ServesSite(o.server, o.org, site)
    ensures
      var t := AskAt(o, n, ProjectsPath(o.org));
      t.outcome.Got? ==> t.outcome.body.text == site.projects
  {
    hide AskAt, IsLimited, ReadProject;
    AskedAnswer(o, n, ProjectsPath(o.org));
  }

  lemma MemoryIsOwn(o: Outside, site: Site, n: nat)
    requires ServesSite(o.server, o.org, site)
    ensures
      var t := AskAt(o, n, MemoryPath(o.org));
      t.outcome.Got? ==> t.outcome.body.text == site.memory
  {
    hide AskAt, IsLimited, ReadProject;
    AskedAnswer(o, n, MemoryPath(o.org));
  }

  lemma DocsAreOwn(o: Outside, site: Site, n: nat, p: Project)
    requires ServesSite(o.server, o.org, site)
    ensures
      var t := AskAt(o, n, DocsPath(o.org, p));
      t.outcome.Got? ==> At(site.docs, p.uuid) == Some(t.outcome.body.text)
  {
    hide AskAt, IsLimited, ReadProject, DocsPath;
    AskedAnswer(o, n, DocsPath(o.org, p));
    DocsPathReadsBack(o.org, p);
  }

  /** The documents that a site keeps of a project. */
  function SiteDocs(dec: Decoder, site: Site, p: Project): (docs: Option<seq<Doc>>) {
    if p.uuid in site.docs then dec.docs(site.docs[p.uuid]) else None
  }

  /** The files of a site's first i projects. */
  function SiteFiles(dec: Decoder, site: Site, projs: seq<Project>, i: nat): (fs: seq<File>)
    requires i <= |projs|
  {
    if i == 0 then []
    else
      SiteFiles(dec, site, projs, i - 1) +
      match SiteDocs(dec, site, projs[i - 1]) case None => [] case Some(docs) => DocFiles(projs[i - 1], docs)
  }

  lemma {:induction false} FilesAreTheSites(o: Outside, dec: Decoder, site: Site, projs: seq<Project>, n: nat, i: nat)
    requires ServesSite(o.server, o.org, site) && AllAnswered(o, dec, projs, n) && i <= |projs|
    ensures FilesUpTo(o, dec, projs, n, i) == SiteFiles(dec, site, projs, i)
    ensures forall k :: 0 <= k < i ==> SiteDocs(dec, site, projs[k]) == DocsAt(o, dec, projs, n, k)
  {
    hide ServesSite, AskAt, DocsPath, StartOf, DocFiles;
    if i > 0 {
      FilesAreTheSites(o, dec, site, projs, n, i - 1);
      DocsAreOwn(o, site, StartOf(o, projs, n, i - 1), projs[i - 1]);
      assert DocsAt(o, dec, projs, n, i - 1).Some?;
    }
  }

  /** Every document of every project of the site is on disk. */
  ghost predicate SiteIsOnDisk(dec: Decoder, site: Site, projs: seq<Project>, files: map<string, Bytes>) {
    forall i :: 0 <= i < |projs| ==> ProjectIsOnDisk(dec, site, projs, projs[i], files)
  }

  ghost predicate ProjectIsOnDisk(dec: Decoder, site: Site, projs: seq<Project>, p: Project,
          files: map<string, Bytes>) {
    var docs := SiteDocs(dec, site, p);
    && docs.Some?
    && forall j :: 0 <= j < |docs.value| ==>
         IsKept(SiteFiles(dec, site, projs, |projs|), files, DocFile(p, docs.value[j]))
  }

  /** After a refresh without errors, of a server that reads the path: every document that it keeps of every project,
  and its memory, are on disk. */
  lemma RefreshedSiteIsOnDisk(o: Outside, dec: Decoder, site: Site, now: string, files: map<string, Bytes>, n: nat,
          m: nat)
    requires ServesSite(o.server, o.org, site) && Refresh(o, dec, now, files, n, m).ok
    ensures
      var files' := Refresh(o, dec, now, files, n, m).files;
      && dec.projects(site.projects).Some?
      && SiteIsOnDisk(dec, site, dec.projects(site.projects).value, files')
      && dec.memory(site.memory).Some?
      && (TrimSpace(dec.memory(site.memory).value) != "" ==>
            At(files', "claude-ai-memory.md") == Some(Utf8(MemoryText(o.org, now, dec.memory(site.memory).value))))
  {
    hide ServesSite, AskAt, ProjectsPath, MemoryPath, Refresh, ProjectHarvest, MemoryText, Utf8, TrimSpace, IsKept,
         SiteFiles, FilesUpTo, DocsAt, DocFile, OnlySurfaceFiles;
    RefreshIsComplete(o, dec, now, files, n, m);
    ProjectsAreOwn(o, site, n);
    MemoryIsOwn(o, site, ProjectHarvest(o, dec, files, n, m).requests);
    var list := AskAt(o, n, ProjectsPath(o.org));
    var projs := dec.projects(site.projects).value;
    FilesAreTheSites(o, dec, site, projs, n + list.requests, |projs|);
  }
}
