/** Requests to the server: retry with backoff, lighter variants, pagination (cdp.go). */
module Fetch {
  import opened Text
  import opened Markdown

  datatype Answer = Reply(body: Body) | TimedOut | NetworkError

  /** What the server answers to the n-th request of a session, for each path. */
  type Server = (nat, string) -> Answer

  /** What the program meets outside: the server's answers, for one organization, and whether the m-th write of a file
  works. */
  datatype Outside = Outside(server: Server, org: string, writeOk: nat -> bool)

  datatype FetchError = RateLimited | HtmlPage | DeadlineExceeded | OtherError

  datatype Fetched = Got(body: Body) | Failed(error: FetchError)

  /** An outcome, the requests it took and the time slept. */
  datatype Try = Try(outcome: Fetched, requests: nat, slept: nat)

  predicate IsRateLimited(text: string) {
    Occurs("rate_limit_error", text) || Occurs("Temporarily unavailable", text)
  }

  predicate LooksLikeChallenge(text: string) {
    StartsWith(TrimSpace(text), "<")
  }

  predicate IsLimited(a: Answer) {
    a.Reply? && IsRateLimited(a.body.text)
  }

  /** What an answer that is not a rate limit means. */
  function Classify(a: Answer): (r: Fetched) {
    match a
    case TimedOut => Failed(DeadlineExceeded)
    case NetworkError => Failed(OtherError)
    case Reply(b) => if LooksLikeChallenge(b.text) then Failed(HtmlPage) else Got(b)
  }

  const CONV_RETRIES: nat := 4

  const VARIANT_COUNT: nat := 3

  /** The production delays, in seconds. */
  const RETRY_BASE: nat := 2

  const VARIANT_GAP: nat := 3

  /** The query parameters of the three renderings, lightest last. */
  function Variant(v: nat): (s: string)
    requires v < VARIANT_COUNT
  {
    if v == 0 then "?tree=True&rendering_mode=messages&render_all_tools=true&consistency=strong"
    else if v == 1 then "?tree=True&rendering_mode=messages"
    else "?rendering_mode=messages"
  }

  function ConvPath(org: string, uuid: string): (s: string) {
    "/api/organizations/" + org + "/chat_conversations/" + uuid
  }

  // ---- the loops, as functions ----

  /** getWithRetryDelay from its i-th round on. */
  function Retry(server: Server, n: nat, path: string, maxRetry: nat, delay: nat, i: nat): (res: Try)
    requires i <= maxRetry
    decreases maxRetry - i
  {
    var a := server(n, path);
    if IsLimited(a) then
      if i == maxRetry then Try(Failed(RateLimited), 1, 0)
      else
        var r := Retry(server, n + 1, path, maxRetry, delay * 2, i + 1);
        Try(r.outcome, r.requests + 1, r.slept + delay)
    else Try(Classify(a), 1, 0)
  }

  /** fetchConvBodyDelay from its v-th variant on. */
  function FetchFrom(server: Server, n: nat, base: string, v: nat, retryBase: nat, gap: nat): (res: Try)
    requires v <= VARIANT_COUNT
    decreases VARIANT_COUNT - v
  {
    if v == VARIANT_COUNT then Try(Failed(RateLimited), 0, 0)
    else
      var r := Retry(server, n, base + Variant(v), CONV_RETRIES, retryBase, 0);
      if r.outcome != Failed(RateLimited) then r
      else
        var rest := FetchFrom(server, n + r.requests, base, v + 1, retryBase, gap);
        Try(rest.outcome, r.requests + rest.requests, r.slept + gap + rest.slept)
  }

  function FetchConvBody(server: Server, n: nat, org: string, uuid: string, retryBase: nat, gap: nat): (r: Try) {
    FetchFrom(server, n, ConvPath(org, uuid), 0, retryBase, gap)
  }

  // ---- the session, with the loops as written ----

  class Session {
    const server: Server
    const org: string
    var requests: nat
    var slept: nat

    constructor (server: Server, org: string)
      ensures this.server == server && this.org == org && requests == 0 && slept == 0
    {
      this.server, this.org := server, org;
      requests, slept := 0, 0;
    }

    method Get(path: string) returns (a: Answer)
      modifies this
      ensures a == server(old(requests), path)
      ensures requests == old(requests) + 1 && slept == old(slept)
    {
      a := server(requests, path);
      requests := requests + 1;
    }

    method GetWithRetry(path: string, maxRetry: nat, baseDelay: nat) returns (f: Fetched)
      modifies this
      ensures requests >= old(requests) && slept >= old(slept)
      ensures
        Try(f, requests - old(requests), slept - old(slept)) ==
        Retry(server, old(requests), path, maxRetry, baseDelay, 0)
    {
      var delay, i := baseDelay, 0;
      while true
        invariant i <= maxRetry && requests >= old(requests) && slept >= old(slept)
        invariant
          var all := Retry(server, old(requests), path, maxRetry, baseDelay, 0);
          var rest := Retry(server, requests, path, maxRetry, delay, i);
          && all.outcome == rest.outcome
          && all.requests == requests - old(requests) + rest.requests
          && all.slept == slept - old(slept) + rest.slept
        decreases maxRetry - i
      {
        var a := Get(path);
        match a {
          case TimedOut => return Failed(DeadlineExceeded);
          case NetworkError => return Failed(OtherError);
          case Reply(body) =>
            if IsRateLimited(body.text) {
              if i >= maxRetry {
                return Failed(RateLimited);
              }
              slept := slept + delay;
              delay := delay * 2;
            } else if LooksLikeChallenge(body.text) {
              return Failed(HtmlPage);
            } else {
              return Got(body);
            }
        }
        i := i + 1;
      }
    }

    method FetchConv(uuid: string, retryBase: nat, gap: nat) returns (f: Fetched)
      modifies this
      ensures requests >= old(requests) && slept >= old(slept)
      ensures
        Try(f, requests - old(requests), slept - old(slept)) ==
        FetchConvBody(server, old(requests), org, uuid, retryBase, gap)
    {
      hide Retry, Variant, ConvPath;
      var base := ConvPath(org, uuid);
      for v := 0 to VARIANT_COUNT
        invariant requests >= old(requests) && slept >= old(slept)
        invariant
          var all := FetchConvBody(server, old(requests), org, uuid, retryBase, gap);
          var rest := FetchFrom(server, requests, base, v, retryBase, gap);
          && all.outcome == rest.outcome
          && all.requests == requests - old(requests) + rest.requests
          && all.slept == slept - old(slept) + rest.slept
      {
        f := GetWithRetry(base + Variant(v), CONV_RETRIES, retryBase);
        if f != Failed(RateLimited) {
          return;
        }
        slept := slept + gap;
      }
      f := Failed(RateLimited);
    }
  }

  // ---- cost and outcome ----

  function Pow2(k: nat): (p: nat)
    ensures p > 0
  {
    if k == 0 then 1 else 2 * Pow2(k - 1)
  }

  /** One retry loop: it stops at the first answer that is not a rate limit, or gives up after
  maxRetry + 1 requests; the sleeps double. */
  lemma {:induction false} RetryOutcome(server: Server, n: nat, path: string, maxRetry: nat, delay: nat, i: nat)
    requires i <= maxRetry
    ensures
      var r := Retry(server, n, path, maxRetry, delay, i);
      && 1 <= r.requests <= maxRetry - i + 1
      && (forall m: nat :: n <= m < n + r.requests - 1 ==> IsLimited(server(m, path)))
      && r.slept == delay * (Pow2(r.requests - 1) - 1)
      && (if IsLimited(server(n + r.requests - 1, path))
          then r.outcome == Failed(RateLimited) && r.requests == maxRetry - i + 1
          else r.outcome == Classify(server(n + r.requests - 1, path)) && r.outcome != Failed(RateLimited))
    decreases maxRetry - i
  {
    if IsLimited(server(n, path)) && i < maxRetry {
      RetryOutcome(server, n + 1, path, maxRetry, delay * 2, i + 1);
      var rest := Retry(server, n + 1, path, maxRetry, delay * 2, i + 1);
      DoubledSleep(delay, Pow2(rest.requests - 1));
    }
  }

  lemma DoubledSleep(d: nat, p: nat)
    ensures d * 2 * (p - 1) + d == d * (2 * p - 1)
  {
  }

  /** The rounds of one variant, with the production retry limit: request k of the fetch is one of these
  rounds, so it goes to variant k / 5. */
  function NthAnswer(server: Server, n: nat, base: string, k: nat): (r: Answer)
    requires k < 15
  {
    server(n + k, base + Variant(k / 5))
  }

  /** The backoff slept in the rounds of one variant before its j-th request, in units of the base. */
  function Backoff(j: nat): (n: nat)
    requires j < 5
  {
    match j case 0 => 0 case 1 => 1 case 2 => 3 case 3 => 7 case _ => 15
  }

  /** The time slept before the k-th request of a fetch. */
  function SleptBefore(k: nat, retryBase: nat, gap: nat): (t: nat)
    requires k < 15
  {
    k / 5 * (15 * retryBase + gap) + Backoff(k % 5) * retryBase
  }

  lemma {:induction false} VariantRound(server: Server, n: nat, base: string, v: nat, retryBase: nat)
    requires v < 3
    ensures
      var r := Retry(server, n + 5 * v, base + Variant(v), CONV_RETRIES, retryBase, 0);
      && 1 <= r.requests <= 5
      && r.slept == Backoff(r.requests - 1) * retryBase
      && (forall k: nat :: 5 * v <= k < 5 * v + r.requests - 1 ==> IsLimited(NthAnswer(server, n, base, k)))
      && (if r.outcome == Failed(RateLimited)
          then r.requests == 5 && IsLimited(NthAnswer(server, n, base, 5 * v + 4))
          else !IsLimited(NthAnswer(server, n, base, 5 * v + r.requests - 1))
               && r.outcome == Classify(NthAnswer(server, n, base, 5 * v + r.requests - 1)))
  {
    hide Retry, Variant, IsLimited, Classify;
    var start, path := n + 5 * v, base + Variant(v);
    RetryOutcome(server, start, path, CONV_RETRIES, retryBase, 0);
    var r := Retry(server, start, path, CONV_RETRIES, retryBase, 0);
    assert Pow2(0) == 1 && Pow2(1) == 2 && Pow2(2) == 4 && Pow2(3) == 8 && Pow2(4) == 16;
    forall k: nat | 5 * v <= k < 5 * v + 5 ensures NthAnswer(server, n, base, k) == server(n + k, path) {
      assert k / 5 == v;
    }
    assert r.slept == retryBase * Backoff(r.requests - 1);
  }

  /** The fetch is its three variants in turn, each started only after the one before ran into five
  rate limits. */
  lemma {:induction false} ThreeVariants(server: Server, n: nat, org: string, uuid: string, retryBase: nat, gap: nat)
    ensures
      var base := ConvPath(org, uuid);
      var r0 := Retry(server, n, base + Variant(0), CONV_RETRIES, retryBase, 0);
      var r1 := Retry(server, n + 5, base + Variant(1), CONV_RETRIES, retryBase, 0);
      var r2 := Retry(server, n + 10, base + Variant(2), CONV_RETRIES, retryBase, 0);
      FetchConvBody(server, n, org, uuid, retryBase, gap) ==
        if r0.outcome != Failed(RateLimited) then r0
        else if r1.outcome != Failed(RateLimited) then Try(r1.outcome, 5 + r1.requests, 15 * retryBase + gap + r1.slept)
        else if r2.outcome != Failed(RateLimited)
        then Try(r2.outcome, 10 + r2.requests, 30 * retryBase + 2 * gap + r2.slept)
        else Try(Failed(RateLimited), 15, 45 * retryBase + 3 * gap)
  {
    hide Retry, Variant, IsLimited, Classify;
    var base := ConvPath(org, uuid);
    VariantRound(server, n, base, 0, retryBase);
    VariantRound(server, n, base, 1, retryBase);
    VariantRound(server, n, base, 2, retryBase);
    var f3 := FetchFrom(server, n + 15, base, 3, retryBase, gap);
    var f2 := FetchFrom(server, n + 10, base, 2, retryBase, gap);
    var f1 := FetchFrom(server, n + 5, base, 1, retryBase, gap);
  }

  lemma SleptInVariant(v: nat, j: nat, retryBase: nat, gap: nat)
    requires v < 3 && j < 5
    ensures SleptBefore(5 * v + j, retryBase, gap) == 15 * v * retryBase + v * gap + Backoff(j) * retryBase
    ensures SleptBefore(5 * v + j, retryBase, gap) <= 45 * retryBase + 3 * gap
  {
    assert (5 * v + j) / 5 == v && (5 * v + j) % 5 == j;
    assert v == 0 || v == 1 || v == 2;
    assert Backoff(j) * retryBase <= 15 * retryBase;
  }

  lemma LastAnswer(a: Answer)
    requires !IsLimited(a)
    ensures Classify(a) != Failed(RateLimited)
    ensures Classify(a).Got? ==> !IsRateLimited(Classify(a).body.text) && !LooksLikeChallenge(Classify(a).body.text)
  {
  }

  /** Cost and outcome of a conversation fetch, against any server. It makes at most 15 requests, every
  answer before the last being a rate limit, and request k goes to variant k / 5: a lighter variant is asked
  only after five rate limits of the one before. It reports a rate limit exactly when all 15 answers
  are one, and otherwise returns what the first other answer means, which is never a rate-limited text and
  never an HTML page. */
  lemma {:induction false} FetchOutcome(server: Server, n: nat, org: string, uuid: string, retryBase: nat, gap: nat)
    ensures
      var base := ConvPath(org, uuid);
      var f := FetchConvBody(server, n, org, uuid, retryBase, gap);
      && 1 <= f.requests <= 15
      && (forall k: nat :: k < f.requests - 1 ==> IsLimited(NthAnswer(server, n, base, k)))
      && (f.outcome == Failed(RateLimited) <==> forall k: nat :: k < 15 ==> IsLimited(NthAnswer(server, n, base, k)))
      && (if f.outcome == Failed(RateLimited)
          then f.requests == 15 && f.slept == 45 * retryBase + 3 * gap
          else f.outcome == Classify(NthAnswer(server, n, base, f.requests - 1))
               && f.slept == SleptBefore(f.requests - 1, retryBase, gap))
      && f.slept <= 45 * retryBase + 3 * gap
      && (f.outcome.Got? ==> !IsRateLimited(f.outcome.body.text) && !LooksLikeChallenge(f.outcome.body.text))
  {
    hide Retry, FetchConvBody, FetchFrom, IsRateLimited, LooksLikeChallenge, Variant, IsLimited, Classify, NthAnswer,
         SleptBefore, ConvPath;
    var base := ConvPath(org, uuid);
    ThreeVariants(server, n, org, uuid, retryBase, gap);
    VariantRound(server, n, base, 0, retryBase);
    VariantRound(server, n, base, 1, retryBase);
    VariantRound(server, n, base, 2, retryBase);
    var f := FetchConvBody(server, n, org, uuid, retryBase, gap);
    var r0 := Retry(server, n, base + Variant(0), CONV_RETRIES, retryBase, 0);
    var r1 := Retry(server, n + 5, base + Variant(1), CONV_RETRIES, retryBase, 0);
    var r2 := Retry(server, n + 10, base + Variant(2), CONV_RETRIES, retryBase, 0);
    SleptInVariant(0, r0.requests - 1, retryBase, gap);
    SleptInVariant(1, r1.requests - 1, retryBase, gap);
    SleptInVariant(2, r2.requests - 1, retryBase, gap);
    if f.outcome != Failed(RateLimited) {
      LastAnswer(NthAnswer(server, n, base, f.requests - 1));
    }
  }

  /** The request is answered with a text that holds one of the two phrases somewhere. */
  predicate QuotesRateLimit(a: Answer) {
    a.Reply? && (Occurs("rate_limit_error", a.body.text) || Occurs("Temporarily unavailable", a.body.text))
  }

  /** The text test cannot tell a rate limit from a conversation that quotes one. If the three renderings of one
  conversation hold the phrase, that conversation is not returned, however well the server answers
  everything else. */
  lemma QuotedPhraseIsNeverFetched(server: Server, n: nat, org: string, uuid: string, retryBase: nat, gap: nat)
    requires forall k: nat :: k < 15 ==> QuotesRateLimit(NthAnswer(server, n, ConvPath(org, uuid), k))
    ensures
      FetchConvBody(server, n, org, uuid, retryBase, gap) == Try(Failed(RateLimited), 15, 45 * retryBase + 3 * gap)
  {
    FetchOutcome(server, n, org, uuid, retryBase, gap);
    hide NthAnswer, FetchConvBody, ConvPath;
    forall k: nat | k < 15 ensures IsLimited(NthAnswer(server, n, ConvPath(org, uuid), k)) {
      assert QuotesRateLimit(NthAnswer(server, n, ConvPath(org, uuid), k));
    }
  }

  /** Behind white space, the text begins with an angle bracket: an HTML page. */
  ghost predicate OpensWithAngle(text: string) {
    exists i :: 0 <= i < |text| && text[i] == '<' && forall k :: 0 <= k < i ==> IsSpace(text[k])
  }

  lemma ChallengeOpensWithAngle(text: string)
    ensures LooksLikeChallenge(text) <==> OpensWithAngle(text)
  {
    var i := TrimSpaceTrims(text);
    var t := TrimSpace(text);
    assert !IsSpace('<');
    hide TrimSpace, IsSpace;
    assert t != "" ==> text[i] == t[0];
    assert StartsWith(t, "<") <==> t != "" && t[0] == '<';
    if OpensWithAngle(text) {
      var j :| 0 <= j < |text| && text[j] == '<' && forall k :: 0 <= k < j ==> IsSpace(text[k]);
      assert i <= j < i + |t| && !IsSpace(text[i]);
      assert !(i < j);
    }
  }

  /** What a fetch brings is never an HTML page and quotes neither phrase. */
  lemma NoPageIsBrought(server: Server, n: nat, org: string, uuid: string, retryBase: nat, gap: nat)
    ensures
      var f := FetchConvBody(server, n, org, uuid, retryBase, gap).outcome;
      f.Got? ==> !OpensWithAngle(f.body.text) && !QuotesRateLimit(Reply(f.body))
  {
    hide FetchConvBody, OpensWithAngle, LooksLikeChallenge, Occurs;
    FetchOutcome(server, n, org, uuid, retryBase, gap);
    var f := FetchConvBody(server, n, org, uuid, retryBase, gap).outcome;
    if f.Got? {
      ChallengeOpensWithAngle(f.body.text);
    }
  }

  /** Why a fetch fails, if not for fifteen rate limits: its last answer is a deadline, a broken connection, or an HTML
  page, and is called what it is. */
  lemma FailureIsNamed(server: Server, n: nat, org: string, uuid: string, retryBase: nat, gap: nat)
    ensures
      var f := FetchConvBody(server, n, org, uuid, retryBase, gap);
      f.outcome != Failed(RateLimited) ==>
        && 1 <= f.requests <= 15
        && var a := NthAnswer(server, n, ConvPath(org, uuid), f.requests - 1);
           && (f.outcome == Failed(DeadlineExceeded) <==> a == TimedOut)
           && (f.outcome == Failed(OtherError) <==> a == NetworkError)
           && (f.outcome == Failed(HtmlPage) <==> a.Reply? && OpensWithAngle(a.body.text))
  {
    hide FetchConvBody, OpensWithAngle, LooksLikeChallenge, IsLimited, NthAnswer, ConvPath;
    FetchOutcome(server, n, org, uuid, retryBase, gap);
    var f := FetchConvBody(server, n, org, uuid, retryBase, gap);
    if f.outcome != Failed(RateLimited) {
      var a := NthAnswer(server, n, ConvPath(org, uuid), f.requests - 1);
      if a.Reply? {
        ChallengeOpensWithAngle(a.body.text);
      }
    }
  }

  // ---- pagination ----

  const PAGE_LIMIT: nat := 100

  function Min(a: nat, b: nat): (n: nat) {
    if a <= b then a else b
  }

  /** The page of a fixed list at an offset. */
  function PageAt(list: seq<ConvSummary>, offset: nat): (r: seq<ConvSummary>) {
    list[Min(offset, |list|)..Min(offset + PAGE_LIMIT, |list|)]
  }

  /** The decimal digits of an offset. */
  function Decimal(n: nat): (s: string) {
    (if n < 10 then "" else Decimal(n / 10)) + [(n % 10) as char + '0']
  }

  function ListPath(org: string, offset: nat): (s: string) {
    "/api/organizations/" + org + "/chat_conversations?limit=100&offset=" + Decimal(offset)
  }

  const LIST_RETRIES: nat := 6

  /** A fetch of page p as the n-th request. */
  function PageTry(server: Server, org: string, n: nat, p: nat): (r: Try) {
    Retry(server, n, ListPath(org, p * PAGE_LIMIT), LIST_RETRIES, RETRY_BASE, 0)
  }

  function PageIn(f: Fetched): (r: Option<seq<ConvSummary>>) {
    match f case Got(body) => body.page case Failed(_) => None
  }

  /** The number of requests made before page p is asked for, starting at n. */
  function PageStart(server: Server, org: string, n: nat, p: nat): (r: nat) {
    if p == 0 then n
    else
      var m := PageStart(server, org, n, p - 1);
      m + PageTry(server, org, m, p - 1).requests
  }

  /** A page is asked for up to seven times; it is given up as a rate limit exactly if all seven answers are one, and
  never more than 126 seconds are slept. */
  lemma PageOutcome(server: Server, org: string, n: nat, p: nat)
    ensures
      var t, path := PageTry(server, org, n, p), ListPath(org, p * PAGE_LIMIT);
      && 1 <= t.requests <= 7 && t.slept <= 126
      && (t.outcome == Failed(RateLimited) <==> forall m: nat :: n <= m < n + 7 ==> IsLimited(server(m, path)))
      && (t.outcome != Failed(RateLimited) ==> t.outcome == Classify(server(n + t.requests - 1, path)))
  {
    hide Retry, ListPath, IsLimited, Classify;
    RetryOutcome(server, n, ListPath(org, p * PAGE_LIMIT), LIST_RETRIES, RETRY_BASE, 0);
    SixDoublings(PageTry(server, org, n, p).requests - 1);
  }

  lemma SixDoublings(k: nat)
    requires k <= 6
    ensures Pow2(k) <= 64 && (k <= 5 ==> Pow2(k) <= 32)
  {
    assert Pow2(1) == 2 && Pow2(2) == 4 && Pow2(3) == 8;
    assert Pow2(4) == 16 && Pow2(5) == 32;
  }

  /** What page p brings, None if it does not arrive or does not decode. */
  function PageOf(server: Server, org: string, n: nat, p: nat): (page: Option<seq<ConvSummary>>) {
    PageIn(PageTry(server, org, PageStart(server, org, n, p), p).outcome)
  }

  /** The listing ends with page p: it fails, or is not full. */
  predicate IsLastPage(server: Server, org: string, n: nat, p: nat) {
    PageOf(server, org, n, p).None? || |PageOf(server, org, n, p).value| < PAGE_LIMIT
  }

  /** The first p pages, one after the other. */
  function PagesUpTo(server: Server, org: string, n: nat, p: nat): (all: seq<ConvSummary>) {
    if p == 0 then []
    else PagesUpTo(server, org, n, p - 1) + match PageOf(server, org, n, p - 1) case None => [] case Some(page) => page
  }

  /** The listing is over with its p-th page and not before. */
  ghost predicate EndsAfter(server: Server, org: string, n: nat, pages: nat) {
    && pages > 0
    && IsLastPage(server, org, n, pages - 1)
    && forall p: nat :: p < pages - 1 ==> !IsLastPage(server, org, n, p)
  }

  /** listAllConversations against any server on which it ends: the pages up to the first that is not full, in
  order, or an error if a page fails; never a part of them. */
  method ListAllConversations(session: Session, ghost stop: nat) returns (all: Option<seq<ConvSummary>>, pages: nat)
    requires IsLastPage(session.server, session.org, session.requests, stop)
    modifies session
    ensures pages <= stop + 1 && EndsAfter(session.server, session.org, old(session.requests), pages)
    ensures session.requests == PageStart(session.server, session.org, old(session.requests), pages)
    ensures all ==
      if PageOf(session.server, session.org, old(session.requests), pages - 1).Some?
      then Some(PagesUpTo(session.server, session.org, old(session.requests), pages))
      else None
  {
    hide Retry, ListPath;
    var acc: seq<ConvSummary> := [];
    var offset: nat := 0;
    pages := 0;
    while true
      invariant offset == pages * PAGE_LIMIT && pages <= stop
      invariant acc == PagesUpTo(session.server, session.org, old(session.requests), pages)
      invariant session.requests == PageStart(session.server, session.org, old(session.requests), pages)
      invariant forall p: nat :: p < pages ==> !IsLastPage(session.server, session.org, old(session.requests), p)
      decreases stop - pages
    {
      ghost var n := session.requests;
      var body := session.GetWithRetry(ListPath(session.org, offset), LIST_RETRIES, RETRY_BASE);
      assert body == PageTry(session.server, session.org, n, pages).outcome;
      pages := pages + 1;
      if PageIn(body).None? {
        return None, pages;
      }
      var page := PageIn(body).value;
      acc := acc + page;
      if |page| < PAGE_LIMIT {
        break;
      }
      offset := offset + PAGE_LIMIT;
    }
    all := Some(acc);
  }

  // ---- a server that reads the request ----

  /** A number is read from its front, digit by digit, onto what was read before. */
  function ReadOn(s: string, before: nat): (r: Option<nat>) {
    if s == "" then Some(before)
    else if '0' <= s[0] <= '9' then ReadOn(s[1..], 10 * before + (s[0] - '0') as nat)
    else None
  }

  function ReadNumber(s: string): (r: Option<nat>) {
    if s == "" then None else ReadOn(s, 0)
  }

  lemma {:induction false} ReadOneMore(s: string, c: char, before: nat)
    requires ReadOn(s, before).Some? && '0' <= c <= '9'
    ensures ReadOn(s + [c], before) == Some(10 * ReadOn(s, before).value + (c - '0') as nat)
  {
    if s == "" {
      assert s + [c] == [c] && [c][1..] == "";
    } else {
      ReadOneMore(s[1..], c, 10 * before + (s[0] - '0') as nat);
      assert (s + [c])[0] == s[0] && (s + [c])[1..] == s[1..] + [c];
    }
  }

  /** Reading undoes writing; the first digit is no zero, except of zero itself. */
  lemma {:induction false} DecimalReadsBack(n: nat)
    ensures ReadNumber(Decimal(n)) == Some(n) && (Decimal(n)[0] == '0' ==> n == 0)
  {
    var front, digit := if n < 10 then "" else Decimal(n / 10), (n % 10) as char + '0';
    if n >= 10 {
      DecimalReadsBack(n / 10);
    }
    ReadOneMore(front, digit, 0);
    assert (digit - '0') as nat == n % 10;
  }

  /** The offset that a request for a page of the list names. */
  function OffsetIn(org: string, path: string): (r: Option<nat>) {
    match Behind("/api/organizations/" + org + "/chat_conversations?limit=100&offset=", path)
    case None => None
    case Some(number) => ReadNumber(number)
  }

  lemma ListPathReadsBack(org: string, offset: nat)
    ensures OffsetIn(org, ListPath(org, offset)) == Some(offset)
  {
    hide Decimal, ReadNumber;
    DecimalReadsBack(offset);
    StandsBehind("/api/organizations/" + org + "/chat_conversations?limit=100&offset=", Decimal(offset));
  }

  /** The server reads the offset off the path and answers with up to a hundred conversations from there on. It may
  also fail in any way, as often as it likes. */
  ghost predicate PagesByOffset(server: Server, org: string, list: seq<ConvSummary>) {
    forall n: nat, path: string ::
      server(n, path).Reply? && server(n, path).body.page.Some? && OffsetIn(org, path).Some? ==>
        var k := OffsetIn(org, path).value;
        server(n, path).body.page.value == list[Min(k, |list|)..Min(k + 100, |list|)]
  }

  lemma PagedIsServed(server: Server, org: string, list: seq<ConvSummary>)
    requires PagesByOffset(server, org, list)
    ensures ServesList(server, org, list)
  {
    hide Retry, ListPath, OffsetIn;
    forall n: nat, p: nat | PageIn(PageTry(server, org, n, p).outcome).Some?
      ensures PageIn(PageTry(server, org, n, p).outcome).value == PageAt(list, p * PAGE_LIMIT)
    {
      var path := ListPath(org, p * PAGE_LIMIT);
      ListPathReadsBack(org, p * PAGE_LIMIT);
      RetryOutcome(server, n, path, LIST_RETRIES, RETRY_BASE, 0);
      var last := n + PageTry(server, org, n, p).requests - 1;
      assert OffsetIn(org, path) == Some(p * PAGE_LIMIT) && server(last, path).Reply?;
    }
  }

  /** Every page that arrives and decodes is that page of the list. Pages may fail in any way. */
  ghost predicate ServesList(server: Server, org: string, list: seq<ConvSummary>) {
    forall n: nat, p: nat :: PageIn(PageTry(server, org, n, p).outcome).Some? ==>
      PageIn(PageTry(server, org, n, p).outcome).value == PageAt(list, p * PAGE_LIMIT)
  }

  lemma PageExtends(list: seq<ConvSummary>, p: nat)
    requires p * PAGE_LIMIT <= |list|
    ensures
      var page := PageAt(list, p * PAGE_LIMIT);
      && list[..p * PAGE_LIMIT] + page == list[..p * PAGE_LIMIT + |page|]
      && (|page| < PAGE_LIMIT <==> p == |list| / PAGE_LIMIT)
      && (|page| < PAGE_LIMIT ==> p * PAGE_LIMIT + |page| == |list|)
      && |page| <= PAGE_LIMIT
  {
  }

  lemma {:induction false} PagesOfList(server: Server, org: string, n: nat, list: seq<ConvSummary>, p: nat)
    requires ServesList(server, org, list) && forall q: nat :: q < p ==> !IsLastPage(server, org, n, q)
    ensures p * PAGE_LIMIT <= |list| && PagesUpTo(server, org, n, p) == list[..p * PAGE_LIMIT]
  {
    hide PageTry, PageAt, PageStart;
    if p > 0 {
      PagesOfList(server, org, n, list, p - 1);
      PageExtends(list, p - 1);
      assert !IsLastPage(server, org, n, p - 1);
    }
  }

  /** Against a fixed list: the listing ends, and brings the whole list, in order, in floor(n / 100) + 1 pages,
  also if n is a multiple of 100, or an error at the first page that fails. */
  lemma {:induction false} FixedListIsListed(server: Server, org: string, n: nat, list: seq<ConvSummary>, pages: nat)
    requires PagesByOffset(server, org, list)
    ensures IsLastPage(server, org, n, |list| / PAGE_LIMIT)
    ensures EndsAfter(server, org, n, pages) ==>
      && pages <= |list| / PAGE_LIMIT + 1
      && (PageOf(server, org, n, pages - 1).Some? ==>
            pages == |list| / PAGE_LIMIT + 1 && PagesUpTo(server, org, n, pages) == list)
  {
    hide PageTry, PageAt, PageStart, PagesByOffset, OffsetIn;
    PagedIsServed(server, org, list);
    PageExtends(list, |list| / PAGE_LIMIT);
    if EndsAfter(server, org, n, pages) {
      PagesOfList(server, org, n, list, pages - 1);
      PageExtends(list, pages - 1);
      assert list[..|list|] == list;
    }
  }

  /** The k-th answer to page p. */
  function PageAnswer(server: Server, org: string, n: nat, p: nat, k: nat): (a: Answer) {
    server(PageStart(server, org, n, p) + k, ListPath(org, p * PAGE_LIMIT))
  }

  lemma QuotedPhraseIsLimit(server: Server, m: nat, path: string)
    requires forall q: nat :: m <= q <= m + LIST_RETRIES ==> QuotesRateLimit(server(q, path))
    ensures Retry(server, m, path, LIST_RETRIES, RETRY_BASE, 0).outcome == Failed(RateLimited)
  {
    RetryOutcome(server, m, path, LIST_RETRIES, RETRY_BASE, 0);
    var r := Retry(server, m, path, LIST_RETRIES, RETRY_BASE, 0);
    hide Retry, Occurs;
    assert QuotesRateLimit(server(m + r.requests - 1, path));
  }

  /** The same test on a page of the list: one title that quotes the phrase, and the page is a rate limit in all seven
  rounds. So the listing ends with an error, whatever else it would have brought. */
  lemma QuotedPhraseEndsListing(server: Server, org: string, n: nat, p: nat)
    requires forall k: nat :: k <= LIST_RETRIES ==> QuotesRateLimit(PageAnswer(server, org, n, p, k))
    ensures PageOf(server, org, n, p).None? && IsLastPage(server, org, n, p)
    ensures p == 0 ==> EndsAfter(server, org, n, 1)
  {
    hide Retry, ListPath, PageStart, QuotesRateLimit;
    var m, path := PageStart(server, org, n, p), ListPath(org, p * PAGE_LIMIT);
    forall q: nat | m <= q <= m + LIST_RETRIES ensures QuotesRateLimit(server(q, path)) {
      assert QuotesRateLimit(PageAnswer(server, org, n, p, q - m));
    }
    QuotedPhraseIsLimit(server, m, path);
  }

  // ---- a list that changes while it is read ----

  /** A server that never fails: it reads the offset off the path and answers from the list as it is at this request. */
  function ListServer(org: string, lists: nat -> seq<ConvSummary>): (server: Server) {
    (m: nat, path: string) =>
      match OffsetIn(org, path)
      case None => NetworkError
      case Some(k) => Reply(Body("[]", None, Some(PageAt(lists(m), k))))
  }

  lemma PlainPageTakesOneRequest(org: string, lists: nat -> seq<ConvSummary>, m: nat, p: nat)
    ensures
      var t := PageTry(ListServer(org, lists), org, m, p);
      t.requests == 1 && PageIn(t.outcome) == Some(PageAt(lists(m), p * PAGE_LIMIT))
  {
    hide PageAt, ListPath, OffsetIn;
    ListPathReadsBack(org, p * PAGE_LIMIT);
    var a := ListServer(org, lists)(m, ListPath(org, p * PAGE_LIMIT));
    PlainTextIsNoLimit();
    assert !IsLimited(a);
  }

  lemma PlainTextIsNoLimit()
    ensures !IsRateLimited("[]") && !LooksLikeChallenge("[]")
  {
    forall i | 0 <= i <= 2
      ensures !OccursAt("rate_limit_error", "[]", i) && !OccursAt("Temporarily unavailable", "[]", i)
    {
    }
    assert TrimSpace("[]") == "[]";
  }

  lemma {:induction false} PlainPages(org: string, list: seq<ConvSummary>, n: nat, p: nat)
    ensures
      var server := ListServer(org, Always(list));
      && PageStart(server, org, n, p) == n + p
      && PageOf(server, org, n, p) == Some(PageAt(list, p * PAGE_LIMIT))
  {
    hide PageTry, ListServer, PageAt;
    if p > 0 {
      PlainPages(org, list, n, p - 1);
      PlainPageTakesOneRequest(org, Always(list), n + p - 1, p - 1);
    }
    PlainPageTakesOneRequest(org, Always(list), n + p, p);
  }

  function Always(list: seq<ConvSummary>): (lists: nat -> seq<ConvSummary>) {
    (m: nat) => list
  }

  lemma ListServerPages(org: string, list: seq<ConvSummary>)
    ensures PagesByOffset(ListServer(org, Always(list)), org, list)
  {
    hide OffsetIn;
    var server := ListServer(org, Always(list));
    forall m: nat, path: string | server(m, path).Reply? && server(m, path).body.page.Some? && OffsetIn(org, path).Some?
      ensures
        var k := OffsetIn(org, path).value;
        server(m, path).body.page.value == list[Min(k, |list|)..Min(k + 100, |list|)]
    {
      assert server(m, path) == Reply(Body("[]", None, Some(PageAt(list, OffsetIn(org, path).value))));
    }
  }

  /** From a server that never fails, the whole list comes in floor(n / 100) + 1 requests. */
  lemma ListServerIsListed(org: string, list: seq<ConvSummary>, n: nat)
    ensures
      var server, pages := ListServer(org, Always(list)), |list| / PAGE_LIMIT + 1;
      && EndsAfter(server, org, n, pages) && PageStart(server, org, n, pages) == n + pages
      && PageOf(server, org, n, pages - 1).Some? && PagesUpTo(server, org, n, pages) == list
  {
    hide ListServer, PageAt, PageTry, PageOf, PagesUpTo, PageStart, IsLastPage, PagesByOffset, OffsetIn, Always;
    var server, pages := ListServer(org, Always(list)), |list| / PAGE_LIMIT + 1;
    ListServerPages(org, list);
    forall p: nat | p < pages - 1 ensures !IsLastPage(server, org, n, p) {
      PlainPages(org, list, n, p);
      FullPage(server, org, n, list, p);
    }
    PlainPages(org, list, n, pages - 1);
    PlainPages(org, list, n, pages);
    FixedListIsListed(server, org, n, list, pages);
  }

  lemma FullPage(server: Server, org: string, n: nat, list: seq<ConvSummary>, p: nat)
    requires p < |list| / PAGE_LIMIT && PageOf(server, org, n, p) == Some(PageAt(list, p * PAGE_LIMIT))
    ensures !IsLastPage(server, org, n, p)
  {
    PageExtends(list, p);
    hide PageOf;
  }

  /** Of a list that changes between two pages, after the n-th request, the listing brings the first page as it was and
  the second as it has become. */
  lemma ChangingListIsMixed(n: nat, before: seq<ConvSummary>, after: seq<ConvSummary>, org: string)
    requires |before| >= PAGE_LIMIT && PAGE_LIMIT <= |after| < 2 * PAGE_LIMIT
    ensures
      var server := ListServer(org, ChangesAfter(n, before, after));
      && EndsAfter(server, org, n, 2) && PageOf(server, org, n, 1).Some?
      && PagesUpTo(server, org, n, 2) == before[..PAGE_LIMIT] + after[PAGE_LIMIT..]
  {
    hide PageTry, ListServer;
    var lists := ChangesAfter(n, before, after);
    var server := ListServer(org, lists);
    PlainPageTakesOneRequest(org, lists, n, 0);
    PlainPageTakesOneRequest(org, lists, n + 1, 1);
    assert PageStart(server, org, n, 0) == n && PageStart(server, org, n, 1) == n + 1;
    assert PageAt(before, 0) == before[..PAGE_LIMIT] && PageAt(after, PAGE_LIMIT) == after[PAGE_LIMIT..];
    assert PagesUpTo(server, org, n, 1) == before[..PAGE_LIMIT];
  }

  function ChangesAfter(n: nat, before: seq<ConvSummary>, after: seq<ConvSummary>): (lists: nat -> seq<ConvSummary>) {
    (m: nat) => if m <= n then before else after
  }
}
