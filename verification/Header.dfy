/** Reading back the version a file was rendered from (daemon.go: fileConvUpdatedAt). */
module Header {
  import opened Text
  import opened Markdown

  /** The bytes of "- Updated: ". */
  const UPDATED_TAG: Bytes := [45, 32, 85, 112, 100, 97, 116, 101, 100, 58, 32]

  const PREFIX_BYTES := 512

  /** A line that holds the tag and something after it. */
  predicate IsHeaderLine(line: Bytes) {
    |line| > |UPDATED_TAG| && UPDATED_TAG <= line
  }

  /** What follows the tag. */
  function Capture(line: Bytes): (v: Bytes)
    requires IsHeaderLine(line)
    ensures |v| == |line| - |UPDATED_TAG|
  {
    line[|UPDATED_TAG|..]
  }

  /** The capture of the first match of (?m)^- Updated: (.+)$ in `b`. */
  function FirstUpdated(b: Bytes): (r: Option<Bytes>)
    decreases |b|
  {
    var e := LineEnd(b);
    if IsHeaderLine(b[..e]) then Some(Capture(b[..e]))
    else if e == |b| then None
    else FirstUpdated(b[e + 1..])
  }

  function Prefix(file: Bytes): (b: Bytes) {
    if |file| > PREFIX_BYTES then file[..PREFIX_BYTES] else file
  }

  function FileConvUpdatedAt(file: Bytes): (b: Bytes) {
    match FirstUpdated(Prefix(file))
    case None => []
    case Some(v) => TrimBytes(v)
  }

  // ---- how scanning goes through a text ----

  lemma FirstBreak(b: Bytes, q: nat)
    requires q <= |b| && NEWLINE !in b[..q] && (q == |b| || b[q] == NEWLINE)
    ensures LineEnd(b) == q
  {
    forall i | 0 <= i < q ensures b[i] != NEWLINE {
      assert b[i] == b[..q][i];
    }
  }

  lemma ScanOneLine(line: Bytes)
    requires NEWLINE !in line
    ensures FirstUpdated(line) == if IsHeaderLine(line) then Some(Capture(line)) else None
  {
    assert line[..|line|] == line;
    FirstBreak(line, |line|);
  }

  lemma ScanLine(line: Bytes, rest: Bytes)
    requires NEWLINE !in line
    ensures FirstUpdated(line + [NEWLINE] + rest) ==
      if IsHeaderLine(line) then Some(Capture(line)) else FirstUpdated(rest)
  {
    var t := line + [NEWLINE] + rest;
    var e := |line|;
    assert t[..e] == line;
    assert t[e + 1..] == rest;
    FirstBreak(t, e);
  }

  /** A text is one line, or one line followed by a text. */
  lemma SplitLine(a: Bytes) returns (line: Bytes, rest: Bytes)
    requires NEWLINE in a
    ensures NEWLINE !in line && a == line + [NEWLINE] + rest
  {
    var e := LineEnd(a);
    assert a[..|a|] == a;
    line, rest := a[..e], a[e + 1..];
  }

  /** The lines of a + "\n" + b are the lines of a followed by those of b. */
  lemma {:induction false} ScanConcat(a: Bytes, b: Bytes)
    ensures FirstUpdated(a + [NEWLINE] + b) == if FirstUpdated(a).Some? then FirstUpdated(a) else FirstUpdated(b)
    decreases |a|
  {
    if NEWLINE in a {
      var line, rest := SplitLine(a);
      ScanLine(line, rest);
      ScanLine(line, rest + [NEWLINE] + b);
      assert a + [NEWLINE] + b == line + [NEWLINE] + (rest + [NEWLINE] + b);
      ScanConcat(rest, b);
    } else {
      ScanOneLine(a);
      ScanLine(a, b);
    }
  }

  /** A capture is a non-empty piece of one line of the text. */
  lemma {:induction false} CaptureIsOneLine(a: Bytes)
    ensures FirstUpdated(a).Some? ==> FirstUpdated(a).value != [] && NEWLINE !in FirstUpdated(a).value
    decreases |a|
  {
    if NEWLINE in a {
      var line, rest := SplitLine(a);
      ScanLine(line, rest);
      CaptureIsOneLine(rest);
    } else {
      ScanOneLine(a);
    }
  }

  lemma HeaderLineExtends(line: Bytes, k: nat)
    requires k <= |line| && IsHeaderLine(line[..k])
    ensures IsHeaderLine(line)
  {
    assert line[..k][..|UPDATED_TAG|] == line[..|UPDATED_TAG|];
  }

  /** Cutting a text short does not make a header line appear. */
  lemma {:induction false} ScanPrefix(a: Bytes, k: nat)
    requires k <= |a| && FirstUpdated(a).None?
    ensures FirstUpdated(a[..k]).None?
    decreases |a|
  {
    hide FirstUpdated, IsHeaderLine;
    if NEWLINE in a {
      var line, rest := SplitLine(a);
      ScanLine(line, rest);
      CutAfterLine(line, rest, k);
      if k <= |line| {
        ScanCutLine(line, k);
      } else {
        ScanPrefix(rest, k - |line| - 1);
        ScanLine(line, rest[..k - |line| - 1]);
      }
    } else {
      ScanOneLine(a);
      ScanCutLine(a, k);
    }
  }

  lemma CutAfterLine(line: Bytes, rest: Bytes, k: nat)
    requires k <= |line| + 1 + |rest|
    ensures (line + [NEWLINE] + rest)[..k] ==
      if k <= |line| then line[..k] else line + [NEWLINE] + rest[..k - |line| - 1]
  {
  }

  lemma ScanCutLine(line: Bytes, k: nat)
    requires NEWLINE !in line && k <= |line| && !IsHeaderLine(line)
    ensures FirstUpdated(line[..k]).None?
  {
    ScanOneLine(line[..k]);
    if IsHeaderLine(line[..k]) {
      HeaderLineExtends(line, k);
    }
  }

  // ---- the scanner, declaratively ----

  /** A match of the pattern: a line from p to q that is a header line. */
  predicate MatchAt(b: Bytes, p: nat, q: nat) {
    && p <= q <= |b|
    && (p == 0 || b[p - 1] == NEWLINE)
    && (q == |b| || b[q] == NEWLINE)
    && NEWLINE !in b[p..q]
    && IsHeaderLine(b[p..q])
  }

  ghost predicate IsLeftmostMatch(b: Bytes, p: nat, q: nat) {
    MatchAt(b, p, q) && forall p': nat, q': nat :: MatchAt(b, p', q') ==> p <= p'
  }

  /** FirstUpdated captures from the leftmost match, which is from p to q, and finds nothing only if there
  is none. */
  ghost predicate IsScan(b: Bytes, p: nat, q: nat) {
    match FirstUpdated(b)
    case None => forall p': nat, q': nat :: !MatchAt(b, p', q')
    case Some(v) => IsLeftmostMatch(b, p, q) && v == Capture(b[p..q])
  }

  lemma FirstLineMatches(b: Bytes)
    requires IsHeaderLine(b[..LineEnd(b)])
    ensures IsScan(b, 0, LineEnd(b))
  {
    assert b[0..LineEnd(b)] == b[..LineEnd(b)];
  }

  lemma MovedCapture(b: Bytes, k: nat, p: nat, q: nat)
    requires k <= |b| && p <= q <= |b| - k
    ensures b[k..][p..q] == b[p + k..q + k]
  {
  }

  lemma OnlyLine(b: Bytes)
    requires !IsHeaderLine(b[..LineEnd(b)]) && LineEnd(b) == |b|
    ensures IsScan(b, 0, 0)
  {
    forall p: nat, q: nat | MatchAt(b, p, q) ensures false {
      NoMatchInFirstLine(b, p, q);
      assert false;
    }
  }

  lemma {:induction false} ScanShifts(b: Bytes, k: nat, p: nat, q: nat)
    requires 0 < k <= |b| && b[k - 1] == NEWLINE && IsScan(b[k..], p, q) && FirstUpdated(b) == FirstUpdated(b[k..])
    requires forall p': nat, q': nat :: MatchAt(b, p', q') ==> k <= p'
    ensures IsScan(b, p + k, q + k)
  {
    hide FirstUpdated, MatchAt, Capture, IsHeaderLine;
    MatchesShift(b, k);
    if FirstUpdated(b).Some? {
      LeftmostShifts(b, k, p, q);
      MatchFits(b[k..], p, q);
      MovedCapture(b, k, p, q);
    }
  }

  lemma {:induction false} NextLine(b: Bytes)
    requires !IsHeaderLine(b[..LineEnd(b)]) && LineEnd(b) < |b|
    ensures b[LineEnd(b)] == NEWLINE && FirstUpdated(b) == FirstUpdated(b[LineEnd(b) + 1..])
    ensures forall p: nat, q: nat :: MatchAt(b, p, q) ==> LineEnd(b) + 1 <= p
  {
    forall p: nat, q: nat | MatchAt(b, p, q) ensures LineEnd(b) < p {
      NoMatchInFirstLine(b, p, q);
    }
  }

  lemma MatchFits(b: Bytes, p: nat, q: nat)
    requires MatchAt(b, p, q)
    ensures p <= q <= |b|
  {
  }

  lemma {:induction false} ScannerIsLeftmostMatch(b: Bytes) returns (p: nat, q: nat)
    ensures IsScan(b, p, q)
    decreases |b|
  {
    hide IsScan, IsHeaderLine;
    var e := LineEnd(b);
    if IsHeaderLine(b[..e]) {
      FirstLineMatches(b);
      p, q := 0, e;
    } else if e == |b| {
      OnlyLine(b);
      p, q := 0, 0;
    } else {
      p, q := ScannerIsLeftmostMatch(b[e + 1..]);
      NextLine(b);
      ScanShifts(b, e + 1, p, q);
      p, q := p + e + 1, q + e + 1;
    }
  }

  lemma LeftmostShifts(b: Bytes, k: nat, p: nat, q: nat)
    requires 0 < k <= |b| && b[k - 1] == NEWLINE && IsLeftmostMatch(b[k..], p, q)
    requires forall p': nat, q': nat :: MatchAt(b, p', q') ==> k <= p'
    ensures IsLeftmostMatch(b, p + k, q + k)
  {
    MatchesShift(b, k);
    hide MatchAt;
    forall p': nat, q': nat | MatchAt(b, p', q') ensures p + k <= p' {
      assert MatchAt(b[k..], p' - k, q' - k);
    }
  }

  lemma MatchesShift(b: Bytes, k: nat)
    requires 0 < k <= |b| && b[k - 1] == NEWLINE
    ensures forall p: nat, q: nat :: MatchAt(b[k..], p, q) ==> MatchAt(b, p + k, q + k)
    ensures forall p: nat, q: nat :: k <= p && MatchAt(b, p, q) ==> k <= q && MatchAt(b[k..], p - k, q - k)
  {
    forall p: nat, q: nat ensures MatchAt(b[k..], p, q) ==> MatchAt(b, p + k, q + k) {
      MatchShifts(b, k, p, q);
    }
    forall p: nat, q: nat | k <= p && MatchAt(b, p, q) ensures k <= q && MatchAt(b[k..], p - k, q - k) {
      MatchShifts(b, k, p - k, q - k);
    }
  }

  lemma NoMatchInFirstLine(b: Bytes, p: nat, q: nat)
    requires !IsHeaderLine(b[..LineEnd(b)]) && MatchAt(b, p, q)
    ensures LineEnd(b) < p
  {
    if p == 0 {
      assert b[0..q] == b[..q];
      FirstBreak(b, q);
      assert false;
    }
  }

  lemma MatchShifts(b: Bytes, k: nat, p: nat, q: nat)
    requires 0 < k <= |b| && b[k - 1] == NEWLINE
    ensures MatchAt(b[k..], p, q) <==> MatchAt(b, p + k, q + k)
  {
    if p <= q && q + k <= |b| {
      assert b[k..][p..q] == b[p + k..q + k];
    }
  }

  // ---- reading back a header line in any surrounding text ----

  /** Reading back from  before "\n" line "\n" after,  when `before` holds no header line and `line`
  starts like one: the version in `line` comes back exactly when it is trimmed, has no line break and
  ends within the prefix. */
  lemma {:induction false} ReadBack(before: Bytes, line: Bytes, after: Bytes)
    requires FirstUpdated(before).None? && IsHeaderLine(line)
    ensures
      FileConvUpdatedAt(before + [NEWLINE] + (line + [NEWLINE] + after)) == Capture(line) <==>
        NEWLINE !in Capture(line) && TrimBytes(Capture(line)) == Capture(line)
        && |before| + 1 + |line| <= 512
  {
    var file := before + [NEWLINE] + (line + [NEWLINE] + after);
    ReadBackIsTrimmedLine(file);
    if NEWLINE !in Capture(line) {
      HeaderLineBreaks(line);
      if |before| + 1 + |line| <= PREFIX_BYTES {
        LineWithinPrefix(before, line, after);
      } else {
        LineCutOff(before, line, after);
      }
    }
  }

  lemma HeaderLineBreaks(line: Bytes)
    requires IsHeaderLine(line) && NEWLINE !in Capture(line)
    ensures NEWLINE !in line
  {
    assert NEWLINE !in UPDATED_TAG;
    forall i | 0 <= i < |line| ensures line[i] != NEWLINE {
      if i < |UPDATED_TAG| {
        assert line[i] == UPDATED_TAG[i];
      } else {
        assert line[i] == Capture(line)[i - |UPDATED_TAG|];
      }
    }
  }

  lemma {:induction false} ReadBackIsTrimmedLine(file: Bytes)
    ensures NEWLINE !in FileConvUpdatedAt(file)
    ensures TrimBytes(FileConvUpdatedAt(file)) == FileConvUpdatedAt(file)
  {
    var m := FirstUpdated(Prefix(file));
    CaptureIsOneLine(Prefix(file));
    if m.Some? {
      TrimBytesIdempotent(m.value);
      var i := TrimBytesIsSlice(m.value);
      SliceMembers(m.value, i, i + |TrimBytes(m.value)|);
    }
  }

  function Cut(b: Bytes, k: nat): (r: Bytes) {
    if |b| > k then b[..k] else b
  }

  /** The prefix of  before "\n" tail  scans like `before`, then like the part of `tail` it reaches. */
  lemma PrefixAfter(before: Bytes, tail: Bytes)
    requires |before| < PREFIX_BYTES
    ensures FirstUpdated(Prefix(before + [NEWLINE] + tail)) ==
      if FirstUpdated(before).Some? then FirstUpdated(before)
      else FirstUpdated(Cut(tail, PREFIX_BYTES - |before| - 1))
  {
    hide FirstUpdated;
    var rest := Cut(tail, PREFIX_BYTES - |before| - 1);
    CutAfterLine(before, tail, |before| + 1 + |rest|);
    assert tail[..|tail|] == tail;
    var t := before + [NEWLINE] + tail;
    assert t[..|t|] == t;
    ScanConcat(before, rest);
  }

  lemma CutKeepsLine(line: Bytes, after: Bytes, k: nat)
    requires IsHeaderLine(line) && NEWLINE !in line && |line| <= k
    ensures FirstUpdated(Cut(line + [NEWLINE] + after, k)) == Some(Capture(line))
  {
    var tail := line + [NEWLINE] + after;
    if |tail| <= k {
      ScanLine(line, after);
    } else if k == |line| {
      assert tail[..k] == line;
      ScanOneLine(line);
    } else {
      CutAfterLine(line, after, k);
      ScanLine(line, after[..k - |line| - 1]);
    }
  }

  lemma {:induction false} LineWithinPrefix(before: Bytes, line: Bytes, after: Bytes)
    requires FirstUpdated(before).None? && IsHeaderLine(line) && NEWLINE !in line
    requires |before| + 1 + |line| <= PREFIX_BYTES
    ensures FirstUpdated(Prefix(before + [NEWLINE] + (line + [NEWLINE] + after))) == Some(Capture(line))
  {
    hide FirstUpdated, LineEnd, Prefix, Cut;
    PrefixAfter(before, line + [NEWLINE] + after);
    CutKeepsLine(line, after, PREFIX_BYTES - |before| - 1);
  }

  lemma {:induction false} LineCutOff(before: Bytes, line: Bytes, after: Bytes)
    requires FirstUpdated(before).None? && IsHeaderLine(line) && NEWLINE !in line
    requires |before| + 1 + |line| > PREFIX_BYTES
    ensures |FileConvUpdatedAt(before + [NEWLINE] + (line + [NEWLINE] + after))| < |Capture(line)|
  {
    var tail := line + [NEWLINE] + after;
    var file := before + [NEWLINE] + tail;
    if |before| >= PREFIX_BYTES {
      CutAfterLine(before, tail, PREFIX_BYTES);
      ScanPrefix(before, PREFIX_BYTES);
    } else {
      var k := PREFIX_BYTES - |before| - 1;
      PrefixAfter(before, tail);
      CutAfterLine(line, after, k);
      ScanOneLine(line[..k]);
      if IsHeaderLine(line[..k]) {
        var _ := TrimBytesIsSlice(Capture(line[..k]));
      }
    }
  }

  // ---- rendered conversations ----

  /** The rendered text up to the line break that precedes the Updated line. */
  function BeforeUpdated(c: FullConv): (s: string) {
    "# " + Title(c.name) + "\n" + "\n" + CreatedLine(c)
  }

  function CreatedLine(c: FullConv): (s: string) {
    "- Created: " + Trunc(c.createdAt, 19)
  }

  function AfterUpdated(c: FullConv): (s: string) {
    "- Model: " + c.model + "\n\n---\n\n" + Sections(c.messages)
  }

  function VersionBytes(updatedAt: string): (b: Bytes) {
    Utf8(Trunc(updatedAt, 19))
  }

  /** The bytes before the end of the Updated line. */
  function HeaderBytes(c: FullConv): (n: nat) {
    |Utf8(BeforeUpdated(c))| + 1 + |UPDATED_TAG| + |VersionBytes(c.updatedAt)|
  }

  lemma TagBytes()
    ensures Utf8("- Updated: ") == UPDATED_TAG
    ensures Utf8("\n") == [NEWLINE]
  {
    hide Utf8;
    Utf8Ascii("- Updated: ");
    Utf8Ascii("\n");
  }

  lemma Utf8Line(a: string, b: string)
    ensures Utf8(a + "\n" + b) == Utf8(a) + [NEWLINE] + Utf8(b)
  {
    TagBytes();
    Utf8Concat(a + "\n", b);
    Utf8Concat(a, "\n");
  }

  function UpdatedLine(c: FullConv): (s: string) {
    "- Updated: " + Trunc(c.updatedAt, 19)
  }

  lemma UpdatedLineBytes(c: FullConv)
    requires c.updatedAt != ""
    ensures IsHeaderLine(Utf8(UpdatedLine(c))) && Capture(Utf8(UpdatedLine(c))) == VersionBytes(c.updatedAt)
  {
    var v := Trunc(c.updatedAt, 19);
    assert v != "";
    hide Utf8, Trunc, IsHeaderLine, Capture;
    TagBytes();
    Utf8NonEmpty(v);
    Utf8Concat("- Updated: ", v);
    TagThen(Utf8(v));
  }

  lemma TagThen(v: Bytes)
    requires v != []
    ensures IsHeaderLine(UPDATED_TAG + v) && Capture(UPDATED_TAG + v) == v
  {
  }

  lemma RenderedBytes(c: FullConv)
    ensures Utf8(Render(c)) ==
      Utf8(BeforeUpdated(c)) + [NEWLINE] + (Utf8(UpdatedLine(c)) + [NEWLINE] + Utf8(AfterUpdated(c)))
  {
    RenderSplit(c);
    Utf8Line(BeforeUpdated(c), UpdatedLine(c) + "\n" + AfterUpdated(c));
    Utf8Line(UpdatedLine(c), AfterUpdated(c));
  }

  lemma Regroup<T>(a: seq<T>, n: seq<T>, cl: seq<T>, cr: seq<T>, ul: seq<T>, v: seq<T>, ml: seq<T>, m: seq<T>,
                   e: seq<T>, s: seq<T>)
    ensures
      a + (n + n + cl) + cr + (n + ul) + v + (n + ml) + m + e + s
      == (a + n + n + (cl + cr)) + n + ((ul + v) + n + (ml + m + e + s))
  {
    var p := a + (n + n + cl) + cr;
    assert p == a + n + n + (cl + cr);
    assert p + (n + ul) + v == p + n + (ul + v);
    var q := p + n + (ul + v);
    assert q + (n + ml) + m + e + s == q + n + (ml + m + e + s);
    Assoc(p + n, ul + v, n);
    Assoc(p + n, ul + v + n, ml + m + e + s);
  }

  lemma {:induction false} RenderSplit(c: FullConv)
    ensures Render(c) == BeforeUpdated(c) + "\n" + (UpdatedLine(c) + "\n" + AfterUpdated(c))
  {
    hide Title, Trunc, Sections;
    LabelsBegin();
    Regroup("# " + Title(c.name), "\n", "- Created: ", Trunc(c.createdAt, 19), "- Updated: ",
      Trunc(c.updatedAt, 19), "- Model: ", c.model, "\n\n---\n\n", Sections(c.messages));
  }

  lemma LabelsBegin()
    ensures "\n" + "\n" + "- Created: " == "\n\n- Created: "
    ensures "\n" + "- Updated: " == "\n- Updated: " && "\n" + "- Model: " == "\n- Model: "
  {
  }

  /** Whatever the title, the lines before the Updated line hold a header line only if the creation
  date smuggles one in. */
  lemma TitleNeverMatches(c: FullConv)
    ensures FirstUpdated(Utf8(BeforeUpdated(c))) == FirstUpdated(Utf8(CreatedLine(c)))
  {
    var title := "# " + Title(c.name);
    var t, d := Utf8(title), Utf8(CreatedLine(c));
    TitleLine(Title(c.name));
    assert BeforeUpdated(c) == title + "\n" + ("" + "\n" + CreatedLine(c));
    Utf8Line(title, "" + "\n" + CreatedLine(c));
    Utf8Line("", CreatedLine(c));
    ScanLine(t, [] + [NEWLINE] + d);
    ScanLine([], d);
  }

  lemma TitleLine(title: string)
    requires '\n' !in title
    ensures NEWLINE !in Utf8("# " + title) && !IsHeaderLine(Utf8("# " + title))
  {
    Utf8Newline("# " + title);
    Utf8Concat("# ", title);
    Utf8Ascii("# ");
    assert Utf8("# " + title)[0] == 35;
    assert UPDATED_TAG[0] == 45;
  }

  /** The round trip, exactly. Whatever the title, the model and the messages contain, the file of a
  conversation reads back its own truncated version if and only if that version is one trimmed line
  and the header ends within the prefix. The creation date must not itself hold a header line. */
  lemma {:induction false} HeaderRoundTrip(c: FullConv)
    requires FirstUpdated(Utf8(CreatedLine(c))).None?
    requires c.updatedAt != ""
    ensures FileConvUpdatedAt(Utf8(Render(c))) == VersionBytes(c.updatedAt) <==>
      && '\n' !in Trunc(c.updatedAt, 19)
      && TrimBytes(VersionBytes(c.updatedAt)) == VersionBytes(c.updatedAt)
      && HeaderBytes(c) <= 512
  {
    TitleNeverMatches(c);
    RenderedBytes(c);
    Utf8Newline(Trunc(c.updatedAt, 19));
    UpdatedLineBytes(c);
    ReadBack(Utf8(BeforeUpdated(c)), Utf8(UpdatedLine(c)), Utf8(AfterUpdated(c)));
  }

  lemma BlankUpdatedLine(c: FullConv)
    requires c.updatedAt == ""
    ensures Utf8(UpdatedLine(c)) == UPDATED_TAG && NEWLINE !in UPDATED_TAG && !IsHeaderLine(UPDATED_TAG)
  {
    TagBytes();
    hide Utf8;
    assert "- Updated: " + "" == "- Updated: ";
  }

  function Trimmed(v: Option<Bytes>): (t: Bytes) {
    match v case None => [] case Some(b) => TrimBytes(b)
  }

  lemma BlankHeadHoldsNothing(c: FullConv) returns (head: Bytes)
    requires FirstUpdated(Utf8(CreatedLine(c))).None? && c.updatedAt == ""
    ensures |head| == HeaderBytes(c) && FirstUpdated(head).None?
    ensures Utf8(Render(c)) == head + [NEWLINE] + Utf8(AfterUpdated(c))
  {
    assert VersionBytes(c.updatedAt) == [];
    hide Utf8, FirstUpdated, Render, CreatedLine, BeforeUpdated, AfterUpdated, UpdatedLine, IsHeaderLine;
    head := Utf8(BeforeUpdated(c)) + [NEWLINE] + UPDATED_TAG;
    TitleNeverMatches(c);
    RenderedBytes(c);
    BlankUpdatedLine(c);
    ScanConcat(Utf8(BeforeUpdated(c)), UPDATED_TAG);
    ScanOneLine(UPDATED_TAG);
    FileParts(Utf8(BeforeUpdated(c)), [NEWLINE], UPDATED_TAG, Utf8(AfterUpdated(c)));
  }

  lemma FileParts<T>(before: seq<T>, sep: seq<T>, line: seq<T>, after: seq<T>)
    ensures before + sep + (line + sep + after) == before + sep + line + sep + after
  {
  }

  lemma ReadsOn(head: Bytes, after: Bytes)
    requires FirstUpdated(head).None?
    ensures FileConvUpdatedAt(head + [NEWLINE] + after) ==
      if |head| < PREFIX_BYTES then Trimmed(FirstUpdated(Cut(after, PREFIX_BYTES - |head| - 1))) else []
  {
    hide FirstUpdated, TrimBytes, Cut;
    if |head| < PREFIX_BYTES {
      PrefixAfter(head, after);
    } else {
      ScanPrefix(head, PREFIX_BYTES);
      CutAfterLine(head, after, PREFIX_BYTES);
    }
  }

  /** Without a version the Updated line is no header line: what is read back is the first header line that the
  model or the messages hold within the rest of the prefix. */
  lemma BlankVersionReadsOn(c: FullConv)
    requires FirstUpdated(Utf8(CreatedLine(c))).None? && c.updatedAt == ""
    ensures FileConvUpdatedAt(Utf8(Render(c))) ==
      if HeaderBytes(c) < PREFIX_BYTES
      then Trimmed(FirstUpdated(Cut(Utf8(AfterUpdated(c)), PREFIX_BYTES - HeaderBytes(c) - 1)))
      else []
  {
    hide Utf8, FirstUpdated, Render, CreatedLine, BeforeUpdated, AfterUpdated, UpdatedLine, TrimBytes, Cut, HeaderBytes,
         FileConvUpdatedAt, Trimmed;
    var head := BlankHeadHoldsNothing(c);
    ReadsOn(head, Utf8(AfterUpdated(c)));
  }

  /** A creation date on one line is always acceptable. */
  lemma PlainCreatedLine(c: FullConv)
    requires '\n' !in Trunc(c.createdAt, 19)
    ensures FirstUpdated(Utf8(CreatedLine(c))).None?
  {
    var s := CreatedLine(c);
    CreatedTag(Trunc(c.createdAt, 19));
    hide Utf8;
    Utf8Newline(s);
    ScanOneLine(Utf8(s));
    assert UPDATED_TAG[2] == 85;
  }

  lemma CreatedTag(date: string)
    ensures |Utf8("- Created: " + date)| > 2 && Utf8("- Created: " + date)[2] == 67
    ensures '\n' in "- Created: " + date ==> '\n' in date
  {
    hide Utf8;
    Utf8Ascii("- Created: ");
    Utf8Concat("- Created: ", date);
  }

  /** A creation date that does hold a header line within the prefix hides the version entirely: such a
  file reads back the smuggled value whatever `updatedAt` is. */
  lemma {:induction false} SmuggledHeaderWins(c: FullConv)
    requires FirstUpdated(Utf8(CreatedLine(c))).Some?
    requires |Utf8(BeforeUpdated(c))| < PREFIX_BYTES
    ensures FileConvUpdatedAt(Utf8(Render(c))) == TrimBytes(FirstUpdated(Utf8(CreatedLine(c))).value)
  {
    TitleNeverMatches(c);
    RenderedBytes(c);
    PrefixAfter(Utf8(BeforeUpdated(c)), Utf8(UpdatedLine(c)) + [NEWLINE] + Utf8(AfterUpdated(c)));
  }

  lemma ScanSecondLine(before: Bytes, v: Bytes)
    requires NEWLINE !in before && !IsHeaderLine(before) && NEWLINE !in v && v != []
    ensures FirstUpdated(before + [NEWLINE] + (UPDATED_TAG + v)) == Some(v)
  {
    var line := UPDATED_TAG + v;
    assert NEWLINE !in UPDATED_TAG;
    TagThen(v);
    hide FirstUpdated, IsHeaderLine, Capture;
    ScanOneLine(before);
    ScanConcat(before, line);
    ScanOneLine(line);
  }

  lemma PlainTagLine()
    ensures NEWLINE !in Utf8("- Created: ") && !IsHeaderLine(Utf8("- Created: "))
  {
    hide Utf8;
    assert "- Created: " + "" == "- Created: ";
    CreatedTag("");
    Utf8Newline("- Created: ");
    assert UPDATED_TAG[2] == 85;
  }

  lemma SmuggledParts(c: FullConv)
    requires c.createdAt == "\n- Updated: 2026"
    ensures CreatedLine(c) == "- Created: " + "\n" + ("- Updated: " + "2026")
  {
  }

  /** Such a date: a line break and a header line of its own. */
  lemma SmuggledDate(c: FullConv)
    requires c.createdAt == "\n- Updated: 2026"
    ensures FirstUpdated(Utf8(CreatedLine(c))) == Some(Utf8("2026"))
  {
    SmuggledParts(c);
    hide Utf8, FirstUpdated, CreatedLine, IsHeaderLine;
    Utf8Line("- Created: ", "- Updated: " + "2026");
    Utf8Concat("- Updated: ", "2026");
    TagBytes();
    PlainTagLine();
    Utf8Newline("2026");
    Utf8NonEmpty("2026");
    ScanSecondLine(Utf8("- Created: "), Utf8("2026"));
  }

  /** Where the header does not fit, what is read back is shorter than the version: never another version
  of the same length. */
  lemma {:induction false} ReadBackOrShorter(c: FullConv)
    requires '\n' !in Trunc(c.createdAt, 19) && '\n' !in Trunc(c.updatedAt, 19) && c.updatedAt != ""
    requires TrimBytes(VersionBytes(c.updatedAt)) == VersionBytes(c.updatedAt)
    ensures FileConvUpdatedAt(Utf8(Render(c))) == VersionBytes(c.updatedAt)
         || |FileConvUpdatedAt(Utf8(Render(c)))| < |VersionBytes(c.updatedAt)|
  {
    PlainCreatedLine(c);
    HeaderRoundTrip(c);
    if HeaderBytes(c) > PREFIX_BYTES {
      TitleNeverMatches(c);
      RenderedBytes(c);
      Utf8Newline(Trunc(c.updatedAt, 19));
      UpdatedLineBytes(c);
      HeaderLineBreaks(Utf8(UpdatedLine(c)));
      LineCutOff(Utf8(BeforeUpdated(c)), Utf8(UpdatedLine(c)), Utf8(AfterUpdated(c)));
    }
  }
}
