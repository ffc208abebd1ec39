/** File names of exported conversations, project documents and the memory blob
(cdp.go: pathSafe, sanitize, convFilename; surfaces.go; names are relative to the output directory). */
module Filenames {
  import opened Text
  import opened Markdown

  const STATE_FILE := ".sync-state.json"
  const MANIFEST_FILE := ".content-hashes.json"
  const MEMORY_FILE := "claude-ai-memory.md"

  predicate IsDigit(c: char) {
    '0' <= c <= '9'
  }

  predicate IsPathSafe(c: char) {
    IsDigit(c) || 'A' <= c <= 'Z' || 'a' <= c <= 'z' || c == '-'
  }

  /** The characters that no file name may hold, control characters included. */
  predicate IsBadChar(c: char) {
    c in "<>:\"/\\|?*" || c as int < 0x20
  }

  function PathSafe(s: string): (r: string) {
    if s == [] then [] else (if IsPathSafe(s[0]) then [s[0]] else []) + PathSafe(s[1..])
  }

  function DropBadChars(s: string): (r: string) {
    if s == [] then [] else (if IsBadChar(s[0]) then [] else [s[0]]) + DropBadChars(s[1..])
  }

  /** The ASCII white space of the regular expression \s. */
  predicate IsRegexSpace(c: char) {
    c == ' ' || c == '\t' || c == '\n' || c == '\r' || c as int == 12
  }

  /** Each maximal run of white space becomes one underscore. `inRun` says whether one is open. */
  function Collapse(s: string, inRun: bool): (r: string) {
    if s == [] then []
    else if IsRegexSpace(s[0]) then (if inRun then [] else ['_']) + Collapse(s[1..], true)
    else [s[0]] + Collapse(s[1..], false)
  }

  function Sanitize(name: string): (r: string) {
    var s := Trunc(Collapse(TrimSpace(DropBadChars(name)), false), 80);
    if s == "" then "Untitled" else s
  }

  function ConvFilename(c: ConvSummary): (s: string) {
    PathSafe(Trunc(c.createdAt, 10)) + "_" + (PathSafe(Trunc(c.uuid, 8)) + "_" + (Sanitize(c.name) + ".md"))
  }

  predicate HasSuffix(s: string, suffix: string) {
    |suffix| <= |s| && s[|s| - |suffix|..] == suffix
  }

  function ToLower(s: string): (r: string) {
    seq(|s|, i requires 0 <= i < |s| => if 'A' <= s[i] <= 'Z' then s[i] + 32 as char else s[i])
  }

  function TrimSuffix(s: string, suffix: string): (r: string) {
    if HasSuffix(s, suffix) then s[..|s| - |suffix|] else s
  }

  lemma ExtensionAdded(f: string)
    ensures HasSuffix(ToLower(f + ".md"), ".md")
  {
    assert ToLower(f + ".md")[|f|..] == ".md";
  }

  /** The name of a project document, without the extension where the title does not bring it. */
  function DocStem(projectUuid: string, docUuid: string, fileName: string): (f: string)
    ensures "project_" <= f
  {
    "project_" + (PathSafe(Trunc(projectUuid, 8)) + "_" + PathSafe(Trunc(docUuid, 8)) + "_"
    + Sanitize(TrimSuffix(fileName, ".md")))
  }

  /** Always under "project_" and with the extension. */
  function DocFilename(projectUuid: string, docUuid: string, fileName: string): (f: string)
    ensures "project_" <= f && HasSuffix(ToLower(f), ".md")
  {
    hide DocStem;
    var f := DocStem(projectUuid, docUuid, fileName);
    if HasSuffix(ToLower(f), ".md") then f
    else
      ExtensionAdded(f);
      f + ".md"
  }

  /** Not the name of a conversation: those start with the digits of a date. */
  predicate IsSurfaceName(name: string) {
    name != "" && !IsDigit(name[0])
  }

  // ---- sanitize ----

  lemma {:induction false} PathSafeMembers(s: string)
    ensures forall c :: c in PathSafe(s) ==> IsPathSafe(c)
  {
    if s != [] {
      PathSafeMembers(s[1..]);
    }
  }

  lemma {:induction false} DropBadCharsMembers(s: string)
    ensures forall c :: c in DropBadChars(s) ==> !IsBadChar(c)
    ensures (forall c :: c in s ==> !IsBadChar(c)) ==> DropBadChars(s) == s
  {
    if s != [] {
      DropBadCharsMembers(s[1..]);
    }
  }

  lemma {:induction false} CollapseMembers(s: string, inRun: bool)
    ensures forall c :: c in Collapse(s, inRun) ==> !IsRegexSpace(c) && (c in s || c == '_')
    ensures (forall c :: c in s ==> !IsRegexSpace(c)) ==> Collapse(s, inRun) == s
  {
    if s != [] {
      CollapseMembers(s[1..], IsRegexSpace(s[0]));
    }
  }

  /** Never empty, at most 80 characters, and free of forbidden characters and ASCII white space. */
  lemma SanitizeIsClean(name: string)
    ensures 0 < |Sanitize(name)| <= 80
    ensures forall c :: c in Sanitize(name) ==> !IsBadChar(c) && !IsRegexSpace(c)
  {
    var kept := DropBadChars(name);
    DropBadCharsMembers(name);
    TrimKeepsMembers(kept);
    CollapseMembers(TrimSpace(kept), false);
    hide DropBadChars, TrimSpace, Collapse;
  }

  lemma SanitizeClean(y: string)
    requires |y| <= 80 && forall c :: c in y ==> !IsBadChar(c) && !IsRegexSpace(c)
    ensures Sanitize(y) == if TrimSpace(y) == "" then "Untitled" else TrimSpace(y)
  {
    hide IsBadChar, IsRegexSpace, IsSpace, DropBadChars, Collapse;
    DropBadCharsMembers(y);
    TrimKeepsMembers(y);
    TrimLeftIsSuffix(y);
    TrimRightIsPrefix(TrimLeft(y));
    CollapseMembers(TrimSpace(y), false);
  }

  /** What the cut to 80 characters is applied to. */
  function Uncut(name: string): (t: string) {
    Collapse(TrimSpace(DropBadChars(name)), false)
  }

  lemma {:induction false} CollapseEnds(s: string, inRun: bool)
    requires s != "" && !IsSpace(s[|s| - 1])
    ensures Collapse(s, inRun) != "" && !IsSpace(Collapse(s, inRun)[|Collapse(s, inRun)| - 1])
    ensures !IsSpace(s[0]) ==> !IsSpace(Collapse(s, inRun)[0])
  {
    if |s| > 1 {
      CollapseEnds(s[1..], IsRegexSpace(s[0]));
    }
  }

  /** Before the cut there is no white space at the ends, of whatever alphabet. */
  lemma UncutEnds(name: string)
    ensures Uncut(name) != "" ==> !IsSpace(Uncut(name)[0]) && !IsSpace(Uncut(name)[|Uncut(name)| - 1])
  {
    var kept := DropBadChars(name);
    TrimLeftIsSuffix(kept);
    TrimRightIsPrefix(TrimLeft(kept));
    hide DropBadChars;
    if TrimSpace(kept) != "" {
      CollapseEnds(TrimSpace(kept), false);
    }
  }

  /** The 80th character is white space and more follows: the cut leaves it at the end. */
  predicate CutAtSpace(name: string) {
    |Uncut(name)| > 80 && IsSpace(Uncut(name)[79])
  }

  lemma TrimSpacedEnd(y: string)
    requires y != "" && IsSpace(y[|y| - 1])
    ensures TrimSpace(y) != y
  {
    TrimLeftIsSuffix(y);
    TrimRightIsPrefix(TrimLeft(y));
  }

  lemma SanitizedEnds(name: string)
    ensures
      var y := Sanitize(name);
      && y != ""
      && !IsSpace(y[0])
      && (IsSpace(y[|y| - 1]) <==> CutAtSpace(name))
      && (CutAtSpace(name) ==> |y| == 80)
  {
    UncutEnds(name);
    assert Sanitize(name) == if Uncut(name) == "" then "Untitled" else Trunc(Uncut(name), 80) by {
      hide DropBadChars, TrimSpace, Collapse;
    }
    hide Sanitize, Uncut;
  }

  /** A second pass changes nothing, except where the cut to 80 characters falls right behind white space. Only
  white space that the regular expression does not know can stand there. */
  lemma SanitizeIdempotentExactly(name: string)
    ensures Sanitize(Sanitize(name)) == Sanitize(name) <==> !CutAtSpace(name)
  {
    var y := Sanitize(name);
    SanitizedEnds(name);
    SanitizeIsClean(name);
    hide Sanitize, Uncut, TrimSpace, IsSpace, CutAtSpace;
    SanitizeClean(y);
    if CutAtSpace(name) {
      TrimSpacedEnd(y);
      NotUntitled(y);
    } else {
      TrimUnspaced(y);
    }
  }

  lemma NotUntitled(y: string)
    requires |y| == 80
    ensures y != "Untitled"
  {
  }

  /** A title that a second pass changes: 79 letters, a no-break space, one more letter. */
  lemma NotAlwaysIdempotent()
    ensures
      var name := Repeat('a', 79) + [0xA0 as char] + "b";
      CutAtSpace(name) && Sanitize(Sanitize(name)) != Sanitize(name)
  {
    var name := Repeat('a', 79) + [0xA0 as char] + "b";
    assert name[79] == 0xA0 as char && name[80] == 'b';
    PlainIsUncut(name);
    SanitizeIdempotentExactly(name);
  }

  lemma PlainIsUncut(name: string)
    requires forall c :: c in name ==> !IsBadChar(c) && !IsRegexSpace(c)
    requires name == "" || (!IsSpace(name[0]) && !IsSpace(name[|name| - 1]))
    ensures Uncut(name) == name
  {
    DropBadCharsMembers(name);
    TrimUnspaced(name);
    CollapseMembers(name, false);
  }

  lemma {:induction false} DroppingKeepsAscii(s: string)
    requires IsAscii(s)
    ensures forall c :: c in DropBadChars(s) ==> c as int < 128
  {
    if s != [] {
      DroppingKeepsAscii(s[1..]);
    }
  }

  /** On ASCII titles a second pass changes nothing. */
  lemma SanitizeIdempotentOnAscii(name: string)
    requires IsAscii(name)
    ensures Sanitize(Sanitize(name)) == Sanitize(name)
  {
    AsciiNeverCut(name);
    SanitizeIdempotentExactly(name);
  }

  lemma AsciiNeverCut(name: string)
    requires IsAscii(name)
    ensures !CutAtSpace(name)
  {
    DroppingKeepsAscii(name);
    var kept := DropBadChars(name);
    DropBadCharsMembers(name);
    TrimKeepsMembers(kept);
    hide DropBadChars, TrimSpace;
    CollapseMembers(TrimSpace(kept), false);
    if |Uncut(name)| > 80 {
      var c := Uncut(name)[79];
      assert c in Uncut(name) && (c in TrimSpace(kept) || c == '_');
      assert !IsBadChar(c) && c as int < 128 && !IsRegexSpace(c);
    }
  }

  // ---- what a name keeps of a title ----

  /** The hyphen, digits, capitals and small letters of ASCII. */
  lemma SafeCharacters(c: char)
    ensures IsPathSafe(c) <==>
      c as int == 45 || 48 <= c as int <= 57 || 65 <= c as int <= 90 || 97 <= c as int <= 122
  {
  }

  /** Tab, line feed, form feed, carriage return and blank. */
  lemma RegexSpaces(c: char)
    ensures IsRegexSpace(c) <==> c as int in {9, 10, 12, 13, 32}
  {
  }

  predicate IsGoodChar(c: char) {
    !IsBadChar(c)
  }

  lemma PathSafeFront(c: char, s: string)
    ensures PathSafe([c] + s) == (if IsPathSafe(c) then [c] else "") + PathSafe(s)
    ensures PathSafe("") == ""
  {
    assert ([c] + s)[0] == c && ([c] + s)[1..] == s;
  }

  lemma {:induction false} PathSafeConcat(a: string, b: string)
    ensures PathSafe(a + b) == PathSafe(a) + PathSafe(b)
  {
    hide PathSafe, IsPathSafe;
    if a == "" {
      assert a + b == b;
      PathSafeFront('a', "");
    } else {
      var c, rest := a[0], a[1..];
      PathSafeConcat(rest, b);
      PathSafeFront(c, rest);
      PathSafeFront(c, rest + b);
      assert a == [c] + rest && a + b == [c] + (rest + b);
      Assoc(if IsPathSafe(c) then [c] else "", PathSafe(rest), PathSafe(b));
    }
  }

  lemma DropBadCharsFront(c: char, s: string)
    ensures DropBadChars([c] + s) == (if IsGoodChar(c) then [c] else "") + DropBadChars(s)
    ensures DropBadChars("") == ""
  {
    assert ([c] + s)[0] == c && ([c] + s)[1..] == s;
  }

  lemma {:induction false} DropBadCharsConcat(a: string, b: string)
    ensures DropBadChars(a + b) == DropBadChars(a) + DropBadChars(b)
  {
    hide DropBadChars, IsGoodChar;
    if a == "" {
      assert a + b == b;
      DropBadCharsFront('a', "");
    } else {
      var c, rest := a[0], a[1..];
      DropBadCharsConcat(rest, b);
      DropBadCharsFront(c, rest);
      DropBadCharsFront(c, rest + b);
      assert a == [c] + rest && a + b == [c] + (rest + b);
      Assoc(if IsGoodChar(c) then [c] else "", DropBadChars(rest), DropBadChars(b));
    }
  }

  /** Of an identifier or a date its safe characters are kept, all of them, in their order. */
  lemma {:induction false} PathSafeIsFiltered(s: string) returns (at: seq<nat>)
    ensures IsFiltered(s, IsPathSafe, PathSafe(s), at)
  {
    PathSafeSingle(s);
    hide PathSafe, IsFiltered, IsPathSafe;
    if s == "" {
      at := [];
      FilterNothing(IsPathSafe);
    } else {
      var front, c := s[..|s| - 1], s[|s| - 1];
      at := PathSafeIsFiltered(front);
      PathSafeConcat(front, [c]);
      PathSafeSingle([c]);
      FilterOneMore(front, IsPathSafe, PathSafe(front), at, c);
      at := if IsPathSafe(c) then at + [|front|] else at;
      assert front + [c] == s && PathSafe(front) + [] == PathSafe(front);
    }
  }

  lemma PathSafeSingle(s: string)
    ensures s == "" ==> PathSafe(s) == ""
    ensures |s| == 1 ==> PathSafe(s) == if IsPathSafe(s[0]) then s else ""
  {
    if |s| == 1 {
      assert s[1..] == "";
    }
  }

  lemma {:induction false} DropBadCharsIsFiltered(s: string) returns (at: seq<nat>)
    ensures IsFiltered(s, IsGoodChar, DropBadChars(s), at)
  {
    DropBadCharsSingle(s);
    hide DropBadChars, IsFiltered, IsGoodChar;
    if s == "" {
      at := [];
      FilterNothing(IsGoodChar);
    } else {
      var front, c := s[..|s| - 1], s[|s| - 1];
      at := DropBadCharsIsFiltered(front);
      DropBadCharsConcat(front, [c]);
      DropBadCharsSingle([c]);
      FilterOneMore(front, IsGoodChar, DropBadChars(front), at, c);
      at := if IsGoodChar(c) then at + [|front|] else at;
      assert front + [c] == s && DropBadChars(front) + [] == DropBadChars(front);
    }
  }

  lemma DropBadCharsSingle(s: string)
    ensures s == "" ==> DropBadChars(s) == ""
    ensures |s| == 1 ==> DropBadChars(s) == if IsGoodChar(s[0]) then s else ""
  {
    if |s| == 1 {
      assert s[1..] == "";
    }
  }

  ghost predicate IsRunOfSpace(s: string, i: nat, j: nat) {
    i < j <= |s| && (forall k :: i <= k < j ==> IsRegexSpace(s[k])) && (j < |s| ==> !IsRegexSpace(s[j]))
  }

  /** s falls into pieces, one for each character of r: a character that is no white space stands for itself, and an
  underscore for a whole run of white space. Piece k begins at cuts[k]. */
  ghost predicate IsCollapsed(s: string, r: string, cuts: seq<nat>) {
    && |cuts| == |r| + 1 && cuts[|r|] == |s|
    && forall k :: 0 <= k < |r| ==> IsPiece(s, cuts[k], cuts[k + 1], r[k])
  }

  /** A run of white space that begins at 0, or before it, ends at j. */
  ghost predicate IsPastRun(s: string, j: nat) {
    (j == 0 && (s != "" ==> !IsRegexSpace(s[0]))) || IsRunOfSpace(s, 0, j)
  }

  ghost predicate IsPiece(s: string, i: nat, j: nat, c: char) {
    || (IsRunOfSpace(s, i, j) && c == '_')
    || (i < |s| && j == i + 1 && !IsRegexSpace(s[i]) && c == s[i])
  }

  lemma PieceBehind(s: string, i: nat, j: nat, c: char)
    requires s != "" && IsPiece(s[1..], i, j, c)
    ensures IsPiece(s, i + 1, j + 1, c)
  {
    hide IsRegexSpace;
    if IsRunOfSpace(s[1..], i, j) {
      assert forall k :: i + 1 <= k < j + 1 ==> s[k] == s[1..][k - 1];
    }
  }

  function Shifted(cuts: seq<nat>): (r: seq<nat>)
    ensures |r| == |cuts| && forall k :: 0 <= k < |cuts| ==> r[k] == cuts[k] + 1
  {
    seq(|cuts|, k requires 0 <= k < |cuts| => cuts[k] + 1)
  }

  lemma CollapsedBehind(s: string, r: string, cuts: seq<nat>)
    requires s != "" && IsCollapsed(s[1..], r, cuts)
    ensures IsCollapsed(s, r, Shifted(cuts))
  {
    hide IsPiece;
    forall k | 0 <= k < |r| ensures IsPiece(s, Shifted(cuts)[k], Shifted(cuts)[k + 1], r[k]) {
      PieceBehind(s, cuts[k], cuts[k + 1], r[k]);
    }
  }

  lemma OneMorePiece(s: string, r: string, cuts: seq<nat>, c: char)
    requires |cuts| > 0 && IsCollapsed(s, r, cuts) && IsPiece(s, 0, cuts[0], c)
    ensures IsCollapsed(s, [c] + r, [0] + cuts)
  {
    hide IsPiece;
    var r', cuts' := [c] + r, [0] + cuts;
    forall k | 0 <= k < |r'| ensures IsPiece(s, cuts'[k], cuts'[k + 1], r'[k]) {
      if k > 0 {
        assert IsPiece(s, cuts[k - 1], cuts[k - 1 + 1], r[k - 1]);
      }
    }
  }

  /** Within a run the pieces begin where the run ends. */
  lemma {:induction false} CollapseIsCollapsed(s: string, inRun: bool) returns (cuts: seq<nat>)
    ensures |cuts| > 0 && IsCollapsed(s, Collapse(s, inRun), cuts)
    ensures IsPastRun(s, cuts[0]) || (!inRun && cuts[0] == 0)
    ensures !inRun ==> cuts[0] == 0
  {
    hide IsRegexSpace, IsCollapsed, IsPiece;
    if s == "" {
      cuts := [0];
      NoPieces();
    } else {
      var rest := CollapseIsCollapsed(s[1..], IsRegexSpace(s[0]));
      CollapsedBehind(s, Collapse(s[1..], IsRegexSpace(s[0])), rest);
      cuts := Shifted(rest);
      assert [] + Collapse(s[1..], IsRegexSpace(s[0])) == Collapse(s[1..], IsRegexSpace(s[0]));
      if IsRegexSpace(s[0]) {
        RunBefore(s, rest[0]);
      }
      if !(IsRegexSpace(s[0]) && inRun) {
        OnePiece(s, cuts[0]);
        OneMorePiece(s, Collapse(s[1..], IsRegexSpace(s[0])), cuts, if IsRegexSpace(s[0]) then '_' else s[0]);
        cuts := [0] + cuts;
      }
    }
  }

  lemma NoPieces()
    ensures IsCollapsed("", "", [0])
  {
  }

  lemma RunBefore(s: string, j: nat)
    requires s != "" && IsRegexSpace(s[0])
    requires IsPastRun(s[1..], j)
    ensures IsRunOfSpace(s, 0, j + 1)
  {
    hide IsRegexSpace;
    assert forall k :: 1 <= k < |s| ==> s[k] == s[1..][k - 1];
  }

  lemma OnePiece(s: string, j: nat)
    requires s != "" && if IsRegexSpace(s[0]) then IsRunOfSpace(s, 0, j) else j == 1
    ensures IsPiece(s, 0, j, if IsRegexSpace(s[0]) then '_' else s[0])
  {
  }

  /** The name of a title: its characters in their order without the forbidden ones, without white space at the ends,
  each run of white space inside as one underscore, cut to 80; "Untitled" if nothing is left. */
  lemma SanitizeKeeps(name: string)
    returns (kept: string, at: seq<nat>, trimmed: string, i: nat, t: string, cuts: seq<nat>)
    ensures IsFiltered(name, IsGoodChar, kept, at) && IsTrimmedAt(kept, trimmed, i)
    ensures |cuts| > 0 && cuts[0] == 0 && IsCollapsed(trimmed, t, cuts)
    ensures Sanitize(name) == if t == "" then "Untitled" else if |t| > 80 then t[..80] else t
  {
    hide IsFiltered, IsTrimmedAt, IsCollapsed, DropBadChars, TrimSpace, Collapse, IsRunOfSpace;
    kept, trimmed := DropBadChars(name), TrimSpace(DropBadChars(name));
    t := Collapse(trimmed, false);
    at := DropBadCharsIsFiltered(name);
    i := TrimSpaceTrims(kept);
    cuts := CollapseIsCollapsed(trimmed, false);
  }

  // ---- the encoding of a conversation's name ----

  lemma FirstUnderscore(a: string, x: string, b: string, y: string)
    requires '_' !in b && a + "_" + x == b + "_" + y
    ensures |b| <= |a|
  {
    assert (a + "_" + x)[|a|] == '_';
    assert forall i :: 0 <= i < |b| ==> (b + "_" + y)[i] in b;
  }

  lemma SplitAtUnderscore(a: string, x: string, b: string, y: string)
    requires '_' !in a && '_' !in b
    requires a + "_" + x == b + "_" + y
    ensures a == b && x == y
  {
    FirstUnderscore(a, x, b, y);
    FirstUnderscore(b, y, a, x);
    var s, t := a + "_" + x, b + "_" + y;
    assert a == s[..|a|] == b;
    assert x == s[|a| + 1..] == t[|b| + 1..] == y;
  }

  /** Equal names come from equal dates, equal identifier prefixes and equal sanitized titles, and
  conversely. */
  lemma ConvFilenameInjective(c: ConvSummary, d: ConvSummary)
    ensures ConvFilename(c) == ConvFilename(d) <==>
      && PathSafe(Trunc(c.createdAt, 10)) == PathSafe(Trunc(d.createdAt, 10))
      && PathSafe(Trunc(c.uuid, 8)) == PathSafe(Trunc(d.uuid, 8))
      && Sanitize(c.name) == Sanitize(d.name)
  {
    if ConvFilename(c) == ConvFilename(d) {
      var date, date', id, id' := PathSafe(Trunc(c.createdAt, 10)), PathSafe(Trunc(d.createdAt, 10)),
                                  PathSafe(Trunc(c.uuid, 8)), PathSafe(Trunc(d.uuid, 8));
      PathSafeMembers(Trunc(c.createdAt, 10));
      PathSafeMembers(Trunc(d.createdAt, 10));
      PathSafeMembers(Trunc(c.uuid, 8));
      PathSafeMembers(Trunc(d.uuid, 8));
      var p, q := Sanitize(c.name) + ".md", Sanitize(d.name) + ".md";
      hide PathSafe, Sanitize, Trunc;
      SplitAtUnderscore(date, id + "_" + p, date', id' + "_" + q);
      SplitAtUnderscore(id, p, id', q);
      assert p[..|p| - 3] == q[..|q| - 3];
    }
  }

  /** Nothing the server sends can leave the output directory: no separator, no drive colon, and never
  one of the two dot names. */
  lemma ConvFilenameStaysInside(c: ConvSummary)
    ensures NoBadChar(ConvFilename(c))
    ensures ConvFilename(c) != "." && ConvFilename(c) != ".."
    ensures HasSuffix(ConvFilename(c), ".md")
  {
    hide PathSafe, Sanitize;
    assert NoBadChar("_") && NoBadChar(".md");
    PathSafeHasNoBadChar(Trunc(c.createdAt, 10));
    PathSafeHasNoBadChar(Trunc(c.uuid, 8));
    SanitizeIsClean(c.name);
    NoBadMember(Sanitize(c.name));
    JoinedParts(PathSafe(Trunc(c.createdAt, 10)), "_", PathSafe(Trunc(c.uuid, 8)), Sanitize(c.name), ".md");
  }

  lemma NoBadMember(s: string)
    requires forall c :: c in s ==> !IsBadChar(c)
    ensures NoBadChar(s)
  {
    assert forall i :: 0 <= i < |s| ==> s[i] in s;
  }

  lemma PathSafeHasNoBadChar(s: string)
    ensures NoBadChar(PathSafe(s))
  {
    PathSafeMembers(s);
    NoBadMember(PathSafe(s));
  }

  lemma JoinedParts(date: string, sep: string, id: string, title: string, ext: string)
    requires NoBadChar(date) && NoBadChar(sep) && NoBadChar(id) && NoBadChar(title) && NoBadChar(ext)
    ensures NoBadChar(date + sep + (id + sep + (title + ext)))
    ensures HasSuffix(date + sep + (id + sep + (title + ext)), ext)
    ensures |date + sep + (id + sep + (title + ext))| >= |sep| + |ext|
  {
    NoBadCharConcat(title, ext);
    NoBadCharConcat(id, sep);
    NoBadCharConcat(id + sep, title + ext);
    NoBadCharConcat(date, sep);
    NoBadCharConcat(date + sep, id + sep + (title + ext));
  }

  ghost predicate NoBadChar(s: string) {
    forall i :: 0 <= i < |s| ==> !IsBadChar(s[i])
  }

  lemma NoBadCharConcat(a: string, b: string)
    requires NoBadChar(a) && NoBadChar(b)
    ensures NoBadChar(a + b)
  {
  }

  /** A creation date that starts with a digit keeps conversations apart from every other file that
  the program writes into the directory. */
  lemma {:induction false} ConvFilenameNamespace(c: ConvSummary, projectUuid: string, docUuid: string, fileName: string)
    requires c.createdAt != "" && IsDigit(c.createdAt[0])
    ensures ConvFilename(c) != DocFilename(projectUuid, docUuid, fileName)
    ensures ConvFilename(c) != MEMORY_FILE && ConvFilename(c) != STATE_FILE && ConvFilename(c) != MANIFEST_FILE
    ensures IsDigit(ConvFilename(c)[0])
  {
    var date := Trunc(c.createdAt, 10);
    assert PathSafe(date) == [date[0]] + PathSafe(date[1..]);
    assert DocFilename(projectUuid, docUuid, fileName)[0] == "project_"[0];
  }

  // ---- the names of documents ----

  /** Documents of different projects, and different documents of one project, have different names as far as the safe
  characters of the first eight of their identifiers differ. */
  lemma DocFilenameTellsApart(p: string, d: string, f: string, p': string, d': string, f': string)
    requires DocFilename(p, d, f) == DocFilename(p', d', f')
    ensures PathSafe(Trunc(p, 8)) == PathSafe(Trunc(p', 8)) && PathSafe(Trunc(d, 8)) == PathSafe(Trunc(d', 8))
  {
    var id, doc := PathSafe(Trunc(p, 8)), PathSafe(Trunc(d, 8));
    var id', doc' := PathSafe(Trunc(p', 8)), PathSafe(Trunc(d', 8));
    PathSafeMembers(Trunc(p, 8));
    PathSafeMembers(Trunc(p', 8));
    PathSafeMembers(Trunc(d, 8));
    PathSafeMembers(Trunc(d', 8));
    hide PathSafe, Trunc, Sanitize, TrimSuffix, ToLower, HasSuffix;
    var x := DocNameParts(p, d, f);
    var x' := DocNameParts(p', d', f');
    var rest, rest' := id + "_" + (doc + "_" + x), id' + "_" + (doc' + "_" + x');
    assert ("project_" + rest)[8..] == rest && ("project_" + rest')[8..] == rest';
    SplitAtUnderscore(id, doc + "_" + x, id', doc' + "_" + x');
    SplitAtUnderscore(doc, x, doc', x');
  }

  /** Any of .md, .mD, .Md and .MD stands at the end. */
  predicate EndsLikeMd(s: string) {
    |s| >= 3 && s[|s| - 3] == '.' && s[|s| - 2] in "mM" && s[|s| - 1] in "dD"
  }

  lemma LowerEndsInMd(s: string)
    ensures HasSuffix(ToLower(s), ".md") <==> EndsLikeMd(s)
  {
    var l := ToLower(s);
    if |s| >= 3 {
      assert l[|s| - 3..] == [l[|s| - 3], l[|s| - 2], l[|s| - 1]];
    }
  }

  lemma EndBehindUnderscore(a: string, title: string)
    ensures EndsLikeMd(a + "_" + title) <==> EndsLikeMd(title)
  {
    var s := a + "_" + title;
    if |title| < 3 {
      assert |title| > 0 ==> s[|s| - 1 - |title|] == '_';
      assert title == "" ==> s[|s| - 1] == '_';
    }
  }

  lemma DocNameParts(p: string, d: string, f: string) returns (x: string)
    ensures DocFilename(p, d, f) == "project_" + (PathSafe(Trunc(p, 8)) + "_" + (PathSafe(Trunc(d, 8)) + "_" + x))
    ensures
      var title := Sanitize(TrimSuffix(f, ".md"));
      x == if EndsLikeMd(title) then title else title + ".md"
  {
    hide PathSafe, Trunc, Sanitize, TrimSuffix, ToLower, HasSuffix, EndsLikeMd;
    var id, doc, title := PathSafe(Trunc(p, 8)), PathSafe(Trunc(d, 8)), Sanitize(TrimSuffix(f, ".md"));
    x := if EndsLikeMd(title) then title else title + ".md";
    var stem := "project_" + (id + "_" + doc + "_" + title);
    LowerEndsInMd(stem);
    EndBehindUnderscore("project_" + (id + "_" + doc), title);
    assert stem == "project_" + (id + "_" + doc) + "_" + title;
    assert id + "_" + doc + "_" + title == id + "_" + (doc + "_" + title);
    assert "project_" + (id + "_" + (doc + "_" + title)) + ".md"
        == "project_" + (id + "_" + (doc + "_" + (title + ".md")));
  }

  /** A title that brings the extension is named like one that does not: the extension is never doubled. */
  lemma ExtensionIsNotDoubled(p: string, d: string, f: string)
    requires !HasSuffix(f, ".md")
    ensures DocFilename(p, d, f + ".md") == DocFilename(p, d, f)
  {
    assert (f + ".md")[..|f|] == f && (f + ".md")[|f|..] == ".md";
    hide PathSafe, Trunc, Sanitize, ToLower;
  }
}
