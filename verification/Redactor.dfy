/** Keeping registered secrets out of every output (security.go). */
module Redactor {
  import opened Text

  /** The bytes of "[REDACTED]". */
  const PLACEHOLDER: Bytes := [91, 82, 69, 68, 65, 67, 84, 69, 68, 93]

  lemma PlaceholderReads()
    ensures PLACEHOLDER == Utf8("[REDACTED]")
  {
    Utf8Ascii("[REDACTED]");
    hide Utf8;
  }

  const MIN_SECRET := 8

  /** The first position at or after i where w occurs, None if there is none. */
  function FindFrom(w: Bytes, s: Bytes, i: nat): (r: Option<nat>)
    requires i <= |s|
    ensures r.None? ==> forall k :: i <= k <= |s| ==> !OccursAt(w, s, k)
    ensures r.Some? ==> i <= r.value <= |s| && OccursAt(w, s, r.value)
    ensures r.Some? ==> forall k :: i <= k < r.value ==> !OccursAt(w, s, k)
    decreases |s| - i
  {
    if OccursAt(w, s, i) then Some(i)
    else if i == |s| then None
    else FindFrom(w, s, i + 1)
  }

  /** strings.ReplaceAll(s, w, PLACEHOLDER): occurrences are taken from the left, without overlap. */
  function Replace(w: Bytes, s: Bytes): (b: Bytes)
    requires w != []
    decreases |s|
  {
    match FindFrom(w, s, 0)
    case None => s
    case Some(i) => s[..i] + PLACEHOLDER + Replace(w, s[i + |w|..])
  }

  /** The registry in order, each secret replaced in what the ones before it left. */
  function RedactAll(secrets: seq<Bytes>, s: Bytes): (b: Bytes) {
    if secrets == [] then s
    else
      var t := RedactAll(secrets[..|secrets| - 1], s);
      var w := secrets[|secrets| - 1];
      if w != [] then Replace(w, t) else t
  }

  /** Each complete line redacted on its own, then the unterminated rest. */
  function LineByLine(secrets: seq<Bytes>, s: Bytes): (b: Bytes)
    decreases |s|
  {
    var e := LineEnd(s);
    if e < |s| then RedactAll(secrets, s[..e + 1]) + LineByLine(secrets, s[e + 1..])
    else if s != [] then RedactAll(secrets, s)
    else []
  }

  function Flatten(chunks: seq<Bytes>): (b: Bytes) {
    if chunks == [] then [] else Flatten(chunks[..|chunks| - 1]) + chunks[|chunks| - 1]
  }

  /** What RegisterSecret guarantees of the registry. */
  ghost predicate IsRegistry(secrets: seq<Bytes>) {
    && (forall i :: 0 <= i < |secrets| ==> |secrets[i]| >= MIN_SECRET)
    && (forall i, j :: 0 <= i < j < |secrets| ==> secrets[i] != secrets[j])
  }

  // ---- the registry and the two output paths ----

  class Registry {
    var secrets: seq<Bytes>

    constructor ()
      ensures IsRegistry(secrets) && secrets == []
    {
      secrets := [];
    }

    method RegisterSecret(s: Bytes)
      requires IsRegistry(secrets)
      modifies this
      ensures IsRegistry(secrets)
      ensures secrets == if |s| < MIN_SECRET || s in old(secrets) then old(secrets) else old(secrets) + [s]
    {
      if |s| < MIN_SECRET {
        return;
      }
      for i := 0 to |secrets|
        invariant secrets == old(secrets)
        invariant s !in secrets[..i]
      {
        if secrets[i] == s {
          return;
        }
      }
      assert secrets == secrets[..|secrets|];
      secrets := secrets + [s];
    }

    method Redact(s: Bytes) returns (r: Bytes)
      ensures r == RedactAll(secrets, s)
    {
      r := s;
      for i := 0 to |secrets|
        invariant r == RedactAll(secrets[..i], s)
      {
        assert secrets[..i + 1][..i] == secrets[..i];
        if secrets[i] != [] {
          r := Replace(secrets[i], r);
        }
      }
      assert secrets[..|secrets|] == secrets;
    }

    /** The reader loop behind stdout, for any way the bytes are split into writes: a complete line is
    redacted and passed on as soon as it is there, the unterminated rest when the stream ends. */
    method RedactStream(writes: seq<Bytes>) returns (out: Bytes)
      ensures out == LineByLine(secrets, Flatten(writes))
      ensures forall s, cuts :: AreCut(writes, s, cuts) ==> out == LineByLine(secrets, s)
    {
      hide LineByLine, RedactAll, Replace, FindFrom, Passed, AreCut;
      out := [];
      var buffer: Bytes := [];
      ghost var passed: Bytes := [];
      PassNothing(secrets);
      for i := 0 to |writes|
        invariant passed + buffer == Flatten(writes[..i])
        invariant NEWLINE !in buffer
        invariant Passed(secrets, passed, out)
      {
        assert writes[..i + 1][..i] == writes[..i];
        buffer := buffer + writes[i];
        while NEWLINE in buffer
          invariant passed + buffer == Flatten(writes[..i + 1])
          invariant Passed(secrets, passed, out)
          decreases |buffer|
        {
          var e := LineEnd(buffer);
          var line := buffer[..e + 1];
          var redacted := Redact(line);
          PassLine(secrets, passed, out, line);
          assert buffer == line + buffer[e + 1..];
          passed := passed + line;
          out := out + redacted;
          buffer := buffer[e + 1..];
        }
      }
      assert writes[..|writes|] == writes;
      PassedThen(secrets, passed, out, buffer);
      NoLineLeft(secrets, buffer);
      if buffer != [] {
        var redacted := Redact(buffer);
        out := out + redacted;
      }
      forall s, cuts | AreCut(writes, s, cuts) ensures out == LineByLine(secrets, s) {
        CutsDoNotMatter(secrets, s, writes, cuts);
      }
    }
  }

  /** `out` is what the stream redactor makes of the complete lines in `passed`. */
  ghost predicate Passed(secrets: seq<Bytes>, passed: Bytes, out: Bytes) {
    forall tail :: LineByLine(secrets, passed + tail) == out + LineByLine(secrets, tail)
  }

  lemma PassedThen(secrets: seq<Bytes>, passed: Bytes, out: Bytes, tail: Bytes)
    requires Passed(secrets, passed, out)
    ensures LineByLine(secrets, passed + tail) == out + LineByLine(secrets, tail)
  {
  }

  lemma PassNothing(secrets: seq<Bytes>)
    ensures Passed(secrets, [], [])
  {
    forall tail ensures LineByLine(secrets, [] + tail) == [] + LineByLine(secrets, tail) {
      assert [] + tail == tail;
    }
  }

  lemma {:induction false} PassLine(secrets: seq<Bytes>, passed: Bytes, out: Bytes, line: Bytes)
    requires Passed(secrets, passed, out)
    requires line != [] && line[|line| - 1] == NEWLINE && NEWLINE !in line[..|line| - 1]
    ensures Passed(secrets, passed + line, out + RedactAll(secrets, line))
  {
    hide LineByLine, RedactAll;
    forall tail
      ensures LineByLine(secrets, passed + line + tail) == out + RedactAll(secrets, line) + LineByLine(secrets, tail)
    {
      PassedThen(secrets, passed, out, line + tail);
      LineFirst(secrets, line, tail);
      Assoc(passed, line, tail);
      Assoc(out, RedactAll(secrets, line), LineByLine(secrets, tail));
    }
  }

  lemma LineFirst(secrets: seq<Bytes>, line: Bytes, tail: Bytes)
    requires line != [] && line[|line| - 1] == NEWLINE && NEWLINE !in line[..|line| - 1]
    ensures LineByLine(secrets, line + tail) == RedactAll(secrets, line) + LineByLine(secrets, tail)
  {
    var s := line + tail;
    var e := LineEnd(s);
    assert s[|line| - 1] == NEWLINE;
    forall k | 0 <= k < |line| - 1 ensures s[k] != NEWLINE {
      assert s[k] == line[..|line| - 1][k];
    }
    assert e == |line| - 1;
    assert s[..e + 1] == line && s[e + 1..] == tail;
  }

  lemma NoLineLeft(secrets: seq<Bytes>, s: Bytes)
    requires NEWLINE !in s
    ensures LineByLine(secrets, s) == if s != [] then RedactAll(secrets, s) else []
  {
  }

  // ---- which secrets can survive ----

  /** w, laid over the placeholder with offset d, agrees with it wherever both have a byte. */
  ghost predicate AgreesAt(w: Bytes, d: int) {
    forall k :: 0 <= k < |w| && 0 <= d + k < |PLACEHOLDER| ==> w[k] == PLACEHOLDER[d + k]
  }

  /** Some part of w can lie inside a placeholder. */
  ghost predicate TouchesPlaceholder(w: Bytes) {
    exists d :: -|w| < d < |PLACEHOLDER| && AgreesAt(w, d)
  }

  /** Putting a placeholder between two texts creates no occurrence of an untouched secret. */
  lemma PlaceholderCreatesNothing(w: Bytes, a: Bytes, b: Bytes)
    requires !TouchesPlaceholder(w) && Occurs(w, a + PLACEHOLDER + b)
    ensures Occurs(w, a) || Occurs(w, b)
  {
    var t := a + PLACEHOLDER + b;
    var i :| 0 <= i <= |t| && OccursAt(w, t, i);
    var p := |PLACEHOLDER|;
    if i + |w| <= |a| {
      assert a[i..i + |w|] == t[i..i + |w|];
      assert OccursAt(w, a, i);
    } else if i >= |a| + p {
      OccursShifted(w, a + PLACEHOLDER, b, i - |a| - p);
    } else {
      LaidOver(w, a, b, i);
      assert false;
    }
  }

  lemma LaidOver(w: Bytes, a: Bytes, b: Bytes, i: int)
    requires OccursAt(w, a + PLACEHOLDER + b, i)
    ensures AgreesAt(w, i - |a|)
  {
    var t := a + PLACEHOLDER + b;
    var d := i - |a|;
    forall k | 0 <= k < |w| && 0 <= d + k < |PLACEHOLDER| ensures w[k] == PLACEHOLDER[d + k] {
      OccursAtByte(w, t, i, k);
      assert t[i + k] == PLACEHOLDER[d + k];
    }
  }

  lemma {:induction false} ReplaceCreatesNothing(w: Bytes, z: Bytes, s: Bytes)
    requires z != [] && !TouchesPlaceholder(w) && Occurs(w, Replace(z, s))
    ensures Occurs(w, s)
    decreases |s|
  {
    hide Replace, FindFrom, OccursAt, Occurs, TouchesPlaceholder;
    match FindFrom(z, s, 0)
    case Some(i) =>
      OccursFits(z, s, i);
      var rest := s[i + |z|..];
      ReplaceFound(z, s, i);
      PlaceholderCreatesNothing(w, s[..i], Replace(z, rest));
      if Occurs(w, s[..i]) {
        OccursInPart(w, [], s[..i], s[i..]);
        assert s == [] + s[..i] + s[i..];
      } else {
        ReplaceCreatesNothing(w, z, rest);
        OccursInPart(w, s[..i + |z|], rest, []);
        assert s == s[..i + |z|] + rest + [];
      }
    case None =>
      NotFound(z, s);
      NoOccurrence(z, s);
  }

  lemma FrontIsClean(w: Bytes, s: Bytes, i: nat)
    requires w != [] && i <= |s| && forall k :: 0 <= k < i ==> !OccursAt(w, s, k)
    ensures !Occurs(w, s[..i])
  {
    forall k | 0 <= k <= i ensures !OccursAt(w, s[..i], k) {
      if k + |w| <= i {
        assert !OccursAt(w, s, k);
        assert s[..i][k..k + |w|] == s[k..k + |w|];
      }
    }
  }

  lemma {:induction false} ReplaceRemoves(w: Bytes, s: Bytes)
    requires w != [] && !TouchesPlaceholder(w)
    ensures !Occurs(w, Replace(w, s))
    decreases |s|
  {
    hide Replace, FindFrom, OccursAt, Occurs, TouchesPlaceholder;
    match FindFrom(w, s, 0)
    case Some(i) =>
      OccursFits(w, s, i);
      var rest := s[i + |w|..];
      ReplaceRemoves(w, rest);
      ReplaceFound(w, s, i);
      FrontIsClean(w, s, i);
      if Occurs(w, s[..i] + PLACEHOLDER + Replace(w, rest)) {
        PlaceholderCreatesNothing(w, s[..i], Replace(w, rest));
      }
    case None =>
      NotFound(w, s);
      NoOccurrence(w, s);
  }

  /** Sufficient: an untouched secret never survives, in any registry, in any place of it, whatever
  the other secrets are, although later replacements rewrite what earlier ones cleaned. */
  lemma {:induction false} UntouchedNeverSurvives(secrets: seq<Bytes>, w: Bytes, s: Bytes)
    requires w in secrets && w != [] && !TouchesPlaceholder(w)
    ensures !Occurs(w, RedactAll(secrets, s))
  {
    var n := |secrets| - 1;
    var t := RedactAll(secrets[..n], s);
    if secrets[n] == w {
      ReplaceRemoves(w, t);
    } else {
      var i :| 0 <= i < |secrets| && secrets[i] == w;
      assert secrets[..n][i] == w;
      UntouchedNeverSurvives(secrets[..n], w, s);
      if secrets[n] != [] && Occurs(w, Replace(secrets[n], t)) {
        ReplaceCreatesNothing(w, secrets[n], t);
      }
    }
  }

  lemma FirstOccurrence(w: Bytes, s: Bytes, i: nat)
    requires i <= |s| && OccursAt(w, s, i) && forall k :: 0 <= k < i ==> !OccursAt(w, s, k)
    ensures FindFrom(w, s, 0) == Some(i)
  {
  }

  lemma NoOccurrence(w: Bytes, s: Bytes)
    requires w != [] && !Occurs(w, s)
    ensures Replace(w, s) == s
  {
  }

  /** A text with no secret in it comes out unchanged. */
  lemma {:induction false} CleanTextIsKept(secrets: seq<Bytes>, s: Bytes)
    requires forall i :: 0 <= i < |secrets| ==> !Occurs(secrets[i], s)
    ensures RedactAll(secrets, s) == s
  {
    if secrets != [] {
      var n := |secrets| - 1;
      CleanTextIsKept(secrets[..n], s);
      if secrets[n] != [] {
        NoOccurrence(secrets[n], s);
      }
    }
  }

  /** A byte other than three given ones. */
  function OtherByte(x: Byte, y: Byte, z: Byte): (c: Byte)
    ensures c != x && c != y && c != z
  {
    if x != 0 && y != 0 && z != 0 then 0
    else if x != 1 && y != 1 && z != 1 then 1
    else if x != 2 && y != 2 && z != 2 then 2
    else 3
  }

  /** Necessary: a secret that touches the placeholder survives in the registry [w, z] for some second
  secret z, on some text: what is left and right of z completes the placeholder to w. */
  lemma TouchingCanSurvive(w: Bytes) returns (z: Bytes, s: Bytes)
    requires |w| >= MIN_SECRET && TouchesPlaceholder(w)
    ensures IsRegistry([w, z])
    ensures Occurs(w, RedactAll([w, z], s))
  {
    hide Replace, RedactAll, FindFrom, Occurs, OccursAt, IsRegistry, OtherByte;
    var p := |PLACEHOLDER|;
    var d :| -|w| < d < p && AgreesAt(w, d);
    var a := if d < 0 then -d else 0;
    var x := w[..a];
    var y := if p - d < |w| then w[p - d..] else [];
    var c := OtherByte(w[0], w[|w| - 1], if a > 0 then x[a - 1] else 0);
    z := Repeat(c, |w| + MIN_SECRET);
    TwoSecrets(w, z);
    s := x + z + y;
    SandwichIsClean(w, x, z, y, c);
    ReplaceFilling(x, z, y, c);
    RedactTwo(w, z, s);
    NoOccurrence(w, s);
    CompletedPlaceholder(w, d, x, y);
  }

  lemma TwoSecrets(w: Bytes, z: Bytes)
    requires |z| >= MIN_SECRET && |w| >= MIN_SECRET && w != z
    ensures IsRegistry([w, z])
  {
  }

  lemma RedactTwo(w: Bytes, z: Bytes, s: Bytes)
    requires w != [] && z != []
    ensures RedactAll([w, z], s) == Replace(z, Replace(w, s))
  {
    assert [w, z][..1] == [w] && [w][..0] == [];
    assert RedactAll([w], s) == Replace(w, RedactAll([], s));
  }

  lemma SandwichIsClean(w: Bytes, x: Bytes, z: Bytes, y: Bytes, c: Byte)
    requires w != [] && |x| < |w| && |y| < |w| && |z| > |w|
    requires c != w[0] && c != w[|w| - 1] && forall k :: 0 <= k < |z| ==> z[k] == c
    ensures !Occurs(w, x + z + y)
  {
    var s := x + z + y;
    forall i | 0 <= i <= |s| ensures !OccursAt(w, s, i) {
      if OccursAt(w, s, i) {
        OccursAtByte(w, s, i, if |x| <= i < |x| + |z| then 0 else |w| - 1);
        assert false;
      }
    }
  }

  lemma {:induction false} ReplaceFilling(x: Bytes, z: Bytes, y: Bytes, c: Byte)
    requires |y| < |z| && (forall k :: 0 <= k < |z| ==> z[k] == c)
    requires |x| < |z| && (x != [] ==> x[|x| - 1] != c)
    ensures Replace(z, x + z + y) == x + PLACEHOLDER + y
  {
    var s := x + z + y;
    assert s[|x|..|x| + |z|] == z;
    forall k | 0 <= k < |x| ensures !OccursAt(z, s, k) {
      if OccursAt(z, s, k) {
        OccursAtByte(z, s, k, |x| - 1 - k);
        assert false;
      }
    }
    FirstOccurrence(z, s, |x|);
    NoOccurrence(z, y);
    assert s[..|x|] == x && s[|x| + |z|..] == y;
  }

  lemma CompletedPlaceholder(w: Bytes, d: int, x: Bytes, y: Bytes)
    requires -|w| < d < |PLACEHOLDER| && AgreesAt(w, d)
    requires x == w[..if d < 0 then -d else 0]
    requires y == if |PLACEHOLDER| - d < |w| then w[|PLACEHOLDER| - d..] else []
    ensures Occurs(w, x + PLACEHOLDER + y)
  {
    var t := x + PLACEHOLDER + y;
    var i := |x| + d;
    forall k | 0 <= k < |w| ensures t[i + k] == w[k] {
    }
    assert t[i..i + |w|] == w;
    assert OccursAt(w, t, i);
  }

  ghost predicate NeverSurvives(w: Bytes) {
    forall secrets, s :: IsRegistry(secrets) && w in secrets ==> !Occurs(w, RedactAll(secrets, s))
  }

  /** Redaction is complete for a secret, over all registries and all texts, exactly when no part of it
  can lie inside a placeholder. */
  lemma RedactionIsCompleteExactly(w: Bytes)
    requires |w| >= MIN_SECRET
    ensures NeverSurvives(w) <==> !TouchesPlaceholder(w)
  {
    if TouchesPlaceholder(w) {
      var z, s := TouchingCanSurvive(w);
      assert w in [w, z];
    } else {
      forall secrets, s | IsRegistry(secrets) && w in secrets ensures !Occurs(w, RedactAll(secrets, s)) {
        UntouchedNeverSurvives(secrets, w, s);
      }
    }
  }

  /** The condition in plain words, for keys as they are issued: no square bracket, and not the word
  inside the placeholder. */
  lemma BracketFreeIsUntouched(w: Bytes)
    requires |w| >= MIN_SECRET && 91 !in w && 93 !in w && w != PLACEHOLDER[1..9]
    ensures !TouchesPlaceholder(w)
  {
    assert PLACEHOLDER[0] == 91 && PLACEHOLDER[9] == 93;
    forall d | -|w| < d < |PLACEHOLDER| ensures !AgreesAt(w, d) {
      if AgreesAt(w, d) {
        if d <= 0 {
          AgreesOn(w, d, -d);
          assert false;
        }
        if 9 - |w| < d {
          AgreesOn(w, d, 9 - d);
          assert false;
        }
        InsidePlaceholder(w);
        assert false;
      }
    }
  }

  lemma AgreesOn(w: Bytes, d: int, k: int)
    requires AgreesAt(w, d) && 0 <= k < |w| && 0 <= d + k < |PLACEHOLDER|
    ensures PLACEHOLDER[d + k] in w
  {
    assert w[k] == PLACEHOLDER[d + k];
  }

  lemma InsidePlaceholder(w: Bytes)
    requires |w| == 8 && AgreesAt(w, 1)
    ensures w == PLACEHOLDER[1..9]
  {
    forall k | 0 <= k < 8 ensures w[k] == PLACEHOLDER[1..9][k] {
      assert w[k] == PLACEHOLDER[1 + k];
    }
  }

  // ---- line by line is as good as all at once ----

  /** A secret that goes on after a line break. */
  predicate HasInnerNewline(w: Bytes) {
    w != [] && NEWLINE in w[..|w| - 1]
  }

  predicate EndsInNewline(w: Bytes) {
    w != [] && w[|w| - 1] == NEWLINE
  }

  ghost predicate IsLines(a: Bytes) {
    a == [] || EndsInNewline(a)
  }

  /** p and the placeholder agree from the end as far as both go. */
  predicate EndsLikePlaceholder(p: Bytes) {
    && p != []
    && if |p| <= |PLACEHOLDER| then p == PLACEHOLDER[|PLACEHOLDER| - |p|..] else p[|p| - |PLACEHOLDER|..] == PLACEHOLDER
  }

  /** A secret that can begin in a placeholder and go on after it. */
  ghost predicate OutlastsPlaceholder(w: Bytes) {
    exists m: nat :: 1 <= m < |w| && EndsLikePlaceholder(w[..m])
  }

  /** No proper beginning of w stands at the end of a: no occurrence can straddle that end. */
  ghost predicate Sealed(w: Bytes, a: Bytes) {
    forall k :: 0 <= k < |a| < k + |w| ==> a[k..] != w[..|a| - k]
  }

  lemma ReplaceFound(w: Bytes, s: Bytes, i: nat)
    requires w != [] && FindFrom(w, s, 0) == Some(i) && i + |w| <= |s|
    ensures Replace(w, s) == s[..i] + PLACEHOLDER + Replace(w, s[i + |w|..])
  {
    hide FindFrom, OccursAt;
  }

  lemma ReplaceFirst(w: Bytes, s: Bytes, i: nat)
    requires w != [] && i <= |s| && OccursAt(w, s, i) && forall k :: 0 <= k < i ==> !OccursAt(w, s, k)
    ensures Replace(w, s) == s[..i] + PLACEHOLDER + Replace(w, s[i + |w|..])
  {
    hide FindFrom, Replace;
    FirstOccurrence(w, s, i);
    ReplaceFound(w, s, i);
  }

  lemma BeginsAtTheEnd(w: Bytes, a: Bytes, b: Bytes, k: nat)
    requires k < |a| < k + |w| && OccursAt(w, a + b, k)
    ensures a[k..] == w[..|a| - k]
  {
    assert a[k..] == (a + b)[k..k + |w|][..|a| - k];
  }

  lemma SealedOccurrences(w: Bytes, a: Bytes, b: Bytes)
    requires w != [] && Sealed(w, a)
    ensures forall k :: 0 <= k < |a| ==> (OccursAt(w, a + b, k) <==> OccursAt(w, a, k))
  {
    forall k | 0 <= k < |a| ensures OccursAt(w, a + b, k) <==> OccursAt(w, a, k) {
      if k + |w| <= |a| {
        assert (a + b)[k..k + |w|] == a[k..k + |w|];
      } else if OccursAt(w, a + b, k) {
        BeginsAtTheEnd(w, a, b, k);
        assert false;
      }
    }
  }

  lemma SealedSuffix(w: Bytes, a: Bytes, i: nat)
    requires Sealed(w, a) && i <= |a|
    ensures Sealed(w, a[i..])
  {
    var r := a[i..];
    forall k | 0 <= k < |r| < k + |w| ensures r[k..] != w[..|r| - k] {
      assert r[k..] == a[i + k..];
    }
  }

  /** Replacing splits where no occurrence can straddle. */
  lemma {:induction false} ReplaceSplits(w: Bytes, a: Bytes, b: Bytes)
    requires w != [] && Sealed(w, a)
    ensures Replace(w, a + b) == Replace(w, a) + Replace(w, b)
    decreases |a|
  {
    hide Replace, Sealed, OccursAt, Occurs;
    SealedOccurrences(w, a, b);
    match FindFrom(w, a, 0)
    case Some(i) =>
      OccursFits(w, a, i);
      var rest := a[i + |w|..];
      SealedSuffix(w, a, i + |w|);
      ReplaceFirst(w, a, i);
      ReplaceFirst(w, a + b, i);
      CutInFront(a, b, i, |w|);
      ReplaceSplits(w, rest, b);
      Assoc(a[..i] + PLACEHOLDER, Replace(w, rest), Replace(w, b));
    case None =>
      NotFound(w, a);
      NoOccurrence(w, a);
      ReplaceAfter(w, a, b);
  }

  lemma CutInFront(a: Bytes, b: Bytes, i: nat, n: nat)
    requires i + n <= |a|
    ensures (a + b)[..i] == a[..i] && (a + b)[i + n..] == a[i + n..] + b
  {
  }

  lemma NotFound(w: Bytes, s: Bytes)
    requires FindFrom(w, s, 0).None?
    ensures !Occurs(w, s)
  {
    hide FindFrom, OccursAt;
  }

  lemma OccursShifted(w: Bytes, a: Bytes, b: Bytes, k: nat)
    requires k <= |b|
    ensures OccursAt(w, a + b, |a| + k) <==> OccursAt(w, b, k)
  {
    if k + |w| <= |b| {
      assert (a + b)[|a| + k..|a| + k + |w|] == b[k..k + |w|];
    }
  }

  lemma ReplaceAfter(w: Bytes, a: Bytes, b: Bytes)
    requires w != [] && forall k :: 0 <= k < |a| ==> !OccursAt(w, a + b, k)
    ensures Replace(w, a + b) == a + Replace(w, b)
  {
    hide Replace, OccursAt;
    var t := a + b;
    forall k | |a| <= k <= |t| ensures OccursAt(w, t, k) <==> OccursAt(w, b, k - |a|) {
      OccursShifted(w, a, b, k - |a|);
    }
    match FindFrom(w, b, 0)
    case Some(j) =>
      OccursFits(w, b, j);
      ReplaceFirst(w, b, j);
      ReplaceFirst(w, t, |a| + j);
      assert t[..|a| + j] == a + b[..j] && t[|a| + j + |w|..] == b[j + |w|..];
      Assoc(a, b[..j], PLACEHOLDER);
      Assoc(a, b[..j] + PLACEHOLDER, Replace(w, b[j + |w|..]));
    case None =>
      NoOccurrence(w, b);
      NoOccurrence(w, t);
  }

  lemma OccursFits(w: Bytes, s: Bytes, i: nat)
    requires OccursAt(w, s, i)
    ensures i + |w| <= |s|
  {
  }

  lemma LinesGoOn(w: Bytes, a: Bytes, i: nat)
    requires w != [] && NEWLINE !in w && IsLines(a) && OccursAt(w, a, i)
    ensures i + |w| < |a| && IsLines(a[i + |w|..])
  {
    OccursAtByte(w, a, i, |w| - 1);
    assert w[|w| - 1] in w;
  }

  lemma IsLinesAfter(x: Bytes, r: Bytes)
    requires r != [] && IsLines(r)
    ensures IsLines(x + r)
  {
  }

  lemma {:induction false} ReplaceKeepsLastNewline(w: Bytes, a: Bytes)
    requires w != [] && NEWLINE !in w && IsLines(a)
    ensures IsLines(Replace(w, a))
    decreases |a|
  {
    hide Replace, FindFrom, OccursAt, Occurs, IsLines;
    match FindFrom(w, a, 0)
    case Some(i) =>
      LinesGoOn(w, a, i);
      var rest := a[i + |w|..];
      ReplaceKeepsLastNewline(w, rest);
      ReplaceIsEmptyOnlyOnEmpty(w, rest);
      ReplaceFound(w, a, i);
      IsLinesAfter(a[..i] + PLACEHOLDER, Replace(w, rest));
    case None =>
      NotFound(w, a);
      NoOccurrence(w, a);
  }

  lemma ReplaceIsEmptyOnlyOnEmpty(w: Bytes, s: Bytes)
    requires w != [] && s != []
    ensures Replace(w, s) != []
  {
  }

  // ---- what seals the end of a text ----

  lemma BreakBeforeTheEnd(w: Bytes, n: nat, j: nat)
    requires j < n < |w| && w[..n][j] == NEWLINE
    ensures HasInnerNewline(w)
  {
    assert w[..|w| - 1][j] == NEWLINE;
  }

  lemma LinesSeal(w: Bytes, a: Bytes)
    requires !HasInnerNewline(w) && IsLines(a)
    ensures Sealed(w, a)
  {
    forall k | 0 <= k < |a| < k + |w| ensures a[k..] != w[..|a| - k] {
      var j := |a| - 1 - k;
      assert a[k..][j] == NEWLINE;
      assert w[..|w| - 1][j] != NEWLINE && w[..|a| - k][j] == w[..|w| - 1][j];
    }
  }

  /** What begins with p has a line break inside or outlasts a placeholder, if it goes on after p. */
  ghost predicate Stops(p: Bytes) {
    NEWLINE in p || exists m: nat :: 1 <= m <= |p| && EndsLikePlaceholder(p[..m])
  }

  /** Every way to end in a stops. */
  ghost predicate Closed(a: Bytes) {
    forall k :: 0 <= k < |a| ==> Stops(a[k..])
  }

  lemma LinesAreClosed(a: Bytes)
    requires IsLines(a)
    ensures Closed(a)
  {
    forall k | 0 <= k < |a| ensures Stops(a[k..]) {
      assert a[k..][|a| - 1 - k] == NEWLINE;
    }
  }

  lemma StopsInside(w: Bytes, n: nat)
    requires n < |w| && Stops(w[..n])
    ensures HasInnerNewline(w) || OutlastsPlaceholder(w)
  {
    if NEWLINE in w[..n] {
      var j :| 0 <= j < n && w[..n][j] == NEWLINE;
      BreakBeforeTheEnd(w, n, j);
    } else {
      var m: nat :| 1 <= m <= n && EndsLikePlaceholder(w[..n][..m]);
      assert w[..n][..m] == w[..m];
    }
  }

  lemma ClosedSeals(w: Bytes, a: Bytes)
    requires Closed(a) && !HasInnerNewline(w) && !OutlastsPlaceholder(w)
    ensures Sealed(w, a)
  {
    forall k | 0 <= k < |a| < k + |w| ensures a[k..] != w[..|a| - k] {
      assert Stops(a[k..]);
      if a[k..] == w[..|a| - k] {
        StopsInside(w, |a| - k);
        assert false;
      }
    }
  }

  lemma StopsAtPlaceholder(x: Bytes, r: Bytes, k: nat)
    requires k < |x| + |PLACEHOLDER|
    ensures Stops((x + PLACEHOLDER + r)[k..])
  {
    var t := x + PLACEHOLDER;
    var p, m := (t + r)[k..], |t| - k;
    assert p[..m] == t[k..];
    if m <= |PLACEHOLDER| {
      assert t[k..] == PLACEHOLDER[|PLACEHOLDER| - m..];
    } else {
      assert t[k..][m - |PLACEHOLDER|..] == PLACEHOLDER;
    }
    assert EndsLikePlaceholder(p[..m]);
  }

  lemma ClosedSuffix(a: Bytes, i: nat)
    requires Closed(a) && i <= |a|
    ensures Closed(a[i..])
  {
    forall k | 0 <= k < |a[i..]| ensures Stops(a[i..][k..]) {
      assert a[i..][k..] == a[i + k..];
    }
  }

  /** Once the end of a line is sealed, no replacement opens it again. */
  lemma {:induction false} ReplaceKeepsClosed(w: Bytes, a: Bytes)
    requires w != [] && Closed(a)
    ensures Closed(Replace(w, a))
    decreases |a|
  {
    hide Stops, OccursAt;
    match FindFrom(w, a, 0)
    case Some(i) =>
      OccursFits(w, a, i);
      var x, r := a[..i], Replace(w, a[i + |w|..]);
      ClosedSuffix(a, i + |w|);
      ReplaceKeepsClosed(w, a[i + |w|..]);
      hide Replace;
      var t := x + PLACEHOLDER + r;
      forall k | 0 <= k < |t| ensures Stops(t[k..]) {
        if k < |x| + |PLACEHOLDER| {
          StopsAtPlaceholder(x, r, k);
        } else {
          assert t[k..] == r[k - |x| - |PLACEHOLDER|..];
        }
      }
    case None =>
  }

  // ---- the registries that the stream redactor serves ----

  /** No secret has a line break inside, and none that can go on after a placeholder comes after one that ends in a
  line break. */
  ghost predicate LineSafe(secrets: seq<Bytes>) {
    && (forall i :: 0 <= i < |secrets| ==> !HasInnerNewline(secrets[i]))
    && (forall i, j :: 0 <= i < j < |secrets| && EndsInNewline(secrets[i]) ==> !OutlastsPlaceholder(secrets[j]))
  }

  ghost predicate NoneEndsInNewline(secrets: seq<Bytes>) {
    forall i :: 0 <= i < |secrets| ==> !EndsInNewline(secrets[i])
  }

  ghost predicate NewlineFree(secrets: seq<Bytes>) {
    forall i :: 0 <= i < |secrets| ==> NEWLINE !in secrets[i]
  }

  lemma NewlineFreeIsLineSafe(secrets: seq<Bytes>)
    requires NewlineFree(secrets)
    ensures LineSafe(secrets)
  {
    forall i | 0 <= i < |secrets| ensures !HasInnerNewline(secrets[i]) && !EndsInNewline(secrets[i]) {
      var w := secrets[i];
      if w != [] {
        SliceMembers(w, 0, |w| - 1);
        assert w[0..|w| - 1] == w[..|w| - 1] && w[|w| - 1] in w;
      }
    }
  }

  lemma InnerOrLast(w: Bytes)
    requires !HasInnerNewline(w) && !EndsInNewline(w)
    ensures NEWLINE !in w
  {
    forall i | 0 <= i < |w| ensures w[i] != NEWLINE {
      if i < |w| - 1 {
        assert w[..|w| - 1][i] == w[i];
      }
    }
  }

  lemma NextSecretIsSealed(secrets: seq<Bytes>, n: nat, a: Bytes)
    requires LineSafe(secrets) && n < |secrets| && Closed(a) && (NoneEndsInNewline(secrets[..n]) ==> IsLines(a))
    ensures Sealed(secrets[n], a)
  {
    hide HasInnerNewline, EndsInNewline, OutlastsPlaceholder, Closed, Sealed, IsLines;
    if NoneEndsInNewline(secrets[..n]) {
      LinesSeal(secrets[n], a);
    } else {
      var i :| 0 <= i < n && EndsInNewline(secrets[..n][i]);
      assert secrets[..n][i] == secrets[i];
      ClosedSeals(secrets[n], a);
    }
  }

  lemma LineSafePrefix(secrets: seq<Bytes>, n: nat)
    requires LineSafe(secrets) && n <= |secrets|
    ensures LineSafe(secrets[..n]) && (NoneEndsInNewline(secrets) ==> NoneEndsInNewline(secrets[..n]))
  {
  }

  lemma {:induction false} RedactSplits(secrets: seq<Bytes>, a: Bytes, b: Bytes)
    requires LineSafe(secrets) && IsLines(a)
    ensures RedactAll(secrets, a + b) == RedactAll(secrets, a) + RedactAll(secrets, b)
    ensures Closed(RedactAll(secrets, a))
    ensures NoneEndsInNewline(secrets) ==> IsLines(RedactAll(secrets, a))
  {
    if secrets == [] {
      LinesAreClosed(a);
    } else {
      var n := |secrets| - 1;
      LineSafePrefix(secrets, n);
      RedactSplits(secrets[..n], a, b);
      var w, ra := secrets[n], RedactAll(secrets[..n], a);
      NextSecretIsSealed(secrets, n, ra);
      hide LineSafe, Closed, Sealed, IsLines, Replace;
      if w != [] {
        ReplaceSplits(w, ra, RedactAll(secrets[..n], b));
        ReplaceKeepsClosed(w, ra);
        if NoneEndsInNewline(secrets) {
          LastIsNewlineFree(secrets);
          ReplaceKeepsLastNewline(w, ra);
        }
      }
    }
  }

  lemma LastIsNewlineFree(secrets: seq<Bytes>)
    requires LineSafe(secrets) && NoneEndsInNewline(secrets) && secrets != []
    ensures NEWLINE !in secrets[|secrets| - 1]
  {
    InnerOrLast(secrets[|secrets| - 1]);
  }

  lemma {:induction false} RedactEmpty(secrets: seq<Bytes>)
    ensures RedactAll(secrets, []) == []
  {
    if secrets != [] {
      RedactEmpty(secrets[..|secrets| - 1]);
    }
  }

  /** With a line-safe registry the stream redactor, however its input is split into writes, gives what
  redacting the whole stream at once would. Newline-free registries are line-safe. */
  lemma {:induction false} StreamIsWhole(secrets: seq<Bytes>, s: Bytes)
    requires LineSafe(secrets)
    ensures LineByLine(secrets, s) == RedactAll(secrets, s)
    decreases |s|
  {
    hide RedactAll, LineSafe;
    var e := LineEnd(s);
    if e < |s| {
      RedactSplits(secrets, s[..e + 1], s[e + 1..]);
      assert s == s[..e + 1] + s[e + 1..];
      StreamIsWhole(secrets, s[e + 1..]);
    } else if s == [] {
      RedactEmpty(secrets);
    }
  }

  /** No untouched secret of a line-safe registry leaves the stream redactor. */
  lemma StreamNeverLeaks(secrets: seq<Bytes>, w: Bytes, s: Bytes)
    requires LineSafe(secrets) && w in secrets && w != [] && !TouchesPlaceholder(w)
    ensures !Occurs(w, LineByLine(secrets, s))
  {
    StreamIsWhole(secrets, s);
    UntouchedNeverSurvives(secrets, w, s);
  }

  // ---- and no others ----

  lemma {:induction false} ShortTextIsKept(secrets: seq<Bytes>, s: Bytes)
    requires forall i :: 0 <= i < |secrets| ==> |s| < |secrets[i]|
    ensures RedactAll(secrets, s) == s
  {
    CleanTextIsKept(secrets, s);
  }

  lemma {:induction false} ShortLinesAreKept(secrets: seq<Bytes>, s: Bytes)
    requires forall i :: 0 <= i < |secrets| ==> |s| < |secrets[i]|
    ensures LineByLine(secrets, s) == s
    decreases |s|
  {
    hide RedactAll;
    var e := LineEnd(s);
    if e < |s| {
      ShortTextIsKept(secrets, s[..e + 1]);
      ShortLinesAreKept(secrets, s[e + 1..]);
      assert s == s[..e + 1] + s[e + 1..];
    } else {
      ShortTextIsKept(secrets, s);
    }
  }

  lemma PlaceholderIsOneLine()
    ensures !HasInnerNewline(PLACEHOLDER)
  {
  }

  lemma FirstLineThenRest(secrets: seq<Bytes>, s: Bytes)
    requires LineEnd(s) < |s|
    ensures LineByLine(secrets, s) ==
      RedactAll(secrets, s[..LineEnd(s) + 1]) + LineByLine(secrets, s[LineEnd(s) + 1..])
  {
    hide RedactAll, LineEnd;
  }

  /** A secret with a line break inside passes through unredacted, even alone in the registry. */
  lemma InnerNewlineLeaks(w: Bytes)
    requires HasInnerNewline(w)
    ensures LineByLine([w], w) == w && RedactAll([w], w) == PLACEHOLDER && w != PLACEHOLDER
  {
    hide LineByLine, Replace, RedactAll, HasInnerNewline, LineEnd;
    FirstLineIsShort(w);
    PlaceholderIsOneLine();
    var line, rest := w[..LineEnd(w) + 1], w[LineEnd(w) + 1..];
    FirstLineThenRest([w], w);
    ShortTextIsKept([w], line);
    ShortLinesAreKept([w], rest);
    assert w == line + rest;
    RedactOne(w, w);
    ReplaceWhole(w);
  }

  lemma FirstLineIsShort(w: Bytes)
    requires HasInnerNewline(w)
    ensures LineEnd(w) + 1 < |w|
  {
    var j :| 0 <= j < |w| - 1 && w[..|w| - 1][j] == NEWLINE;
    assert w[j] == NEWLINE;
  }

  lemma ReplaceWhole(w: Bytes)
    requires w != []
    ensures Replace(w, w) == PLACEHOLDER
  {
    hide Replace;
    assert w[0..|w|] == w && w[..0] == [] && w[|w|..] == [];
    ReplaceFirst(w, w, 0);
    NoOccurrence(w, []);
  }

  lemma RedactOne(w: Bytes, s: Bytes)
    requires w != []
    ensures RedactAll([w], s) == Replace(w, s)
  {
    assert [w][..0] == [];
    assert RedactAll([], s) == s;
  }

  lemma OneLineEnd(x: Bytes, w: Bytes, q: Bytes)
    requires NEWLINE !in x && EndsInNewline(w) && !HasInnerNewline(w)
    ensures LineEnd(x + w + q) == |x| + |w| - 1
  {
    var t, e := x + w + q, |x| + |w| - 1;
    forall i | 0 <= i < e ensures t[i] != NEWLINE {
      assert t[i] == if i < |x| then x[i] else w[..|w| - 1][i - |x|];
    }
    assert t[e] == w[|w| - 1];
  }

  /** The secret that ends the line is replaced where it stands. */
  lemma ReplaceEndOfLine(w: Bytes, x: Bytes, q: Bytes)
    requires NEWLINE !in x && EndsInNewline(w) && !HasInnerNewline(w) && |q| < |w|
    ensures Replace(w, x + w + q) == x + PLACEHOLDER + q
  {
    var t := x + w + q;
    OneLineEnd(x, w, q);
    hide Replace, LineEnd, HasInnerNewline;
    forall k | 0 <= k < |x| ensures !OccursAt(w, t, k) {
      if OccursAt(w, t, k) {
        OccursAtByte(w, t, k, |w| - 1);
        assert false;
      }
    }
    assert t[|x|..|x| + |w|] == w;
    assert t[..|x|] == x && t[|x| + |w|..] == q;
    ReplaceFirst(w, t, |x|);
    NoOccurrence(w, q);
  }

  /** What stands before the rest of z, so that a placeholder put between completes z. */
  function Before(z: Bytes, m: nat): (x: Bytes)
    requires m <= |z|
  {
    if m > |PLACEHOLDER| then z[..m - |PLACEHOLDER|] else []
  }

  /** A z that goes on after a placeholder does not occur in what ends with one. */
  lemma NotYetComplete(z: Bytes, m: nat)
    requires 1 <= m < |z| && EndsLikePlaceholder(z[..m])
    ensures !Occurs(z, Before(z, m) + PLACEHOLDER)
  {
    if m <= |PLACEHOLDER| {
      assert z[..m][m - 1] == 93;
      forall k | 0 <= k <= |PLACEHOLDER| ensures !OccursAt(z, PLACEHOLDER, k) {
        if OccursAt(z, PLACEHOLDER, k) {
          OccursAtByte(z, PLACEHOLDER, k, m - 1);
          assert false;
        }
      }
      assert [] + PLACEHOLDER == PLACEHOLDER;
    }
  }

  /** A long z is completed by its own beginning. */
  lemma LongIsCompleted(z: Bytes, m: nat)
    requires |PLACEHOLDER| < m < |z| && EndsLikePlaceholder(z[..m])
    ensures Before(z, m) + PLACEHOLDER + z[m..] == z
  {
    MiddleOfPrefix(z, PLACEHOLDER, m);
  }

  lemma MiddleOfPrefix<T>(z: seq<T>, p: seq<T>, m: nat)
    requires |p| <= m <= |z| && z[..m][m - |p|..] == p
    ensures z[..m - |p|] + p + z[m..] == z
  {
  }

  lemma OneClosingBracket(k: nat)
    requires k < |PLACEHOLDER| - 1
    ensures PLACEHOLDER[k] != 93
  {
  }

  /** A short z is completed where the placeholder ends. */
  lemma ShortIsCompleted(z: Bytes, m: nat)
    requires 1 <= m <= |PLACEHOLDER| && m < |z| && EndsLikePlaceholder(z[..m])
    ensures
      var e, t := |PLACEHOLDER| - m, PLACEHOLDER + z[m..];
      && |t| == e + |z|
      && t[..e] == PLACEHOLDER[..e]
      && OccursAt(z, t, e)
      && forall k :: 0 <= k < e ==> !OccursAt(z, t, k)
  {
    var e, t := |PLACEHOLDER| - m, PLACEHOLDER + z[m..];
    assert t[e..e + |z|] == PLACEHOLDER[e..] + z[m..] == z[..m] + z[m..] == z;
    assert z[..m][m - 1] == 93;
    forall k | 0 <= k < e ensures !OccursAt(z, t, k) {
      OneClosingBracket(k + m - 1);
      assert t[k + m - 1] == PLACEHOLDER[k + m - 1];
      if OccursAt(z, t, k) {
        OccursAtByte(z, t, k, m - 1);
        assert false;
      }
    }
  }

  /** Completed, it is replaced, and that shows. */
  lemma CompletedIsReplaced(z: Bytes, m: nat)
    requires 1 <= m < |z| && EndsLikePlaceholder(z[..m])
    ensures
      var t := Before(z, m) + PLACEHOLDER + z[m..];
      Replace(z, t) != t
  {
    if m > |PLACEHOLDER| {
      LongIsCompleted(z, m);
      ReplaceWhole(z);
    } else {
      var e, t := |PLACEHOLDER| - m, PLACEHOLDER + z[m..];
      assert Before(z, m) + PLACEHOLDER == PLACEHOLDER;
      ShortIsCompleted(z, m);
      hide Replace, EndsLikePlaceholder, OccursAt;
      ReplaceFirst(z, t, e);
      NoOccurrence(z, []);
      assert t[e + |z|..] == [];
      ShiftedPlaceholder(t[..e], z[m..]);
    }
  }

  lemma ShiftedPlaceholder(u: Bytes, q: Bytes)
    requires q != [] && |u| < |PLACEHOLDER| && u == PLACEHOLDER[..|u|]
    ensures u + PLACEHOLDER + [] != PLACEHOLDER + q
  {
    if u == [] {
      assert |u + PLACEHOLDER + []| < |PLACEHOLDER + q|;
    } else {
      assert (u + PLACEHOLDER + [])[|u|] == 91;
      assert (PLACEHOLDER + q)[|u|] == PLACEHOLDER[|u|] != 91;
    }
  }

  lemma FirstLineOf(secrets: seq<Bytes>, x: Bytes, w: Bytes, q: Bytes)
    requires NEWLINE !in x && EndsInNewline(w) && !HasInnerNewline(w)
    ensures LineByLine(secrets, x + w + q) == RedactAll(secrets, x + w) + LineByLine(secrets, q)
  {
    var s := x + w + q;
    OneLineEnd(x, w, q);
    hide RedactAll, LineEnd, HasInnerNewline;
    assert s[..|x| + |w|] == x + w && s[|x| + |w|..] == q;
  }

  /** The secret w takes the line break with it, and what is left joins the next line to a second secret z. */
  lemma LineIsJoined(w: Bytes, z: Bytes, m: nat) returns (s: Bytes)
    requires EndsInNewline(w) && !HasInnerNewline(w) && !HasInnerNewline(z) && |w| >= |z|
    requires 1 <= m < |z| && EndsLikePlaceholder(z[..m])
    ensures s == Before(z, m) + w + z[m..]
    ensures LineByLine([w, z], s) == Before(z, m) + PLACEHOLDER + z[m..] != RedactAll([w, z], s)
  {
    hide LineByLine, LineEnd, HasInnerNewline, EndsLikePlaceholder, Before, Replace, RedactAll, EndsInNewline;
    var x, q := Before(z, m), z[m..];
    s := x + w + q;
    BeforeIsOneLine(z, m);
    FirstLineOf([w, z], x, w, q);
    ShortLinesAreKept([w, z], q);
    RedactTwo(w, z, x + w);
    RedactTwo(w, z, s);
    ReplaceEndOfLine(w, x, []);
    assert x + w + [] == x + w && x + PLACEHOLDER + [] == x + PLACEHOLDER;
    ReplaceEndOfLine(w, x, q);
    NotYetComplete(z, m);
    NoOccurrence(z, x + PLACEHOLDER);
    CompletedIsReplaced(z, m);
  }

  lemma BeforeIsOneLine(z: Bytes, m: nat)
    requires !HasInnerNewline(z) && m < |z|
    ensures NEWLINE !in Before(z, m)
  {
    var x := Before(z, m);
    forall i | 0 <= i < |x| ensures x[i] != NEWLINE {
      assert x[i] == z[..|z| - 1][i];
    }
  }

  /** It can be put beside secrets of its kind. */
  ghost predicate IsBenign(w: Bytes) {
    !HasInnerNewline(w) && !OutlastsPlaceholder(w)
  }

  /** In every registry whose other secrets are benign, the stream redactor is as good as redacting all at once. */
  ghost predicate IsStreamSafe(z: Bytes) {
    forall secrets, s :: IsRegistry(secrets) && z in secrets && BenignBut(secrets, z) ==>
      LineByLine(secrets, s) == RedactAll(secrets, s)
  }

  ghost predicate BenignBut(secrets: seq<Bytes>, z: Bytes) {
    forall i :: 0 <= i < |secrets| && secrets[i] != z ==> IsBenign(secrets[i])
  }

  lemma BenignIsLineSafe(secrets: seq<Bytes>, z: Bytes)
    requires BenignBut(secrets, z) && IsBenign(z)
    ensures LineSafe(secrets)
  {
  }

  /** Line after line is as good as all at once, in every registry of benign secrets and this one, exactly if this one
  is benign: without a line break inside and unable to go on after a placeholder. */
  lemma StreamSafeExactly(z: Bytes)
    requires |z| >= MIN_SECRET
    ensures IsStreamSafe(z) <==> IsBenign(z)
  {
    hide HasInnerNewline, OutlastsPlaceholder, LineByLine, RedactAll, IsRegistry, LineSafe;
    if HasInnerNewline(z) {
      InnerNewlineLeaks(z);
      OneSecret(z);
      assert z in [z] && BenignBut([z], z);
    } else if OutlastsPlaceholder(z) {
      var secrets, s := Spoiler(z);
    } else {
      forall secrets, s | IsRegistry(secrets) && z in secrets && BenignBut(secrets, z)
        ensures LineByLine(secrets, s) == RedactAll(secrets, s)
      {
        BenignIsLineSafe(secrets, z);
        StreamIsWhole(secrets, s);
      }
    }
  }

  lemma OneSecret(w: Bytes)
    requires |w| >= MIN_SECRET
    ensures IsRegistry([w])
  {
  }

  lemma Spoiler(z: Bytes) returns (secrets: seq<Bytes>, s: Bytes)
    requires |z| >= MIN_SECRET && !HasInnerNewline(z) && OutlastsPlaceholder(z)
    ensures IsRegistry(secrets) && z in secrets && BenignBut(secrets, z)
    ensures LineByLine(secrets, s) != RedactAll(secrets, s)
  {
    var w := Repeat(65, |z|) + [NEWLINE];
    LettersAreBenign(w, |z|);
    var m: nat :| 1 <= m < |z| && EndsLikePlaceholder(z[..m]);
    hide LineByLine, RedactAll, HasInnerNewline, EndsLikePlaceholder, OutlastsPlaceholder, IsRegistry, IsBenign, Before,
         EndsInNewline;
    TwoSecrets(w, z);
    secrets := [w, z];
    assert secrets[1] == z;
    s := LineIsJoined(w, z, m);
  }

  lemma LettersAreBenign(w: Bytes, n: nat)
    requires n > 0 && w == Repeat(65, n) + [NEWLINE]
    ensures IsBenign(w) && EndsInNewline(w)
  {
    assert w[..|w| - 1] == Repeat(65, n);
    forall m: nat | 1 <= m < |w| ensures !EndsLikePlaceholder(w[..m]) {
      assert w[..m][m - 1] == 65;
    }
  }

  /** Exactly the secrets without an inner line break are served when alone in the registry. */
  lemma StreamIsWholeExactly(w: Bytes)
    requires |w| >= MIN_SECRET
    ensures (forall s :: LineByLine([w], s) == RedactAll([w], s)) <==> !HasInnerNewline(w)
  {
    hide HasInnerNewline, LineByLine, RedactAll, OutlastsPlaceholder;
    if HasInnerNewline(w) {
      InnerNewlineLeaks(w);
    } else {
      forall s ensures LineByLine([w], s) == RedactAll([w], s) {
        StreamIsWhole([w], s);
      }
    }
  }

  /** For more than one secret that is not enough: of "AAAAAAA\n" and "]BBBBBBB" neither has a line break inside. */
  lemma TwoSecretsJoinLines()
    ensures
      var w, q := Repeat(65, 7) + [NEWLINE], Repeat(66, 7);
      var z := [93] + q;
      && IsRegistry([w, z]) && !HasInnerNewline(w) && !HasInnerNewline(z)
      && LineByLine([w, z], w + q) == PLACEHOLDER + q != RedactAll([w, z], w + q)
  {
    var w, q := Repeat(65, 7) + [NEWLINE], Repeat(66, 7);
    var z := [93] + q;
    LettersAreBenign(w, 7);
    assert w[0] != z[0];
    TwoSecrets(w, z);
    assert !HasInnerNewline(z) && z[..1] == [93] && z[1..] == q;
    assert EndsLikePlaceholder(z[..1]) && Before(z, 1) == [];
    hide LineByLine, RedactAll, EndsLikePlaceholder, Before, HasInnerNewline, Repeat, IsRegistry;
    var s := LineIsJoined(w, z, 1);
    assert [] + w + q == w + q && [] + PLACEHOLDER + q == PLACEHOLDER + q;
  }

  // ---- however the stream is cut into writes ----

  lemma {:induction false} FlattenConcat(a: seq<Bytes>, b: seq<Bytes>)
    ensures Flatten(a + b) == Flatten(a) + Flatten(b)
  {
    if b == [] {
      assert a + b == a;
    } else {
      var front, last := b[..|b| - 1], b[|b| - 1];
      FlattenConcat(a, front);
      assert (a + b)[..|a + b| - 1] == a + front;
      Assoc(Flatten(a), Flatten(front), last);
    }
  }

  lemma FlattenOne(s: Bytes)
    ensures Flatten([s]) == s
  {
    assert Flatten([]) == [] && [s][..0] == [];
  }

  /** The writes are the pieces of s between the cuts. */
  ghost predicate AreCut(writes: seq<Bytes>, s: Bytes, cuts: seq<nat>) {
    && |cuts| == |writes| + 1 && cuts[0] == 0 && cuts[|writes|] == |s|
    && forall k :: 0 <= k < |writes| ==> IsCut(writes[k], s, cuts[k], cuts[k + 1])
  }

  predicate IsCut(w: Bytes, s: Bytes, i: nat, j: nat) {
    i <= j <= |s| && w == s[i..j]
  }

  /** Nothing is lost, doubled or moved: the writes together are the stream they were cut from. */
  lemma {:induction false} FlattenRestores(writes: seq<Bytes>, s: Bytes, cuts: seq<nat>, k: nat)
    requires AreCut(writes, s, cuts) && k <= |writes|
    ensures cuts[k] <= |s| && Flatten(writes[..k]) == s[..cuts[k]]
  {
    if k > 0 {
      FlattenRestores(writes, s, cuts, k - 1);
      assert IsCut(writes[k - 1], s, cuts[k - 1], cuts[k - 1 + 1]);
      hide AreCut;
      FlattenConcat(writes[..k - 1], [writes[k - 1]]);
      FlattenOne(writes[k - 1]);
      assert writes[..k] == writes[..k - 1] + [writes[k - 1]];
    }
  }

  /** What the stream redactor makes of a text does not depend on how the text reaches it. */
  lemma CutsDoNotMatter(secrets: seq<Bytes>, s: Bytes, writes: seq<Bytes>, cuts: seq<nat>)
    requires AreCut(writes, s, cuts)
    ensures LineByLine(secrets, Flatten(writes)) == LineByLine(secrets, s)
    ensures LineSafe(secrets) ==> LineByLine(secrets, Flatten(writes)) == RedactAll(secrets, s)
    ensures secrets == [] ==> LineByLine(secrets, Flatten(writes)) == s
  {
    hide LineByLine, RedactAll, LineSafe, Flatten;
    FlattenRestores(writes, s, cuts, |writes|);
    assert writes[..|writes|] == writes && s[..|s|] == s;
    if LineSafe(secrets) {
      StreamIsWhole(secrets, s);
    }
    if secrets == [] {
      ShortLinesAreKept(secrets, s);
    }
  }

  /** Such as three writes of any lengths. */
  lemma ThreeWrites(secrets: seq<Bytes>, s: Bytes, i: nat, j: nat)
    requires i <= j <= |s| && LineSafe(secrets)
    ensures LineByLine(secrets, Flatten([s[..i], s[i..j], s[j..]])) == RedactAll(secrets, s)
  {
    assert AreCut([s[..i], s[i..j], s[j..]], s, [0, i, j, |s|]);
    hide LineByLine, RedactAll, LineSafe, Flatten, AreCut;
    CutsDoNotMatter(secrets, s, [s[..i], s[i..j], s[j..]], [0, i, j, |s|]);
  }
}
