/** Strings, bytes and UTF-8.

Decoded JSON strings are sequences of Unicode scalar values (`string`); what reaches a file or
the terminal is a sequence of bytes. `Utf8` is the encoding between the two.
*/
module Text {

  type Byte = b: int | 0 <= b < 256

  type Bytes = seq<Byte>

  const NEWLINE: Byte := 10

  datatype Option<+T> = None | Some(value: T)

  /** Looking up a key. */
  function At<T>(m: map<string, T>, k: string): (v: Option<T>) {
    if k in m then Some(m[k]) else None
  }

  /** The UTF-8 encoding of one scalar value (RFC 3629, section 3). */
  function EncodeRune(c: char): (e: Bytes)
    ensures 1 <= |e| <= 4
    ensures c as int < 128 ==> e == [c as int]
    ensures c as int >= 128 ==> forall b :: b in e ==> b >= 128
  {
    var v := c as int;
    if v < 0x80 then [v]
    else if v < 0x800 then [0xC0 + v / 64, 0x80 + v % 64]
    else if v < 0x10000 then [0xE0 + v / 4096, 0x80 + v / 64 % 64, 0x80 + v % 64]
    else [0xF0 + v / 262144, 0x80 + v / 4096 % 64, 0x80 + v / 64 % 64, 0x80 + v % 64]
  }

  function Utf8(s: string): (b: Bytes) {
    if s == [] then [] else EncodeRune(s[0]) + Utf8(s[1..])
  }

  lemma {:induction false} Utf8Concat(a: string, b: string)
    ensures Utf8(a + b) == Utf8(a) + Utf8(b)
  {
    if a == [] {
      assert a + b == b;
    } else {
      assert (a + b)[0] == a[0] && (a + b)[1..] == a[1..] + b;
      Utf8Concat(a[1..], b);
    }
  }

  // ---- and back ----

  /** How long the code is that a byte begins, and what this byte contributes to the value. */
  function LeadOf(a: Byte): (r: Option<(nat, nat)>) {
    if a < 0x80 then Some((1, a))
    else if 0xC0 <= a < 0xE0 then Some((2, a - 0xC0))
    else if 0xE0 <= a < 0xF0 then Some((3, a - 0xE0))
    else if 0xF0 <= a < 0xF8 then Some((4, a - 0xF0))
    else None
  }

  /** Each further byte brings six bits. */
  function Continue(value: nat, rest: Bytes): (v: Option<nat>)
    decreases |rest|
  {
    if rest == [] then Some(value)
    else if 0x80 <= rest[0] < 0xC0 then Continue(64 * value + (rest[0] - 0x80), rest[1..])
    else None
  }

  function RuneAt(b: Bytes): (r: Option<(nat, nat)>)
    ensures r.Some? ==> 1 <= r.value.0 <= |b|
  {
    if b == [] then None
    else
      match LeadOf(b[0])
      case None => None
      case Some((n, v)) =>
        if n > |b| then None
        else match Continue(v, b[1..n]) case None => None case Some(value) => Some((n, value))
  }

  lemma SixBits(value: nat, x: nat, rest: Bytes)
    requires x < 64
    ensures Continue(value, [0x80 + x] + rest) == Continue(64 * value + x, rest)
    ensures Continue(value, []) == Some(value)
  {
    assert ([0x80 + x] + rest)[1..] == rest;
  }

  /** The digits of v to the base 64. */
  lemma Digits(v: nat)
    ensures v == 64 * (v / 64) + v % 64 && v / 64 == 64 * (v / 4096) + v / 64 % 64
    ensures v / 4096 == 64 * (v / 262144) + v / 4096 % 64
  {
  }

  lemma EncodedReadsBack(c: char, rest: Bytes)
    ensures RuneAt(EncodeRune(c) + rest) == Some((|EncodeRune(c)|, c as int))
  {
    hide Continue;
    var v, e := c as int, EncodeRune(c);
    var d0: Byte, d1: Byte, d2: Byte := 0x80 + v % 64, 0x80 + v / 64 % 64, 0x80 + v / 4096 % 64;
    assert (e + rest)[1..|e|] == e[1..];
    Digits(v);
    SixBits(v / 64, v % 64, []);
    SixBits(v, 0, []);
    if |e| == 2 {
      assert e[1..] == [d0] + [];
    } else if |e| == 3 {
      SixBits(v / 4096, v / 64 % 64, [d0]);
      assert e[1..] == [d1] + [d0] && [d0] == [d0] + [];
    } else if |e| == 4 {
      SixBits(v / 262144, v / 4096 % 64, [d1, d0]);
      SixBits(v / 4096, v / 64 % 64, [d0]);
      assert e[1..] == [d2] + [d1, d0] && [d1, d0] == [d1] + [d0] && [d0] == [d0] + [];
    }
  }

  /** The scalar values that a text of such codes stands for. */
  function Runes(b: Bytes): (r: Option<seq<nat>>)
    decreases |b|
  {
    if b == [] then Some([])
    else
      match RuneAt(b)
      case None => None
      case Some((n, v)) => match Runes(b[n..]) case None => None case Some(vs) => Some([v] + vs)
  }

  function Values(s: string): (vs: seq<nat>) {
    seq(|s|, i requires 0 <= i < |s| => s[i] as nat)
  }

  /** Decoding undoes encoding. */
  lemma {:induction false} Utf8ReadsBack(s: string)
    ensures Runes(Utf8(s)) == Some(Values(s))
  {
    hide EncodeRune, RuneAt;
    if s == "" {
      assert Values(s) == [];
    } else {
      EncodedReadsBack(s[0], Utf8(s[1..]));
      Utf8ReadsBack(s[1..]);
      var e, rest := EncodeRune(s[0]), Utf8(s[1..]);
      assert Utf8(s) == e + rest && (e + rest)[|e|..] == rest && e + rest != [];
      assert Runes(e + rest) == Some([s[0] as nat] + Values(s[1..]));
      assert Values(s) == [s[0] as nat] + Values(s[1..]);
    }
  }

  lemma Utf8Injective(a: string, b: string)
    requires Utf8(a) == Utf8(b)
    ensures a == b
  {
    Utf8ReadsBack(a);
    Utf8ReadsBack(b);
    assert |Values(a)| == |Values(b)|;
    forall i | 0 <= i < |a| ensures a[i] == b[i] {
      assert Values(a)[i] == Values(b)[i];
    }
  }

  /** Encoding neither introduces nor hides a line break. */
  lemma {:induction false} Utf8Newline(s: string)
    ensures NEWLINE in Utf8(s) <==> '\n' in s
  {
    if s != [] {
      Utf8Newline(s[1..]);
      var c := s[0];
      assert s == [c] + s[1..];
      assert NEWLINE in EncodeRune(c) <==> c == '\n' by {
        if c as int < 128 {
          assert EncodeRune(c) == [c as int];
          assert '\n' as int == 10;
        }
      }
    }
  }

  ghost predicate IsAscii(s: string) {
    forall i :: 0 <= i < |s| ==> s[i] as int < 128
  }

  lemma {:induction false} Utf8Ascii(s: string)
    requires IsAscii(s)
    ensures |Utf8(s)| == |s|
    ensures forall i :: 0 <= i < |s| ==> Utf8(s)[i] == s[i] as int
  {
    if s != [] {
      Utf8Ascii(s[1..]);
      assert EncodeRune(s[0]) == [s[0] as int];
    }
  }

  lemma {:induction false} Utf8NonEmpty(s: string)
    ensures |Utf8(s)| >= |s|
  {
    if s != [] {
      Utf8NonEmpty(s[1..]);
    }
  }

  /** The first `n` scalar values of `s`, or all of it (cdp.go:60). */
  function Trunc(s: string, n: nat): (r: string) {
    if |s| > n then s[..n] else s
  }

  function Repeat<T>(c: T, n: nat): (s: seq<T>)
    ensures |s| == n && forall i :: 0 <= i < n ==> s[i] == c
  {
    seq(n, _ => c)
  }

  // ---- substrings ----

  predicate OccursAt<T(==)>(w: seq<T>, s: seq<T>, i: int) {
    0 <= i && i + |w| <= |s| && s[i..i + |w|] == w
  }

  predicate Occurs<T(==)>(w: seq<T>, s: seq<T>) {
    exists i :: 0 <= i <= |s| && OccursAt(w, s, i)
  }

  lemma OccursAtByte<T>(w: seq<T>, s: seq<T>, i: int, k: int)
    requires OccursAt(w, s, i) && 0 <= k < |w|
    ensures s[i + k] == w[k]
  {
    assert s[i..i + |w|][k] == s[i + k];
  }

  /** What occurs in a part occurs in the whole. */
  lemma OccursInPart<T>(w: seq<T>, a: seq<T>, s: seq<T>, b: seq<T>)
    requires Occurs(w, s)
    ensures Occurs(w, a + s + b)
  {
    var k :| 0 <= k <= |s| && OccursAt(w, s, k);
    assert (a + s + b)[|a| + k..|a| + k + |w|] == s[k..k + |w|];
    assert OccursAt(w, a + s + b, |a| + k);
  }

  lemma Assoc<T>(x: seq<T>, y: seq<T>, z: seq<T>)
    ensures x + y + z == x + (y + z)
  {
  }

  /** What stands behind a prefix. */
  function Behind(prefix: string, s: string): (r: Option<string>) {
    if prefix <= s then Some(s[|prefix|..]) else None
  }

  lemma StandsBehind(prefix: string, s: string)
    ensures Behind(prefix, prefix + s) == Some(s)
  {
  }

  // ---- what a filter keeps ----

  /** r is s without the elements that `keep` refuses, the others in their order: r[k] is s[at[k]]. */
  ghost predicate IsFiltered<T(!new)>(s: seq<T>, keep: T -> bool, r: seq<T>, at: seq<nat>) {
    && |at| == |r|
    && (forall k :: 0 <= k < |r| ==> at[k] < |s| && r[k] == s[at[k]] && keep(s[at[k]]))
    && (forall k, l :: 0 <= k < l < |r| ==> at[k] < at[l])
    && (forall i: nat :: i < |s| && keep(s[i]) ==> i in at)
  }

  lemma FilterNothing<T(!new)>(keep: T -> bool)
    ensures IsFiltered([], keep, [], [])
  {
  }

  lemma FilterOneMore<T(!new)>(s: seq<T>, keep: T -> bool, r: seq<T>, at: seq<nat>, x: T)
    requires IsFiltered(s, keep, r, at)
    ensures if keep(x) then IsFiltered(s + [x], keep, r + [x], at + [|s|]) else IsFiltered(s + [x], keep, r, at)
  {
    var s', at' := s + [x], if keep(x) then at + [|s|] else at;
    forall i: nat | i < |s'| && keep(s'[i]) ensures i in at' {
      if i < |s| {
        assert keep(s[i]) && i in at;
        var k :| 0 <= k < |at| && at[k] == i;
        assert at'[k] == i;
      } else {
        assert at'[|at|] == i;
      }
    }
  }

  lemma NotBeyondLast<T(!new)>(s: seq<T>, keep: T -> bool, r: seq<T>, at: seq<nat>, k: nat)
    requires IsFiltered(s, keep, r, at) && k < |r|
    ensures at[k] <= at[|r| - 1] < |s| && r[|r| - 1] == s[at[|r| - 1]]
  {
  }

  lemma LastIsKept<T(!new)>(s: seq<T>, keep: T -> bool, r: seq<T>, at: seq<nat>)
    requires s != [] && IsFiltered(s, keep, r, at) && keep(s[|s| - 1])
    ensures r != [] && at[|r| - 1] == |s| - 1 && r[|r| - 1] == s[|s| - 1]
  {
    var n: nat := |s| - 1;
    assert |at| == |r| && keep(s[n]) && n in at;
    hide IsFiltered;
    var k: nat :| k < |at| && at[k] == n;
    NotBeyondLast(s, keep, r, at, k);
  }

  lemma FrontWithoutKept<T(!new)>(s: seq<T>, keep: T -> bool, r: seq<T>, at: seq<nat>)
    requires s != [] && r != [] && IsFiltered(s, keep, r, at) && at[|r| - 1] == |s| - 1
    ensures IsFiltered(s[..|s| - 1], keep, r[..|r| - 1], at[..|r| - 1])
  {
    var n, m := |s| - 1, |r| - 1;
    forall k | 0 <= k < m ensures at[..m][k] < n && r[..m][k] == s[..n][at[..m][k]] && keep(s[..n][at[..m][k]]) {
      assert at[k] < at[m];
    }
    forall i: nat | i < n && keep(s[..n][i]) ensures i in at[..m] {
      assert keep(s[i]) && i in at;
      var k :| 0 <= k < |at| && at[k] == i;
      assert k < m && at[..m][k] == i;
    }
  }

  lemma FrontWithoutDropped<T(!new)>(s: seq<T>, keep: T -> bool, r: seq<T>, at: seq<nat>)
    requires s != [] && IsFiltered(s, keep, r, at) && !keep(s[|s| - 1])
    ensures IsFiltered(s[..|s| - 1], keep, r, at)
  {
    var n := |s| - 1;
    forall k | 0 <= k < |r| ensures at[k] < n {
      assert keep(s[at[k]]);
    }
    forall i: nat | i < n && keep(s[..n][i]) ensures i in at {
      assert keep(s[i]);
    }
  }

  // ---- white space ----

  /** unicode.IsSpace. */
  predicate IsSpace(c: char) {
    var v := c as int;
    9 <= v <= 13 || v == 32 || v == 0x85 || v == 0xA0 || v == 0x1680 || 0x2000 <= v <= 0x200A
    || v == 0x2028 || v == 0x2029 || v == 0x202F || v == 0x205F || v == 0x3000
  }

  function TrimLeft(s: string): (r: string) {
    if s != [] && IsSpace(s[0]) then TrimLeft(s[1..]) else s
  }

  function TrimRight(s: string): (r: string) {
    if s != [] && IsSpace(s[|s| - 1]) then TrimRight(s[..|s| - 1]) else s
  }

  /** strings.TrimSpace. */
  function TrimSpace(s: string): (r: string) {
    TrimRight(TrimLeft(s))
  }

  lemma {:induction s} TrimLeftIsSuffix(s: string)
    ensures |TrimLeft(s)| <= |s| && TrimLeft(s) == s[|s| - |TrimLeft(s)|..]
    ensures TrimLeft(s) != "" ==> !IsSpace(TrimLeft(s)[0])
  {
  }

  lemma {:induction s} TrimRightIsPrefix(s: string)
    ensures |TrimRight(s)| <= |s| && TrimRight(s) == s[..|TrimRight(s)|]
    ensures TrimRight(s) != "" ==> !IsSpace(TrimRight(s)[|TrimRight(s)| - 1])
  {
  }

  lemma TrimKeepsMembers(s: string)
    ensures forall c :: c in TrimSpace(s) ==> c in s
  {
    TrimLeftIsSuffix(s);
    TrimRightIsPrefix(TrimLeft(s));
  }

  lemma TrimUnspaced(s: string)
    requires s == "" || (!IsSpace(s[0]) && !IsSpace(s[|s| - 1]))
    ensures TrimSpace(s) == s
  {
  }

  /** t is s[i..] without the white space at the ends. */
  ghost predicate IsTrimmedAt(s: string, t: string, i: nat) {
    && i + |t| <= |s| && t == s[i..i + |t|]
    && (forall k :: 0 <= k < i || i + |t| <= k < |s| ==> IsSpace(s[k]))
    && (t != "" ==> !IsSpace(t[0]) && !IsSpace(t[|t| - 1]))
  }

  lemma {:induction false} TrimLeftDropsSpace(s: string)
    ensures |TrimLeft(s)| <= |s| && forall k :: 0 <= k < |s| - |TrimLeft(s)| ==> IsSpace(s[k])
  {
    hide IsSpace;
    if s != "" && IsSpace(s[0]) {
      TrimLeftDropsSpace(s[1..]);
      assert forall k :: 1 <= k < |s| ==> s[k] == s[1..][k - 1];
    }
  }

  lemma {:induction false} TrimRightDropsSpace(s: string)
    ensures |TrimRight(s)| <= |s| && forall k :: |TrimRight(s)| <= k < |s| ==> IsSpace(s[k])
    decreases |s|
  {
    hide IsSpace;
    if s != "" && IsSpace(s[|s| - 1]) {
      TrimRightDropsSpace(s[..|s| - 1]);
    }
  }

  lemma TrimSpaceTrims(s: string) returns (i: nat)
    ensures IsTrimmedAt(s, TrimSpace(s), i)
  {
    hide IsSpace, TrimLeft, TrimRight;
    var l := TrimLeft(s);
    TrimLeftIsSuffix(s);
    TrimLeftDropsSpace(s);
    TrimRightIsPrefix(l);
    TrimRightDropsSpace(l);
    i := |s| - |l|;
    assert forall k :: i <= k < |s| ==> s[k] == l[k - i];
  }

  lemma {:induction false} BlankIsTrimmed(s: string)
    ensures TrimSpace(s) == "" <==> forall i :: 0 <= i < |s| ==> IsSpace(s[i])
  {
    BlankIsTrimmedLeft(s);
    if TrimLeft(s) != "" {
      EndIsKept(TrimLeft(s));
    }
  }

  lemma {:induction false} BlankIsTrimmedLeft(s: string)
    ensures TrimLeft(s) == "" <==> forall i :: 0 <= i < |s| ==> IsSpace(s[i])
    ensures TrimLeft(s) != "" ==> !IsSpace(TrimLeft(s)[0])
  {
    if s != "" && IsSpace(s[0]) {
      BlankIsTrimmedLeft(s[1..]);
      assert forall i :: 1 <= i < |s| ==> s[i] == s[1..][i - 1];
    }
  }

  lemma {:induction false} EndIsKept(s: string)
    requires s != "" && !IsSpace(s[0])
    ensures TrimRight(s) != ""
    decreases |s|
  {
    if |s| > 1 && IsSpace(s[|s| - 1]) {
      EndIsKept(s[..|s| - 1]);
    }
  }

  // The encodings of the white-space scalars above, by length.

  predicate IsSpace1(a: Byte) {
    9 <= a <= 13 || a == 32
  }

  predicate IsSpace2(a: Byte, b: Byte) {
    a == 0xC2 && (b == 0x85 || b == 0xA0)
  }

  predicate IsSpace3(a: Byte, b: Byte, c: Byte) {
    (a == 0xE1 && b == 0x9A && c == 0x80)
    || (a == 0xE2 && b == 0x80 && (0x80 <= c <= 0x8A || c == 0xA8 || c == 0xA9 || c == 0xAF))
    || (a == 0xE2 && b == 0x81 && c == 0x9F)
    || (a == 0xE3 && b == 0x80 && c == 0x80)
  }

  /** The width of the white-space code that `b` starts with, 0 if there is none. */
  function SpaceAtFront(b: Bytes): (n: nat)
    ensures n <= |b|
  {
    if |b| >= 1 && IsSpace1(b[0]) then 1
    else if |b| >= 2 && IsSpace2(b[0], b[1]) then 2
    else if |b| >= 3 && IsSpace3(b[0], b[1], b[2]) then 3
    else 0
  }

  function SpaceAtBack(b: Bytes): (n: nat)
    ensures n <= |b|
  {
    var k := |b|;
    if k >= 1 && IsSpace1(b[k - 1]) then 1
    else if k >= 2 && IsSpace2(b[k - 2], b[k - 1]) then 2
    else if k >= 3 && IsSpace3(b[k - 3], b[k - 2], b[k - 1]) then 3
    else 0
  }

  lemma SuffixOfSuffix(b: Bytes, n: nat, t: Bytes)
    requires n <= |b| && |t| <= |b| - n && t == b[n..][|b| - n - |t|..]
    ensures t == b[|b| - |t|..]
  {
  }

  function TrimBytesLeft(b: Bytes): (t: Bytes)
    ensures SpaceAtFront(t) == 0
    ensures |t| <= |b|
    decreases |b|
  {
    var n := SpaceAtFront(b);
    if n > 0 then TrimBytesLeft(b[n..]) else b
  }

  lemma {:induction false} TrimBytesLeftIsSuffix(b: Bytes)
    ensures TrimBytesLeft(b) == b[|b| - |TrimBytesLeft(b)|..]
    decreases |b|
  {
    hide SpaceAtFront;
    var n := SpaceAtFront(b);
    if n > 0 {
      TrimBytesLeftIsSuffix(b[n..]);
      SuffixOfSuffix(b, n, TrimBytesLeft(b[n..]));
    }
  }

  lemma PrefixOfPrefix(b: Bytes, n: nat, t: Bytes)
    requires n <= |b| && |t| <= n && t == b[..n][..|t|]
    ensures t == b[..|t|]
  {
  }

  function TrimBytesRight(b: Bytes): (t: Bytes)
    ensures SpaceAtBack(t) == 0
    ensures |t| <= |b|
    decreases |b|
  {
    var n := SpaceAtBack(b);
    if n > 0 then TrimBytesRight(b[..|b| - n]) else b
  }

  lemma {:induction false} TrimBytesRightIsPrefix(b: Bytes)
    ensures TrimBytesRight(b) == b[..|TrimBytesRight(b)|]
    decreases |b|
  {
    hide SpaceAtBack;
    var n := SpaceAtBack(b);
    if n > 0 {
      TrimBytesRightIsPrefix(b[..|b| - n]);
      PrefixOfPrefix(b, |b| - n, TrimBytesRight(b[..|b| - n]));
    }
  }

  /** strings.TrimSpace on bytes that need not be valid UTF-8. */
  function TrimBytes(b: Bytes): (r: Bytes) {
    TrimBytesRight(TrimBytesLeft(b))
  }

  lemma NoSpaceAtFrontOfPrefix(b: Bytes, n: nat)
    requires n <= |b| && SpaceAtFront(b) == 0
    ensures SpaceAtFront(b[..n]) == 0
  {
  }

  lemma TrimBytesFixed(b: Bytes)
    requires SpaceAtFront(b) == 0 && SpaceAtBack(b) == 0
    ensures TrimBytes(b) == b
  {
  }

  lemma TrimBytesIdempotent(b: Bytes)
    ensures TrimBytes(TrimBytes(b)) == TrimBytes(b)
  {
    hide TrimBytesLeft, TrimBytesRight, SpaceAtFront, SpaceAtBack;
    var l := TrimBytesLeft(b);
    var t := TrimBytesRight(l);
    TrimBytesRightIsPrefix(l);
    NoSpaceAtFrontOfPrefix(l, |t|);
    TrimBytesFixed(t);
  }

  lemma SliceMembers<T>(s: seq<T>, i: nat, j: nat)
    requires i <= j <= |s|
    ensures forall x :: x in s[i..j] ==> x in s
  {
  }

  /** Trimming only cuts at the two ends. */
  lemma TrimBytesIsSlice(b: Bytes) returns (i: nat)
    ensures i + |TrimBytes(b)| <= |b|
    ensures TrimBytes(b) == b[i..i + |TrimBytes(b)|]
  {
    hide TrimBytesLeft, TrimBytesRight, SpaceAtFront, SpaceAtBack;
    var l := TrimBytesLeft(b);
    var t := TrimBytesRight(l);
    TrimBytesLeftIsSuffix(b);
    TrimBytesRightIsPrefix(l);
    i := |b| - |l|;
    assert b[i..][..|t|] == b[i..i + |t|];
  }

  // ---- trimming bytes is trimming characters ----

  lemma SpaceAtFrontOfRune(c: char, rest: Bytes)
    ensures SpaceAtFront(EncodeRune(c) + rest) == if IsSpace(c) then |EncodeRune(c)| else 0
  {
    var e := EncodeRune(c);
    assert e + rest != [] && (e + rest)[0] == e[0];
    if |e| > 1 {
      assert (e + rest)[1] == e[1];
    }
    if |e| > 2 {
      assert (e + rest)[2] == e[2];
    }
  }

  lemma SpaceBehindOne(front: Bytes, a: Byte)
    requires a < 0x80
    ensures SpaceAtBack(front + [a]) == if IsSpace1(a) then 1 else 0
  {
  }

  lemma SpaceBehindTwo(front: Bytes, a: Byte, b: Byte)
    requires a >= 0xC0 && b >= 0x80
    ensures SpaceAtBack(front + [a, b]) == if IsSpace2(a, b) then 2 else 0
  {
  }

  lemma SpaceBehindThree(front: Bytes, a: Byte, b: Byte, c: Byte)
    requires 0x80 <= b < 0xC0 && c >= 0x80
    ensures SpaceAtBack(front + [a, b, c]) == if IsSpace3(a, b, c) then 3 else 0
  {
  }

  lemma SpaceOfRune(c: char)
    ensures
      var e := EncodeRune(c);
      IsSpace(c) <==>
        if |e| == 1 then IsSpace1(e[0])
        else if |e| == 2 then IsSpace2(e[0], e[1])
        else |e| == 3 && IsSpace3(e[0], e[1], e[2])
  {
  }

  lemma SpaceAtBackOfRune(front: Bytes, c: char)
    ensures SpaceAtBack(front + EncodeRune(c)) == if IsSpace(c) then |EncodeRune(c)| else 0
  {
    SpaceOfRune(c);
    hide SpaceAtBack, IsSpace;
    var e := EncodeRune(c);
    if |e| == 1 {
      assert e == [e[0]];
      SpaceBehindOne(front, e[0]);
    } else if |e| == 2 {
      assert e == [e[0], e[1]];
      SpaceBehindTwo(front, e[0], e[1]);
    } else if |e| == 3 {
      assert e == [e[0], e[1], e[2]];
      SpaceBehindThree(front, e[0], e[1], e[2]);
    } else {
      assert front + e == front + [e[0]] + [e[1], e[2], e[3]];
      SpaceBehindThree(front + [e[0]], e[1], e[2], e[3]);
    }
  }

  lemma {:induction false} TrimBytesLeftIsTrimLeft(s: string)
    ensures TrimBytesLeft(Utf8(s)) == Utf8(TrimLeft(s))
  {
    hide EncodeRune, IsSpace, SpaceAtFront;
    if s == "" {
      NoSpaceInNothing();
    } else {
      var e, rest := EncodeRune(s[0]), Utf8(s[1..]);
      SpaceAtFrontOfRune(s[0], rest);
      assert Utf8(s) == e + rest && (e + rest)[|e|..] == rest;
      if IsSpace(s[0]) {
        TrimBytesLeftIsTrimLeft(s[1..]);
      }
    }
  }

  lemma NoSpaceInNothing()
    ensures SpaceAtFront([]) == 0 && SpaceAtBack([]) == 0
  {
  }

  lemma {:induction false} TrimBytesRightIsTrimRight(s: string)
    ensures TrimBytesRight(Utf8(s)) == Utf8(TrimRight(s))
    decreases |s|
  {
    hide EncodeRune, IsSpace, SpaceAtBack, Utf8;
    if s == "" {
      EmptyUtf8();
      NoSpaceInNothing();
    } else {
      var front, c := s[..|s| - 1], s[|s| - 1];
      Utf8LastRune(front, c);
      SpaceAtBackOfRune(Utf8(front), c);
      assert s == front + [c] && (Utf8(front) + EncodeRune(c))[..|Utf8(front)|] == Utf8(front);
      if IsSpace(c) {
        TrimBytesRightIsTrimRight(front);
      }
    }
  }

  lemma EmptyUtf8()
    ensures Utf8("") == []
  {
  }

  lemma Utf8LastRune(front: string, c: char)
    ensures Utf8(front + [c]) == Utf8(front) + EncodeRune(c)
  {
    Utf8Concat(front, [c]);
    assert [c][1..] == "" && Utf8([c]) == EncodeRune(c) + [];
  }

  /** On valid UTF-8 the white space that is trimmed is exactly that of the characters. */
  lemma TrimBytesIsTrimSpace(s: string)
    ensures TrimBytes(Utf8(s)) == Utf8(TrimSpace(s))
  {
    hide TrimBytesLeft, TrimBytesRight, TrimLeft, TrimRight, Utf8;
    TrimBytesLeftIsTrimLeft(s);
    TrimBytesRightIsTrimRight(TrimLeft(s));
  }

  // ---- lines ----

  /** The position of the first line break, |b| if there is none. */
  function LineEnd(b: Bytes): (e: nat)
    ensures e <= |b|
    ensures forall i :: 0 <= i < e ==> b[i] != NEWLINE
    ensures e < |b| ==> b[e] == NEWLINE
  {
    if b == [] || b[0] == NEWLINE then 0 else 1 + LineEnd(b[1..])
  }
}
