/** Byte strings as Go handles them: white-space trimming, UTF-8 validity, lines. */
module Text {
  type byte = x: int | 0 <= x < 256
  type Bytes = seq<byte>

  datatype Option<+T> = None | Some(value: T)

  const LF: byte := 10

  /** The code points for which unicode.IsSpace holds, in their one-, two- and three-byte encodings. */
  predicate Space1(a: byte) { 9 <= a <= 13 || a == 32 }

  predicate Space2(a: byte, b: byte) { a == 0xC2 && (b == 0x85 || b == 0xA0) }

  predicate Space3(a: byte, b: byte, c: byte) {
    || (a == 0xE1 && b == 0x9A && c == 0x80)
    || (a == 0xE2 && b == 0x80 && (0x80 <= c <= 0x8A || c == 0xA8 || c == 0xA9 || c == 0xAF))
    || (a == 0xE2 && b == 0x81 && c == 0x9F)
    || (a == 0xE3 && b == 0x80 && c == 0x80)
  }

  /** The byte at position i, 0 beyond the end: no white-space or multi-byte character holds a zero byte. */
  function At(s: Bytes, i: int): byte { if 0 <= i < |s| then s[i] else 0 }

  /** Width of the white-space character at the front of s, 0 when there is none. */
  function FrontSpace(s: Bytes): (w: nat)
    ensures w <= |s|
  {
    if Space1(At(s, 0)) then 1
    else if Space2(At(s, 0), At(s, 1)) then 2
    else if Space3(At(s, 0), At(s, 1), At(s, 2)) then 3
    else 0
  }

  /** Width of the white-space character at the end of s, 0 when there is none. */
  function BackSpace(s: Bytes): (w: nat)
    ensures w <= |s|
  {
    var n := |s|;
    if Space1(At(s, n - 1)) then 1
    else if Space2(At(s, n - 2), At(s, n - 1)) then 2
    else if Space3(At(s, n - 3), At(s, n - 2), At(s, n - 1)) then 3
    else 0
  }

  function TrimLeft(s: Bytes): (t: Bytes)
    ensures FrontSpace(t) == 0 && |t| <= |s|
    decreases |s|
  {
    var w := FrontSpace(s);
    if w == 0 then s else TrimLeft(s[w..])
  }

  function TrimRight(s: Bytes): (t: Bytes)
    ensures BackSpace(t) == 0 && |t| <= |s|
    decreases |s|
  {
    var w := BackSpace(s);
    if w == 0 then s else TrimRight(s[..|s| - w])
  }

  lemma DropDrop(s: Bytes, i: nat, j: nat)
    requires i + j <= |s|
    ensures s[i..][j..] == s[i + j..]
  {
  }

  lemma {:induction false} TrimLeftSuffix(s: Bytes)
    ensures TrimLeft(s) == s[|s| - |TrimLeft(s)|..]
    decreases |s|
  {
    var w := FrontSpace(s);
    if w != 0 {
      TrimLeftSuffix(s[w..]);
      DropDrop(s, w, |s[w..]| - |TrimLeft(s)|);
    }
  }

  lemma {:induction false} TrimRightPrefix(s: Bytes)
    ensures TrimRight(s) == s[..|TrimRight(s)|]
    decreases |s|
  {
    var w := BackSpace(s);
    if w != 0 {
      TrimRightPrefix(s[..|s| - w]);
    }
  }

  /** bytes.TrimSpace and strings.TrimSpace. */
  function TrimSpace(s: Bytes): Bytes { TrimRight(TrimLeft(s)) }

  /** t is the part of s that starts at position i. */
  predicate SegmentAt(s: Bytes, t: Bytes, i: nat) { i + |t| <= |s| && s[i..i + |t|] == t }

  predicate Trimmed(s: Bytes) { FrontSpace(s) == 0 && BackSpace(s) == 0 }

  lemma FrontSpacePrefix(s: Bytes, n: nat)
    requires n <= |s| && FrontSpace(s) == 0
    ensures FrontSpace(s[..n]) == 0
  {
  }

  /** Trimming leaves no white space at either end, keeps a middle segment, and fixes exactly the trimmed strings. */
  lemma TrimSpaceTrims(s: Bytes)
    ensures Trimmed(TrimSpace(s))
    ensures |TrimSpace(s)| <= |s|
    ensures exists i: nat :: SegmentAt(s, TrimSpace(s), i)
    ensures TrimSpace(s) == s <==> Trimmed(s)
  {
    var u, t := TrimLeft(s), TrimSpace(s);
    TrimLeftSuffix(s);
    TrimRightPrefix(u);
    FrontSpacePrefix(u, |t|);
    var i := |s| - |u|;
    assert s[i..][..|t|] == s[i..i + |t|];
    assert SegmentAt(s, t, i);
  }

  /** Nothing but white-space characters. */
  predicate Spaces(s: Bytes)
    decreases |s|
  {
    s == [] || (FrontSpace(s) > 0 && Spaces(s[FrontSpace(s)..]))
  }

  lemma SpaceInFront(a: Bytes, b: Bytes)
    requires FrontSpace(a) > 0
    ensures FrontSpace(a + b) == FrontSpace(a) && (a + b)[FrontSpace(a)..] == a[FrontSpace(a)..] + b
  {
  }

  lemma FirstSpace(s: Bytes)
    requires FrontSpace(s) > 0
    ensures FrontSpace(s[..FrontSpace(s)]) == FrontSpace(s)
  {
  }

  lemma SpacesCons(c: Bytes, rest: Bytes)
    requires c != [] && FrontSpace(c) == |c| && Spaces(rest)
    ensures Spaces(c + rest)
  {
    SpaceInFront(c, rest);
    assert c[|c|..] + rest == rest;
  }

  lemma {:induction false} SpacesConcat(a: Bytes, b: Bytes)
    requires Spaces(a) && Spaces(b)
    ensures Spaces(a + b)
    decreases |a|
  {
    if a == [] {
      assert a + b == b;
    } else {
      SpacesConcat(a[FrontSpace(a)..], b);
      SpaceInFront(a, b);
    }
  }

  lemma SplitFront(s: Bytes, m: nat, rest: Bytes, t: Bytes)
    requires m <= |s| && s[m..] == rest + t
    ensures s == s[..m] + rest + t
  {
    assert s == s[..m] + s[m..];
  }

  lemma {:induction false} TrimLeftCuts(s: Bytes) returns (pre: Bytes)
    ensures s == pre + TrimLeft(s) && Spaces(pre)
    decreases |s|
  {
    var w := FrontSpace(s);
    if w == 0 {
      pre := [];
    } else {
      var rest := TrimLeftCuts(s[w..]);
      FirstSpace(s);
      SpacesCons(s[..w], rest);
      SplitFront(s, w, rest, TrimLeft(s));
      pre := s[..w] + rest;
    }
  }

  lemma BackIsSpace(s: Bytes)
    requires BackSpace(s) > 0
    ensures FrontSpace(s[|s| - BackSpace(s)..]) == BackSpace(s)
    ensures Spaces(s[|s| - BackSpace(s)..])
  {
    var last := s[|s| - BackSpace(s)..];
    assert FrontSpace(last) == |last|;
    SpacesCons(last, []);
    assert last + [] == last;
  }

  lemma CutBack(s: Bytes, t: Bytes, rest: Bytes)
    requires BackSpace(s) > 0 && s[..|s| - BackSpace(s)] == t + rest && Spaces(rest)
    ensures s == t + (rest + s[|s| - BackSpace(s)..]) && Spaces(rest + s[|s| - BackSpace(s)..])
  {
    BackIsSpace(s);
    SpacesConcat(rest, s[|s| - BackSpace(s)..]);
    SplitBack(s, |s| - BackSpace(s), t, rest);
  }

  lemma SplitBack(s: Bytes, m: nat, t: Bytes, rest: Bytes)
    requires m <= |s| && s[..m] == t + rest
    ensures s == t + (rest + s[m..])
  {
    assert s == s[..m] + s[m..];
  }

  lemma {:induction false} TrimRightCuts(s: Bytes) returns (post: Bytes)
    ensures s == TrimRight(s) + post && Spaces(post)
    decreases |s|
  {
    var n, w := |s|, BackSpace(s);
    if w == 0 {
      post := [];
    } else {
      var rest := TrimRightCuts(s[..n - w]);
      CutBack(s, TrimRight(s), rest);
      post := rest + s[n - w..];
    }
  }

  /** Only white space is cut off. */
  lemma TrimSpaceCuts(s: Bytes) returns (pre: Bytes, post: Bytes)
    ensures s == pre + TrimSpace(s) + post && Spaces(pre) && Spaces(post)
  {
    pre := TrimLeftCuts(s);
    post := TrimRightCuts(TrimLeft(s));
  }

  lemma {:induction false} TrimLeftDropsSpaces(pre: Bytes, t: Bytes)
    requires Spaces(pre)
    ensures TrimLeft(pre + t) == TrimLeft(t)
    decreases |pre|
  {
    if pre == [] {
      assert pre + t == t;
    } else {
      SpaceInFront(pre, t);
      TrimLeftDropsSpaces(pre[FrontSpace(pre)..], t);
    }
  }

  /** No white-space character begins inside a text and ends in the white space after it. */
  lemma FrontSpaceBefore(t: Bytes, post: Bytes)
    requires t != [] && FrontSpace(t) == 0 && Spaces(post)
    ensures FrontSpace(t + post) == 0
  {
    assert forall i | 0 <= i < |t| :: At(t + post, i) == At(t, i);
    assert forall i | |t| <= i < |t| + |post| :: At(t + post, i) == post[i - |t|];
  }

  lemma {:induction false} LastSpace(s: Bytes) returns (init: Bytes, last: Bytes)
    requires Spaces(s) && s != []
    ensures s == init + last && Spaces(init) && last != [] && FrontSpace(last) == |last|
    decreases |s|
  {
    var w := FrontSpace(s);
    if s[w..] == [] {
      init, last := [], s;
    } else {
      var i, l := LastSpace(s[w..]);
      init, last := s[..w] + i, l;
      assert init[w..] == i;
      assert FrontSpace(init) == w;
    }
  }

  lemma SpaceAtBack(x: Bytes, c: Bytes)
    requires c != [] && FrontSpace(c) == |c|
    ensures BackSpace(x + c) == |c|
  {
    var s := x + c;
    assert forall i | 0 <= i < |c| :: At(s, |x| + i) == c[i];
  }

  lemma {:induction false} TrimRightDropsSpaces(t: Bytes, post: Bytes)
    requires Spaces(post)
    ensures TrimRight(t + post) == TrimRight(t)
    decreases |post|
  {
    if post == [] {
      assert t + post == t;
    } else {
      var init, last := LastSpace(post);
      assert t + post == (t + init) + last;
      SpaceAtBack(t + init, last);
      assert (t + post)[..|t + post| - |last|] == t + init;
      TrimRightDropsSpaces(t, init);
    }
  }

  lemma AllSpaces(s: Bytes)
    requires Spaces(s)
    ensures TrimSpace(s) == []
  {
    TrimLeftDropsSpaces(s, []);
    assert s + [] == s;
  }

  lemma TrimSpaceAfter(t: Bytes, post: Bytes)
    requires t != [] && Trimmed(t) && Spaces(post)
    ensures TrimSpace(t + post) == t
  {
    FrontSpaceBefore(t, post);
    TrimRightDropsSpaces(t, post);
  }

  /** Trimming is determined by its result: whatever trimmed text stands between white space comes out. */
  lemma TrimSpaceUnique(pre: Bytes, t: Bytes, post: Bytes)
    requires Spaces(pre) && Spaces(post) && Trimmed(t)
    ensures TrimSpace(pre + t + post) == t
  {
    Regroup(pre, t, post);
    TrimLeftDropsSpaces(pre, t + post);
    if t == [] {
      AllSpaces(post);
    } else {
      TrimSpaceAfter(t, post);
    }
  }

  lemma Regroup(pre: Bytes, t: Bytes, post: Bytes)
    ensures pre + t + post == pre + (t + post)
    ensures t == [] ==> t + post == post
  {
  }

  // ---------------------------------------------------------------- UTF-8

  predicate Continuation(b: byte) { 0x80 <= b <= 0xBF }

  /** Width of the well-formed UTF-8 character that starts with these bytes (the accept ranges of utf8.Valid), else
      0. */
  function Width(a: byte, b: byte, c: byte, d: byte): nat {
    if a < 0x80 then 1
    else if 0xC2 <= a <= 0xDF && Continuation(b) then 2
    else if 0xE0 <= a <= 0xEF && Continuation(b) && Continuation(c)
            && (a == 0xE0 ==> b >= 0xA0) && (a == 0xED ==> b <= 0x9F) then 3
    else if 0xF0 <= a <= 0xF4 && Continuation(b) && Continuation(c) && Continuation(d)
            && (a == 0xF0 ==> b >= 0x90) && (a == 0xF4 ==> b <= 0x8F) then 4
    else 0
  }

  function RuneWidth(s: Bytes): (w: nat)
    ensures w <= |s|
  {
    if s == [] then 0 else Width(s[0], At(s, 1), At(s, 2), At(s, 3))
  }

  predicate ValidUtf8(s: Bytes)
    decreases |s|
  {
    s == [] || (RuneWidth(s) > 0 && ValidUtf8(s[RuneWidth(s)..]))
  }

  lemma RuneWidthPrefix(a: Bytes, b: Bytes)
    requires RuneWidth(a) > 0
    ensures RuneWidth(a + b) == RuneWidth(a)
    ensures (a + b)[RuneWidth(a)..] == a[RuneWidth(a)..] + b
  {
  }

  lemma {:induction false} ValidConcat(a: Bytes, b: Bytes)
    requires ValidUtf8(a) && ValidUtf8(b)
    ensures ValidUtf8(a + b)
    decreases |a|
  {
    if a == [] {
      assert a + b == b;
    } else {
      RuneWidthPrefix(a, b);
      ValidConcat(a[RuneWidth(a)..], b);
    }
  }

  /** A character never reaches past a byte that is not a continuation byte. */
  lemma RuneWidthCut(a: Bytes, b: Bytes)
    requires a != [] && b != [] && !Continuation(b[0])
    ensures RuneWidth(a + b) == RuneWidth(a)
  {
    var s := a + b;
    assert At(s, |a|) == b[0];
    assert forall i | 0 <= i < |a| :: At(s, i) == At(a, i);
  }

  /** A well-formed text may be cut before any byte that is not a continuation byte. */
  lemma {:induction false} ValidCut(a: Bytes, b: Bytes)
    requires ValidUtf8(a + b)
    requires b != [] && !Continuation(b[0])
    ensures ValidUtf8(a) && ValidUtf8(b)
    decreases |a|
  {
    if a == [] {
      assert a + b == b;
    } else {
      RuneWidthCut(a, b);
      RuneWidthPrefix(a, b);
      ValidCut(a[RuneWidth(a)..], b);
    }
  }

  lemma {:induction false} ValidTrimLeft(s: Bytes)
    requires ValidUtf8(s)
    ensures ValidUtf8(TrimLeft(s))
    decreases |s|
  {
    if FrontSpace(s) != 0 {
      assert RuneWidth(s) == FrontSpace(s);
      ValidTrimLeft(s[FrontSpace(s)..]);
    }
  }

  lemma LastSpaceStarts(s: Bytes)
    requires BackSpace(s) > 0
    ensures s == s[..|s| - BackSpace(s)] + s[|s| - BackSpace(s)..]
    ensures !Continuation(s[|s| - BackSpace(s)..][0])
  {
  }

  lemma {:induction false} ValidTrimRight(s: Bytes)
    requires ValidUtf8(s)
    ensures ValidUtf8(TrimRight(s))
    decreases |s|
  {
    var w := BackSpace(s);
    if w != 0 {
      LastSpaceStarts(s);
      ValidCut(s[..|s| - w], s[|s| - w..]);
      ValidTrimRight(s[..|s| - w]);
    }
  }

  lemma ValidTrimSpace(s: Bytes)
    requires ValidUtf8(s)
    ensures ValidUtf8(TrimSpace(s))
  {
    ValidTrimLeft(s);
    ValidTrimRight(TrimLeft(s));
  }

  /** A Unicode scalar value: a code point that is no surrogate. */
  type Scalar = x: int | 0 <= x < 0xD800 || 0xE000 <= x < 0x110000

  /** Section 3 of RFC 3629. */
  function EncodeScalar(x: Scalar): Bytes {
    if x < 0x80 then [x]
    else if x < 0x800 then [0xC0 + x / 64, 0x80 + x % 64]
    else if x < 0x10000 then [0xE0 + x / 4096, 0x80 + x / 64 % 64, 0x80 + x % 64]
    else [0xF0 + x / 0x40000, 0x80 + x / 4096 % 64, 0x80 + x / 64 % 64, 0x80 + x % 64]
  }

  function EncodeText(text: seq<Scalar>): Bytes
  {
    if text == [] then [] else EncodeScalar(text[0]) + EncodeText(text[1..])
  }

  /** The white space of Unicode, as unicode.IsSpace has it. */
  predicate IsSpace(x: Scalar) {
    || 0x9 <= x <= 0xD || x in {0x20, 0x85, 0xA0, 0x1680} || 0x2000 <= x <= 0x200A
    || x in {0x2028, 0x2029, 0x202F, 0x205F, 0x3000}
  }

  /** White space is recognised by its encoding, at either end. */
  lemma SpacesAreUnicode(x: Scalar)
    ensures FrontSpace(EncodeScalar(x)) == (if IsSpace(x) then |EncodeScalar(x)| else 0)
    ensures BackSpace(EncodeScalar(x)) == (if IsSpace(x) then |EncodeScalar(x)| else 0)
  {
    if 0x80 <= x < 0x800 {
      TwoByteSpace(x);
    } else if 0x800 <= x < 0x10000 {
      ThreeByteSpaces(x);
    }
  }

  lemma TwoByteSpace(x: Scalar)
    requires 0x80 <= x < 0x800
    ensures Space2(0xC0 + x / 64, 0x80 + x % 64) <==> IsSpace(x)
  {
  }

  lemma ThreeByteSpaces(x: Scalar)
    requires 0x800 <= x < 0x10000
    ensures Space3(0xE0 + x / 4096, 0x80 + x / 64 % 64, 0x80 + x % 64) <==> IsSpace(x)
  {
    ThreeByteSpace(x / 4096, x / 64 % 64, x % 64);
    assert x == x / 4096 * 4096 + x / 64 % 64 * 64 + x % 64;
  }

  lemma ThreeByteSpace(a: int, b: int, c: int)
    requires 0 <= a < 16 && 0 <= b < 64 && 0 <= c < 64
    ensures Space3(0xE0 + a, 0x80 + b, 0x80 + c) <==>
            (var x := a * 4096 + b * 64 + c;
             x == 0x1680 || 0x2000 <= x <= 0x200A || x in {0x2028, 0x2029, 0x202F, 0x205F, 0x3000})
  {
  }

  lemma ScalarWidth(x: Scalar)
    ensures RuneWidth(EncodeScalar(x)) == |EncodeScalar(x)| > 0
  {
  }

  /** The encoding of any text is valid. */
  lemma {:induction false} EncodedIsValid(text: seq<Scalar>)
    ensures ValidUtf8(EncodeText(text))
  {
    if text != [] {
      EncodedIsValid(text[1..]);
      var c, rest := EncodeScalar(text[0]), EncodeText(text[1..]);
      ScalarWidth(text[0]);
      RuneWidthPrefix(c, rest);
      assert c[|c|..] + rest == rest;
    }
  }

  /** A number from its digits to base 64. */
  function Base64Value(a: int, b: int, c: int, d: int): int { ((a * 64 + b) * 64 + c) * 64 + d }

  lemma Base64Digits(a: int, b: int, c: int, d: int)
    requires 0 <= a && 0 <= b < 64 && 0 <= c < 64 && 0 <= d < 64
    ensures var x := Base64Value(a, b, c, d);
            x % 64 == d && x / 64 % 64 == c && x / 4096 % 64 == b && x / 0x40000 == a && x / 4096 == a * 64 + b
  {
    var x := Base64Value(a, b, c, d);
    assert x / 64 == (a * 64 + b) * 64 + c;
    assert x / 4096 == x / 64 / 64;
    assert x / 0x40000 == x / 4096 / 64;
  }

  /** The scalar value at the front of a valid text. */
  lemma FirstScalar(s: Bytes) returns (x: Scalar)
    requires RuneWidth(s) > 0
    ensures EncodeScalar(x) == s[..RuneWidth(s)]
  {
    var w := RuneWidth(s);
    if w == 1 {
      x := s[0];
    } else if w == 2 {
      x := TwoBytes(s[0], s[1]);
    } else if w == 3 {
      x := ThreeBytes(s[0], s[1], s[2]);
    } else {
      x := FourBytes(s[0], s[1], s[2], s[3]);
    }
  }

  lemma TwoBytes(a: byte, b: byte) returns (x: Scalar)
    requires 0xC2 <= a <= 0xDF && Continuation(b)
    ensures EncodeScalar(x) == [a, b]
  {
    var i, j: int := a - 0xC0, b - 0x80;
    Base64Digits(0, 0, i, j);
    x := Base64Value(0, 0, i, j);
  }

  lemma ThreeBytes(a: byte, b: byte, c: byte) returns (x: Scalar)
    requires 0xE0 <= a <= 0xEF && Continuation(b) && Continuation(c)
    requires (a == 0xE0 ==> b >= 0xA0) && (a == 0xED ==> b <= 0x9F)
    ensures EncodeScalar(x) == [a, b, c]
  {
    var i, j, k: int := a - 0xE0, b - 0x80, c - 0x80;
    Base64Digits(0, i, j, k);
    x := Base64Value(0, i, j, k);
  }

  lemma FourBytes(a: byte, b: byte, c: byte, d: byte) returns (x: Scalar)
    requires 0xF0 <= a <= 0xF4 && Continuation(b) && Continuation(c) && Continuation(d)
    requires (a == 0xF0 ==> b >= 0x90) && (a == 0xF4 ==> b <= 0x8F)
    ensures EncodeScalar(x) == [a, b, c, d]
  {
    var h, i, j, k: int := a - 0xF0, b - 0x80, c - 0x80, d - 0x80;
    Base64Digits(h, i, j, k);
    x := Base64Value(h, i, j, k);
  }

  /** Every valid text is the encoding of some text. */
  lemma {:induction false} ValidIsEncoded(s: Bytes) returns (text: seq<Scalar>)
    requires ValidUtf8(s)
    ensures EncodeText(text) == s
    decreases |s|
  {
    text := [];
    if s != [] {
      var rest := ValidIsEncoded(s[RuneWidth(s)..]);
      var first := FirstScalar(s);
      text := [first] + rest;
      assert text[1..] == rest;
    }
  }

  // ---------------------------------------------------------------- lines

  /** strings.Split at line feeds. */
  function Split(s: Bytes): (lines: seq<Bytes>)
    ensures |lines| >= 1
  {
    if s == [] then [[]]
    else
      var rest := Split(s[1..]);
      if s[0] == LF then [[]] + rest else [[s[0]] + rest[0]] + rest[1..]
  }

  /** Joining with single line feeds. */
  function Join(lines: seq<Bytes>): Bytes
  {
    if lines == [] then []
    else if |lines| == 1 then lines[0]
    else lines[0] + [LF] + Join(lines[1..])
  }

  lemma {:induction false} SplitLine(line: Bytes, rest: Bytes)
    requires LF !in line
    ensures Split(line) == [line]
    ensures Split(line + [LF] + rest) == [line] + Split(rest)
  {
    if line == [] {
      assert line + [LF] + rest == [LF] + rest;
    } else {
      SplitLine(line[1..], rest);
      assert [line[0]] + line[1..] == line;
      assert (line + [LF] + rest)[1..] == line[1..] + [LF] + rest;
    }
  }

  /** Splitting undoes joining for lines that hold no line feed. */
  lemma {:induction false} SplitJoin(lines: seq<Bytes>)
    requires lines != []
    requires forall l | l in lines :: LF !in l
    ensures Split(Join(lines)) == lines
  {
    SplitLine(lines[0], Join(lines[1..]));
    if |lines| > 1 {
      SplitJoin(lines[1..]);
    } else {
      assert lines == [lines[0]];
    }
  }

  /** Joining undoes splitting for every text, and no piece holds a line feed. */
  lemma {:induction false} JoinSplit(s: Bytes)
    ensures Join(Split(s)) == s
    ensures forall l | l in Split(s) :: LF !in l
  {
    if s != [] {
      JoinSplit(s[1..]);
      var rest := Split(s[1..]);
      if s[0] == LF {
        assert ([[]] + rest)[1..] == rest;
        assert [LF] + s[1..] == s;
      } else {
        var lines := [[s[0]] + rest[0]] + rest[1..];
        assert Split(s) == lines;
        assert lines[1..] == rest[1..];
        assert [s[0]] + s[1..] == s;
        assert Join(lines) == [s[0]] + Join(rest);
      }
    }
  }

  lemma {:induction false} ValidSplit(s: Bytes)
    requires ValidUtf8(s)
    ensures forall l | l in Split(s) :: ValidUtf8(l)
  {
    JoinSplit(s);
    ValidPieces(Split(s));
  }

  lemma {:induction false} ValidPieces(lines: seq<Bytes>)
    requires ValidUtf8(Join(lines))
    ensures forall l | l in lines :: ValidUtf8(l)
  {
    if |lines| > 1 {
      var tail := [LF] + Join(lines[1..]);
      assert Join(lines) == lines[0] + tail;
      ValidCut(lines[0], tail);
      assert tail[1..] == Join(lines[1..]);
      ValidPieces(lines[1..]);
    }
  }

  lemma {:induction false} ValidJoin(lines: seq<Bytes>)
    requires forall l | l in lines :: ValidUtf8(l)
    ensures ValidUtf8(Join(lines))
  {
    if |lines| > 1 {
      ValidJoin(lines[1..]);
      assert [LF][1..] == [];
      ValidConcat(lines[0], [LF]);
      ValidConcat(lines[0] + [LF], Join(lines[1..]));
    }
  }

  // ---------------------------------------------------------------- lists with blanks

  /** The lines trimmed, without the blank ones. */
  function Clean(lines: seq<Bytes>): seq<Bytes>
  {
    if lines == [] then []
    else
      var rest, last := Clean(lines[..|lines|-1]), TrimSpace(lines[|lines|-1]);
      if last == [] then rest else rest + [last]
  }

  /** Positions below n in increasing order. */
  predicate Increasing(at: seq<nat>, n: nat) {
    (forall k | 0 <= k < |at| :: at[k] < n) && forall j, k | 0 <= j < k < |at| :: at[j] < at[k]
  }

  lemma PositionsNext(at: seq<nat>, n: nat)
    requires Increasing(at, n)
    ensures Increasing(at, n + 1) && Increasing(at + [n], n + 1) && n !in at
    ensures forall i :: i in at + [n] <==> i in at || i == n
  {
  }

  /** The kept lines are exactly those at these positions, trimmed, and these are the ones that are not blank. */
  ghost predicate Picked(lines: seq<Bytes>, kept: seq<Bytes>, at: seq<nat>) {
    && |at| == |kept| && Increasing(at, |lines|)
    && (forall k | 0 <= k < |at| :: kept[k] == TrimSpace(lines[at[k]]))
    && (forall i: nat | i < |lines| :: i in at <==> TrimSpace(lines[i]) != [])
  }

  lemma PickedNext(lines: seq<Bytes>, kept: seq<Bytes>, at: seq<nat>, last: Bytes)
    requires Picked(lines, kept, at)
    ensures TrimSpace(last) == [] ==> Picked(lines + [last], kept, at)
    ensures TrimSpace(last) != [] ==> Picked(lines + [last], kept + [TrimSpace(last)], at + [|lines|])
  {
    PositionsNext(at, |lines|);
    var more := lines + [last];
    assert more[|lines|] == last && forall i: nat | i < |lines| :: more[i] == lines[i];
  }

  /** Exactly the lines that are not blank are there, trimmed and in order. */
  lemma {:induction false} CleanPositions(lines: seq<Bytes>) returns (at: seq<nat>)
    ensures Picked(lines, Clean(lines), at)
  {
    at := [];
    if lines != [] {
      var n := |lines| - 1;
      at := CleanPositions(lines[..n]);
      PickedNext(lines[..n], Clean(lines[..n]), at, lines[n]);
      assert lines == lines[..n] + [lines[n]];
      at := if TrimSpace(lines[n]) == [] then at else at + [n];
    }
  }

  lemma {:induction false} CleanConcat(a: seq<Bytes>, b: seq<Bytes>)
    ensures Clean(a + b) == Clean(a) + Clean(b)
    decreases |b|
  {
    if b == [] {
      assert a + b == a;
    } else {
      var n := |b| - 1;
      CleanConcat(a, b[..n]);
      SnocParts(a, b);
      CleanSnoc(a + b, a + b[..n], b[n]);
      CleanSnoc(b, b[..n], b[n]);
      Associate(Clean(a), Clean(b[..n]), LineEntry(b[n]));
    }
  }

  lemma SnocParts(a: seq<Bytes>, b: seq<Bytes>)
    requires b != []
    ensures a + b == (a + b[..|b|-1]) + [b[|b|-1]] && b == b[..|b|-1] + [b[|b|-1]]
  {
  }

  lemma Associate(a: seq<Bytes>, b: seq<Bytes>, c: seq<Bytes>)
    ensures (a + b) + c == a + (b + c)
  {
  }

  /** What becomes of one line. */
  function LineEntry(line: Bytes): seq<Bytes> { if TrimSpace(line) == [] then [] else [TrimSpace(line)] }

  lemma CleanSnoc(lines: seq<Bytes>, init: seq<Bytes>, last: Bytes)
    requires lines == init + [last]
    ensures Clean(lines) == Clean(init) + LineEntry(last)
  {
    assert lines[..|lines|-1] == init;
  }

  /** The first line decides about the first entry. */
  lemma CleanCons(lines: seq<Bytes>)
    requires lines != []
    ensures TrimSpace(lines[0]) == [] ==> Clean(lines) == Clean(lines[1..])
    ensures TrimSpace(lines[0]) != [] ==>
              |Clean(lines)| > 0 && Clean(lines)[0] == TrimSpace(lines[0]) && Clean(lines)[1..] == Clean(lines[1..])
  {
    assert lines == [lines[0]] + lines[1..];
    CleanConcat([lines[0]], lines[1..]);
    CleanSnoc([lines[0]], [], lines[0]);
  }

  lemma {:induction false} CleanedStays(lines: seq<Bytes>)
    requires forall i | 0 <= i < |lines| :: lines[i] != [] && Trimmed(lines[i])
    ensures Clean(lines) == lines
  {
    if lines != [] {
      var init, last := lines[..|lines|-1], lines[|lines|-1];
      CleanedStays(init);
      TrimSpaceTrims(last);
      assert lines == init + [last];
    }
  }

  lemma {:induction false} CleanIsTrimmed(lines: seq<Bytes>)
    ensures forall i | 0 <= i < |Clean(lines)| :: Clean(lines)[i] != [] && Trimmed(Clean(lines)[i])
  {
    if lines != [] {
      CleanIsTrimmed(lines[..|lines|-1]);
      TrimSpaceTrims(lines[|lines|-1]);
    }
  }
}
