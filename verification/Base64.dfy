/**
 The four encodings of sections 3.2, 4 and 5 of RFC 4648 down to their 6-bit groups, and the
 first-success cascade that tries them in order. Decoding accepts what Go's decoder accepts:
 carriage returns and line feeds anywhere, and any value in the unused trailing bits.
 */
module Base64 {
  import opened Text

  type sextet = v: int | 0 <= v < 64

  datatype Encoding = Encoding(url: bool, padded: bool)

  const STD := Encoding(false, true)
  const RAW_STD := Encoding(false, false)
  const URL := Encoding(true, true)
  const RAW_URL := Encoding(true, false)

  /** The order in which the cascade tries them. */
  const CASCADE := [STD, RAW_STD, URL, RAW_URL]

  const PAD: byte := 61
  const CR: byte := 13

  function Symbol(e: Encoding, v: sextet): byte {
    if v < 26 then 65 + v
    else if v < 52 then 97 + (v - 26)
    else if v < 62 then 48 + (v - 52)
    else if v == 62 then (if e.url then 45 else 43)
    else (if e.url then 95 else 47)
  }

  function Value(e: Encoding, c: byte): Option<sextet> {
    if 65 <= c <= 90 then Some(c - 65)
    else if 97 <= c <= 122 then Some(c - 97 + 26)
    else if 48 <= c <= 57 then Some(c - 48 + 52)
    else if c == (if e.url then 45 else 43) then Some(62)
    else if c == (if e.url then 95 else 47) then Some(63)
    else None
  }

  /** The symbols are those of tables 1 and 2 of RFC 4648, and reading one gives its value back. */
  lemma SymbolTable(e: Encoding, v: sextet)
    ensures v < 26 ==> Symbol(e, v) == 'A' as int + v
    ensures 26 <= v < 52 ==> Symbol(e, v) == 'a' as int + (v - 26)
    ensures 52 <= v < 62 ==> Symbol(e, v) == '0' as int + (v - 52)
    ensures v == 62 ==> Symbol(e, v) == if e.url then '-' as int else '+' as int
    ensures v == 63 ==> Symbol(e, v) == if e.url then '_' as int else '/' as int
    ensures Value(e, Symbol(e, v)) == Some(v)
  {
  }

  predicate IsSymbol(e: Encoding, c: byte) { Value(e, c).Some? }

  // ---------------------------------------------------------------- 6-bit groups

  /** Bytes cut into 6-bit values; a short last group is filled with zero bits. */
  function Cut(d: Bytes): seq<sextet>
  {
    if d == [] then []
    else if |d| == 1 then [d[0] / 4, d[0] % 4 * 16]
    else if |d| == 2 then [d[0] / 4, d[0] % 4 * 16 + d[1] / 16, d[1] % 16 * 4]
    else [d[0] / 4, d[0] % 4 * 16 + d[1] / 16, d[1] % 16 * 4 + d[2] / 64, d[2] % 64] + Cut(d[3..])
  }

  function First(a: sextet, b: sextet): byte { a * 4 + b / 16 }
  function Second(b: sextet, c: sextet): byte { b % 16 * 16 + c / 4 }
  function Third(c: sextet, d: sextet): byte { c % 4 * 64 + d }

  /** 6-bit values glued into bytes; bits that fill no byte are ignored, whatever they are. */
  function Glue(v: seq<sextet>): (d: Bytes)
    ensures |d| <= |v|
  {
    if |v| < 2 then []
    else if |v| == 2 then [First(v[0], v[1])]
    else if |v| == 3 then [First(v[0], v[1]), Second(v[1], v[2])]
    else [First(v[0], v[1]), Second(v[1], v[2]), Third(v[2], v[3])] + Glue(v[4..])
  }

  lemma {:induction false} GlueCut(d: Bytes)
    ensures Glue(Cut(d)) == d
    decreases |d|
  {
    if |d| >= 3 {
      var v := Cut(d);
      GlueCut(d[3..]);
      assert v[4..] == Cut(d[3..]);
      GroupBits(d[0], d[1], d[2]);
    } else if |d| == 2 {
      PairBits(d[0], d[1]);
    }
  }

  lemma GroupBits(x: byte, y: byte, z: byte)
    ensures First(x / 4, x % 4 * 16 + y / 16) == x
    ensures Second(x % 4 * 16 + y / 16, y % 16 * 4 + z / 64) == y
    ensures Third(y % 16 * 4 + z / 64, z % 64) == z
  {
  }

  lemma PairBits(x: byte, y: byte)
    ensures First(x / 4, x % 4 * 16 + y / 16) == x
    ensures Second(x % 4 * 16 + y / 16, y % 16 * 4) == y
  {
  }

  lemma Periods(m: nat, n: nat)
    ensures (m + 3) % 3 == m % 3 && (4 + n) % 4 == n % 4
  {
  }

  lemma CutStep(d: Bytes)
    requires |d| >= 3
    ensures |Cut(d)| == 4 + |Cut(d[3..])|
  {
  }

  lemma CutShort(d: Bytes)
    requires |d| < 3
    ensures |Cut(d)| == if d == [] then 0 else |d| + 1
  {
  }

  lemma {:induction false} CutLength(d: Bytes)
    ensures |Cut(d)| % 4 == (if |d| % 3 == 0 then 0 else |d| % 3 + 1)
    ensures d != [] ==> Cut(d) != []
    decreases |d|
  {
    if |d| >= 3 {
      CutLength(d[3..]);
      CutStep(d);
      Periods(|d[3..]|, |Cut(d[3..])|);
    } else {
      CutShort(d);
    }
  }

  // ---------------------------------------------------------------- text

  function Symbols(e: Encoding, v: seq<sextet>): Bytes {
    seq(|v|, i requires 0 <= i < |v| => Symbol(e, v[i]))
  }

  function Padding(e: Encoding, n: nat): Bytes {
    if !e.padded || n % 3 == 0 then [] else if n % 3 == 1 then [PAD, PAD] else [PAD]
  }

  /** Encoding.EncodeToString. */
  function Encode(e: Encoding, d: Bytes): Bytes { Symbols(e, Cut(d)) + Padding(e, |d|) }

  predicate AllSymbols(e: Encoding, s: Bytes) { forall i | 0 <= i < |s| :: IsSymbol(e, s[i]) }

  function Values(e: Encoding, s: Bytes): seq<sextet>
    requires AllSymbols(e, s)
  {
    seq(|s|, i requires 0 <= i < |s| => Value(e, s[i]).value)
  }

  /** How many padding characters end the text, two at most. */
  function PadCount(s: Bytes): (p: nat)
    ensures p <= |s|
  {
    if |s| == 0 || s[|s|-1] != PAD then 0
    else if |s| >= 2 && s[|s|-2] == PAD then 2
    else 1
  }

  function Payload(e: Encoding, s: Bytes): (body: Bytes)
    ensures |body| <= |s|
  {
    if e.padded then s[..|s| - PadCount(s)] else s
  }

  /** The decoder on text without line breaks. */
  function DecodeGroups(e: Encoding, s: Bytes): (r: Option<Bytes>)
    ensures r.Some? ==> |r.value| <= |s|
  {
    var body := Payload(e, s);
    if (e.padded && |s| % 4 != 0) || (!e.padded && |s| % 4 == 1) || !AllSymbols(e, body) then None
    else Some(Glue(Values(e, body)))
  }

  function DropBreaks(s: Bytes): (t: Bytes)
    ensures |t| <= |s|
  {
    if s == [] then []
    else if s[0] == LF || s[0] == CR then DropBreaks(s[1..])
    else [s[0]] + DropBreaks(s[1..])
  }

  /** Encoding.DecodeString; None is CorruptInputError. */
  function DecodeString(e: Encoding, s: Bytes): (r: Option<Bytes>)
    ensures r.Some? ==> |r.value| <= |s|
  {
    DecodeGroups(e, DropBreaks(s))
  }

  /** The first decoder in the list that accepts decides. */
  function FirstSuccess(encodings: seq<Encoding>, s: Bytes): (r: Option<Bytes>)
    ensures r.Some? ==> |r.value| <= |s|
  {
    if encodings == [] then None
    else if DecodeString(encodings[0], s).Some? then DecodeString(encodings[0], s)
    else FirstSuccess(encodings[1..], s)
  }

  function Cascade(s: Bytes): (r: Option<Bytes>)
    ensures r.Some? ==> |r.value| <= |s|
  {
    FirstSuccess(CASCADE, s)
  }

  /** The loop shared by the subscription decoder and decodeIdentityBase64. */
  method DecodeAny(s: Bytes) returns (r: Option<Bytes>)
    ensures r == Cascade(s)
  {
    for i := 0 to |CASCADE|
      invariant FirstSuccess(CASCADE, s) == FirstSuccess(CASCADE[i..], s)
    {
      var b := DecodeString(CASCADE[i], s);
      if b.Some? {
        return b;
      }
    }
    return None;
  }

  // ---------------------------------------------------------------- encoded text

  /** What an encoded text is made of. */
  predicate EncodedByte(e: Encoding, c: byte) { IsSymbol(e, c) || (e.padded && c == PAD) }

  lemma EncodedAlphabet(e: Encoding, d: Bytes)
    ensures forall c | c in Encode(e, d) :: EncodedByte(e, c)
    ensures Encode(e, d) == [] <==> d == []
  {
    CutLength(d);
  }

  lemma {:induction false} NoBreaksToDrop(s: Bytes)
    requires LF !in s && CR !in s
    ensures DropBreaks(s) == s
  {
    if s != [] {
      NoBreaksToDrop(s[1..]);
      assert [s[0]] + s[1..] == s;
    }
  }

  /** The two alphabets never give one symbol two values. */
  lemma ReadSymbols(reader: Encoding, writer: Encoding, v: seq<sextet>)
    ensures AllSymbols(reader, Symbols(writer, v)) ==> Values(reader, Symbols(writer, v)) == v
    ensures AllSymbols(writer, Symbols(writer, v))
  {
  }

  lemma SymbolsAreNoPadding(e: Encoding, v: seq<sextet>)
    ensures PadCount(Symbols(e, v)) == 0
    ensures v != [] ==> Symbols(e, v) != []
  {
  }

  lemma StripPadding(text: Bytes, pad: Bytes)
    requires PadCount(text) == 0
    requires pad == [] || (text != [] && (pad == [PAD] || pad == [PAD, PAD]))
    ensures PadCount(text + pad) == |pad|
    ensures (text + pad)[..|text|] == text
  {
    if pad == [] {
      assert text + pad == text;
    } else {
      assert (text + pad)[|text| - 1] == text[|text| - 1];
    }
  }

  lemma EncodedLength(e: Encoding, d: Bytes)
    ensures e.padded ==> |Encode(e, d)| % 4 == 0
    ensures |Cut(d)| % 4 != 1
  {
    CutLength(d);
    assert |Encode(e, d)| == |Cut(d)| + |Padding(e, |d|)|;
  }

  lemma PayloadOfEncoded(reader: Encoding, writer: Encoding, d: Bytes)
    requires reader.padded || Padding(writer, |d|) == []
    ensures Payload(reader, Encode(writer, d)) == Symbols(writer, Cut(d))
  {
    var text, pad := Symbols(writer, Cut(d)), Padding(writer, |d|);
    CutLength(d);
    SymbolsAreNoPadding(writer, Cut(d));
    PaddingShape(writer, |d|);
    PayloadOfPadded(reader, text, pad);
  }

  lemma PaddingShape(e: Encoding, n: nat)
    ensures Padding(e, n) in {[], [PAD], [PAD, PAD]} && Padding(e, 0) == []
  {
  }

  lemma PayloadOfPadded(reader: Encoding, text: Bytes, pad: Bytes)
    requires PadCount(text) == 0 && (reader.padded || pad == [])
    requires pad == [] || (text != [] && (pad == [PAD] || pad == [PAD, PAD]))
    ensures Payload(reader, text + pad) == text
  {
    StripPadding(text, pad);
    if !reader.padded {
      assert text + pad == text;
    }
  }

  /** Any of the four decoders that accepts any of the four encodings of d returns d, and the matching one accepts. */
  lemma AcceptedIsOriginal(reader: Encoding, writer: Encoding, d: Bytes)
    ensures DecodeGroups(reader, Encode(writer, d)) in {None, Some(d)}
    ensures reader == writer ==> DecodeGroups(reader, Encode(writer, d)) == Some(d)
  {
    var s := Encode(writer, d);
    if !reader.padded && Padding(writer, |d|) != [] {
      assert s[|s|-1] == PAD;
      assert !IsSymbol(reader, s[|s|-1]);
    } else {
      GlueCut(d);
      ReadSymbols(reader, writer, Cut(d));
      EncodedLength(writer, d);
      PayloadOfEncoded(reader, writer, d);
    }
  }

  lemma DecodeEncoded(reader: Encoding, writer: Encoding, d: Bytes)
    ensures DecodeString(reader, Encode(writer, d)) in {None, Some(d)}
    ensures DecodeString(writer, Encode(writer, d)) == Some(d)
  {
    EncodedAlphabet(writer, d);
    NoBreaksToDrop(Encode(writer, d));
    AcceptedIsOriginal(reader, writer, d);
    AcceptedIsOriginal(writer, writer, d);
  }

  lemma {:induction false} FirstSuccessRoundTrip(encodings: seq<Encoding>, writer: Encoding, d: Bytes)
    requires writer in encodings
    ensures FirstSuccess(encodings, Encode(writer, d)) == Some(d)
  {
    DecodeEncoded(encodings[0], writer, d);
    if DecodeString(encodings[0], Encode(writer, d)).None? {
      FirstSuccessRoundTrip(encodings[1..], writer, d);
    }
  }

  /** Whatever decoder happens to accept first, the cascade returns the bytes that were encoded. */
  lemma CascadeRoundTrip(writer: Encoding, d: Bytes)
    ensures Cascade(Encode(writer, d)) == Some(d)
  {
    assert writer in CASCADE by {
      assert writer == CASCADE[0] || writer == CASCADE[1] || writer == CASCADE[2] || writer == CASCADE[3];
    }
    FirstSuccessRoundTrip(CASCADE, writer, d);
  }

  // ---------------------------------------------------------------- what is accepted

  /** How many values of a last sextet stand for the same bytes. */
  function Slack(n: nat): nat { if n % 4 == 2 then 16 else if n % 4 == 3 then 4 else 1 }

  /** How much of the i-th of n sextets is unused. */
  function Unused(n: nat, i: nat): (u: nat)
    ensures u > 0
  {
    if i + 1 == n then Slack(n) else 1
  }

  /** The same sextets, except for bits of the last one that fill no byte. */
  predicate Agree(v: seq<sextet>, w: seq<sextet>) {
    |v| == |w| && forall i | 0 <= i < |v| :: v[i] / Unused(|v|, i) == w[i] / Unused(|v|, i)
  }

  lemma AgreeGroup(v: seq<sextet>, w: seq<sextet>)
    requires |v| >= 4 && |w| >= 4
    ensures Agree(v, w) <==> v[0] == w[0] && v[1] == w[1] && v[2] == w[2] && v[3] == w[3] && Agree(v[4..], w[4..])
  {
    var m, n := v[4..], w[4..];
    if |v| == |w| {
      assert forall i | 0 <= i < 4 :: Unused(|v|, i) == 1;
      assert forall i | 0 <= i < |m| :: m[i] == v[i + 4] && n[i] == w[i + 4] && Unused(|m|, i) == Unused(|v|, i + 4);
      if Agree(m, n) {
        forall i | 4 <= i < |v|
          ensures v[i] / Unused(|v|, i) == w[i] / Unused(|v|, i)
        {
          assert v[i] == m[i - 4] && w[i] == n[i - 4];
        }
      }
    }
  }

  lemma GroupExact(a: sextet, b: sextet, c: sextet, d: sextet, x: byte, y: byte, z: byte)
    ensures First(a, b) == x && Second(b, c) == y && Third(c, d) == z
            <==> a == x / 4 && b == x % 4 * 16 + y / 16 && c == y % 16 * 4 + z / 64 && d == z % 64
  {
  }

  lemma PairExact(a: sextet, b: sextet, c: sextet, x: byte, y: byte)
    ensures First(a, b) == x && Second(b, c) == y
            <==> a == x / 4 && b == x % 4 * 16 + y / 16 && c / 4 == y % 16 * 4 / 4
  {
  }

  lemma SingleExact(a: sextet, b: sextet, x: byte)
    ensures First(a, b) == x <==> a == x / 4 && b / 16 == x % 4 * 16 / 16
  {
  }

  lemma FrontThree(x: byte, y: byte, z: byte, rest: Bytes, d: Bytes)
    requires |d| >= 3
    ensures [x, y, z] + rest == d <==> x == d[0] && y == d[1] && z == d[2] && rest == d[3..]
  {
    assert ([x, y, z] + rest)[3..] == rest;
    assert d == [d[0], d[1], d[2]] + d[3..];
  }

  lemma CutGroup(d: Bytes)
    requires |d| >= 3
    ensures |Cut(d)| >= 4 && Cut(d)[4..] == Cut(d[3..])
    ensures Cut(d)[0] == d[0] / 4 && Cut(d)[1] == d[0] % 4 * 16 + d[1] / 16
    ensures Cut(d)[2] == d[1] % 16 * 4 + d[2] / 64 && Cut(d)[3] == d[2] % 64
  {
  }

  lemma GlueHead(v: seq<sextet>)
    requires |v| >= 4
    ensures Glue(v) == [First(v[0], v[1]), Second(v[1], v[2]), Third(v[2], v[3])] + Glue(v[4..])
  {
  }

  lemma GlueGroup(v: seq<sextet>, d: Bytes)
    requires |v| >= 4 && |d| >= 3
    requires Glue(v[4..]) == d[3..] <==> Agree(v[4..], Cut(d[3..]))
    ensures Glue(v) == d <==> Agree(v, Cut(d))
  {
    GlueHead(v);
    CutGroup(d);
    FrontThree(First(v[0], v[1]), Second(v[1], v[2]), Third(v[2], v[3]), Glue(v[4..]), d);
    GroupExact(v[0], v[1], v[2], v[3], d[0], d[1], d[2]);
    AgreeGroup(v, Cut(d));
  }

  lemma GlueSmall(v: seq<sextet>, d: Bytes)
    requires |v| < 4 && |v| != 1
    ensures Glue(v) == d <==> Agree(v, Cut(d))
  {
    if |v| == 3 && |d| == 2 {
      PairExact(v[0], v[1], v[2], d[0], d[1]);
    } else if |v| == 2 && |d| == 1 {
      SingleExact(v[0], v[1], d[0]);
    }
  }

  /** Sextets stand for exactly these bytes when they are their cut up to unused bits. */
  lemma {:induction false} GlueExact(v: seq<sextet>, d: Bytes)
    requires |v| % 4 != 1
    ensures Glue(v) == d <==> Agree(v, Cut(d))
    decreases |v|
  {
    if |v| < 4 {
      GlueSmall(v, d);
    } else if |d| >= 3 {
      GlueExact(v[4..], d[3..]);
      GlueGroup(v, d);
    }
  }

  lemma WriteValues(e: Encoding, s: Bytes)
    requires AllSymbols(e, s)
    ensures Symbols(e, Values(e, s)) == s
  {
  }

  /** An encoding of d, apart from unused bits. */
  ghost predicate Encodes(e: Encoding, s: Bytes, d: Bytes) {
    exists v :: Agree(v, Cut(d)) && s == Symbols(e, v) + Padding(e, |d|)
  }

  lemma AcceptedEncodes(e: Encoding, s: Bytes, d: Bytes)
    requires DecodeGroups(e, s) == Some(d)
    ensures Encodes(e, s, d)
  {
    var body := Payload(e, s);
    var v := Values(e, body);
    WriteValues(e, body);
    PayloadLength(e, s);
    GlueExact(v, d);
    CutLength(d);
    PaddingLeft(e, s, |d|);
  }

  lemma DecodeBody(e: Encoding, s: Bytes, body: Bytes)
    requires Payload(e, s) == body && AllSymbols(e, body)
    requires if e.padded then |s| % 4 == 0 else |s| % 4 != 1
    ensures DecodeGroups(e, s) == Some(Glue(Values(e, body)))
  {
  }

  lemma TextLength(e: Encoding, v: seq<sextet>, d: Bytes)
    requires |v| == |Cut(d)|
    ensures var s := Symbols(e, v) + Padding(e, |d|);
            if e.padded then |s| % 4 == 0 else |s| % 4 != 1
    ensures |v| % 4 != 1 && (v == [] ==> Padding(e, |d|) == [])
  {
    EncodedLength(e, d);
    CutLength(d);
  }

  lemma EncodedAccepted(e: Encoding, v: seq<sextet>, d: Bytes)
    requires Agree(v, Cut(d))
    ensures DecodeGroups(e, Symbols(e, v) + Padding(e, |d|)) == Some(d)
  {
    var text, pad := Symbols(e, v), Padding(e, |d|);
    TextLength(e, v, d);
    SymbolsAreNoPadding(e, v);
    PaddingShape(e, |d|);
    PayloadOfPadded(e, text, pad);
    ReadSymbols(e, e, v);
    DecodeBody(e, text + pad, text);
    GlueExact(v, d);
  }

  /** The decoder accepts exactly the encodings, with any values in the bits that fill no byte. */
  lemma AcceptsExactly(e: Encoding, s: Bytes, d: Bytes)
    ensures DecodeGroups(e, s) == Some(d) <==> Encodes(e, s, d)
  {
    if DecodeGroups(e, s) == Some(d) {
      AcceptedEncodes(e, s, d);
    }
    if Encodes(e, s, d) {
      var v :| Agree(v, Cut(d)) && s == Symbols(e, v) + Padding(e, |d|);
      EncodedAccepted(e, v, d);
    }
  }

  lemma PayloadLength(e: Encoding, s: Bytes)
    requires if e.padded then |s| % 4 == 0 else |s| % 4 != 1
    ensures |Payload(e, s)| % 4 != 1
    ensures e.padded ==> (4 - PadCount(s)) % 4 == |Payload(e, s)| % 4
  {
  }

  /** What stands behind the payload is the padding. */
  lemma PaddingLeft(e: Encoding, s: Bytes, n: nat)
    requires e.padded ==> (4 - PadCount(s)) % 4 == if n % 3 == 0 then 0 else n % 3 + 1
    ensures s == Payload(e, s) + Padding(e, n)
  {
    if e.padded {
      assert PadCount(s) == |Padding(e, n)|;
      assert s[|s| - PadCount(s)..] == Padding(e, n);
    }
  }

  /** Line breaks may stand anywhere. */
  lemma {:induction false} BreaksIgnored(e: Encoding, a: Bytes, c: byte, b: Bytes)
    requires c == LF || c == CR
    ensures DropBreaks(a + [c] + b) == DropBreaks(a + b)
    ensures DecodeString(e, a + [c] + b) == DecodeString(e, a + b)
  {
    if a == [] {
      assert a + [c] + b == [c] + b && a + b == b;
    } else {
      BreaksIgnored(e, a[1..], c, b);
      assert (a + [c] + b)[1..] == a[1..] + [c] + b && (a + b)[1..] == a[1..] + b;
      assert (a + [c] + b)[0] == a[0] == (a + b)[0];
    }
  }
}
