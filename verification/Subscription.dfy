/** Decoding of plain or base64-encoded share-link lists (pkg/subscription). */
module Subscription {
  import opened Text
  import Base64

  datatype Error = NegativeLimit | TooLarge | InvalidFormat | TooManyLinks
  datatype Result = Ok(links: seq<Bytes>) | Err(error: Error)
  datatype Options = Options(maxBytes: int, maxLinks: int)

  const DEFAULT_MAX_BYTES: nat := 67108864
  const DEFAULT_MAX_LINKS: nat := 100000

  const COLON: byte := 58
  const SLASH: byte := 47
  const BOM: Bytes := [0xEF, 0xBB, 0xBF]

  /** Zero selects the default; negative limits are invalid. */
  function Limits(opts: Options): Option<(nat, nat)> {
    if opts.maxBytes < 0 || opts.maxLinks < 0 then None
    else Some((if opts.maxBytes == 0 then DEFAULT_MAX_BYTES else opts.maxBytes,
               if opts.maxLinks == 0 then DEFAULT_MAX_LINKS else opts.maxLinks))
  }

  // ---------------------------------------------------------------- one line

  predicate Letter(c: byte) { 97 <= c <= 122 || 65 <= c <= 90 }

  predicate SchemeByte(c: byte) { Letter(c) || 48 <= c <= 57 || c == 43 || c == 45 || c == 46 }

  /** Section 3.1 of RFC 3986: a letter, then letters, digits, plus, minus and dot. */
  predicate IsScheme(s: Bytes) {
    s != [] && Letter(s[0]) && forall i | 1 <= i < |s| :: SchemeByte(s[i])
  }

  method ValidScheme(s: Bytes) returns (ok: bool)
    ensures ok <==> IsScheme(s)
  {
    if s == [] || !Letter(s[0]) {
      return false;
    }
    for i := 1 to |s|
      invariant forall j | 1 <= j < i :: SchemeByte(s[j])
    {
      if !SchemeByte(s[i]) {
        return false;
      }
    }
    return true;
  }

  /** The separator "://" stands at position i. */
  predicate SepAt(s: Bytes, i: nat) {
    i + 3 <= |s| && s[i] == COLON && s[i + 1] == SLASH && s[i + 2] == SLASH
  }

  /** Position of the first separator, as strings.Cut and bytes.Contains look for it. */
  function FindSep(s: Bytes): (r: Option<nat>)
    ensures r.Some? ==> SepAt(s, r.value) && forall j: nat | j < r.value :: !SepAt(s, j)
    ensures r.None? ==> forall j: nat :: !SepAt(s, j)
  {
    FindSepFrom(s, 0)
  }

  function FindSepFrom(s: Bytes, i: nat): (r: Option<nat>)
    requires i <= |s|
    ensures r.Some? ==> i <= r.value && SepAt(s, r.value) && forall j: nat | i <= j < r.value :: !SepAt(s, j)
    ensures r.None? ==> forall j: nat | i <= j :: !SepAt(s, j)
    decreases |s| - i
  {
    if SepAt(s, i) then Some(i)
    else if i == |s| then None
    else FindSepFrom(s, i + 1)
  }

  /** A line with a valid scheme, the separator and something after it. */
  predicate Shaped(line: Bytes) {
    match FindSep(line)
    case None => false
    case Some(i) => |line| > i + 3 && IsScheme(line[..i])
  }

  /** A share link as it may stand on a line of its own. */
  predicate WellFormed(link: Bytes) {
    LF !in link && Trimmed(link) && ValidUtf8(link) && Shaped(link)
  }

  predicate AllShaped(lines: seq<Bytes>) { forall i | 0 <= i < |lines| :: Shaped(lines[i]) }

  predicate AllWellFormed(links: seq<Bytes>) { forall i | 0 <= i < |links| :: WellFormed(links[i]) }

  // ---------------------------------------------------------------- the whole body

  function DropBom(s: Bytes): (t: Bytes)
    ensures |t| <= |s|
  {
    if BOM <= s then s[3..] else s
  }

  function TrimBody(s: Bytes): Bytes { TrimSpace(DropBom(TrimSpace(s))) }

  predicate Blank(c: byte) { c == 32 || c == 9 || c == 13 || c == 10 }

  /** The wrapping that providers put into base64 text. An invalid byte stays as it is here, where the
      source writes the replacement character; no alphabet holds either. */
  function StripBlanks(s: Bytes): (t: Bytes)
    ensures |t| <= |s|
  {
    if s == [] then []
    else if Blank(s[0]) then StripBlanks(s[1..])
    else [s[0]] + StripBlanks(s[1..])
  }

  /** The text behind a trimmed body: itself when it holds a separator, else its base64 decoding. */
  function Unwrap(body: Bytes): Option<Bytes> {
    if FindSep(body).Some? then Some(body)
    else match Base64.Cascade(StripBlanks(body))
         case None => None
         case Some(decoded) => Some(TrimBody(decoded))
  }

  /** Line after line: blank lines are skipped, the first offending line decides the error. */
  function Collect(lines: seq<Bytes>, links: seq<Bytes>, maxLinks: nat): Result
    decreases |lines|
  {
    if lines == [] then Ok(links)
    else
      var line := TrimSpace(lines[0]);
      if line == [] then Collect(lines[1..], links, maxLinks)
      else if !Shaped(line) then Err(InvalidFormat)
      else if |links| == maxLinks then Err(TooManyLinks)
      else Collect(lines[1..], links + [line], maxLinks)
  }

  /** What Decode computes. */
  function Decoded(body: Bytes, opts: Options): Result {
    match Limits(opts)
    case None => Err(NegativeLimit)
    case Some((maxBytes, maxLinks)) =>
      if |body| > maxBytes then Err(TooLarge)
      else if TrimBody(body) == [] then Ok([])
      else match Unwrap(TrimBody(body))
           case None => Err(InvalidFormat)
           case Some(text) => if !ValidUtf8(text) then Err(InvalidFormat) else Collect(Split(text), [], maxLinks)
  }

  method Decode(body: Bytes, opts: Options) returns (r: Result)
    ensures r == Decoded(body, opts)
  {
    var limits := Limits(opts);
    if limits.None? {
      return Err(NegativeLimit);
    }
    var (maxBytes, maxLinks) := limits.value;
    if |body| > maxBytes {
      return Err(TooLarge);
    }
    var text := TrimBody(body);
    if text == [] {
      return Ok([]);
    }
    if FindSep(text).None? {
      var decoded := Base64.DecodeAny(StripBlanks(text));
      if decoded.None? {
        return Err(InvalidFormat);
      }
      text := TrimBody(decoded.value);
    }
    if !ValidUtf8(text) {
      return Err(InvalidFormat);
    }
    r := CollectLines(Split(text), maxLinks);
  }

  method CollectLines(lines: seq<Bytes>, maxLinks: nat) returns (r: Result)
    ensures r == Collect(lines, [], maxLinks)
  {
    var links: seq<Bytes> := [];
    for i := 0 to |lines|
      invariant Collect(lines, [], maxLinks) == Collect(lines[i..], links, maxLinks)
    {
      assert lines[i..][1..] == lines[i + 1..];
      var line := TrimSpace(lines[i]);
      if line != [] {
        var cut := FindSep(line);
        if cut.None? {
          return Err(InvalidFormat);
        }
        var scheme := ValidScheme(line[..cut.value]);
        if |line| == cut.value + 3 || !scheme {
          return Err(InvalidFormat);
        }
        if |links| == maxLinks {
          return Err(TooManyLinks);
        }
        links := links + [line];
      }
    }
    return Ok(links);
  }

  // ---------------------------------------------------------------- what is collected

  /** The same loop over lines that are already trimmed and not blank. */
  function CollectKept(lines: seq<Bytes>, links: seq<Bytes>, maxLinks: nat): Result
    decreases |lines|
  {
    if lines == [] then Ok(links)
    else if !Shaped(lines[0]) then Err(InvalidFormat)
    else if |links| == maxLinks then Err(TooManyLinks)
    else CollectKept(lines[1..], links + [lines[0]], maxLinks)
  }

  lemma {:induction false} CollectSkipsBlanks(lines: seq<Bytes>, links: seq<Bytes>, maxLinks: nat)
    ensures Collect(lines, links, maxLinks) == CollectKept(Clean(lines), links, maxLinks)
    decreases |lines|
  {
    if lines != [] {
      var line, rest := TrimSpace(lines[0]), lines[1..];
      CleanCons(lines);
      if line == [] {
        CollectSkipsBlanks(rest, links, maxLinks);
      } else {
        assert Clean(lines)[0] == line && Clean(lines)[1..] == Clean(rest);
        CollectSkipsBlanks(rest, links + [line], maxLinks);
      }
    }
  }

  lemma {:induction false} CollectKeptExact(lines: seq<Bytes>, links: seq<Bytes>, maxLinks: nat)
    requires |links| <= maxLinks
    ensures CollectKept(lines, links, maxLinks).Ok? <==> AllShaped(lines) && |links| + |lines| <= maxLinks
    ensures CollectKept(lines, links, maxLinks).Ok? ==> CollectKept(lines, links, maxLinks) == Ok(links + lines)
    ensures CollectKept(lines, links, maxLinks) == Err(TooManyLinks) <==> Overflows(lines, maxLinks - |links|)
    ensures CollectKept(lines, links, maxLinks) in {Ok(links + lines), Err(TooManyLinks), Err(InvalidFormat)}
    decreases |lines|
  {
    if lines == [] {
      assert links + lines == links;
    } else if Shaped(lines[0]) && |links| < maxLinks {
      CollectKeptExact(lines[1..], links + [lines[0]], maxLinks);
      assert links + [lines[0]] + lines[1..] == links + lines;
      ShapedCons(lines);
      OverflowsCons(lines, maxLinks - |links|);
    }
  }

  /** There are more than n lines, and all of them up to the first too many are shaped. */
  predicate Overflows(lines: seq<Bytes>, n: nat) {
    |lines| > n && forall i | 0 <= i <= n :: Shaped(lines[i])
  }

  lemma OverflowsCons(lines: seq<Bytes>, n: nat)
    requires lines != [] && n > 0
    ensures Overflows(lines, n) <==> Shaped(lines[0]) && Overflows(lines[1..], n - 1)
  {
    assert forall i | 1 <= i < |lines| :: lines[i] == lines[1..][i - 1];
  }

  /** Collecting succeeds exactly when every kept line is shaped and they fit, and then returns them all; it reports too
      many links exactly when those up to the first too many are shaped, and an invalid format otherwise. */
  lemma CollectExact(lines: seq<Bytes>, maxLinks: nat)
    ensures Collect(lines, [], maxLinks).Ok? <==> AllShaped(Clean(lines)) && |Clean(lines)| <= maxLinks
    ensures Collect(lines, [], maxLinks) == Err(TooManyLinks) <==> Overflows(Clean(lines), maxLinks)
    ensures Collect(lines, [], maxLinks) in {Ok(Clean(lines)), Err(TooManyLinks), Err(InvalidFormat)}
  {
    CollectSkipsBlanks(lines, [], maxLinks);
    CollectKeptExact(Clean(lines), [], maxLinks);
    assert [] + Clean(lines) == Clean(lines);
  }

  lemma ShapedCons(lines: seq<Bytes>)
    requires lines != []
    ensures AllShaped(lines) <==> Shaped(lines[0]) && AllShaped(lines[1..])
  {
    assert lines == [lines[0]] + lines[1..];
  }

  lemma {:induction false} KeptWellFormed(lines: seq<Bytes>)
    requires forall i | 0 <= i < |lines| :: LF !in lines[i] && ValidUtf8(lines[i])
    requires AllShaped(Clean(lines))
    ensures AllWellFormed(Clean(lines))
    ensures |Join(Clean(lines))| <= |Join(lines)|
  {
    if lines != [] {
      var line, rest := TrimSpace(lines[0]), lines[1..];
      TrimSpaceTrims(lines[0]);
      CleanCons(lines);
      if line == [] {
        KeptWellFormed(rest);
      } else {
        assert Clean(lines)[0] == line && Clean(lines)[1..] == Clean(rest);
        KeptWellFormed(rest);
        ValidTrimSpace(lines[0]);
        assert WellFormed(line);
      }
    }
  }

  lemma KeptFixed(links: seq<Bytes>)
    requires AllWellFormed(links)
    ensures Clean(links) == links
  {
    forall i | 0 <= i < |links|
      ensures links[i] != []
    {
      FrontOfShaped(links[i]);
    }
    CleanedStays(links);
  }

  // ---------------------------------------------------------------- printed lists

  lemma {:induction false} JoinEndsWithLast(links: seq<Bytes>)
    requires links != []
    ensures |links[|links|-1]| <= |Join(links)|
    ensures Join(links)[|Join(links)| - |links[|links|-1]|..] == links[|links|-1]
  {
    if |links| > 1 {
      var rest, last := Join(links[1..]), links[|links|-1];
      JoinEndsWithLast(links[1..]);
      var head := links[0] + [LF];
      var all := Join(links);
      assert all == head + rest;
      assert all[|head| + (|rest| - |last|)..] == rest[|rest| - |last|..];
    }
  }

  lemma BackSpaceOfTail(s: Bytes, t: Bytes)
    requires 3 <= |t| <= |s| && s[|s| - |t|..] == t
    ensures BackSpace(s) == BackSpace(t)
  {
    var d := |s| - |t|;
    assert forall i | 0 <= i < |t| :: s[d..][i] == s[d + i];
  }

  lemma FrontOfShaped(link: Bytes)
    requires Shaped(link)
    ensures |link| >= 5 && Letter(link[0])
  {
    assert IsScheme(link[..FindSep(link).value]);
  }

  lemma JoinStartsWithFirst(links: seq<Bytes>)
    requires links != []
    ensures links[0] <= Join(links)
  {
  }

  lemma SeparatorSurvives(s: Bytes, t: Bytes)
    requires t <= s && FindSep(t).Some?
    ensures FindSep(s).Some?
  {
    assert SepAt(s, FindSep(t).value);
  }

  lemma TrimmedBody(s: Bytes)
    requires s != [] && Letter(s[0]) && BackSpace(s) == 0
    ensures TrimBody(s) == s
  {
    assert FrontSpace(s) == 0;
    TrimSpaceTrims(s);
  }

  /** A printed list is already trimmed, well-formed text that shows a separator. */
  lemma PrintedText(links: seq<Bytes>)
    requires links != [] && AllWellFormed(links)
    ensures Join(links) != [] && TrimBody(Join(links)) == Join(links)
    ensures ValidUtf8(Join(links)) && FindSep(Join(links)).Some?
  {
    var last := links[|links|-1];
    FrontOfShaped(links[0]);
    FrontOfShaped(last);
    JoinStartsWithFirst(links);
    JoinEndsWithLast(links);
    BackSpaceOfTail(Join(links), last);
    TrimmedBody(Join(links));
    ValidJoin(links);
    SeparatorSurvives(Join(links), links[0]);
  }

  lemma ReadPrinted(links: seq<Bytes>, maxLinks: nat)
    requires links != [] && AllWellFormed(links)
    requires |links| <= maxLinks
    ensures Collect(Split(Join(links)), [], maxLinks) == Ok(links)
  {
    SplitJoin(links);
    KeptFixed(links);
    CollectExact(links, maxLinks);
  }

  /** Every list of well-formed links within the limits, printed one per line, is decoded to itself. */
  lemma DecodePlain(links: seq<Bytes>, opts: Options)
    requires AllWellFormed(links)
    requires Limits(opts).Some? && |Join(links)| <= Limits(opts).value.0 && |links| <= Limits(opts).value.1
    ensures Decoded(Join(links), opts) == Ok(links)
  {
    if links == [] {
      assert TrimSpace([]) == [];
      assert TrimBody([]) == [];
    } else {
      PrintedText(links);
      ReadPrinted(links, Limits(opts).value.1);
    }
  }

  lemma TrimBodySpaced(pre: Bytes, t: Bytes, post: Bytes)
    requires Spaces(pre) && Spaces(post) && Trimmed(t) && DropBom(t) == t
    ensures TrimBody(pre + t + post) == t
  {
    TrimSpaceUnique(pre, t, post);
    TrimSpaceTrims(t);
  }

  lemma DecodeTrimmed(body: Bytes, links: seq<Bytes>, opts: Options)
    requires AllWellFormed(links) && links != [] && TrimBody(body) == Join(links)
    requires Limits(opts).Some? && |body| <= Limits(opts).value.0 && |links| <= Limits(opts).value.1
    ensures Decoded(body, opts) == Ok(links)
  {
    PrintedText(links);
    ReadPrinted(links, Limits(opts).value.1);
    DecodeText(body, Join(links), opts);
  }

  /** A body whose trimmed text is valid and shows a separator is read line by line. */
  lemma DecodeText(body: Bytes, text: Bytes, opts: Options)
    requires TrimBody(body) == text && text != [] && FindSep(text).Some? && ValidUtf8(text)
    requires Limits(opts).Some? && |body| <= Limits(opts).value.0
    ensures Decoded(body, opts) == Collect(Split(text), [], Limits(opts).value.1)
  {
  }

  /** White space around a printed list changes nothing. */
  lemma DecodeSpaced(pre: Bytes, links: seq<Bytes>, post: Bytes, opts: Options)
    requires AllWellFormed(links) && links != [] && Spaces(pre) && Spaces(post)
    requires Limits(opts).Some? && |pre + Join(links) + post| <= Limits(opts).value.0 && |links| <= Limits(opts).value.1
    ensures Decoded(pre + Join(links) + post, opts) == Ok(links)
  {
    PrintedIsTrimmed(links);
    TrimBodySpaced(pre, Join(links), post);
    DecodeTrimmed(pre + Join(links) + post, links, opts);
  }

  lemma PrintedIsTrimmed(links: seq<Bytes>)
    requires links != [] && AllWellFormed(links)
    ensures Trimmed(Join(links)) && DropBom(Join(links)) == Join(links)
  {
    var last := links[|links|-1];
    FrontOfShaped(links[0]);
    FrontOfShaped(last);
    JoinStartsWithFirst(links);
    JoinEndsWithLast(links);
    BackSpaceOfTail(Join(links), last);
    assert Letter(Join(links)[0]);
  }

  /** The lines of any text that is valid and shows a separator: each is trimmed, blank ones are skipped, and the
      list is refused when one is no link or they are too many. */
  lemma DecodeLines(lines: seq<Bytes>, opts: Options)
    requires lines != [] && (forall l | l in lines :: LF !in l)
    requires Limits(opts).Some? && |Join(lines)| <= Limits(opts).value.0
    requires ValidUtf8(Join(lines)) && FindSep(Join(lines)).Some? && TrimBody(Join(lines)) == Join(lines)
    ensures AllShaped(Clean(lines)) && |Clean(lines)| <= Limits(opts).value.1 ==>
              Decoded(Join(lines), opts) == Ok(Clean(lines))
    ensures !(AllShaped(Clean(lines)) && |Clean(lines)| <= Limits(opts).value.1) ==> Decoded(Join(lines), opts).Err?
  {
    SplitJoin(lines);
    CollectExact(lines, Limits(opts).value.1);
    assert SepAt(Join(lines), FindSep(Join(lines)).value);
    DecodeText(Join(lines), Join(lines), opts);
  }

  predicate Admitted(body: Bytes, opts: Options) { Limits(opts).Some? && |body| <= Limits(opts).value.0 }

  /** Neither plain text nor any of the four encodings. */
  predicate Unreadable(text: Bytes) { FindSep(text).None? && Base64.Cascade(StripBlanks(text)).None? }

  /** What is refused before any line is read, and that a blank body is an empty list. */
  lemma DecodeOutcome(body: Bytes, opts: Options)
    ensures (opts.maxBytes < 0 || opts.maxLinks < 0) <==> Decoded(body, opts) == Err(NegativeLimit)
    ensures Limits(opts).Some? ==> (|body| > Limits(opts).value.0 <==> Decoded(body, opts) == Err(TooLarge))
    ensures Admitted(body, opts) && TrimBody(body) == [] ==> Decoded(body, opts) == Ok([])
    ensures Admitted(body, opts) && TrimBody(body) != [] && Unreadable(TrimBody(body)) ==>
              Decoded(body, opts) == Err(InvalidFormat)
  {
    if Limits(opts).Some? && Unwrap(TrimBody(body)).Some? {
      CollectExact(Split(Unwrap(TrimBody(body)).value), Limits(opts).value.1);
    }
  }

  /** The characters of schemes and separators. */
  lemma SchemeCharacters(c: byte)
    ensures Letter(c) <==> 'a' as int <= c <= 'z' as int || 'A' as int <= c <= 'Z' as int
    ensures SchemeByte(c) <==>
            Letter(c) || '0' as int <= c <= '9' as int || c in {'+' as int, '-' as int, '.' as int}
    ensures Blank(c) <==> c in {' ' as int, '\t' as int, '\r' as int, '\n' as int}
    ensures COLON == ':' as int && SLASH == '/' as int && LF == '\n' as int
  {
  }

  // ---------------------------------------------------------------- limits and the byte order mark

  /** Without limits of the caller's own, 64 MiB and 100000 links are admitted. */
  lemma DefaultLimits()
    ensures Limits(Options(0, 0)) == Some((64 * 1024 * 1024, 100_000))
  {
  }

  /** No white-space character begins near the end of the text and goes on behind it. */
  predicate EndsWhole(s: Bytes) {
    var n := |s|;
    WholeEnd(At(s, n - 2), At(s, n - 1))
  }

  /** The last two bytes decide. */
  predicate WholeEnd(x: byte, y: byte) { y !in {0xC2, 0xE1, 0xE2, 0xE3} && x !in {0xE1, 0xE2, 0xE3} }

  lemma LastSpaceWhole(s: Bytes, c: Bytes)
    requires EndsWhole(s) && c != [] && FrontSpace(c) == |c|
    ensures EndsWhole(s + c)
  {
    var t := s + c;
    assert At(t, |t| - 1) == c[|c| - 1];
    assert At(t, |t| - 2) == if |c| == 1 then At(s, |s| - 1) else c[|c| - 2];
  }

  lemma {:induction false} SpacesEndWhole(mark: Bytes, spaces: Bytes)
    requires EndsWhole(mark) && Spaces(spaces)
    ensures EndsWhole(mark + spaces)
    decreases |spaces|
  {
    if spaces == [] {
      assert mark + spaces == mark;
    } else {
      var init, last := LastSpace(spaces);
      SpacesEndWhole(mark, init);
      LastSpaceWhole(mark + init, last);
      assert mark + spaces == (mark + init) + last;
    }
  }

  lemma BackSpaceBehind(s: Bytes, t: Bytes)
    requires EndsWhole(s) && t != [] && BackSpace(t) == 0
    ensures BackSpace(s + t) == 0
  {
    var n := |s + t|;
    assert At(s + t, n - 1) == At(t, |t| - 1);
    assert |t| >= 2 ==> At(s + t, n - 2) == At(t, |t| - 2);
    assert |t| >= 3 ==> At(s + t, n - 3) == At(t, |t| - 3);
    assert |t| == 1 ==> At(s + t, n - 2) == At(s, |s| - 1) && At(s + t, n - 3) == At(s, |s| - 2);
    assert |t| == 2 ==> At(s + t, n - 3) == At(s, |s| - 1);
  }

  lemma RegroupMarked(mark: Bytes, pre: Bytes, t: Bytes, post: Bytes)
    ensures mark + (pre + t + post) == (mark + (pre + t)) + post
    ensures mark + (pre + t) == (mark + pre) + t
    ensures pre + [] + post == pre + post
  {
  }

  /** Trimming behind a mark that is no white space keeps the white space between it and the text. */
  lemma TrimBehind(mark: Bytes, pre: Bytes, t: Bytes, post: Bytes)
    requires FrontSpace(mark + (pre + t)) == 0 && EndsWhole(mark)
    requires Spaces(pre) && Spaces(post) && BackSpace(t) == 0 && t != []
    ensures TrimSpace(mark + (pre + t + post)) == mark + (pre + t)
  {
    RegroupMarked(mark, pre, t, post);
    SpacesEndWhole(mark, pre);
    BackSpaceBehind(mark + pre, t);
    TrimSpaceAfter(mark + (pre + t), post);
  }

  lemma TrimAfter(mark: Bytes, pre: Bytes, post: Bytes)
    requires mark != [] && Trimmed(mark) && Spaces(pre) && Spaces(post)
    ensures TrimSpace(mark + (pre + [] + post)) == mark
  {
    RegroupMarked(mark, pre, [], post);
    SpacesConcat(pre, post);
    TrimSpaceAfter(mark, pre + post);
  }

  lemma TrimBefore(pre: Bytes, t: Bytes)
    requires Spaces(pre) && Trimmed(t)
    ensures TrimSpace(pre + t) == t
  {
    TrimLeftDropsSpaces(pre, t);
  }

  lemma MarkFacts(x: Bytes)
    ensures FrontSpace(BOM + x) == 0 && DropBom(BOM + x) == x
    ensures EndsWhole(BOM) && Trimmed(BOM)
  {
  }

  /** A leading byte order mark is no part of the body, unless there is a second one. */
  lemma MarkIgnored(s: Bytes)
    requires !(BOM <= TrimSpace(s))
    ensures TrimBody(BOM + s) == TrimBody(s)
  {
    var pre, post := TrimSpaceCuts(s);
    var t := TrimSpace(s);
    TrimSpaceTrims(s);
    TrimSpaceTrims(t);
    if t == [] {
      MarkFacts([]);
      TrimAfter(BOM, pre, post);
      assert BOM + [] == BOM;
    } else {
      MarkFacts(pre + t);
      TrimBehind(BOM, pre, t, post);
      TrimBefore(pre, t);
    }
  }

  /** A leading byte order mark changes nothing, as long as the body still fits. */
  lemma DecodeMarked(body: Bytes, opts: Options)
    requires Limits(opts).Some? && |body| + 3 <= Limits(opts).value.0 && !(BOM <= TrimSpace(body))
    ensures Decoded(BOM + body, opts) == Decoded(body, opts)
  {
    MarkIgnored(body);
  }

  // ---------------------------------------------------------------- wrapped base64

  lemma ConcatAssociates(a: Bytes, b: Bytes, c: Bytes)
    ensures a + (b + c) == (a + b) + c
  {
  }

  lemma StripHead(s: Bytes)
    requires s != []
    ensures StripBlanks(s) == (if Blank(s[0]) then [] else [s[0]]) + StripBlanks(s[1..])
  {
  }

  lemma {:induction false} StripConcat(a: Bytes, b: Bytes)
    ensures StripBlanks(a + b) == StripBlanks(a) + StripBlanks(b)
  {
    if a == [] {
      assert a + b == b;
    } else {
      StripConcat(a[1..], b);
      assert (a + b)[0] == a[0] && (a + b)[1..] == a[1..] + b;
      StripHead(a);
      StripHead(a + b);
      ConcatAssociates(if Blank(a[0]) then [] else [a[0]], StripBlanks(a[1..]), StripBlanks(b));
    }
  }

  /** A blank may stand anywhere in the encoded text, and nothing else is taken out of it. */
  lemma BlanksIgnored(a: Bytes, c: byte, b: Bytes)
    ensures Blank(c) ==> StripBlanks(a + [c] + b) == StripBlanks(a + b)
    ensures !Blank(c) ==> StripBlanks(a + [c] + b) == StripBlanks(a) + [c] + StripBlanks(b)
  {
    StripConcat(a + [c], b);
    StripConcat(a, [c]);
    StripConcat(a, b);
    assert [c][1..] == [];
    assert StripBlanks([c]) == if Blank(c) then [] else [c];
  }

  /** Bytes of base64 text in blanks. */
  predicate WrappedByte(c: byte) { Blank(c) || (33 <= c < 128 && c != COLON) }

  predicate Wrapped(s: Bytes) { forall c | c in s :: WrappedByte(c) }

  lemma {:induction false} StripTrimLeft(s: Bytes)
    requires Wrapped(s)
    ensures Wrapped(TrimLeft(s)) && StripBlanks(TrimLeft(s)) == StripBlanks(s)
    decreases |s|
  {
    if FrontSpace(s) != 0 {
      assert WrappedByte(s[0]);
      assert FrontSpace(s) == 1;
      StripTrimLeft(s[1..]);
    }
  }

  lemma {:induction false} StripTrimRight(s: Bytes)
    requires Wrapped(s)
    ensures Wrapped(TrimRight(s)) && StripBlanks(TrimRight(s)) == StripBlanks(s)
    decreases |s|
  {
    if BackSpace(s) != 0 {
      var n := |s|;
      assert WrappedByte(s[n - 1]);
      assert BackSpace(s) == 1;
      StripTrimRight(s[..n - 1]);
      StripConcat(s[..n - 1], s[n - 1..]);
      assert s == s[..n - 1] + s[n - 1..];
      assert s[n - 1..][1..] == [];
      assert StripBlanks(s[n - 1..]) == [];
    }
  }

  lemma StripTrimBody(s: Bytes)
    requires Wrapped(s)
    ensures Wrapped(TrimBody(s)) && StripBlanks(TrimBody(s)) == StripBlanks(s)
  {
    StripTrimLeft(s);
    StripTrimRight(TrimLeft(s));
    var t := TrimSpace(s);
    assert t != [] ==> WrappedByte(t[0]);
    assert DropBom(t) == t;
    StripTrimLeft(t);
    StripTrimRight(TrimLeft(t));
  }

  lemma {:induction false} StripKeeps(s: Bytes, c: byte)
    requires c in s && !Blank(c)
    ensures c in StripBlanks(s)
  {
    if s[0] != c {
      StripKeeps(s[1..], c);
    }
  }

  lemma WrappedEncoding(w: Bytes, e: Base64.Encoding, d: Bytes)
    requires StripBlanks(w) == Base64.Encode(e, d)
    ensures Wrapped(w)
  {
    Base64.EncodedAlphabet(e, d);
    forall c | c in w
      ensures WrappedByte(c)
    {
      if !Blank(c) {
        StripKeeps(w, c);
        assert Base64.EncodedByte(e, c);
      }
    }
  }

  /** Wrapped base64 text never shows a separator. */
  lemma NoSeparator(s: Bytes)
    requires Wrapped(s)
    ensures FindSep(s).None?
  {
    assert forall i | 0 <= i < |s| :: WrappedByte(s[i]);
  }

  /** The same list in any of the four base64 forms, wrapped with any blanks anywhere, is decoded to itself. */
  lemma DecodeWrapped(links: seq<Bytes>, opts: Options, e: Base64.Encoding, w: Bytes)
    requires AllWellFormed(links)
    requires StripBlanks(w) == Base64.Encode(e, Join(links))
    requires Limits(opts).Some? && |w| <= Limits(opts).value.0 && |links| <= Limits(opts).value.1
    ensures Decoded(w, opts) == Ok(links)
  {
    WrappedEncoding(w, e, Join(links));
    StripTrimBody(w);
    NoSeparator(TrimBody(w));
    Base64.CascadeRoundTrip(e, Join(links));
    Base64.EncodedAlphabet(e, Join(links));
    if links == [] {
      AllBlank(w);
    } else {
      PrintedText(links);
      ReadPrinted(links, Limits(opts).value.1);
      DecodeHidden(w, Join(links), opts);
    }
  }

  /** A body without a separator is read as what the cascade makes of it. */
  lemma DecodeHidden(body: Bytes, text: Bytes, opts: Options)
    requires TrimBody(body) != [] && FindSep(TrimBody(body)).None?
    requires Base64.Cascade(StripBlanks(TrimBody(body))) == Some(text) && TrimBody(text) == text && ValidUtf8(text)
    requires Limits(opts).Some? && |body| <= Limits(opts).value.0
    ensures Decoded(body, opts) == Collect(Split(text), [], Limits(opts).value.1)
  {
  }

  lemma AllBlank(w: Bytes)
    requires Wrapped(w) && StripBlanks(w) == []
    ensures TrimBody(w) == []
  {
    StripTrimBody(w);
    var t := TrimBody(w);
    TrimSpaceTrims(DropBom(TrimSpace(w)));
    assert t != [] ==> !Blank(t[0]);
  }

  // ---------------------------------------------------------------- printing a decoded list

  lemma UnwrapShrinks(body: Bytes)
    ensures |TrimBody(body)| <= |body|
    ensures Unwrap(TrimBody(body)).Some? ==> |Unwrap(TrimBody(body)).value| <= |body|
  {
    var t := DropBom(TrimSpace(body));
    assert |t| <= |body|;
    assert |TrimSpace(t)| <= |t|;
    var b := TrimBody(body);
    var decoded := Base64.Cascade(StripBlanks(b));
    if FindSep(b).None? && decoded.Some? {
      assert |DropBom(TrimSpace(decoded.value))| <= |decoded.value|;
    }
  }

  lemma CollectedIsPrintable(text: Bytes, maxLinks: nat)
    requires ValidUtf8(text) && Collect(Split(text), [], maxLinks).Ok?
    ensures var links := Collect(Split(text), [], maxLinks).links;
            AllWellFormed(links) && |Join(links)| <= |text| && |links| <= maxLinks
  {
    ValidSplit(text);
    JoinSplit(text);
    CollectExact(Split(text), maxLinks);
    KeptWellFormed(Split(text));
  }

  /** Whatever Decode accepted consists of well-formed links and prints within the limits that admitted it. */
  lemma DecodedIsPrintable(body: Bytes, opts: Options)
    requires Decoded(body, opts).Ok?
    ensures var links := Decoded(body, opts).links;
            && AllWellFormed(links)
            && |Join(links)| <= Limits(opts).value.0 && |links| <= Limits(opts).value.1
  {
    UnwrapShrinks(body);
    if TrimBody(body) != [] {
      CollectedIsPrintable(Unwrap(TrimBody(body)).value, Limits(opts).value.1);
    }
  }

  /** Decoding is idempotent through printing. */
  lemma DecodePrinted(body: Bytes, opts: Options)
    requires Decoded(body, opts).Ok?
    ensures Decoded(Join(Decoded(body, opts).links), opts) == Decoded(body, opts)
  {
    DecodedIsPrintable(body, opts);
    DecodePlain(Decoded(body, opts).links, opts);
  }
}
