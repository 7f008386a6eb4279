/** The relay's HTTP request reader: head and body parsing, and reading from a stream cut arbitrarily. */
module HttpRequest {
  import opened Bytes
  import opened Utf8
  import opened Decimal

  const MAX_HTTP_REQUEST_BYTES: nat := 65536
  const READ_SIZE: nat := 4096
  const USIZE_MAX: nat := 0xFFFF_FFFF_FFFF_FFFF

  const DOUBLE_CRLF: Octets := [13, 10, 13, 10]
  const CONTENT_LENGTH := Ascii("content-length")

  // ----- header lines -----

  /** `split("\r\n")` */
  function Lines(s: Octets): (ls: seq<Octets>)
    ensures ls != []
    decreases |s|
  {
    match Find(s, CRLF)
    case None => [s]
    case Some(i) => [s[..i]] + Lines(s[i + 2..])
  }

  /** Length of the White_Space character at the front, 0 when there is none. */
  function WhiteFront(s: Octets): (n: nat)
    ensures n <= |s|
  {
    if |s| >= 1 && IsWhite1(s[0]) then 1
    else if |s| >= 2 && IsWhite2(s[0], s[1]) then 2
    else if |s| >= 3 && IsWhite3(s[0], s[1], s[2]) then 3
    else 0
  }

  function WhiteBack(s: Octets): (n: nat)
    ensures n <= |s|
  {
    var k := |s|;
    if k >= 1 && IsWhite1(s[k - 1]) then 1
    else if k >= 2 && IsWhite2(s[k - 2], s[k - 1]) then 2
    else if k >= 3 && IsWhite3(s[k - 3], s[k - 2], s[k - 1]) then 3
    else 0
  }

  /** tab, LF, VT, FF, CR, space */
  predicate IsWhite1(a: byte) {
    9 <= a <= 13 || a == 32
  }

  /** U+0085, U+00A0 */
  predicate IsWhite2(a: byte, b: byte) {
    a == 0xC2 && (b == 0x85 || b == 0xA0)
  }

  /** U+1680, U+2000 to U+200A, U+2028, U+2029, U+202F, U+205F, U+3000 */
  predicate IsWhite3(a: byte, b: byte, c: byte) {
    || (a == 0xE1 && b == 0x9A && c == 0x80)
    || (a == 0xE2 && b == 0x80 && (0x80 <= c <= 0x8A || c == 0xA8 || c == 0xA9 || c == 0xAF))
    || (a == 0xE2 && b == 0x81 && c == 0x9F)
    || (a == 0xE3 && b == 0x80 && c == 0x80)
  }

  /** `str::trim` */
  function Trim(s: Octets): (r: Octets)
    ensures WhiteFront(r) == 0 && WhiteBack(r) == 0
    ensures WhiteFront(s) == 0 && WhiteBack(s) == 0 ==> r == s
    decreases |s|
  {
    if WhiteFront(s) > 0 then Trim(s[WhiteFront(s)..])
    else if WhiteBack(s) > 0 then Trim(s[..|s| - WhiteBack(s)])
    else s
  }

  /** Nothing but White_Space characters. */
  predicate AllWhite(s: Octets)
    decreases |s|
  {
    s == [] || (WhiteFront(s) > 0 && AllWhite(s[WhiteFront(s)..]))
  }

  /** White space may be read from either end: a white last character behind white text. */
  lemma {:induction false} AllWhiteConcat(a: Octets, b: Octets)
    requires AllWhite(a) && AllWhite(b)
    ensures AllWhite(a + b)
    decreases |a|
  {
    if a == [] {
      assert a + b == b;
    } else {
      var n := WhiteFront(a);
      assert WhiteFront(a + b) == n;
      assert (a + b)[n..] == a[n..] + b;
      AllWhiteConcat(a[n..], b);
    }
  }

  lemma WhiteBackIsWhite(s: Octets)
    ensures AllWhite(s[|s| - WhiteBack(s)..])
  {
    var n := WhiteBack(s);
    var last := s[|s| - n..];
    assert n > 0 ==> WhiteFront(last) == n && last[n..] == [];
  }

  lemma WhiteFrontIsWhite(s: Octets)
    ensures AllWhite(s[..WhiteFront(s)])
  {
    var n := WhiteFront(s);
    var first := s[..n];
    assert n > 0 ==> WhiteFront(first) == n && first[n..] == [];
  }

  /** White space in front of `i` and from `j` on. */
  predicate Inside(s: Octets, i: nat, j: nat) {
    i <= j <= |s| && AllWhite(s[..i]) && AllWhite(s[j..])
  }

  lemma InsideBehindFront(s: Octets, n: nat, i: nat, j: nat)
    requires n == WhiteFront(s) && Inside(s[n..], i, j)
    ensures Inside(s, n + i, n + j) && s[n + i..n + j] == s[n..][i..j]
  {
    SliceOfRest(s, n, i, j);
    WhiteFrontIsWhite(s);
    AllWhiteConcat(s[..n], s[n..][..i]);
    assert s[..n + i] == s[..n] + s[n..][..i];
  }

  lemma InsideBeforeBack(s: Octets, n: nat, i: nat, j: nat)
    requires n == |s| - WhiteBack(s) && Inside(s[..n], i, j)
    ensures Inside(s, i, j) && s[i..j] == s[..n][i..j]
  {
    var tail, last := s[..n][j..], s[n..];
    assert AllWhite(tail + last) by {
      WhiteBackIsWhite(s);
      AllWhiteConcat(tail, last);
    }
    assert s[j..] == tail + last && s[..n][..i] == s[..i];
  }

  /** The text trims to this slice: nothing but white space around it, none at its own ends. */
  predicate TrimsTo(s: Octets, i: nat, j: nat) {
    Inside(s, i, j) && Trim(s) == s[i..j] && WhiteFront(s[i..j]) == 0 && WhiteBack(s[i..j]) == 0
  }

  lemma TrimsBehindFront(s: Octets, n: nat, i: nat, j: nat)
    requires n == WhiteFront(s) > 0 && TrimsTo(s[n..], i, j)
    ensures TrimsTo(s, n + i, n + j)
  {
    InsideBehindFront(s, n, i, j);
    assert Trim(s) == Trim(s[n..]);
  }

  lemma TrimsBeforeBack(s: Octets, n: nat, i: nat, j: nat)
    requires WhiteFront(s) == 0 && WhiteBack(s) > 0 && n == |s| - WhiteBack(s) && TrimsTo(s[..n], i, j)
    ensures TrimsTo(s, i, j)
  {
    InsideBeforeBack(s, n, i, j);
    assert Trim(s) == Trim(s[..n]);
  }

  lemma TrimsAlready(s: Octets)
    requires WhiteFront(s) == 0 && WhiteBack(s) == 0
    ensures TrimsTo(s, 0, |s|)
  {
    assert s[..0] == [] && s[|s|..] == [] && s[0..|s|] == s;
  }

  /** Trimming gives the slice of the text between white space in front and white space behind, and
      the slice has none at its own ends. */
  lemma {:induction false} TrimIsTheInside(s: Octets) returns (i: nat, j: nat)
    ensures TrimsTo(s, i, j)
    decreases |s|
  {
    if WhiteFront(s) > 0 {
      var n := WhiteFront(s);
      var k, l := TrimIsTheInside(s[n..]);
      TrimsBehindFront(s, n, k, l);
      i, j := n + k, n + l;
    } else if WhiteBack(s) > 0 {
      var n := |s| - WhiteBack(s);
      i, j := TrimIsTheInside(s[..n]);
      TrimsBeforeBack(s, n, i, j);
    } else {
      i, j := 0, |s|;
      TrimsAlready(s);
    }
  }

  /** `parse::<usize>`: an optional plus, then digits, within 64 bits. */
  function ParseUsize(s: Octets): Option<nat> {
    var digits := if s != [] && s[0] == 43 then s[1..] else s;
    if digits != [] && AllDigits(digits) && Value(digits) <= USIZE_MAX then Some(Value(digits)) else None
  }

  /** Decimal digits worth `n`, with a plus sign in front or not. */
  ghost predicate IsNumeral(s: Octets, n: nat) {
    exists digits :: IsDigits(digits, n) && (s == digits || s == [43] + digits)
  }

  predicate IsDigits(s: Octets, n: nat) {
    s != [] && AllDigits(s) && Value(s) == n
  }

  /** Exactly the numerals of numbers below 2 to the 64th parse, to their number. */
  lemma UsizeIff(s: Octets, n: nat)
    ensures ParseUsize(s) == Some(n) <==> IsNumeral(s, n) && n <= 18446744073709551615
  {
    var rest := if s != [] && s[0] == 43 then s[1..] else s;
    assert s != [] && s[0] == 43 ==> s == [43] + rest;
    if ParseUsize(s) == Some(n) {
      assert IsDigits(rest, n);
    }
    if IsNumeral(s, n) {
      var digits :| IsDigits(digits, n) && (s == digits || s == [43] + digits);
      assert digits == rest;
    }
  }

  /** Some(_) when the line is a content-length header, holding what its value parses to. */
  function LengthOfLine(line: Octets): Option<Option<nat>> {
    match Find(line, [COLON])
    case None => None
    case Some(colon) =>
      if Lower(Trim(line[..colon])) == CONTENT_LENGTH then Some(ParseUsize(Trim(line[colon + 1..]))) else None
  }

  function FirstLength(lines: seq<Octets>): Option<nat> {
    if lines == [] then None
    else
      match LengthOfLine(lines[0])
      case Some(r) => r
      case None => FirstLength(lines[1..])
  }

  lemma FirstOfOthers(lines: seq<Octets>)
    requires lines != [] && LengthOfLine(lines[0]) == None
    ensures FirstLength(lines) == FirstLength(lines[1..])
  {
  }

  /** The first content-length line decides, whatever comes behind it. */
  lemma {:induction false} FirstDecides(lines: seq<Octets>, i: nat)
    requires i < |lines| && forall j | 0 <= j < i :: LengthOfLine(lines[j]) == None
    requires LengthOfLine(lines[i]).Some?
    ensures FirstLength(lines) == LengthOfLine(lines[i]).value
  {
    if i > 0 {
      FirstOfOthers(lines);
      assert lines[1..][i - 1] == lines[i];
      FirstDecides(lines[1..], i - 1);
    }
  }

  /** Without one there is no length. */
  lemma {:induction false} NoneDecides(lines: seq<Octets>)
    requires forall line | line in lines :: LengthOfLine(line) == None
    ensures FirstLength(lines) == None
  {
    if lines != [] {
      FirstOfOthers(lines);
      NoneDecides(lines[1..]);
    }
  }

  function ContentLength(head: Octets): Option<nat> {
    if Valid(head) then FirstLength(Lines(head)) else None
  }

  /** `parse_content_length`: the first content-length line decides, even when it does not parse. */
  method ParseContentLength(head: Octets) returns (r: Option<nat>)
    ensures r == ContentLength(head)
  {
    if !Valid(head) {
      return None;
    }
    var lines := Lines(head);
    for i := 0 to |lines|
      invariant FirstLength(lines) == FirstLength(lines[i..])
    {
      var line := lines[i];
      var colon := Find(line, [COLON]);
      if colon.None? {
        continue;
      }
      var name := Trim(line[..colon.value]);
      if Lower(name) == CONTENT_LENGTH {
        return ParseUsize(Trim(line[colon.value + 1..]));
      }
    }
    r := None;
  }

  // ----- requests -----

  /** A printed request line: verb, target, version. */
  function RequestLine(verb: Octets, path: Octets, version: Octets): Octets {
    verb + [SPACE] + (path + [SPACE] + version)
  }

  lemma RequestLineParts(verb: Octets, path: Octets, version: Octets)
    requires SPACE !in verb && SPACE !in path
    ensures var line := RequestLine(verb, path, version);
      && Find(line, [SPACE]) == Some(|verb|) && line[..|verb|] == verb
      && Find(line[|verb| + 1..], [SPACE]) == Some(|path|) && line[|verb| + 1..][..|path|] == path
  {
    var line := RequestLine(verb, path, version);
    FindByte(verb, SPACE, path + [SPACE] + version);
    FindByte(path, SPACE, version);
    assert line[|verb| + 1..] == path + [SPACE] + version;
  }

  datatype ParsedRequest = ParsedRequest(verb: Octets, path: Octets, body: Octets)

  /** `parse_request` */
  function ParseRequest(buf: Octets, headEnd: nat, bodyStart: nat, bodyLen: nat): Option<ParsedRequest>
    requires headEnd <= |buf| && bodyStart + bodyLen <= |buf|
  {
    if !Valid(buf[..headEnd]) then None
    else
      var first := Lines(buf[..headEnd])[0];
      match Find(first, [SPACE])
      case None => None
      case Some(i) =>
        var rest := first[i + 1..];
        var path := match Find(rest, [SPACE]) case None => rest case Some(j) => rest[..j];
        Some(ParsedRequest(first[..i], path, buf[bodyStart..bodyStart + bodyLen]))
  }

  /** Without a space in its first line, or with a head that is not UTF-8, there is no request. */
  lemma NoRequest(buf: Octets, headEnd: nat, bodyStart: nat, bodyLen: nat)
    requires headEnd <= |buf| && bodyStart + bodyLen <= |buf|
    requires !Valid(buf[..headEnd]) || SPACE !in Lines(buf[..headEnd])[0]
    ensures ParseRequest(buf, headEnd, bodyStart, bodyLen) == None
  {
    if Valid(buf[..headEnd]) {
      FindByteNone(Lines(buf[..headEnd])[0], SPACE);
    }
  }

  lemma PartsOfLine(first: Octets, verb: Octets, rest: Octets)
    requires SPACE !in verb && first == verb + [32] + rest
    ensures Find(first, [SPACE]) == Some(|verb|) && first[..|verb|] == verb && first[|verb| + 1..] == rest
  {
    FindByte(verb, SPACE, rest);
  }

  /** A first line with one space has the target behind it. */
  lemma TwoPartRequest(buf: Octets, headEnd: nat, bodyStart: nat, bodyLen: nat, verb: Octets, path: Octets)
    requires headEnd <= |buf| && bodyStart + bodyLen <= |buf| && SPACE !in verb && SPACE !in path
    requires Valid(buf[..headEnd]) && Lines(buf[..headEnd])[0] == verb + [32] + path
    ensures ParseRequest(buf, headEnd, bodyStart, bodyLen)
      == Some(ParsedRequest(verb, path, buf[bodyStart..bodyStart + bodyLen]))
  {
    PartsOfLine(Lines(buf[..headEnd])[0], verb, path);
    FindByteNone(path, SPACE);
  }

  /** One with more has it between the first two, whatever follows. */
  lemma ThreePartRequest(buf: Octets, headEnd: nat, bodyStart: nat, bodyLen: nat,
                         verb: Octets, path: Octets, version: Octets)
    requires headEnd <= |buf| && bodyStart + bodyLen <= |buf| && SPACE !in verb && SPACE !in path
    requires Valid(buf[..headEnd]) && Lines(buf[..headEnd])[0] == verb + [32] + (path + [32] + version)
    ensures ParseRequest(buf, headEnd, bodyStart, bodyLen)
      == Some(ParsedRequest(verb, path, buf[bodyStart..bodyStart + bodyLen]))
  {
    PartsOfLine(Lines(buf[..headEnd])[0], verb, path + [32] + version);
    PartsOfLine(path + [32] + version, path, version);
  }

  function BodyLength(buf: Octets, headEnd: nat): nat
    requires headEnd <= |buf|
  {
    match ContentLength(buf[..headEnd])
    case None => 0
    case Some(n) => n
  }

  /** Size of the whole request at the front of the buffer, once all of it is there. */
  function Completed(buf: Octets): (r: Option<nat>)
    ensures r.Some? ==> r.value <= |buf|
  {
    match Find(buf, DOUBLE_CRLF)
    case None => None
    case Some(headEnd) =>
      var size := headEnd + 4 + BodyLength(buf, headEnd);
      if size <= |buf| then Some(size) else None
  }

  /** The parse of a buffer that holds a whole request. */
  function ParseWhole(buf: Octets): Option<ParsedRequest>
    requires Completed(buf).Some?
  {
    var headEnd := Find(buf, DOUBLE_CRLF).value;
    ParseRequest(buf, headEnd, headEnd + 4, BodyLength(buf, headEnd))
  }

  /** How the stream ends after its chunks. */
  datatype End = Eof | Failure

  datatype ReadResult = Got(request: Option<ParsedRequest>) | TooLarge | Broken

  function AtEnd(end: End): ReadResult {
    if end.Eof? then Got(None) else Broken
  }

  /** Reading on with `buf` already held and incomplete. */
  function Feed(buf: Octets, chunks: seq<Octets>, end: End): ReadResult
    decreases |chunks|
  {
    if chunks == [] then AtEnd(end)
    else
      var buf' := buf + chunks[0];
      if Completed(buf').Some? then Got(ParseWhole(buf'))
      else if |buf'| > MAX_HTTP_REQUEST_BYTES then TooLarge
      else Feed(buf', chunks[1..], end)
  }

  predicate Readable(chunks: seq<Octets>) {
    forall i | 0 <= i < |chunks| :: 1 <= |chunks[i]| <= READ_SIZE
  }

  /** One turn of the reading loop. */
  lemma FeedTurn(buf: Octets, chunks: seq<Octets>, i: nat, end: End)
    requires i < |chunks|
    ensures var buf' := buf + chunks[i];
      Feed(buf, chunks[i..], end) ==
        if Completed(buf').Some? then Got(ParseWhole(buf'))
        else if |buf'| > MAX_HTTP_REQUEST_BYTES then TooLarge
        else Feed(buf', chunks[i + 1..], end)
  {
    assert chunks[i..][0] == chunks[i] && chunks[i..][1..] == chunks[i + 1..];
  }

  /** The loop's test for a whole request. */
  lemma CompletedTest(buf: Octets, headEnd: nat, need: nat)
    requires Find(buf, DOUBLE_CRLF) == Some(headEnd) && headEnd <= |buf| && need == BodyLength(buf, headEnd)
    ensures Completed(buf).Some? <==> |buf| - (headEnd + 4) >= need
    ensures Completed(buf).Some? ==> ParseWhole(buf) == ParseRequest(buf, headEnd, headEnd + 4, need)
  {
  }

  /** `read_full_request`; `held` is the size of its buffer when it stops. */
  method ReadFullRequest(chunks: seq<Octets>, end: End) returns (r: ReadResult, held: nat)
    requires Readable(chunks)
    ensures r == Feed([], chunks, end)
    ensures held <= MAX_HTTP_REQUEST_BYTES + READ_SIZE
  {
    var buf: Octets := [];
    for i := 0 to |chunks|
      invariant |buf| <= MAX_HTTP_REQUEST_BYTES
      invariant Feed([], chunks, end) == Feed(buf, chunks[i..], end)
    {
      FeedTurn(buf, chunks, i, end);
      buf := buf + chunks[i];
      var headEnd := Find(buf, DOUBLE_CRLF);
      if headEnd.Some? {
        var length := ParseContentLength(buf[..headEnd.value]);
        var bodyStart := headEnd.value + 4;
        var need := if length.Some? then length.value else 0;
        CompletedTest(buf, headEnd.value, need);
        if |buf| - bodyStart >= need {
          return Got(ParseRequest(buf, headEnd.value, bodyStart, need)), |buf|;
        }
      }
      if |buf| > MAX_HTTP_REQUEST_BYTES {
        return TooLarge, |buf|;
      }
    }
    r, held := AtEnd(end), |buf|;
  }

  // ----- streaming against the whole buffer -----

  lemma HeadExtend(buf: Octets, ext: Octets)
    requires Find(buf, DOUBLE_CRLF).Some?
    ensures Find(buf + ext, DOUBLE_CRLF) == Find(buf, DOUBLE_CRLF)
    ensures var headEnd := Find(buf, DOUBLE_CRLF).value;
      (buf + ext)[..headEnd] == buf[..headEnd] && BodyLength(buf + ext, headEnd) == BodyLength(buf, headEnd)
  {
    FindExtend(buf, ext, DOUBLE_CRLF);
    var headEnd := Find(buf, DOUBLE_CRLF).value;
    assert (buf + ext)[..headEnd] == buf[..headEnd];
  }

  lemma SameRequest(buf: Octets, ext: Octets, headEnd: nat, bodyStart: nat, bodyLen: nat)
    requires headEnd <= |buf| && bodyStart + bodyLen <= |buf|
    ensures ParseRequest(buf + ext, headEnd, bodyStart, bodyLen) == ParseRequest(buf, headEnd, bodyStart, bodyLen)
  {
    assert (buf + ext)[..headEnd] == buf[..headEnd];
    assert (buf + ext)[bodyStart..bodyStart + bodyLen] == buf[bodyStart..bodyStart + bodyLen];
  }

  /** A request once complete stays the same request whatever follows. */
  lemma CompletedExtend(buf: Octets, ext: Octets)
    requires Completed(buf).Some?
    ensures Completed(buf + ext) == Completed(buf) && ParseWhole(buf + ext) == ParseWhole(buf)
  {
    HeadExtend(buf, ext);
    var headEnd, size := Find(buf, DOUBLE_CRLF).value, Completed(buf).value;
    SameRequest(buf, ext, headEnd, headEnd + 4, size - headEnd - 4);
  }

  /** A request is complete in every prefix that is long enough. */
  lemma CompletedShrink(buf: Octets, ext: Octets)
    requires Completed(buf + ext).Some? && Completed(buf + ext).value <= |buf|
    ensures Completed(buf) == Completed(buf + ext)
  {
    FindShrink(buf, ext, DOUBLE_CRLF);
    var headEnd := Find(buf + ext, DOUBLE_CRLF).value;
    assert (buf + ext)[..headEnd] == buf[..headEnd];
  }

  predicate Fits(size: Option<nat>) {
    size.Some? && size.value <= 65537
  }

  predicate Hopeless(size: Option<nat>) {
    size.Some? && size.value > 69632
  }

  /** What the reader answers, from the bytes alone wherever they decide it. */
  lemma {:induction false} FeedIsWholeParse(buf: Octets, chunks: seq<Octets>, end: End)
    requires Readable(chunks) && Completed(buf).None? && |buf| <= MAX_HTTP_REQUEST_BYTES
    ensures var whole := buf + Flatten(chunks);
      var size, r := Completed(whole), Feed(buf, chunks, end);
      && (Fits(size) ==> r == Got(ParseWhole(whole)))
      && (size.None? ==> r == if |whole| > 65536 then TooLarge else if end == Eof then Got(None) else Broken)
      && (Hopeless(size) ==> r == TooLarge)
      && (size.Some? ==> r == Got(ParseWhole(whole)) || r == TooLarge)
    decreases |chunks|
  {
    if chunks == [] {
      assert buf + Flatten(chunks) == buf;
    } else {
      var buf', rest := buf + chunks[0], Flatten(chunks[1..]);
      assert buf + Flatten(chunks) == buf' + rest;
      if Completed(buf').Some? {
        CompletedExtend(buf', rest);
      } else {
        if Completed(buf' + rest).Some? && Completed(buf' + rest).value <= |buf'| {
          CompletedShrink(buf', rest);
        }
        if |buf'| <= MAX_HTTP_REQUEST_BYTES {
          FeedIsWholeParse(buf', chunks[1..], end);
        }
      }
    }
  }

  // ----- when the cut does not matter -----

  predicate Cuts(chunks: seq<Octets>, data: Octets) {
    Readable(chunks) && Flatten(chunks) == data
  }

  ghost predicate CutIndependent(data: Octets) {
    forall a, b | Cuts(a, data) && Cuts(b, data) :: Feed([], a, Eof) == Feed([], b, Eof)
  }

  /** Every read filled to `k` bytes. */
  function Chop(data: Octets, k: nat): (chunks: seq<Octets>)
    requires 1 <= k <= READ_SIZE
    ensures Cuts(chunks, data)
    decreases |data|
  {
    if data == [] then []
    else if |data| <= k then
      assert [data][1..] == [];
      [data]
    else
      assert data == data[..k] + data[k..];
      [data[..k]] + Chop(data[k..], k)
  }

  lemma NothingHeld()
    ensures Completed([]).None?
  {
  }

  /** Reading `k` bytes at a time, `m` bytes in. */
  function ChopFeed(data: Octets, m: nat, k: nat): ReadResult
    requires 1 <= k <= READ_SIZE && m <= |data|
  {
    Feed(data[..m], Chop(data[m..], k), Eof)
  }

  lemma ChopStep(data: Octets, m: nat, k: nat)
    requires 1 <= k <= READ_SIZE && m < |data|
    ensures var m' := if m + k <= |data| then m + k else |data|;
      ChopFeed(data, m, k) ==
        if Completed(data[..m']).Some? then Got(ParseWhole(data[..m']))
        else if m' > MAX_HTTP_REQUEST_BYTES then TooLarge
        else ChopFeed(data, m', k)
  {
    var m' := if m + k <= |data| then m + k else |data|;
    var chunks := Chop(data[m..], k);
    assert data[..m] + chunks[0] == data[..m'];
    if m + k < |data| {
      assert data[m..][k..] == data[m'..];
      assert chunks[1..] == Chop(data[m'..], k);
    } else {
      assert data[m'..] == [] && chunks[1..] == [];
    }
  }

  lemma PrefixCompletedIff(data: Octets, m: nat)
    requires Completed(data).Some? && m <= |data|
    ensures Completed(data[..m]).Some? <==> Completed(data).value <= m
    ensures Completed(data[..m]).Some? ==> ParseWhole(data[..m]) == ParseWhole(data)
  {
    assert data == data[..m] + data[m..];
    if Completed(data[..m]).Some? {
      CompletedExtend(data[..m], data[m..]);
    } else if Completed(data).value <= m {
      CompletedShrink(data[..m], data[m..]);
    }
  }

  predicate InBand(size: Option<nat>) {
    size.Some? && 65537 < size.value <= 69632
  }

  /** One byte at a time, the first buffer over the limit holds one byte too many and no more. */
  lemma {:induction false} ByteByByte(data: Octets, m: nat)
    requires InBand(Completed(data)) && m <= MAX_HTTP_REQUEST_BYTES
    ensures ChopFeed(data, m, 1) == TooLarge
    decreases MAX_HTTP_REQUEST_BYTES - m
  {
    ChopStep(data, m, 1);
    PrefixCompletedIff(data, m + 1);
    if m < MAX_HTTP_REQUEST_BYTES {
      ByteByByte(data, m + 1);
    }
  }

  lemma FullReadBelowLimit(data: Octets, m: nat)
    requires InBand(Completed(data)) && m + READ_SIZE <= MAX_HTTP_REQUEST_BYTES
    ensures ChopFeed(data, m, READ_SIZE) == ChopFeed(data, m + READ_SIZE, READ_SIZE)
  {
    ChopStep(data, m, READ_SIZE);
    PrefixCompletedIff(data, m + READ_SIZE);
  }

  lemma FullReadAtLimit(data: Octets)
    requires InBand(Completed(data))
    ensures ChopFeed(data, MAX_HTTP_REQUEST_BYTES, READ_SIZE) == Got(ParseWhole(data))
  {
    var m := MAX_HTTP_REQUEST_BYTES;
    ChopStep(data, m, READ_SIZE);
    PrefixCompletedIff(data, if m + READ_SIZE <= |data| then m + READ_SIZE else |data|);
  }

  /** With full reads the first buffer over the limit holds a whole read more. */
  lemma {:induction false} FullReads(data: Octets, m: nat)
    requires InBand(Completed(data)) && m <= MAX_HTTP_REQUEST_BYTES && m % 4096 == 0
    ensures ChopFeed(data, m, READ_SIZE) == Got(ParseWhole(data))
    decreases MAX_HTTP_REQUEST_BYTES - m
  {
    if m < MAX_HTTP_REQUEST_BYTES {
      FullReadBelowLimit(data, m);
      FullReads(data, m + READ_SIZE);
    } else {
      FullReadAtLimit(data);
    }
  }

  /** The answer depends on how the bytes were cut into reads exactly when they hold a whole request
      whose size is over the limit by at least two bytes and at most one read. */
  lemma CutIndependentIff(data: Octets)
    ensures CutIndependent(data) <==> !InBand(Completed(data))
  {
    NothingHeld();
    if !InBand(Completed(data)) {
      forall a, b | Cuts(a, data) && Cuts(b, data) ensures Feed([], a, Eof) == Feed([], b, Eof) {
        FeedIsWholeParse([], a, Eof);
        FeedIsWholeParse([], b, Eof);
        assert [] + Flatten(a) == data && [] + Flatten(b) == data;
      }
    } else {
      ByteByByte(data, 0);
      FullReads(data, 0);
      assert data[..0] == [] && data[0..] == data;
      assert Cuts(Chop(data, 1), data) && Cuts(Chop(data, READ_SIZE), data);
    }
  }
}
