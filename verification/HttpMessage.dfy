/** Printed HTTP messages: header lines, an empty line, a body; and how the request parser reads them. */
module HttpMessage {
  import opened Bytes
  import opened Utf8
  import opened Decimal
  import opened HttpRequest

  /** Header lines joined by CRLF. */
  function Join(lines: seq<Octets>): Octets
    requires lines != []
  {
    if |lines| == 1 then lines[0] else lines[0] + CRLF + Join(lines[1..])
  }

  function Render(lines: seq<Octets>, body: Octets): Octets
    requires lines != []
  {
    Join(lines) + DOUBLE_CRLF + body
  }

  predicate LineOk(line: Octets) {
    line != [] && line[0] != 13 && Find(line, CRLF).None? && Valid(line)
  }

  predicate LinesOk(lines: seq<Octets>) {
    lines != [] && forall i | 0 <= i < |lines| :: LineOk(lines[i])
  }

  lemma NoCrNoLineEnd(line: Octets)
    requires 13 !in line
    ensures Find(line, CRLF).None?
  {
    forall j: nat ensures !MatchAt(line, CRLF, j) {
      if j + 2 <= |line| {
        assert line[j..j + 2][0] == line[j];
      }
    }
    FindNone(line, CRLF);
  }

  lemma DoubleStartsAtLineEnd(hay: Octets, j: nat)
    requires MatchAt(hay, DOUBLE_CRLF, j)
    ensures MatchAt(hay, CRLF, j) && hay[j] == 13 && hay[j + 2] == 13
  {
    var four := hay[j..j + 4];
    assert hay[j..j + 2] == four[..2];
    assert hay[j] == four[0] && hay[j + 2] == four[2];
  }

  /** The line's own end comes before any header end, unless it is one. */
  lemma DoubleAfterLine(line: Octets, rest: Octets)
    requires LineOk(line)
    requires rest != [] && rest[0] != 13
    ensures Find(line + CRLF + rest, DOUBLE_CRLF) ==
            if Find(rest, DOUBLE_CRLF).Some? then Some(|line| + 2 + Find(rest, DOUBLE_CRLF).value) else None
  {
    var hay := line + CRLF + rest;
    FindLineEnd(line, rest);
    assert hay[|line| + 1] == 10 && hay[|line| + 2] == rest[0];
    forall j | 0 <= j < |line + CRLF| ensures !MatchAt(hay, DOUBLE_CRLF, j) {
      if MatchAt(hay, DOUBLE_CRLF, j) {
        DoubleStartsAtLineEnd(hay, j);
      }
    }
    FindShift(line + CRLF, rest, DOUBLE_CRLF);
  }

  lemma DoubleAfterLast(line: Octets, body: Octets)
    requires LineOk(line)
    ensures Find(line + DOUBLE_CRLF + body, DOUBLE_CRLF) == Some(|line|)
  {
    var hay := line + DOUBLE_CRLF + body;
    assert hay == line + CRLF + (CRLF + body);
    FindLineEnd(line, CRLF + body);
    forall j | 0 <= j < |line| ensures !MatchAt(hay, DOUBLE_CRLF, j) {
      if MatchAt(hay, DOUBLE_CRLF, j) {
        DoubleStartsAtLineEnd(hay, j);
      }
    }
    assert hay[|line|..|line| + 4] == DOUBLE_CRLF;
    FindAt(hay, DOUBLE_CRLF, |line|);
  }

  /** The first empty line of a printed message ends its head, whatever the body contains. */
  lemma {:induction false} HeadEnds(lines: seq<Octets>, body: Octets)
    requires LinesOk(lines)
    ensures Find(Render(lines, body), DOUBLE_CRLF) == Some(|Join(lines)|)
  {
    if |lines| == 1 {
      DoubleAfterLast(lines[0], body);
    } else {
      HeadEnds(lines[1..], body);
      assert Render(lines, body) == lines[0] + CRLF + Render(lines[1..], body);
      assert Render(lines[1..], body)[0] == lines[1][0];
      DoubleAfterLine(lines[0], Render(lines[1..], body));
    }
  }

  lemma LinesStep(line: Octets, rest: Octets)
    requires LineOk(line)
    ensures Lines(line + CRLF + rest) == [line] + Lines(rest)
    ensures Valid(rest) ==> Valid(line + CRLF + rest)
  {
    var all := line + CRLF + rest;
    FindLineEnd(line, rest);
    assert all[..|line|] == line && all[|line| + 2..] == rest;
    ValidAscii(CRLF);
    ValidConcat(CRLF, rest);
    ValidConcat(line, CRLF + rest);
    assert all == line + (CRLF + rest);
  }

  /** Splitting the head gives the lines back. */
  lemma {:induction false} LinesOfJoin(lines: seq<Octets>)
    requires LinesOk(lines)
    ensures Lines(Join(lines)) == lines && Valid(Join(lines))
  {
    assert LineOk(lines[0]);
    if |lines| > 1 {
      LinesOfJoin(lines[1..]);
      LinesStep(lines[0], Join(lines[1..]));
      assert lines == [lines[0]] + lines[1..];
    }
  }

  lemma WholeBySizes(all: Octets, head: nat, body: Octets)
    requires Find(all, DOUBLE_CRLF) == Some(head) && head <= |all| && BodyLength(all, head) == |body|
    requires |all| == head + 4 + |body|
    ensures Completed(all) == Some(|all|)
  {
  }

  /** Lines that announce this body: its length, or none (no content-length line, or one that does not
      parse) in front of an empty body. */
  predicate Announces(lines: seq<Octets>, body: Octets) {
    FirstLength(lines) == Some(|body|) || (FirstLength(lines).None? && body == [])
  }

  /** A printed message whose lines announce its body is read as exactly one whole message: head, body
      and nothing else. */
  lemma PrintedIsWhole(lines: seq<Octets>, body: Octets)
    requires LinesOk(lines) && Announces(lines, body)
    ensures var all, head := Render(lines, body), |Join(lines)|;
      && Find(all, DOUBLE_CRLF) == Some(head)
      && all[..head] == Join(lines)
      && ContentLength(all[..head]) == FirstLength(lines) && BodyLength(all, head) == |body|
      && all[head + 4..] == body
      && Completed(all) == Some(|all|)
  {
    var all, head := Render(lines, body), Join(lines);
    HeadEnds(lines, body);
    LinesOfJoin(lines);
    assert all[..|head|] == head && all[|head| + 4..] == body;
    assert ContentLength(head) == FirstLength(lines);
    WholeBySizes(all, |head|, body);
  }

  /** The request parser reads a printed request back, with a body that is announced or with none. */
  lemma ParseInvertsPrint(verb: Octets, path: Octets, version: Octets, headers: seq<Octets>, body: Octets)
    requires SPACE !in verb && SPACE !in path
    requires LinesOk([RequestLine(verb, path, version)] + headers)
    requires Announces([RequestLine(verb, path, version)] + headers, body)
    ensures var all := Render([RequestLine(verb, path, version)] + headers, body);
      Completed(all) == Some(|all|) && ParseWhole(all) == Some(ParsedRequest(verb, path, body))
  {
    var lines := [RequestLine(verb, path, version)] + headers;
    var all, head := Render(lines, body), |Join(lines)|;
    PrintedIsWhole(lines, body);
    LinesOfJoin(lines);
    RequestLineParts(verb, path, version);
    assert lines[0] == RequestLine(verb, path, version);
    ParsePrinted(all, head, lines, body);
  }

  /** What the parser makes of a whole message with these lines. */
  lemma ParsePrinted(all: Octets, head: nat, lines: seq<Octets>, body: Octets)
    requires Find(all, DOUBLE_CRLF) == Some(head) && head + 4 + |body| == |all| && all[head + 4..] == body
    requires Valid(all[..head]) && Lines(all[..head]) == lines && BodyLength(all, head) == |body|
    requires Completed(all) == Some(|all|) && lines != [] && Find(lines[0], [SPACE]).Some?
    ensures var verb := Find(lines[0], [SPACE]).value;
      var rest := lines[0][verb + 1..];
      Find(rest, [SPACE]).Some? ==>
        ParseWhole(all) == Some(ParsedRequest(lines[0][..verb], rest[..Find(rest, [SPACE]).value], body))
  {
    assert all[head + 4..head + 4 + |body|] == all[head + 4..];
  }

  // ----- header lines -----

  function Header(name: Octets, value: Octets): Octets {
    name + [COLON] + ([SPACE] + value)
  }

  /** A header name: no colon, no white space at its ends. */
  predicate NameOk(name: Octets) {
    COLON !in name && WhiteFront(name) == 0 && WhiteBack(name) == 0
  }

  lemma LengthOfHeader(name: Octets, value: Octets)
    requires NameOk(name)
    ensures LengthOfLine(Header(name, value)) ==
      if Lower(name) == CONTENT_LENGTH then Some(ParseUsize(Trim([SPACE] + value))) else None
  {
    FindByte(name, COLON, [SPACE] + value);
    var line := Header(name, value);
    assert line[..|name|] == name && line[|name| + 1..] == [SPACE] + value;
  }

  /** The decimal length after one space parses to the length. */
  lemma LengthValue(n: nat)
    requires n <= USIZE_MAX
    ensures ParseUsize(Trim([SPACE] + Digits(n))) == Some(n)
  {
    var digits := Digits(n);
    assert ([SPACE] + digits)[1..] == digits;
    assert IsDigit(digits[0]) && IsDigit(digits[|digits| - 1]);
    assert WhiteFront(digits) == 0;
    assert WhiteBack(digits) == 0;
  }

  predicate Plain(s: string) {
    forall i | 0 <= i < |s| :: ' ' <= s[i] <= '~' && s[i] != ':'
  }

  function LengthLine(body: Octets): Octets {
    Header(Ascii("Content-Length"), Digits(|body|))
  }

  predicate Printable(s: Octets) {
    forall i | 0 <= i < |s| :: 32 <= s[i] < 127
  }

  lemma PrintableOk(line: Octets)
    requires line != [] && Printable(line)
    ensures LineOk(line)
  {
    NoCrNoLineEnd(line);
    ValidAscii(line);
  }

  lemma DigitsPrintable(n: nat)
    ensures Printable(Digits(n)) && COLON !in Digits(n)
  {
  }

  lemma LengthLineOk(body: Octets)
    requires |body| <= USIZE_MAX
    ensures LineOk(LengthLine(body)) && LengthOfLine(LengthLine(body)) == Some(Some(|body|))
  {
    var name := Ascii("Content-Length");
    DigitsPrintable(|body|);
    PrintableOk(LengthLine(body));
    assert Lower(name) == CONTENT_LENGTH;
    LengthOfHeader(name, Digits(|body|));
    LengthValue(|body|);
  }

  /** Text of a status line. */
  predicate PlainPart(s: Octets) {
    Printable(s) && COLON !in s
  }

  lemma AsciiPlain(s: string)
    requires Plain(s)
    ensures PlainPart(Ascii(s))
  {
  }

  predicate OtherLine(line: Octets) {
    LineOk(line) && LengthOfLine(line).None?
  }

  lemma PlainLine(s: string)
    requires Plain(s) && s != ""
    ensures OtherLine(Ascii(s))
  {
    AsciiPlain(s);
    PrintableOk(Ascii(s));
    FindByteNone(Ascii(s), COLON);
  }

  function Pow10(k: nat): nat {
    if k == 0 then 1 else 10 * Pow10(k - 1)
  }

  lemma {:induction false} ShortDigits(n: nat, k: nat)
    requires k >= 1 && n < Pow10(k)
    ensures |Digits(n)| <= k
  {
    if n >= 10 {
      ShortDigits(n / 10, k - 1);
    }
  }

  // ----- a request whose acceptance depends on how it is cut -----

  lemma TwoLines(a: Octets, b: Octets)
    requires LineOk(a) && LineOk(b) && LengthOfLine(a).None? && LengthOfLine(b).Some?
    ensures LinesOk([a, b]) && FirstLength([a, b]) == LengthOfLine(b).value && Join([a, b]) == a + CRLF + b
  {
    assert [a, b][1..] == [b];
  }

  lemma LengthLineBound(body: Octets)
    requires |body| < 100000
    ensures |LengthLine(body)| <= 21
  {
    assert Pow10(5) == 100000;
    ShortDigits(|body|, 5);
  }

  /** Any request line with a body of 66000 bytes behind it. */
  lemma LongBodyDependsOnItsCut(first: Octets, body: Octets)
    requires OtherLine(first) && |first| <= 3000 && |body| == 66000
    ensures !CutIndependent(Render([first, LengthLine(body)], body))
  {
    LengthLineOk(body);
    LengthLineBound(body);
    TwoLines(first, LengthLine(body));
    PrintedIsWhole([first, LengthLine(body)], body);
    CutIndependentIff(Render([first, LengthLine(body)], body));
  }

  /** This one is read whole when the reads are full and refused when they are single bytes. */
  lemma SomeRequestDependsOnItsCut()
    ensures var body := seq(66000, _ => 0);
      !CutIndependent(Render([Ascii("POST / HTTP/1.1"), LengthLine(body)], body))
  {
    PlainLine("POST / HTTP/1.1");
    LongBodyDependsOnItsCut(Ascii("POST / HTTP/1.1"), seq(66000, _ => 0));
  }
}
