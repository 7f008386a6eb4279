/** The relay's responses: every one is read back by the relay's own parser as one whole message. */
module HttpResponse {
  import opened Bytes
  import opened Utf8
  import opened Decimal
  import opened HttpRequest
  import opened HttpMessage

  /** A fixed header. */
  function Field(name: string, value: string): Octets
    requires forall i | 0 <= i < |name| :: name[i] as int < 128
    requires forall i | 0 <= i < |value| :: value[i] as int < 128
  {
    Header(Ascii(name), Ascii(value))
  }

  function OkLine(): Octets {
    Ascii("HTTP/1.1 200 OK")
  }

  function NotFoundLine(): Octets {
    Ascii("HTTP/1.1 404 Not Found")
  }

  function FoundLine(): Octets {
    Ascii("HTTP/1.1 302 Found")
  }

  function JsonType(): Octets {
    Field("Content-Type", "application/json; charset=utf-8")
  }

  function HtmlType(): Octets {
    Field("Content-Type", "text/html; charset=utf-8")
  }

  function PlainType(): Octets {
    Field("Content-Type", "text/plain; charset=utf-8")
  }

  function NoStore(): Octets {
    Field("Cache-Control", "no-store")
  }

  function MaxAge(): Octets {
    Field("Cache-Control", "max-age=60")
  }

  function Close(): Octets {
    Field("Connection", "close")
  }

  function CorsOrigin(): Octets {
    Field("Access-Control-Allow-Origin", "*")
  }

  function CorsMethods(): Octets {
    Field("Access-Control-Allow-Methods", "GET, POST, OPTIONS")
  }

  function CorsHeaders(): Octets {
    Field("Access-Control-Allow-Headers", "Content-Type")
  }

  function Reason(status: nat): Octets {
    match status
    case 200 => Ascii("OK")
    case 400 => Ascii("Bad Request")
    case 401 => Ascii("Unauthorized")
    case 404 => Ascii("Not Found")
    case 500 => Ascii("Internal Server Error")
    case 502 => Ascii("Bad Gateway")
    case _ => Ascii("Response")
  }

  /** `build_json_response` */
  function JsonResponse(status: nat, body: Octets): Octets {
    Render(JsonLines(status, body), body)
  }

  function JsonLines(status: nat, body: Octets): seq<Octets> {
    [StatusLine(status),
     JsonType(),
     LengthLine(body)] + JsonRest()
  }

  function StatusLine(status: nat): Octets {
    Ascii("HTTP/1.1 ") + Digits(status) + [SPACE] + Reason(status)
  }

  function JsonRest(): seq<Octets> {
    [NoStore(),
     CorsOrigin(),
     CorsMethods(),
     CorsHeaders(),
     Close()]
  }

  /** `format_status_response` */
  function StatusResponse(body: Text): Octets {
    Render([OkLine(), HtmlType(), LengthLine(body)] + StatusRest(), body)
  }

  function StatusRest(): seq<Octets> {
    [MaxAge(), Close()]
  }

  function NoStoreClose(): seq<Octets> {
    [NoStore(), Close()]
  }

  const NOT_FOUND_BODY := Ascii("not found\n")

  /** `build_404_response` */
  function NotFoundResponse(): Octets {
    Render([NotFoundLine(), PlainType(), LengthLine(NOT_FOUND_BODY)] + NoStoreClose(), NOT_FOUND_BODY)
  }

  function ResultPath(): Octets {
    Ascii("/me/?atproto_result=")
  }

  lemma ResultPathOk()
    ensures OtherLine(ResultPath())
  {
    PlainLine("/me/?atproto_result=");
  }

  /** Where a finished login is sent. */
  function ResultLocation(state: Text): (r: Text)
    ensures r == ResultPath() + state
  {
    ResultPathOk();
    ValidConcat(ResultPath(), state);
    ResultPath() + state
  }

  function RedirectBody(location: Text): Octets {
    Ascii("<html><body>redirecting to <a href=\"") + location + Ascii("\">") + location + Ascii("</a></body></html>")
  }

  function LocationName(): Octets {
    Ascii("Location")
  }

  function LocationLine(location: Text): Octets {
    Header(LocationName(), location)
  }

  function LinesOfRedirect(location: Text): seq<Octets> {
    [FoundLine(), LocationLine(location), HtmlType(), LengthLine(RedirectBody(location))] + NoStoreClose()
  }

  /** `build_redirect_response` */
  function RedirectResponse(location: Text): Octets {
    Render(LinesOfRedirect(location), RedirectBody(location))
  }

  // ----- what the parser makes of them -----

  /** The response is one whole message with this body: its first empty line ends its head, the
      head gives the body's length, and the rest is the body. */
  predicate SelfDelimiting(all: Octets, body: Octets) {
    && Completed(all) == Some(|all|)
    && Find(all, DOUBLE_CRLF).Some?
    && var head := Find(all, DOUBLE_CRLF).value;
       ContentLength(all[..head]) == Some(|body|) && head + 4 <= |all| && all[head + 4..] == body
  }

  lemma OkPlain()
    ensures PlainPart(Ascii("OK"))
  {
    AsciiPlain("OK");
  }

  lemma BadRequestPlain()
    ensures PlainPart(Ascii("Bad Request"))
  {
    AsciiPlain("Bad Request");
  }

  lemma UnauthorizedPlain()
    ensures PlainPart(Ascii("Unauthorized"))
  {
    AsciiPlain("Unauthorized");
  }

  lemma NotFoundPlain()
    ensures PlainPart(Ascii("Not Found"))
  {
    AsciiPlain("Not Found");
  }

  lemma ServerErrorPlain()
    ensures PlainPart(Ascii("Internal Server Error"))
  {
    AsciiPlain("Internal Server Error");
  }

  lemma BadGatewayPlain()
    ensures PlainPart(Ascii("Bad Gateway"))
  {
    AsciiPlain("Bad Gateway");
  }

  lemma ResponsePlain()
    ensures PlainPart(Ascii("Response"))
  {
    AsciiPlain("Response");
  }

  lemma VersionPlain()
    ensures PlainPart(Ascii("HTTP/1.1 "))
  {
    AsciiPlain("HTTP/1.1 ");
  }

  lemma ReasonPlain(status: nat)
    ensures PlainPart(Reason(status))
  {
    match status
    case 200 => OkPlain();
    case 400 => BadRequestPlain();
    case 401 => UnauthorizedPlain();
    case 404 => NotFoundPlain();
    case 500 => ServerErrorPlain();
    case 502 => BadGatewayPlain();
    case _ => ResponsePlain();
  }

  /** A line in four plain parts is a line and no header. */
  lemma PlainLineOther(front: Octets, digits: Octets, reason: Octets)
    requires PlainPart(front) && front != [] && PlainPart(digits) && PlainPart(reason)
    ensures OtherLine(front + digits + [SPACE] + reason)
  {
    var line := front + digits + [SPACE] + reason;
    PrintableOk(line);
    FindByteNone(line, COLON);
  }

  lemma StatusLineOther(status: nat)
    ensures OtherLine(StatusLine(status))
  {
    VersionPlain();
    DigitsPrintable(status);
    ReasonPlain(status);
    PlainLineOther(Ascii("HTTP/1.1 "), Digits(status), Reason(status));
  }

  /** A header of some other name. */
  lemma FieldOther(name: string, value: string)
    requires Plain(name) && name != "" && name[0] != ' ' && name[|name| - 1] != ' ' && |name| != |CONTENT_LENGTH|
    requires forall i | 0 <= i < |value| :: ' ' <= value[i] <= '~'
    ensures OtherLine(Field(name, value))
  {
    AsciiPlain(name);
    PrintableOk(Field(name, value));
    LengthOfHeader(Ascii(name), Ascii(value));
  }

  lemma JsonTypeOther()
    ensures OtherLine(JsonType())
  {
    FieldOther("Content-Type", "application/json; charset=utf-8");
  }

  lemma HtmlTypeOther()
    ensures OtherLine(HtmlType())
  {
    FieldOther("Content-Type", "text/html; charset=utf-8");
  }

  lemma PlainTypeOther()
    ensures OtherLine(PlainType())
  {
    FieldOther("Content-Type", "text/plain; charset=utf-8");
  }

  lemma NoStoreOther()
    ensures OtherLine(NoStore())
  {
    FieldOther("Cache-Control", "no-store");
  }

  lemma MaxAgeOther()
    ensures OtherLine(MaxAge())
  {
    FieldOther("Cache-Control", "max-age=60");
  }

  lemma CloseOther()
    ensures OtherLine(Close())
  {
    FieldOther("Connection", "close");
  }

  lemma CorsOriginOther()
    ensures OtherLine(CorsOrigin())
  {
    FieldOther("Access-Control-Allow-Origin", "*");
  }

  lemma CorsMethodsOther()
    ensures OtherLine(CorsMethods())
  {
    FieldOther("Access-Control-Allow-Methods", "GET, POST, OPTIONS");
  }

  lemma CorsHeadersOther()
    ensures OtherLine(CorsHeaders())
  {
    FieldOther("Access-Control-Allow-Headers", "Content-Type");
  }

  predicate AllOk(lines: seq<Octets>) {
    forall i | 0 <= i < |lines| :: LineOk(lines[i])
  }

  lemma ThirdLength(first: Octets, second: Octets, third: Octets, rest: seq<Octets>)
    requires LengthOfLine(first).None? && LengthOfLine(second).None? && LengthOfLine(third).Some?
    ensures FirstLength([first, second, third] + rest) == LengthOfLine(third).value
  {
    var lines := [first, second, third] + rest;
    assert lines[1..][1..][0] == third && lines[1..][0] == second;
    assert FirstLength(lines) == FirstLength(lines[1..]) == FirstLength(lines[1..][1..]);
  }

  lemma ThreeOk(first: Octets, second: Octets, third: Octets, rest: seq<Octets>)
    requires LineOk(first) && LineOk(second) && LineOk(third) && AllOk(rest)
    ensures LinesOk([first, second, third] + rest)
  {
  }

  /** Lines before the length line are of other names, so it decides. */
  lemma LengthDecides(all: Octets, first: Octets, second: Octets, body: Octets, rest: seq<Octets>)
    requires OtherLine(first) && OtherLine(second) && |body| <= USIZE_MAX && AllOk(rest)
    requires all == Render([first, second, LengthLine(body)] + rest, body)
    ensures SelfDelimiting(all, body)
  {
    LengthLineOk(body);
    ThirdLength(first, second, LengthLine(body), rest);
    ThreeOk(first, second, LengthLine(body), rest);
    PrintedIsWhole([first, second, LengthLine(body)] + rest, body);
  }

  lemma FiveOk(a: Octets, b: Octets, c: Octets, d: Octets, e: Octets)
    requires LineOk(a) && LineOk(b) && LineOk(c) && LineOk(d) && LineOk(e)
    ensures AllOk([a, b, c, d, e])
  {
  }

  lemma TwoOk(a: Octets, b: Octets)
    requires LineOk(a) && LineOk(b)
    ensures AllOk([a, b])
  {
  }

  lemma JsonRestOk()
    ensures AllOk(JsonRest())
  {
    NoStoreOther();
    CloseOther();
    CorsOriginOther();
    CorsMethodsOther();
    CorsHeadersOther();
    FiveOk(NoStore(), CorsOrigin(), CorsMethods(), CorsHeaders(), Close());
  }

  /** Whatever the status and the body, a JSON response is self-delimiting. */
  lemma JsonIsSelfDelimiting(status: nat, body: Octets)
    requires |body| <= USIZE_MAX
    ensures SelfDelimiting(JsonResponse(status, body), body)
  {
    StatusLineOther(status);
    JsonTypeOther();
    JsonRestOk();
    LengthDecides(JsonResponse(status, body), StatusLine(status), JsonType(), body, JsonRest());
  }

  /** So is the status page, whatever its HTML. */
  lemma StatusIsSelfDelimiting(body: Text)
    requires |body| <= USIZE_MAX
    ensures SelfDelimiting(StatusResponse(body), body)
  {
    PlainLine("HTTP/1.1 200 OK");
    HtmlTypeOther();
    MaxAgeOther();
    CloseOther();
    TwoOk(MaxAge(), Close());
    LengthDecides(StatusResponse(body), OkLine(), HtmlType(), body, StatusRest());
  }

  lemma NotFoundIsSelfDelimiting()
    ensures SelfDelimiting(NotFoundResponse(), NOT_FOUND_BODY)
  {
    PlainLine("HTTP/1.1 404 Not Found");
    PlainTypeOther();
    NoStoreOther();
    CloseOther();
    TwoOk(NoStore(), Close());
    LengthDecides(NotFoundResponse(), NotFoundLine(), PlainType(), NOT_FOUND_BODY, NoStoreClose());
  }

  // ----- redirects: the location is part of the head -----

  function RedirectTail(body: Octets): seq<Octets> {
    [HtmlType(), LengthLine(body)] + NoStoreClose()
  }

  /** The first content-length line that a location smuggles into the head by a CRLF of its own. */
  function Injected(lines: seq<Octets>): Option<Option<nat>> {
    if lines == [] then None
    else if LengthOfLine(lines[0]).Some? then LengthOfLine(lines[0])
    else Injected(lines[1..])
  }

  /** No empty line in the location, its own end included, and no content-length line but the right one. */
  predicate LocationOk(location: Octets, length: nat) {
    && Find(location + CRLF, DOUBLE_CRLF).None?
    && Injected(Lines(location)[1..]) in {None, Some(Some(length))}
  }

  lemma TailOk(body: Octets)
    requires |body| <= USIZE_MAX
    ensures LinesOk(RedirectTail(body)) && FirstLength(RedirectTail(body)) == Some(|body|)
  {
    HtmlTypeOther();
    NoStoreOther();
    CloseOther();
    TwoOk(NoStore(), Close());
    LengthLineOk(body);
    TailOfTwo(HtmlType(), LengthLine(body), NoStoreClose());
  }

  lemma TailOfTwo(first: Octets, second: Octets, rest: seq<Octets>)
    requires OtherLine(first) && LineOk(second) && LengthOfLine(second).Some? && AllOk(rest)
    ensures LinesOk([first, second] + rest) && Some(FirstLength([first, second] + rest)) == LengthOfLine(second)
  {
  }

  lemma JoinStep(line: Octets, lines: seq<Octets>)
    requires lines != []
    ensures Join([line] + lines) == line + CRLF + Join(lines)
  {
  }

  /** The head of a redirect. */
  function RedirectHead(found: Octets, name: Octets, location: Octets, tail: seq<Octets>): Octets
    requires tail != []
  {
    found + CRLF + (Header(name, location) + CRLF + Join(tail))
  }

  /** A redirect, cut behind its head. */
  lemma CutBehindHead(found: Octets, name: Octets, location: Octets, tail: seq<Octets>, body: Octets)
    requires tail != []
    ensures Render([found, Header(name, location)] + tail, body) ==
      RedirectHead(found, name, location, tail) + DOUBLE_CRLF + body
  {
    assert [found, Header(name, location)] + tail == [found] + ([Header(name, location)] + tail);
    JoinStep(found, [Header(name, location)] + tail);
    JoinStep(Header(name, location), tail);
  }

  /** The same, cut at the location. */
  lemma CutAtLocation(found: Octets, name: Octets, location: Octets, tail: seq<Octets>, body: Octets)
    requires tail != []
    ensures RedirectHead(found, name, location, tail) + DOUBLE_CRLF + body ==
            (found + CRLF + name + [COLON]) + [SPACE] + (location + CRLF + Render(tail, body))
  {
  }

  /** Where the reader finds the end of the head, in general form: text before a space, the
      location, then lines that start with a foreign byte. */
  lemma HeadEndAfterLocation(pre: Octets, location: Octets, rest: Octets, headEnd: nat)
    requires Find(pre, DOUBLE_CRLF).None?
    requires rest != [] && rest[0] !in DOUBLE_CRLF && Find(rest, DOUBLE_CRLF) == Some(headEnd)
    ensures Find(pre + [SPACE] + (location + CRLF + rest), DOUBLE_CRLF) == Some(|pre| + 1 + |location| + 2 + headEnd)
            <==> Find(location + CRLF, DOUBLE_CRLF).None?
  {
    FindBarrier(pre, SPACE, location + CRLF + rest, DOUBLE_CRLF);
    FindBarrier(location + CRLF, rest[0], rest[1..], DOUBLE_CRLF);
    FindBarrier([], rest[0], rest[1..], DOUBLE_CRLF);
    assert rest == [] + [rest[0]] + rest[1..];
    assert location + CRLF + rest == location + CRLF + [rest[0]] + rest[1..];
    FindNone([], DOUBLE_CRLF);
  }

  // ----- the lines of a redirect's head -----

  lemma {:induction false} LinesConcat(a: Octets, b: Octets)
    ensures Lines(a + CRLF + b) == Lines(a) + Lines(b)
    decreases |a|
  {
    var all := a + CRLF + b;
    if Find(a, CRLF).None? {
      FindLineEnd(a, b);
      assert all[..|a|] == a && all[|a| + 2..] == b;
    } else {
      var i := Find(a, CRLF).value;
      assert all == a + (CRLF + b);
      FindExtend(a, CRLF + b, CRLF);
      assert all[..i] == a[..i] && all[i + 2..] == a[i + 2..] + CRLF + b;
      LinesConcat(a[i + 2..], b);
    }
  }

  /** Text behind a space only changes the first of its lines. */
  lemma LinesBehindSpace(pre: Octets, t: Octets)
    requires Find(pre, CRLF).None?
    ensures Lines(pre + [SPACE] + t) == [pre + [SPACE] + Lines(t)[0]] + Lines(t)[1..]
  {
    var all := pre + [SPACE] + t;
    FindBarrier(pre, SPACE, t, CRLF);
    if Find(t, CRLF).Some? {
      var i := Find(t, CRLF).value;
      assert all[..|pre| + 1 + i] == pre + [SPACE] + t[..i];
      assert all[|pre| + 1 + i + 2..] == t[i + 2..];
    }
  }

  lemma {:induction false} FirstLengthConcat(a: seq<Octets>, b: seq<Octets>)
    ensures FirstLength(a + b) == if Injected(a).Some? then Injected(a).value else FirstLength(b)
  {
    if a == [] {
      assert a + b == b;
    } else {
      assert (a + b)[1..] == a[1..] + b;
      FirstLengthConcat(a[1..], b);
    }
  }

  lemma LocationLines(name: Octets, location: Octets)
    requires Find(name + [COLON], CRLF).None?
    ensures Lines(Header(name, location)) == [Header(name, Lines(location)[0])] + Lines(location)[1..]
  {
    LinesBehindSpace(name + [COLON], location);
    assert Header(name, location) == name + [COLON] + [SPACE] + location;
    assert Header(name, Lines(location)[0]) == name + [COLON] + [SPACE] + Lines(location)[0];
  }

  lemma HeadLines(found: Octets, name: Octets, location: Octets, tail: seq<Octets>)
    requires LineOk(found) && Find(name + [COLON], CRLF).None? && LinesOk(tail)
    ensures Lines(RedirectHead(found, name, location, tail)) ==
            [found, Header(name, Lines(location)[0])] + (Lines(location)[1..] + tail)
  {
    var line := Header(name, location);
    LinesConcat(found, line + CRLF + Join(tail));
    LinesConcat(line, Join(tail));
    LinesOfJoin(tail);
    LocationLines(name, location);
    AppendLines([found], Header(name, Lines(location)[0]), Lines(location)[1..], tail);
  }

  lemma AppendLines(a: seq<Octets>, b: Octets, c: seq<Octets>, d: seq<Octets>)
    ensures a + (([b] + c) + d) == (a + [b]) + (c + d)
  {
  }

  /** What the head's content length is: an injected one first, else the true one. */
  lemma HeadLength(found: Octets, name: Octets, location: Octets, tail: seq<Octets>)
    requires OtherLine(found) && Find(name + [COLON], CRLF).None? && LinesOk(tail)
    requires NameOk(name) && |name| != |CONTENT_LENGTH|
    ensures FirstLength(Lines(RedirectHead(found, name, location, tail))) ==
            if Injected(Lines(location)[1..]).Some? then Injected(Lines(location)[1..]).value else FirstLength(tail)
  {
    var second, more := Header(name, Lines(location)[0]), Lines(location)[1..] + tail;
    HeadLines(found, name, location, tail);
    LengthOfHeader(name, Lines(location)[0]);
    FirstLengthConcat(Lines(location)[1..], tail);
    var lines := [found, second] + more;
    assert lines[1..][0] == second && lines[1..][1..] == more;
    assert FirstLength(lines) == FirstLength(lines[1..]) == FirstLength(more);
  }

  lemma HeadValid(found: Text, name: Text, location: Text, tail: seq<Octets>)
    requires LinesOk(tail)
    ensures Valid(RedirectHead(found, name, location, tail))
  {
    LinesOfJoin(tail);
    ValidAscii(CRLF);
    ValidAscii([COLON]);
    ValidAscii([SPACE]);
    ValidConcat([SPACE], location);
    ValidConcat(name, [COLON]);
    ValidConcat(name + [COLON], [SPACE] + location);
    ValidConcat(CRLF, Join(tail));
    var line := Header(name, location);
    assert line + CRLF + Join(tail) == line + (CRLF + Join(tail));
    ValidConcat(line, CRLF + Join(tail));
    ValidConcat(found, CRLF);
    ValidConcat(found + CRLF, line + CRLF + Join(tail));
  }

  /** Delimited at `head`, and only there can a message with this body be. */
  lemma SelfDelimitingIff(head: Octets, body: Octets)
    ensures SelfDelimiting(head + DOUBLE_CRLF + body, body) <==>
            Find(head + DOUBLE_CRLF + body, DOUBLE_CRLF) == Some(|head|) && ContentLength(head) == Some(|body|)
  {
    var all := head + DOUBLE_CRLF + body;
    assert all[..|head|] == head && all[|head| + 4..] == body;
    if Find(all, DOUBLE_CRLF) == Some(|head|) && ContentLength(head) == Some(|body|) {
      WholeBySizes(all, |head|, body);
    }
    if SelfDelimiting(all, body) {
      var h := Find(all, DOUBLE_CRLF).value;
      assert |all[h + 4..]| == |all| - h - 4;
    }
  }

  // ----- the result -----

  lemma HeadEndIff(found: Octets, name: Octets, location: Octets, tail: seq<Octets>, body: Octets)
    requires Find(found + CRLF + name + [COLON], DOUBLE_CRLF).None?
    requires LinesOk(tail) && tail[0][0] !in DOUBLE_CRLF
    ensures var head := RedirectHead(found, name, location, tail);
      Find(head + DOUBLE_CRLF + body, DOUBLE_CRLF) == Some(|head|) <==> Find(location + CRLF, DOUBLE_CRLF).None?
  {
    var pre, rest := found + CRLF + name + [COLON], Render(tail, body);
    CutAtLocation(found, name, location, tail, body);
    HeadEnds(tail, body);
    assert rest[0] == tail[0][0];
    HeadEndAfterLocation(pre, location, rest, |Join(tail)|);
  }

  /** In general form: a redirect is self-delimiting exactly when its location is fit. */
  lemma LocationDecides(found: Text, name: Text, location: Text, tail: seq<Octets>, body: Octets)
    requires OtherLine(found) && NameOk(name) && |name| != |CONTENT_LENGTH|
    requires Find(name + [COLON], CRLF).None? && Find(found + CRLF + name + [COLON], DOUBLE_CRLF).None?
    requires LinesOk(tail) && tail[0][0] !in DOUBLE_CRLF && FirstLength(tail) == Some(|body|)
    ensures SelfDelimiting(Render([found, Header(name, location)] + tail, body), body) <==> LocationOk(location, |body|)
  {
    var head := RedirectHead(found, name, location, tail);
    CutBehindHead(found, name, location, tail, body);
    SelfDelimitingIff(head, body);
    HeadEndIff(found, name, location, tail, body);
    HeadValid(found, name, location, tail);
    HeadLength(found, name, location, tail);
  }

  lemma FoundLineOther()
    ensures OtherLine(FoundLine()) && Printable(FoundLine())
  {
    PlainLine("HTTP/1.1 302 Found");
    AsciiPlain("HTTP/1.1 302 Found");
  }

  lemma LocationNameOk()
    ensures NameOk(LocationName()) && |LocationName()| != |CONTENT_LENGTH| && Printable(LocationName())
  {
  }

  lemma PrintableHasNoLineEnd(a: Octets, b: Octets)
    requires LineOk(a) && Printable(a) && Printable(b) && b != []
    ensures Find(b + [COLON], CRLF).None? && Find(a + CRLF + b + [COLON], DOUBLE_CRLF).None? && Valid(b)
  {
    NoCrNoLineEnd(b + [COLON]);
    ValidAscii(b);
    var s := a + CRLF + b + [COLON];
    forall j: nat ensures !MatchAt(s, DOUBLE_CRLF, j) {
      if MatchAt(s, DOUBLE_CRLF, j) {
        DoubleStartsAtLineEnd(s, j);
      }
    }
    FindNone(s, DOUBLE_CRLF);
  }

  /** The fixed parts of a redirect. */
  lemma RedirectParts(location: Text)
    requires |RedirectBody(location)| <= USIZE_MAX
    ensures var found, name, tail := FoundLine(), LocationName(), RedirectTail(RedirectBody(location));
      && OtherLine(found) && NameOk(name) && |name| != |CONTENT_LENGTH| && Valid(name)
      && Find(name + [COLON], CRLF).None? && Find(found + CRLF + name + [COLON], DOUBLE_CRLF).None?
      && LinesOk(tail) && tail[0][0] !in DOUBLE_CRLF && FirstLength(tail) == Some(|RedirectBody(location)|)
      && LinesOfRedirect(location) == [found, Header(name, location)] + tail
  {
    var body := RedirectBody(location);
    FoundLineOther();
    LocationNameOk();
    PrintableHasNoLineEnd(FoundLine(), LocationName());
    TailOk(body);
    TailStart(body);
    RedirectLines(FoundLine(), LocationLine(location), HtmlType(), LengthLine(body), NoStoreClose());
  }

  /** A redirect is read back as one whole message if and only if its location, with the line end
      that follows it, holds no empty line and smuggles in no wrong content-length line. */
  lemma RedirectSelfDelimitingIff(location: Text)
    requires |RedirectBody(location)| <= USIZE_MAX
    ensures SelfDelimiting(RedirectResponse(location), RedirectBody(location))
            <==> LocationOk(location, |RedirectBody(location)|)
  {
    var body := RedirectBody(location);
    RedirectParts(location);
    LocationDecides(FoundLine(), LocationName(), location, RedirectTail(body), body);
  }

  lemma RedirectLines(a: Octets, b: Octets, c: Octets, d: Octets, e: seq<Octets>)
    ensures [a, b, c, d] + e == [a, b] + ([c, d] + e)
  {
  }

  lemma TailStart(body: Octets)
    ensures RedirectTail(body)[0][0] == 67
  {
  }

  /** In particular when the location holds no CRLF. */
  lemma PlainRedirectIsSelfDelimiting(location: Text)
    requires |RedirectBody(location)| <= USIZE_MAX && Find(location, CRLF).None?
    ensures SelfDelimiting(RedirectResponse(location), RedirectBody(location))
  {
    assert location + CRLF == location + CRLF + [];
    FindLineEnd(location, []);
    forall j: nat ensures !MatchAt(location + CRLF, DOUBLE_CRLF, j) {
      if MatchAt(location + CRLF, DOUBLE_CRLF, j) {
        DoubleStartsAtLineEnd(location + CRLF, j);
      }
    }
    FindNone(location + CRLF, DOUBLE_CRLF);
    RedirectSelfDelimitingIff(location);
  }

  // ----- the lines of a redirect -----

  lemma OneLine(t: Octets)
    ensures Lines(t) == [t] <==> Find(t, CRLF).None?
  {
    if Find(t, CRLF).Some? {
      assert |Lines(t)| >= 2;
    }
  }

  /** Without its body a redirect is its head. */
  lemma HeadOfRedirect(found: Octets, name: Octets, location: Octets, tail: seq<Octets>)
    requires tail != []
    ensures Join([found, Header(name, location)] + tail) == RedirectHead(found, name, location, tail)
  {
    assert [found, Header(name, location)] + tail == [found] + ([Header(name, location)] + tail);
    JoinStep(found, [Header(name, location)] + tail);
    JoinStep(Header(name, location), tail);
  }

  lemma HeadLinesIff(found: Octets, name: Octets, location: Octets, tail: seq<Octets>)
    requires LineOk(found) && Find(name + [COLON], CRLF).None? && LinesOk(tail)
    ensures Lines(RedirectHead(found, name, location, tail)) == [found, Header(name, location)] + tail
            <==> Find(location, CRLF).None?
  {
    var lines := Lines(location);
    HeadLines(found, name, location, tail);
    OneLine(location);
    if Find(location, CRLF).None? {
      assert lines[1..] + tail == tail;
    } else {
      assert |[found, Header(name, lines[0])] + (lines[1..] + tail)| > |[found, Header(name, location)] + tail|;
    }
  }

  /** The head of a redirect has exactly the lines that were printed, no header more, if and only if its
      location holds no CRLF. */
  lemma RedirectLinesIff(location: Text)
    requires |RedirectBody(location)| <= USIZE_MAX
    ensures Lines(Join(LinesOfRedirect(location))) == LinesOfRedirect(location) <==> Find(location, CRLF).None?
  {
    var tail := RedirectTail(RedirectBody(location));
    RedirectParts(location);
    HeadOfRedirect(FoundLine(), LocationName(), location, tail);
    HeadLinesIff(FoundLine(), LocationName(), location, tail);
  }

  lemma LineBehind(front: Octets, line: Octets)
    requires Find(front, CRLF).None? && Find(line, CRLF).None?
    ensures Lines(front + (CRLF + line)) == [front, line]
  {
    assert front + (CRLF + line) == front + CRLF + line;
    LinesConcat(front, line);
    OneLine(front);
    OneLine(line);
  }

  lemma ResultPathLength()
    ensures |ResultPath()| == 20
  {
  }

  lemma ResultLines(path: Octets, line: Octets, location: Octets)
    requires Find(path, CRLF).None? && Find(line, CRLF).None? && location == path + (CRLF + line)
    ensures Lines(location)[1..] == [line]
  {
    LineBehind(path, line);
  }

  lemma RedirectBodyBound(location: Text)
    ensures 0 < |RedirectBody(location)| <= 2 * |location| + 100
  {
  }

  lemma MisreadWhen(location: Text)
    requires |RedirectBody(location)| <= USIZE_MAX && Lines(location)[1..] == [LengthLine([])]
    ensures !SelfDelimiting(RedirectResponse(location), RedirectBody(location))
  {
    LengthLineOk([]);
    assert Injected([LengthLine([])]) == Some(Some(0));
    RedirectBodyBound(location);
    RedirectSelfDelimitingIff(location);
  }

  /** The state a client chose is printed as it is. One that holds a line end and a content-length line
      makes the redirect be read with a length of zero. */
  lemma RedirectCanBeMisread() returns (state: Text)
    ensures |RedirectBody(ResultLocation(state))| <= USIZE_MAX
    ensures !SelfDelimiting(RedirectResponse(ResultLocation(state)), RedirectBody(ResultLocation(state)))
  {
    state := LengthAsState();
    var location := ResultLocation(state);
    ResultPathOk();
    ResultPathLength();
    ResultLines(ResultPath(), LengthLine([]), location);
    RedirectBodyBound(location);
    MisreadWhen(location);
  }

  lemma LengthAsState() returns (state: Text)
    ensures state == CRLF + LengthLine([]) && |state| <= 23 && Find(LengthLine([]), CRLF).None?
  {
    LengthLineOk([]);
    LengthLineBound([]);
    state := BehindLineEnd(LengthLine([]));
  }

  lemma BehindLineEnd(line: Text) returns (t: Text)
    ensures t == CRLF + line
  {
    ValidAscii(CRLF);
    ValidConcat(CRLF, line);
    t := CRLF + line;
  }

  // ----- what a client reads first -----

  /** The message opens with this line. */
  predicate OpensWith(all: Octets, line: Octets) {
    Find(all, CRLF) == Some(|line|) && line + CRLF <= all
  }

  /** A message of these lines opens with the first, and the second follows. */
  lemma LinesOpen(all: Octets, first: Octets, second: Octets, third: Octets, rest: seq<Octets>, body: Octets)
    requires Find(first, CRLF).None? && all == Render([first, second, third] + rest, body)
    ensures OpensWith(all, first) && first + CRLF + (second + CRLF) <= all
  {
    var lines, more := [first, second, third] + rest, [third] + rest;
    assert lines[1..] == [second] + more && lines[1..][1..] == more;
    assert Join(lines) == first + CRLF + Join(lines[1..]) && Join(lines[1..]) == second + CRLF + Join(more);
    var tail := Join(more) + DOUBLE_CRLF + body;
    assert all == first + CRLF + (second + CRLF + tail);
    FindLineEnd(first, second + CRLF + tail);
  }

  /** A JSON response opens with the version, the status in decimal, and a reason. */
  lemma JsonOpensWithStatus(status: nat, body: Octets) returns (reason: Octets)
    ensures OpensWith(JsonResponse(status, body), Ascii("HTTP/1.1 ") + Digits(status) + [32] + reason)
    ensures 13 !in reason
  {
    reason := Reason(status);
    StatusLineOther(status);
    ReasonPlain(status);
    LinesOpen(JsonResponse(status, body), StatusLine(status), JsonType(), LengthLine(body), JsonRest(), body);
  }

  lemma StatusPageOpensWithOk(body: Text)
    ensures OpensWith(StatusResponse(body), Ascii("HTTP/1.1 200 OK"))
  {
    PlainLine("HTTP/1.1 200 OK");
    LinesOpen(StatusResponse(body), OkLine(), HtmlType(), LengthLine(body), StatusRest(), body);
  }

  lemma NotFoundOpensWith404()
    ensures OpensWith(NotFoundResponse(), Ascii("HTTP/1.1 404 Not Found"))
  {
    PlainLine("HTTP/1.1 404 Not Found");
    LinesOpen(NotFoundResponse(), NotFoundLine(), PlainType(), LengthLine(NOT_FOUND_BODY), NoStoreClose(),
      NOT_FOUND_BODY);
  }

  /** The redirect's lines from the third on. */
  lemma RedirectOpening(location: Text)
    ensures LinesOfRedirect(location) == [FoundLine(), LocationLine(location), HtmlType()]
                                           + ([LengthLine(RedirectBody(location))] + NoStoreClose())
  {
  }

  /** A redirect opens with its status line, and its second line is the location. */
  lemma RedirectOpensWithLocation(location: Text)
    ensures OpensWith(RedirectResponse(location), Ascii("HTTP/1.1 302 Found"))
    ensures Ascii("HTTP/1.1 302 Found") + CRLF + (Ascii("Location") + [58] + ([32] + location) + CRLF)
         <= RedirectResponse(location)
  {
    PlainLine("HTTP/1.1 302 Found");
    RedirectOpening(location);
    var body := RedirectBody(location);
    LinesOpen(RedirectResponse(location), FoundLine(), LocationLine(location), HtmlType(),
      [LengthLine(body)] + NoStoreClose(), body);
  }
}
