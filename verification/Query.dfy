/** Form encoding as the relay prints it and query parsing as the relay reads it. */
module Query {
  import opened Bytes
  import opened Utf8
  import opened Me

  const PERCENT: byte := 37
  const AMP: byte := 38
  const PLUS: byte := 43
  const EQUALS: byte := 61
  const QUESTION: byte := 63

  // ----- printing -----

  /** The unreserved characters of section 2.3 of RFC 3986. */
  predicate Unreserved(b: byte) {
    || 65 <= b <= 90 || 97 <= b <= 122 || 48 <= b <= 57
    || b == 45 || b == 95 || b == 46 || b == 126
  }

  function UpperDigit(v: int): (c: byte)
    requires 0 <= v < 16
    ensures HexNibble(c) == Ok(v) && Unreserved(c)
  {
    if v < 10 then (48 + v) as byte else (55 + v) as byte
  }

  function EncodedByte(b: byte): (r: Octets)
    ensures r != [] && forall c | c in r :: Unreserved(c) || c == PERCENT
  {
    if Unreserved(b) then [b] else [PERCENT, UpperDigit(b as int / 16), UpperDigit(b as int % 16)]
  }

  function Encoded(s: Octets): (r: Octets)
    ensures forall c | c in r :: Unreserved(c) || c == PERCENT
  {
    if s == [] then [] else EncodedByte(s[0]) + Encoded(s[1..])
  }

  lemma EncodeTurn(s: Octets, i: nat, r: Octets)
    requires i < |s|
    ensures r + Encoded(s[i..]) == (r + EncodedByte(s[i])) + Encoded(s[i + 1..])
  {
    assert s[i..][1..] == s[i + 1..];
    ConcatAssoc(r, EncodedByte(s[i]), Encoded(s[i + 1..]));
  }

  method PercentEncodeInto(out: Octets, s: Octets) returns (r: Octets)
    ensures r == out + Encoded(s)
  {
    r := out;
    for i := 0 to |s|
      invariant r + Encoded(s[i..]) == out + Encoded(s)
    {
      EncodeTurn(s, i, r);
      var piece: Octets := [];
      if Unreserved(s[i]) {
        piece := piece + [s[i]];
      } else {
        piece := piece + [PERCENT];
        piece := piece + [UpperDigit(s[i] as int / 16), UpperDigit(s[i] as int % 16)];
      }
      assert piece == EncodedByte(s[i]);
      r := r + piece;
    }
    assert Encoded(s[|s|..]) == [];
  }

  function EncodedPair(p: (Text, Text)): Octets {
    Encoded(p.0) + [EQUALS] + Encoded(p.1)
  }

  function EncodedForm(pairs: seq<(Text, Text)>): Octets {
    if pairs == [] then []
    else
      var front := pairs[..|pairs| - 1];
      EncodedForm(front) + (if front == [] then [] else [AMP]) + EncodedPair(pairs[|pairs| - 1])
  }

  /** A pair printed in three steps behind what is there. */
  lemma AppendInSteps(a: Octets, k: Octets, v: Octets)
    ensures a + k + [EQUALS] + v == a + (k + [EQUALS] + v)
  {
  }

  function Separator(i: nat): Octets {
    if i == 0 then [] else [AMP]
  }

  lemma FormStep(pairs: seq<(Text, Text)>, i: nat)
    requires i < |pairs|
    ensures EncodedForm(pairs[..i + 1]) == EncodedForm(pairs[..i]) + Separator(i) + EncodedPair(pairs[i])
  {
    assert pairs[..i + 1][..i] == pairs[..i];
  }

  method UrlEncodeForm(pairs: seq<(Text, Text)>) returns (out: Octets)
    ensures out == EncodedForm(pairs)
  {
    out := [];
    for i := 0 to |pairs|
      invariant out == EncodedForm(pairs[..i])
    {
      FormStep(pairs, i);
      ghost var before := out + Separator(i);
      if i > 0 {
        out := out + [AMP];
      }
      assert out == before;
      out := PercentEncodeInto(out, pairs[i].0);
      out := out + [EQUALS];
      out := PercentEncodeInto(out, pairs[i].1);
      AppendInSteps(before, Encoded(pairs[i].0), Encoded(pairs[i].1));
    }
    assert pairs[..|pairs|] == pairs;
  }

  // ----- reading -----

  /** The byte a percent triple at the front stands for, if there is a whole one. */
  function Triple(s: Octets): Option<byte> {
    if |s| > 2 && s[0] == PERCENT && HexNibble(s[1]).Ok? && HexNibble(s[2]).Ok?
    then Some((16 * HexNibble(s[1]).value + HexNibble(s[2]).value) as byte)
    else None
  }

  function RawDecoded(s: Octets): Octets
    decreases |s|
  {
    if s == [] then []
    else if s[0] == PLUS then [SPACE] + RawDecoded(s[1..])
    else if Triple(s).Some? then [Triple(s).value] + RawDecoded(s[3..])
    else [s[0]] + RawDecoded(s[1..])
  }

  /** Bytes that do not form UTF-8 decode to the empty string. */
  function Decoded(s: Octets): (r: Text) {
    if Valid(RawDecoded(s)) then RawDecoded(s) else []
  }

  /** What one turn of the decoding loop at offset `i` appends, and how far it moves. */
  function Turn(s: Octets, i: nat): (t: (byte, nat))
    requires i < |s|
    ensures 1 <= t.1 && i + t.1 <= |s|
  {
    if s[i] == PLUS then (SPACE, 1)
    else if s[i] == PERCENT && i + 2 < |s| && HexNibble(s[i + 1]).Ok? && HexNibble(s[i + 2]).Ok?
    then ((16 * HexNibble(s[i + 1]).value + HexNibble(s[i + 2]).value) as byte, 3)
    else (s[i], 1)
  }

  /** The first `i` bytes decode to `out`. */
  predicate DecodedTo(s: Octets, i: nat, out: Octets) {
    i <= |s| && RawDecoded(s) == out + RawDecoded(s[i..])
  }

  lemma TurnDecodes(s: Octets, i: nat)
    requires i < |s|
    ensures RawDecoded(s[i..]) == [Turn(s, i).0] + RawDecoded(s[i + Turn(s, i).1..])
  {
    assert s[i..][1..] == s[i + 1..];
    if i + 2 < |s| {
      assert s[i..][3..] == s[i + 3..];
    }
  }

  lemma DecodesOn(s: Octets, i: nat, out: Octets)
    requires DecodedTo(s, i, out) && i < |s|
    ensures DecodedTo(s, i + Turn(s, i).1, out + [Turn(s, i).0])
  {
    TurnDecodes(s, i);
    ConcatAssoc(out, [Turn(s, i).0], RawDecoded(s[i + Turn(s, i).1..]));
  }

  lemma DecodesAll(s: Octets, out: Octets)
    requires DecodedTo(s, |s|, out)
    ensures RawDecoded(s) == out
  {
    assert s[|s|..] == [] && out + [] == out;
  }

  method PercentDecode(s: Octets) returns (r: Octets)
    ensures r == Decoded(s)
  {
    var out: Octets := [];
    var i: nat := 0;
    assert s[0..] == s && [] + RawDecoded(s) == RawDecoded(s);
    while i < |s|
      invariant DecodedTo(s, i, out)
      decreases |s| - i
    {
      DecodesOn(s, i, out);
      var next, step := s[i], 1;
      if s[i] == PLUS {
        next := SPACE;
      } else if s[i] == PERCENT && i + 2 < |s| {
        var hi, lo := HexNibble(s[i + 1]), HexNibble(s[i + 2]);
        if hi.Ok? && lo.Ok? {
          next, step := (16 * hi.value + lo.value) as byte, 3;
        }
      }
      assert (next, step) == Turn(s, i);
      out := out + [next];
      i := i + step;
    }
    DecodesAll(s, out);
    r := if Valid(out) then out else [];
  }

  /** `split(sep)` */
  function SplitOn(s: Octets, sep: byte): (parts: seq<Octets>)
    ensures parts != []
    decreases |s|
  {
    match Find(s, [sep])
    case None => [s]
    case Some(i) => [s[..i]] + SplitOn(s[i + 1..], sep)
  }

  /** `split_once(sep)`, with an empty second part when there is no separator. */
  function SplitOnce(s: Octets, sep: byte): (r: (Octets, Octets))
    ensures sep !in s ==> r == (s, [])
    ensures sep in s ==> sep !in r.0 && s == r.0 + [sep] + r.1
  {
    match Find(s, [sep])
    case None =>
      FindByteNone(s, sep);
      (s, [])
    case Some(i) =>
      FindByteNone(s, sep);
      BeforeFirst(s, sep);
      (s[..i], s[i + 1..])
  }

  lemma BeforeFirst(s: Octets, sep: byte)
    requires Find(s, [sep]).Some?
    ensures var i := Find(s, [sep]).value; i < |s| && sep !in s[..i] && s == s[..i] + [sep] + s[i + 1..]
  {
    var i := Find(s, [sep]).value;
    assert s[i] == s[i..i + 1][0] == sep;
    forall j | 0 <= j < i ensures s[j] != sep {
      assert !MatchAt(s, [sep], j);
      assert s[j..j + 1] == [s[j]];
    }
  }

  function Params(parts: seq<Octets>): map<Octets, Octets> {
    if parts == [] then map[]
    else
      var rest, last := Params(parts[..|parts| - 1]), parts[|parts| - 1];
      if last == [] then rest
      else rest[Decoded(SplitOnce(last, EQUALS).0) := Decoded(SplitOnce(last, EQUALS).1)]
  }

  method SplitPathAndQuery(raw: Octets) returns (path: Octets, params: map<Octets, Octets>)
    ensures path == SplitOnce(raw, QUESTION).0
    ensures params == Params(SplitOn(SplitOnce(raw, QUESTION).1, AMP))
    ensures QUESTION !in raw ==> path == raw && params == map[]
  {
    if QUESTION !in raw {
      NoQuery(raw);
    }
    var (p, qs) := SplitOnce(raw, QUESTION);
    path := p;
    var parts := SplitOn(qs, AMP);
    params := map[];
    for i := 0 to |parts|
      invariant params == Params(parts[..i])
    {
      assert parts[..i + 1][..i] == parts[..i];
      if parts[i] == [] {
        continue;
      }
      var (k, v) := SplitOnce(parts[i], EQUALS);
      var key := PercentDecode(k);
      var value := PercentDecode(v);
      params := params[key := value];
    }
    assert parts[..|parts|] == parts;
  }

  // ----- what is read -----

  /** A target without '?' is all path. */
  lemma NoQuery(raw: Octets)
    requires QUESTION !in raw
    ensures SplitOnce(raw, QUESTION).0 == raw && Params(SplitOn(SplitOnce(raw, QUESTION).1, AMP)) == map[]
  {
    FindByteNone([], AMP);
    var nothing: seq<Octets> := [[]];
    assert nothing[..0] == [] && Params(nothing) == map[];
  }

  function Joined(parts: seq<Octets>, sep: byte): Octets {
    if parts == [] then []
    else if |parts| == 1 then parts[0]
    else parts[0] + [sep] + Joined(parts[1..], sep)
  }

  /** The parts of a text are free of the separator and give the text when joined. */
  lemma {:induction false} SplitIsUnjoined(s: Octets, sep: byte)
    ensures Joined(SplitOn(s, sep), sep) == s && forall part | part in SplitOn(s, sep) :: sep !in part
    decreases |s|
  {
    FindByteNone(s, sep);
    if Find(s, [sep]).Some? {
      var i := Find(s, [sep]).value;
      BeforeFirst(s, sep);
      SplitIsUnjoined(s[i + 1..], sep);
      JoinedCons(s[..i], SplitOn(s[i + 1..], sep), sep);
    }
  }

  lemma JoinedCons(first: Octets, rest: seq<Octets>, sep: byte)
    requires rest != []
    ensures Joined([first] + rest, sep) == first + [sep] + Joined(rest, sep)
  {
    assert ([first] + rest)[1..] == rest;
  }

  /** A part names what stands before its first '=', decoded; the empty part names nothing. */
  predicate NamesKey(part: Octets, k: Octets) {
    part != [] && k == Decoded(SplitOnce(part, EQUALS).0)
  }

  /** A key has the value that the last part naming it gives. */
  lemma {:induction false} ParamIsLast(parts: seq<Octets>, i: nat, k: Octets)
    requires i < |parts| && NamesKey(parts[i], k)
    requires forall j | i < j < |parts| :: !NamesKey(parts[j], k)
    ensures k in Params(parts) && Params(parts)[k] == Decoded(SplitOnce(parts[i], EQUALS).1)
  {
    if i < |parts| - 1 {
      ParamIsLast(parts[..|parts| - 1], i, k);
    }
  }

  /** A key that no part names is absent. */
  lemma {:induction false} UnnamedIsAbsent(parts: seq<Octets>, k: Octets)
    requires forall j | 0 <= j < |parts| :: !NamesKey(parts[j], k)
    ensures k !in Params(parts)
  {
    if parts != [] {
      UnnamedIsAbsent(parts[..|parts| - 1], k);
    }
  }

  /** A part without '=' is a key with the empty value. */
  lemma BareKey(parts: seq<Octets>, part: Octets)
    requires part != [] && EQUALS !in part
    ensures Params(parts + [part]) == Params(parts)[Decoded(part) := []]
  {
    assert (parts + [part])[..|parts|] == parts;
  }

  lemma EmptyPart(parts: seq<Octets>)
    ensures Params(parts + [[]]) == Params(parts)
  {
    var empty: Octets := [];
    assert (parts + [empty])[..|parts|] == parts;
  }

  /** One written unit of form text. */
  datatype Unit = Plain(b: byte) | Plus | Percent(hi: byte, lo: byte)

  function Written(u: Unit): Octets {
    match u
    case Plain(b) => [b]
    case Plus => [43]
    case Percent(hi, lo) => [37, hi, lo]
  }

  /** The byte that this unit stands for. Hex digits are those of either case. */
  ghost predicate StandsFor(u: Unit, b: byte) {
    match u
    case Plain(c) => c != 43 && c != 37 && b == c
    case Plus => b == 32
    case Percent(hi, lo) => exists h, l :: IsHexDigit(hi, h) && IsHexDigit(lo, l) && b as int == 16 * h + l
  }

  lemma UnitDecodes(u: Unit, b: byte, rest: Octets)
    requires StandsFor(u, b)
    ensures RawDecoded(Written(u) + rest) == [b] + RawDecoded(rest)
  {
    var s := Written(u) + rest;
    match u
    case Plain(_) => assert s[1..] == rest;
    case Plus => assert s[1..] == rest;
    case Percent(hi, lo) =>
      var h, l :| IsHexDigit(hi, h) && IsHexDigit(lo, l) && b as int == 16 * h + l;
      HexDigitIff(hi, h);
      HexDigitIff(lo, l);
      assert s[3..] == rest;
  }

  function AllWritten(units: seq<Unit>): Octets {
    if units == [] then [] else Written(units[0]) + AllWritten(units[1..])
  }

  /** However a text was written, with plus signs for spaces or not, with any bytes as triples in either
      case or as they are, it is read back; what does not form UTF-8 is read as the empty text. */
  lemma {:induction false} AnyWritingDecodes(units: seq<Unit>, s: Octets)
    requires |units| == |s| && forall i | 0 <= i < |s| :: StandsFor(units[i], s[i])
    ensures RawDecoded(AllWritten(units)) == s
    ensures Decoded(AllWritten(units)) == if Valid(s) then s else []
  {
    if units != [] {
      AnyWritingDecodes(units[1..], s[1..]);
      UnitDecodes(units[0], s[0], AllWritten(units[1..]));
      assert s == [s[0]] + s[1..];
    }
  }

  ghost predicate TwoDigits(s: Octets) {
    |s| >= 2 && (exists h :: IsHexDigit(s[0], h)) && exists l :: IsHexDigit(s[1], l)
  }

  /** A percent sign without two hex digits behind it stands for itself. */
  lemma StrayPercent(rest: Octets)
    requires !TwoDigits(rest)
    ensures RawDecoded([37] + rest) == [37] + RawDecoded(rest)
  {
    var s: Octets := [37] + rest;
    assert s[1..] == rest;
    if |rest| >= 2 {
      assert s[1] == rest[0] && s[2] == rest[1];
      if HexNibble(s[1]).Ok? && HexNibble(s[2]).Ok? {
        HexDigitIff(s[1], HexNibble(s[1]).value);
        HexDigitIff(s[2], HexNibble(s[2]).value);
      }
    }
  }

  // ----- round trip -----

  /** The upper-case digit `c` has value `v`. */
  predicate IsUpperDigit(c: byte, v: int) {
    (48 <= c <= 57 && v == c as int - 48) || (65 <= c <= 70 && v == c as int - 55)
  }

  /** Letters, digits and the four marks "-._~" are printed as they are, any other byte as a triple of
      upper-case digits. */
  lemma EncodedByteIs(b: byte)
    ensures var r := EncodedByte(b);
      if 65 <= b <= 90 || 97 <= b <= 122 || 48 <= b <= 57 || b in Ascii("-._~") then r == [b]
      else |r| == 3 && r[0] == 37 && IsUpperDigit(r[1], b as int / 16) && IsUpperDigit(r[2], b as int % 16)
  {
    var marks := Ascii("-._~");
    assert marks[0] == 45 && marks[1] == 46 && marks[2] == 95 && marks[3] == 126;
  }

  lemma DecodeEncodedByte(b: byte, rest: Octets)
    ensures RawDecoded(EncodedByte(b) + rest) == [b] + RawDecoded(rest)
  {
  }

  lemma {:induction false} RawDecodeInverts(s: Octets)
    ensures RawDecoded(Encoded(s)) == s
  {
    if s != [] {
      DecodeEncodedByte(s[0], Encoded(s[1..]));
      RawDecodeInverts(s[1..]);
      assert s == [s[0]] + s[1..];
    }
  }

  /** Decoding inverts encoding on every string, and gives the empty string on other bytes. */
  lemma {:induction false} DecodeInvertsEncode(s: Octets)
    ensures Decoded(Encoded(s)) == if Valid(s) then s else []
  {
    RawDecodeInverts(s);
  }

  lemma {:induction false} SplitOnConcat(a: Octets, sep: byte, b: Octets)
    ensures SplitOn(a + [sep] + b, sep) == SplitOn(a, sep) + SplitOn(b, sep)
    decreases |a|
  {
    var all := a + [sep] + b;
    FindByteNone(a, sep);
    if sep !in a {
      FindByte(a, sep, b);
      assert all[..|a|] == a && all[|a| + 1..] == b;
    } else {
      var i := Find(a, [sep]).value;
      assert all == a + ([sep] + b);
      FindExtend(a, [sep] + b, [sep]);
      assert all[..i] == a[..i] && all[i + 1..] == a[i + 1..] + [sep] + b;
      SplitOnConcat(a[i + 1..], sep, b);
    }
  }

  function EncodedPairs(pairs: seq<(Text, Text)>): seq<Octets> {
    seq(|pairs|, i requires 0 <= i < |pairs| => EncodedPair(pairs[i]))
  }

  lemma PairHasNoAmp(p: (Text, Text))
    ensures SplitOn(EncodedPair(p), AMP) == [EncodedPair(p)]
  {
    FindByteNone(EncodedPair(p), AMP);
  }

  lemma SplitFormStep(front: seq<(Text, Text)>, p: (Text, Text))
    requires front != [] && SplitOn(EncodedForm(front), AMP) == EncodedPairs(front)
    ensures SplitOn(EncodedForm(front + [p]), AMP) == EncodedPairs(front) + [EncodedPair(p)]
  {
    assert (front + [p])[..|front|] == front;
    SplitOnConcat(EncodedForm(front), AMP, EncodedPair(p));
    PairHasNoAmp(p);
  }

  lemma {:induction false} SplitForm(pairs: seq<(Text, Text)>)
    requires pairs != []
    ensures SplitOn(EncodedForm(pairs), AMP) == EncodedPairs(pairs)
  {
    var front, p := pairs[..|pairs| - 1], pairs[|pairs| - 1];
    assert pairs == front + [p];
    assert EncodedPairs(pairs) == EncodedPairs(front) + [EncodedPair(p)];
    if front == [] {
      PairHasNoAmp(p);
      assert EncodedForm(pairs) == EncodedPair(p);
    } else {
      SplitForm(front);
      SplitFormStep(front, p);
    }
  }

  lemma PairDecodes(p: (Text, Text))
    ensures SplitOnce(EncodedPair(p), EQUALS) == (Encoded(p.0), Encoded(p.1))
    ensures Decoded(Encoded(p.0)) == p.0 && Decoded(Encoded(p.1)) == p.1
  {
    FindByte(Encoded(p.0), EQUALS, Encoded(p.1));
    var s := EncodedPair(p);
    assert s[..|Encoded(p.0)|] == Encoded(p.0) && s[|Encoded(p.0)| + 1..] == Encoded(p.1);
    DecodeInvertsEncode(p.0);
    DecodeInvertsEncode(p.1);
  }

  /** Inserting the pairs one by one; a later pair of the same key wins. */
  function MapOf(pairs: seq<(Text, Text)>): map<Octets, Octets> {
    if pairs == [] then map[] else MapOf(pairs[..|pairs| - 1])[pairs[|pairs| - 1].0 := pairs[|pairs| - 1].1]
  }

  lemma {:induction false} LaterPairsWin(pairs: seq<(Text, Text)>, i: nat)
    requires i < |pairs| && forall j | i < j < |pairs| :: pairs[j].0 != pairs[i].0
    ensures pairs[i].0 in MapOf(pairs) && MapOf(pairs)[pairs[i].0] == pairs[i].1
  {
    if i < |pairs| - 1 {
      LaterPairsWin(pairs[..|pairs| - 1], i);
    }
  }

  lemma {:induction false} ParamsOfPairs(pairs: seq<(Text, Text)>)
    ensures Params(EncodedPairs(pairs)) == MapOf(pairs)
  {
    if pairs != [] {
      var front, p := pairs[..|pairs| - 1], pairs[|pairs| - 1];
      ParamsOfPairs(front);
      PairDecodes(p);
      assert EncodedPairs(pairs)[..|pairs| - 1] == EncodedPairs(front);
    }
  }

  /** Any pairs printed behind any path without '?' are read back: the path, and the map in which
      later pairs win. */
  lemma {:induction false} QueryRoundTrip(path: Octets, pairs: seq<(Text, Text)>)
    requires QUESTION !in path
    ensures var raw := path + [QUESTION] + EncodedForm(pairs);
      && SplitOnce(raw, QUESTION).0 == path
      && Params(SplitOn(SplitOnce(raw, QUESTION).1, AMP)) == MapOf(pairs)
  {
    var raw := path + [QUESTION] + EncodedForm(pairs);
    FindByte(path, QUESTION, EncodedForm(pairs));
    assert raw[..|path|] == path && raw[|path| + 1..] == EncodedForm(pairs);
    if pairs != [] {
      SplitForm(pairs);
      ParamsOfPairs(pairs);
    } else {
      FindByteNone([], AMP);
      var nothing: seq<Octets> := [[]];
      assert nothing[..0] == [] && Params(nothing) == map[];
    }
  }
}
