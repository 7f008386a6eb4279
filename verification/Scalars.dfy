/** Well-formed UTF-8 is what Unicode scalar values encode to, as section 3 of RFC 3629 defines it, and
    nothing else. */
module Scalars {
  import opened Bytes
  import opened Utf8

  /** Any code point but a surrogate. */
  predicate IsScalar(c: int) {
    0 <= c < 0xD800 || 0xE000 <= c < 0x110000
  }

  function Encoded(c: int): (b: Octets)
    requires IsScalar(c)
    ensures 1 <= |b| <= 4
  {
    if c < 0x80 then [c as byte]
    else if c < 0x800 then [(0xC0 + c / 64) as byte, (0x80 + c % 64) as byte]
    else if c < 0x10000 then [(0xE0 + c / 4096) as byte, (0x80 + c / 64 % 64) as byte, (0x80 + c % 64) as byte]
    else [(0xF0 + c / 262144) as byte, (0x80 + c / 4096 % 64) as byte, (0x80 + c / 64 % 64) as byte,
          (0x80 + c % 64) as byte]
  }

  predicate AllScalars(cs: seq<int>) {
    forall i | 0 <= i < |cs| :: IsScalar(cs[i])
  }

  function AllEncoded(cs: seq<int>): Octets
    requires AllScalars(cs)
  {
    if cs == [] then [] else Encoded(cs[0]) + AllEncoded(cs[1..])
  }

  lemma ShortIsChar(c: int, s: Octets)
    requires IsScalar(c) && c < 0x800 && Encoded(c) <= s
    ensures CharLen(s) == |Encoded(c)|
  {
  }

  lemma ThreeIsChar(c: int, s: Octets)
    requires IsScalar(c) && 0x800 <= c < 0x10000 && Encoded(c) <= s
    ensures CharLen(s) == |Encoded(c)|
  {
    assert s[0] == Encoded(c)[0] && s[1] == Encoded(c)[1] && s[2] == Encoded(c)[2];
  }

  lemma FourIsChar(c: int, s: Octets)
    requires IsScalar(c) && 0x10000 <= c && Encoded(c) <= s
    ensures CharLen(s) == |Encoded(c)|
  {
    assert s[0] == Encoded(c)[0] && s[1] == Encoded(c)[1] && s[2] == Encoded(c)[2] && s[3] == Encoded(c)[3];
  }

  /** An encoded scalar value is one character. */
  lemma EncodedIsChar(c: int, rest: Octets)
    requires IsScalar(c)
    ensures CharLen(Encoded(c) + rest) == |Encoded(c)|
  {
    if c < 0x800 {
      ShortIsChar(c, Encoded(c) + rest);
    } else if c < 0x10000 {
      ThreeIsChar(c, Encoded(c) + rest);
    } else {
      FourIsChar(c, Encoded(c) + rest);
    }
  }

  /** The six bits of a tail byte. */
  function Tail(b: byte): int
    requires IsTail(b)
  {
    b as int - 0x80
  }

  lemma TwoBytes(s: Octets) returns (c: int)
    requires CharLen(s) == 2
    ensures IsScalar(c) && Encoded(c) == s[..2]
  {
    c := 64 * (s[0] as int - 0xC0) + Tail(s[1]);
    assert c / 64 == s[0] as int - 0xC0 && c % 64 == Tail(s[1]);
  }

  lemma ThreeBytes(s: Octets) returns (c: int)
    requires CharLen(s) == 3
    ensures IsScalar(c) && Encoded(c) == s[..3]
  {
    var front := 64 * (s[0] as int - 0xE0) + Tail(s[1]);
    c := 64 * front + Tail(s[2]);
    assert c / 64 == front && c % 64 == Tail(s[2]);
    assert front / 64 == s[0] as int - 0xE0 && front % 64 == Tail(s[1]);
    assert c / 4096 == front / 64;
  }

  lemma FourBytes(s: Octets) returns (c: int)
    requires CharLen(s) == 4
    ensures IsScalar(c) && Encoded(c) == s[..4]
  {
    var lead := 64 * (s[0] as int - 0xF0) + Tail(s[1]);
    var front := 64 * lead + Tail(s[2]);
    c := 64 * front + Tail(s[3]);
    assert c / 64 == front && c % 64 == Tail(s[3]);
    assert front / 64 == lead && front % 64 == Tail(s[2]);
    assert lead / 64 == s[0] as int - 0xF0 && lead % 64 == Tail(s[1]);
    assert c / 4096 == lead && c / 262144 == lead / 64;
  }

  /** A character at the front is some scalar value's encoding. */
  lemma CharIsEncoded(s: Octets) returns (c: int)
    requires CharLen(s) > 0
    ensures IsScalar(c) && Encoded(c) == s[..CharLen(s)]
  {
    if CharLen(s) == 1 {
      c := s[0] as int;
    } else if CharLen(s) == 2 {
      c := TwoBytes(s);
    } else if CharLen(s) == 3 {
      c := ThreeBytes(s);
    } else {
      c := FourBytes(s);
    }
  }

  lemma {:induction false} EncodedIsValid(cs: seq<int>)
    requires AllScalars(cs)
    ensures Valid(AllEncoded(cs)) && Chars(AllEncoded(cs)) == |cs|
  {
    if cs != [] {
      var first, rest := Encoded(cs[0]), AllEncoded(cs[1..]);
      EncodedIsValid(cs[1..]);
      EncodedIsChar(cs[0], rest);
      assert (first + rest)[|first|..] == rest;
      CharsStep(first + rest);
    }
  }

  lemma {:induction false} ValidIsEncoded(s: Octets) returns (cs: seq<int>)
    requires Valid(s)
    ensures AllScalars(cs) && AllEncoded(cs) == s
  {
    if s == [] {
      cs := [];
    } else {
      var c := CharIsEncoded(s);
      var rest := ValidIsEncoded(s[CharLen(s)..]);
      cs := [c] + rest;
      assert cs[1..] == rest && s == s[..CharLen(s)] + s[CharLen(s)..];
    }
  }

  ghost predicate Encodes(s: Octets, cs: seq<int>) {
    AllScalars(cs) && AllEncoded(cs) == s
  }

  /** Bytes are well-formed text exactly when some scalar values encode to them; the text then has that
      many characters. */
  lemma ValidIffEncoded(s: Octets)
    ensures Valid(s) <==> exists cs :: Encodes(s, cs)
    ensures forall cs :: Encodes(s, cs) ==> Chars(s) == |cs|
  {
    forall cs | Encodes(s, cs) ensures Valid(s) && Chars(s) == |cs| {
      EncodedIsValid(cs);
    }
    if Valid(s) {
      var cs := ValidIsEncoded(s);
      assert Encodes(s, cs);
    }
  }
}
