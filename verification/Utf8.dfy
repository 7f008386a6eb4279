/** Well-formed UTF-8, as section 4 of RFC 3629 gives its syntax. A Rust `String` is a `Text`. */
module Utf8 {
  import opened Bytes

  /** 10xxxxxx */
  predicate IsTail(b: byte) {
    0x80 <= b <= 0xBF
  }

  /** Length of the encoded character at the front of `s`, 0 when there is none. */
  function CharLen(s: Octets): (n: nat)
    ensures n <= 4 && n <= |s|
    ensures 0 < n ==> forall i | 1 <= i < n :: IsTail(s[i])
    ensures 0 < n ==> !IsTail(s[0])
  {
    if |s| >= 1 && s[0] <= 0x7F then 1
    else if |s| >= 2 && 0xC2 <= s[0] <= 0xDF && IsTail(s[1]) then 2
    else if |s| >= 3 && ThreeByteLead(s[0], s[1]) && IsTail(s[2]) then 3
    else if |s| >= 4 && FourByteLead(s[0], s[1]) && IsTail(s[2]) && IsTail(s[3]) then 4
    else 0
  }

  predicate ThreeByteLead(a: byte, b: byte) {
    || (a == 0xE0 && 0xA0 <= b <= 0xBF)
    || (0xE1 <= a <= 0xEC && IsTail(b))
    || (a == 0xED && 0x80 <= b <= 0x9F)
    || (0xEE <= a <= 0xEF && IsTail(b))
  }

  predicate FourByteLead(a: byte, b: byte) {
    || (a == 0xF0 && 0x90 <= b <= 0xBF)
    || (0xF1 <= a <= 0xF3 && IsTail(b))
    || (a == 0xF4 && 0x80 <= b <= 0x8F)
  }

  predicate Valid(s: Octets) {
    s == [] || (CharLen(s) > 0 && Valid(s[CharLen(s)..]))
  }

  type Text = s: Octets | Valid(s) witness []

  /** `str::is_char_boundary` */
  predicate IsBoundary(s: Octets, i: nat) {
    i == 0 || i == |s| || (i < |s| && !IsTail(s[i]))
  }

  lemma CharLenExtend(a: Octets, b: Octets)
    requires CharLen(a) > 0
    ensures CharLen(a + b) == CharLen(a)
  {
  }

  lemma {:induction false} ValidConcat(a: Octets, b: Octets)
    requires Valid(a)
    ensures Valid(a + b) <==> Valid(b)
  {
    if a == [] {
      assert a + b == b;
    } else {
      CharLenExtend(a, b);
      var n := CharLen(a);
      assert (a + b)[n..] == a[n..] + b;
      ValidConcat(a[n..], b);
    }
  }

  lemma {:induction false} ValidAscii(s: Octets)
    requires forall i | 0 <= i < |s| :: s[i] < 0x80
    ensures Valid(s)
  {
    if s != [] {
      ValidAscii(s[1..]);
    }
  }

  function AsciiText(s: string): (t: Text)
    requires forall i | 0 <= i < |s| :: s[i] as int < 128
    ensures t == Ascii(s)
  {
    ValidAscii(Ascii(s));
    Ascii(s)
  }

  /** Cutting well-formed text at an ASCII byte leaves well-formed text on both sides. */
  lemma {:induction false} ValidSplitAscii(a: Octets, c: byte, b: Octets)
    requires c < 0x80
    ensures Valid(a + [c] + b) <==> Valid(a) && Valid(b)
  {
    var s := a + [c] + b;
    if a == [] {
      assert s[1..] == b;
    } else {
      var n := CharLen(s);
      assert s[|a|] == c;
      if n > 0 {
        assert n <= |a|;
        assert s[n..] == a[n..] + [c] + b;
        CharLenPrefix(a, [c] + b);
        assert s == a + ([c] + b);
        ValidSplitAscii(a[n..], c, b);
      } else if CharLen(a) > 0 {
        assert s == a + ([c] + b);
        CharLenExtend(a, [c] + b);
      }
    }
  }

  lemma CharLenPrefix(a: Octets, b: Octets)
    requires 0 < CharLen(a + b) <= |a|
    ensures CharLen(a) == CharLen(a + b)
  {
  }

  /** In well-formed text the character boundaries are exactly the lengths of its well-formed prefixes. */
  lemma {:induction false} BoundaryIsValidPrefix(s: Text, i: nat)
    requires i <= |s|
    ensures IsBoundary(s, i) <==> Valid(s[..i])
  {
    if s != [] && CharLen(s) <= i {
      var n := CharLen(s);
      var first, rest := s[..n], s[n..];
      OneChar(s);
      assert s[..i] == first + rest[..i - n];
      ValidConcat(first, rest[..i - n]);
      BoundaryIsValidPrefix(rest, i - n);
      if i == n {
        NoTailAtFront(rest);
      }
    }
  }

  lemma OneChar(s: Text)
    requires s != []
    ensures Valid(s[..CharLen(s)])
  {
  }

  lemma NoTailAtFront(s: Text)
    ensures s != [] ==> !IsTail(s[0])
  {
  }

  /** `chars().count()`: in well-formed text each character has one byte that is not a tail. */
  function Chars(s: Octets): nat {
    if s == [] then 0 else Chars(s[..|s| - 1]) + if IsTail(s[|s| - 1]) then 0 else 1
  }

  lemma {:induction false} CharsConcat(a: Octets, b: Octets)
    ensures Chars(a + b) == Chars(a) + Chars(b)
  {
    if b == [] {
      assert a + b == a;
    } else {
      assert (a + b)[..|a + b| - 1] == a + b[..|b| - 1];
      CharsConcat(a, b[..|b| - 1]);
    }
  }

  lemma {:induction false} CharsOfOne(s: Octets)
    requires s != [] && !IsTail(s[0]) && forall i | 1 <= i < |s| :: IsTail(s[i])
    ensures Chars(s) == 1
  {
    if |s| > 1 {
      CharsOfOne(s[..|s| - 1]);
    }
  }

  /** The first character and the rest of well-formed text. */
  lemma CharsStep(s: Text)
    requires s != []
    ensures Chars(s) == 1 + Chars(s[CharLen(s)..])
  {
    var n := CharLen(s);
    assert s == s[..n] + s[n..];
    CharsConcat(s[..n], s[n..]);
    CharsOfOne(s[..n]);
  }

  /** Every index of well-formed text has a boundary at most three bytes below it. */
  lemma {:induction false} BoundaryNearby(s: Text, i: nat) returns (j: nat)
    requires i <= |s|
    ensures j <= i <= j + 3 && IsBoundary(s, j)
  {
    if i == 0 {
      j := 0;
    } else {
      var n := CharLen(s);
      if i < n {
        j := 0;
      } else {
        j := BoundaryNearby(s[n..], i - n);
        j := j + n;
        if j == n {
          NoTailAtFront(s[n..]);
        }
      }
    }
  }
}
