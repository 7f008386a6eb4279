/** Hex text and the canonical bytes that chat messages and identity bindings are signed over. */
module Me {
  import opened Bytes
  import opened Utf8
  import opened Decimal

  // ----- hex -----

  datatype HexError = OddLength(length: nat) | NonHex(b: byte)

  function NibbleDigit(v: int): (c: byte)
    requires 0 <= v < 16
  {
    if v < 10 then (48 + v) as byte else (87 + v) as byte
  }

  /** `hex_nibble` */
  function HexNibble(c: byte): (r: Result<int, HexError>)
    ensures r.Ok? ==> 0 <= r.value < 16 && NibbleDigit(r.value) == LowerByte(c)
    ensures r.Err? ==> r.error == NonHex(c) && forall v | 0 <= v < 16 :: NibbleDigit(v) != LowerByte(c)
  {
    if 48 <= c <= 57 then Ok(c as int - 48)
    else if 97 <= c <= 102 then Ok(10 + c as int - 97)
    else if 65 <= c <= 70 then Ok(10 + c as int - 65)
    else Err(NonHex(c))
  }

  /** The digit `c`, of either case, has value `v`. */
  predicate IsHexDigit(c: byte, v: int) {
    || (48 <= c <= 57 && v == c as int - 48)
    || (97 <= c <= 102 && v == c as int - 87)
    || (65 <= c <= 70 && v == c as int - 55)
  }

  lemma HexDigitIff(c: byte, v: int)
    ensures HexNibble(c) == Ok(v) <==> IsHexDigit(c, v)
    ensures HexNibble(c).Err? <==> forall w :: !IsHexDigit(c, w)
  {
    if HexNibble(c).Ok? {
      assert IsHexDigit(c, HexNibble(c).value);
    }
  }

  /** Two lower-case hex digits a byte, high nibble first. */
  function HexOf(bs: Octets): (s: Octets)
    ensures |s| == 2 * |bs|
  {
    if bs == [] then []
    else
      HexOf(bs[..|bs| - 1]) + [NibbleDigit(bs[|bs| - 1] as int / 16), NibbleDigit(bs[|bs| - 1] as int % 16)]
  }

  /** One more pair of digits behind what was decoded; the first error stays. */
  function WithPair(front: Result<Octets, HexError>, hi: Result<int, HexError>, lo: Result<int, HexError>):
    (r: Result<Octets, HexError>)
    requires (hi.Ok? ==> 0 <= hi.value < 16) && (lo.Ok? ==> 0 <= lo.value < 16)
    ensures r.Ok? ==> front.Ok? && |r.value| == |front.value| + 1
  {
    if front.Err? then front
    else if hi.Err? then Err(hi.error)
    else if lo.Err? then Err(lo.error)
    else Ok(front.value + [(16 * hi.value + lo.value) as byte])
  }

  /** Decoding: the first odd length or non-hex byte is the error. */
  function UnHex(s: Octets): (r: Result<Octets, HexError>)
    ensures r.Ok? ==> |s| == 2 * |r.value|
  {
    if |s| % 2 != 0 then Err(OddLength(|s|))
    else if s == [] then Ok([])
    else WithPair(UnHex(s[..|s| - 2]), HexNibble(s[|s| - 2]), HexNibble(s[|s| - 1]))
  }

  /** The lower-case digit `c` has value `v`. */
  predicate IsLowerDigit(c: byte, v: int) {
    (48 <= c <= 57 && v == c as int - 48) || (97 <= c <= 102 && v == c as int - 87)
  }

  /** Byte `i` prints as two lower-case digits, its high half before its low half. */
  lemma {:induction false} HexOfAt(bs: Octets, i: nat)
    requires i < |bs|
    ensures IsLowerDigit(HexOf(bs)[2 * i], bs[i] as int / 16)
    ensures IsLowerDigit(HexOf(bs)[2 * i + 1], bs[i] as int % 16)
  {
    if i < |bs| - 1 {
      HexOfAt(bs[..|bs| - 1], i);
    }
  }

  /** Two digits of either case read as a byte, the first as its high half. */
  lemma {:induction false} UnHexAt(s: Octets, i: nat, hi: int, lo: int)
    requires UnHex(s).Ok? && 2 * i + 1 < |s| && IsHexDigit(s[2 * i], hi) && IsHexDigit(s[2 * i + 1], lo)
    ensures UnHex(s).value[i] as int == 16 * hi + lo
  {
    UnHexLast(s);
    if 2 * i + 2 < |s| {
      UnHexAt(s[..|s| - 2], i, hi, lo);
    } else {
      HexDigitIff(s[2 * i], hi);
      HexDigitIff(s[2 * i + 1], lo);
    }
  }

  method HexLower(bs: Octets) returns (s: Octets)
    ensures s == HexOf(bs)
  {
    s := [];
    for n := 0 to |bs|
      invariant s == HexOf(bs[..n])
    {
      assert bs[..n + 1][..n] == bs[..n];
      s := s + [NibbleDigit(bs[n] as int / 16)];
      s := s + [NibbleDigit(bs[n] as int % 16)];
    }
    assert bs[..|bs|] == bs;
  }

  lemma PrefixPair(s: Octets, i: nat)
    requires i + 2 <= |s| && i % 2 == 0
    ensures UnHex(s[..i + 2]) == WithPair(UnHex(s[..i]), HexNibble(s[i]), HexNibble(s[i + 1]))
  {
    assert s[..i + 2][..i] == s[..i];
    UnHexLast(s[..i + 2]);
  }

  method HexDecode(s: Octets) returns (r: Result<Octets, HexError>)
    ensures r == UnHex(s)
  {
    if |s| % 2 != 0 {
      return Err(OddLength(|s|));
    }
    var out: Octets := [];
    var i := 0;
    while i < |s|
      invariant 0 <= i <= |s| && i % 2 == 0
      invariant UnHex(s[..i]) == Ok(out)
    {
      PrefixPair(s, i);
      var hi := HexNibble(s[i]);
      var lo := HexNibble(s[i + 1]);
      if hi.Err? {
        UnHexErrSticks(s, i + 2);
        return Err(hi.error);
      }
      if lo.Err? {
        UnHexErrSticks(s, i + 2);
        return Err(lo.error);
      }
      out := out + [(16 * hi.value + lo.value) as byte];
      i := i + 2;
    }
    assert s[..i] == s;
    r := Ok(out);
  }

  lemma {:induction false} UnHexErrSticks(s: Octets, n: nat)
    requires n <= |s| && n % 2 == 0 && |s| % 2 == 0 && UnHex(s[..n]).Err?
    ensures UnHex(s) == UnHex(s[..n])
    decreases |s|
  {
    if n == |s| {
      assert s[..n] == s;
    } else {
      assert s[..|s| - 2][..n] == s[..n];
      UnHexErrSticks(s[..|s| - 2], n);
    }
  }

  lemma NibblesRebuild(b: byte)
    ensures HexNibble(NibbleDigit(b as int / 16)) == Ok(b as int / 16)
    ensures HexNibble(NibbleDigit(b as int % 16)) == Ok(b as int % 16)
    ensures 16 * (b as int / 16) + b as int % 16 == b as int
  {
  }

  lemma UnHexLast(s: Octets)
    requires |s| >= 2 && |s| % 2 == 0
    ensures UnHex(s) == WithPair(UnHex(s[..|s| - 2]), HexNibble(s[|s| - 2]), HexNibble(s[|s| - 1]))
  {
  }

  lemma HexOfFront(bs: Octets)
    requires bs != []
    ensures var s, b := HexOf(bs), bs[|bs| - 1] as int;
      s[..|s| - 2] == HexOf(bs[..|bs| - 1]) && s[|s| - 2] == NibbleDigit(b / 16) && s[|s| - 1] == NibbleDigit(b % 16)
  {
  }

  lemma WithPairOk(front: Octets, hi: int, lo: int, b: byte)
    requires 0 <= hi < 16 && 0 <= lo < 16 && 16 * hi + lo == b as int
    ensures WithPair(Ok(front), Ok(hi), Ok(lo)) == Ok(front + [b])
  {
  }

  /** Two more digits decode to one more byte. */
  lemma UnHexStep(s: Octets, front: Octets, hi: int, lo: int, b: byte)
    requires |s| >= 2 && |s| % 2 == 0 && UnHex(s[..|s| - 2]) == Ok(front)
    requires HexNibble(s[|s| - 2]) == Ok(hi) && HexNibble(s[|s| - 1]) == Ok(lo) && 16 * hi + lo == b as int
    ensures UnHex(s) == Ok(front + [b])
  {
    UnHexLast(s);
    WithPairOk(front, hi, lo, b);
  }

  /** The digits of the last byte decode. */
  lemma DigitsOfLast(bs: Octets)
    requires bs != []
    ensures var s, b := HexOf(bs), bs[|bs| - 1] as int;
      && s[..|s| - 2] == HexOf(bs[..|bs| - 1])
      && HexNibble(s[|s| - 2]) == Ok(b / 16) && HexNibble(s[|s| - 1]) == Ok(b % 16) && 16 * (b / 16) + b % 16 == b
  {
    HexOfFront(bs);
    NibblesRebuild(bs[|bs| - 1]);
  }

  lemma OneByteBack(s: Octets, front: Octets, b: byte)
    requires |s| >= 2 && |s| % 2 == 0 && UnHex(s[..|s| - 2]) == Ok(front)
    requires HexNibble(s[|s| - 2]) == Ok(b as int / 16) && HexNibble(s[|s| - 1]) == Ok(b as int % 16)
    ensures UnHex(s) == Ok(front + [b])
  {
    NibblesRebuild(b);
    UnHexStep(s, front, b as int / 16, b as int % 16, b);
  }

  lemma {:induction false} UnHexInvertsHexOf(bs: Octets)
    ensures UnHex(HexOf(bs)) == Ok(bs)
  {
    if bs != [] {
      var front := bs[..|bs| - 1];
      UnHexInvertsHexOf(front);
      DigitsOfLast(bs);
      OneByteBack(HexOf(bs), front, bs[|bs| - 1]);
      assert front + [bs[|bs| - 1]] == bs;
    }
  }

  predicate IsHexText(s: Octets) {
    |s| % 2 == 0 && forall i | 0 <= i < |s| :: HexNibble(s[i]).Ok?
  }

  lemma HexTextStep(front: Octets, x: byte, y: byte)
    ensures IsHexText(front + [x, y]) <==> IsHexText(front) && HexNibble(x).Ok? && HexNibble(y).Ok?
  {
    var s := front + [x, y];
    assert s[|front|] == x && s[|front| + 1] == y;
    assert forall i | 0 <= i < |front| :: s[i] == front[i];
  }

  /** Decoding accepts exactly the even-length hex strings. */
  lemma {:induction false} UnHexOkIff(s: Octets)
    ensures UnHex(s).Ok? <==> IsHexText(s)
  {
    if |s| % 2 == 0 && s != [] {
      var front := s[..|s| - 2];
      UnHexOkIff(front);
      HexTextStep(front, s[|s| - 2], s[|s| - 1]);
      assert s == front + [s[|s| - 2], s[|s| - 1]];
    }
  }

  /** Printing what was decoded folds the text to lower case. */
  lemma {:induction false} HexOfUnHexFoldsCase(s: Octets)
    requires UnHex(s).Ok?
    ensures HexOf(UnHex(s).value) == Lower(s)
  {
    if s != [] {
      var front, bs := s[..|s| - 2], UnHex(s).value;
      HexOfUnHexFoldsCase(front);
      var hi, lo := HexNibble(s[|s| - 2]).value, HexNibble(s[|s| - 1]).value;
      assert bs[..|bs| - 1] == UnHex(front).value && bs[|bs| - 1] == (16 * hi + lo) as byte;
      assert (16 * hi + lo) / 16 == hi && (16 * hi + lo) % 16 == lo;
      assert Lower(s) == Lower(front) + [LowerByte(s[|s| - 2]), LowerByte(s[|s| - 1])];
    }
  }

  // ----- canonical bytes -----

  type Key = k: Octets | |k| == 32 witness seq(32, _ => 0)

  type u64 = n: nat | n < 0x1_0000_0000_0000_0000

  const CHAT_TAG := Ascii("laye-chat/v1|")
  const BINDING_TAG := Ascii("laye-binding/v1|")

  datatype SignedChat = SignedChat(author: Key, body: Text, atMs: u64, signature: Octets)

  datatype BindingClaim = BindingClaim(
    peer: Key,
    provider: Text,
    canonicalId: Text,
    handle: Option<Text>,
    issuedAt: u64)

  datatype SignedBinding = SignedBinding(claim: BindingClaim, signature: Octets, signer: Key)

  function ChatBytes(c: SignedChat): Octets {
    CHAT_TAG + (HexOf(c.author) + ([PIPE] + (Digits(c.atMs) + ([PIPE] + c.body))))
  }

  /** The handle as it is printed: an absent handle prints like an empty one. */
  function PrintedHandle(h: Option<Text>): Text {
    match h
    case Some(t) => t
    case None => []
  }

  function ClaimBytes(c: BindingClaim): Octets {
    BINDING_TAG + (HexOf(c.peer) + ([PIPE] + (ClaimFields(c) + ([PIPE] + Digits(c.issuedAt)))))
  }

  function ClaimFields(c: BindingClaim): Octets {
    c.provider + [PIPE] + (c.canonicalId + [PIPE] + PrintedHandle(c.handle))
  }

  /** Field by field: the tag, the author in hex, the time, the body. */
  lemma ChatBytesAre(c: SignedChat)
    ensures ChatBytes(c) == Ascii("laye-chat/v1|") + HexOf(c.author) + [124] + Digits(c.atMs) + [124] + c.body
  {
  }

  /** The tag, the key in hex, provider, id, handle if any, and the time. */
  lemma ClaimBytesAre(c: BindingClaim)
    ensures ClaimBytes(c) ==
      Ascii("laye-binding/v1|") + (HexOf(c.peer) + ([124] + ((c.provider + [124] + (c.canonicalId + [124]
        + (if c.handle.Some? then c.handle.value else []))) + ([124] + Digits(c.issuedAt)))))
  {
  }

  /** Equal concatenations with equal-length heads have equal parts. */
  lemma SplitAtLength(a: Octets, x: Octets, b: Octets, y: Octets)
    requires a + x == b + y && |a| == |b|
    ensures a == b && x == y
  {
    assert a == (a + x)[..|a|] && b == (b + y)[..|b|];
    assert x == (a + x)[|a|..] && y == (b + y)[|b|..];
  }

  /** Equal concatenations whose heads avoid the separator have equal parts. */
  lemma SplitAtFirst(a: Octets, x: Octets, b: Octets, y: Octets, sep: byte)
    requires a + ([sep] + x) == b + ([sep] + y) && sep !in a && sep !in b
    ensures a == b && x == y
  {
    var s, t := a + ([sep] + x), b + ([sep] + y);
    assert s[|a|] == sep && t[|b|] == sep;
    SplitAtLength(a, [sep] + x, b, [sep] + y);
    SplitAtLength([sep], x, [sep], y);
  }

  /** The same, from the back. */
  lemma SplitAtLast(a: Octets, x: Octets, b: Octets, y: Octets, sep: byte)
    requires a + ([sep] + x) == b + ([sep] + y) && sep !in x && sep !in y
    ensures a == b && x == y
  {
    var s, t := a + ([sep] + x), b + ([sep] + y);
    assert s[|a|] == sep && t[|b|] == sep;
    SplitAtLength(a, [sep] + x, b, [sep] + y);
    SplitAtLength([sep], x, [sep], y);
  }

  lemma DigitsHaveNoPipe(n: nat)
    ensures PIPE !in Digits(n)
  {
  }

  lemma HexInjective(a: Octets, b: Octets)
    requires HexOf(a) == HexOf(b)
    ensures a == b
  {
    UnHexInvertsHexOf(a);
    UnHexInvertsHexOf(b);
  }

  /** A chat signature covers author, time and body: no two different triples share their bytes,
      whatever the bodies contain. */
  lemma ChatBytesInjective(a: SignedChat, b: SignedChat)
    requires ChatBytes(a) == ChatBytes(b)
    ensures a.author == b.author && a.atMs == b.atMs && a.body == b.body
  {
    var x, y := [PIPE] + a.body, [PIPE] + b.body;
    SplitAtLength(CHAT_TAG, HexOf(a.author) + ([PIPE] + (Digits(a.atMs) + x)),
                  CHAT_TAG, HexOf(b.author) + ([PIPE] + (Digits(b.atMs) + y)));
    SplitAtLength(HexOf(a.author), [PIPE] + (Digits(a.atMs) + x), HexOf(b.author), [PIPE] + (Digits(b.atMs) + y));
    SplitAtLength([PIPE], Digits(a.atMs) + x, [PIPE], Digits(b.atMs) + y);
    DigitsHaveNoPipe(a.atMs);
    DigitsHaveNoPipe(b.atMs);
    SplitAtFirst(Digits(a.atMs), a.body, Digits(b.atMs), b.body, PIPE);
    HexInjective(a.author, b.author);
    DigitsInjective(a.atMs, b.atMs);
  }

  /** No signature over a chat message is one over a binding. */
  lemma ChatBytesAreNotClaimBytes(c: SignedChat, b: BindingClaim)
    ensures ChatBytes(c) != ClaimBytes(b)
  {
    assert ChatBytes(c)[5] == CHAT_TAG[5] && ClaimBytes(b)[5] == BINDING_TAG[5];
  }

  /** Two claims share their bytes exactly when key, time and the joined middle part agree. */
  lemma ClaimBytesAgree(a: BindingClaim, b: BindingClaim)
    ensures ClaimBytes(a) == ClaimBytes(b)
      <==> a.peer == b.peer && a.issuedAt == b.issuedAt && ClaimFields(a) == ClaimFields(b)
  {
    if ClaimBytes(a) == ClaimBytes(b) {
      var x, y := ClaimFields(a) + ([PIPE] + Digits(a.issuedAt)), ClaimFields(b) + ([PIPE] + Digits(b.issuedAt));
      SplitAtLength(BINDING_TAG, HexOf(a.peer) + ([PIPE] + x), BINDING_TAG, HexOf(b.peer) + ([PIPE] + y));
      SplitAtLength(HexOf(a.peer), [PIPE] + x, HexOf(b.peer), [PIPE] + y);
      SplitAtLength([PIPE], x, [PIPE], y);
      DigitsHaveNoPipe(a.issuedAt);
      DigitsHaveNoPipe(b.issuedAt);
      SplitAtLast(ClaimFields(a), Digits(a.issuedAt), ClaimFields(b), Digits(b.issuedAt), PIPE);
      HexInjective(a.peer, b.peer);
      DigitsInjective(a.issuedAt, b.issuedAt);
    }
  }

  predicate PipeFree(c: BindingClaim) {
    PIPE !in c.provider && PIPE !in c.canonicalId && PIPE !in PrintedHandle(c.handle)
  }

  /** `c` is the only claim with its bytes. */
  ghost predicate Unambiguous(c: BindingClaim) {
    forall d: BindingClaim | ClaimBytes(d) == ClaimBytes(c) :: d == c
  }

  function CountPipes(s: Octets): nat {
    if s == [] then 0 else (if s[0] == PIPE then 1 else 0) + CountPipes(s[1..])
  }

  lemma {:induction false} CountPipesConcat(a: Octets, b: Octets)
    ensures CountPipes(a + b) == CountPipes(a) + CountPipes(b)
  {
    if a == [] {
      assert a + b == b;
    } else {
      assert (a + b)[1..] == a[1..] + b;
      CountPipesConcat(a[1..], b);
    }
  }

  lemma {:induction false} CountPipesZero(s: Octets)
    ensures CountPipes(s) == 0 <==> PIPE !in s
  {
    if s != [] {
      CountPipesZero(s[1..]);
      assert s == [s[0]] + s[1..];
    }
  }

  lemma CountFields(c: BindingClaim)
    ensures CountPipes(ClaimFields(c)) ==
      2 + CountPipes(c.provider) + CountPipes(c.canonicalId) + CountPipes(PrintedHandle(c.handle))
  {
    var tail := c.canonicalId + [PIPE] + PrintedHandle(c.handle);
    CountPipesConcat(c.provider + [PIPE], tail);
    CountPipesConcat(c.provider, [PIPE]);
    CountPipesConcat(c.canonicalId + [PIPE], PrintedHandle(c.handle));
    CountPipesConcat(c.canonicalId, [PIPE]);
    assert CountPipes([PIPE]) == 1 by { assert [PIPE][1..] == []; }
  }

  lemma PipeFreeByCount(c: BindingClaim)
    ensures PipeFree(c) <==> CountPipes(ClaimFields(c)) == 2
  {
    CountFields(c);
    CountPipesZero(c.provider);
    CountPipesZero(c.canonicalId);
    CountPipesZero(PrintedHandle(c.handle));
  }

  /** A pipe-free claim shares its bytes only with claims that print the same fields. */
  lemma PipeFreeFields(c: BindingClaim, d: BindingClaim)
    requires PipeFree(c) && ClaimFields(d) == ClaimFields(c)
    ensures d.provider == c.provider && d.canonicalId == c.canonicalId
    ensures PrintedHandle(d.handle) == PrintedHandle(c.handle)
  {
    PipeFreeByCount(c);
    PipeFreeByCount(d);
    ThreeFields(c.provider, c.canonicalId, PrintedHandle(c.handle), d.provider, d.canonicalId, PrintedHandle(d.handle));
  }

  lemma ThreeFields(p: Octets, i: Octets, h: Octets, p': Octets, i': Octets, h': Octets)
    requires p + [PIPE] + (i + [PIPE] + h) == p' + [PIPE] + (i' + [PIPE] + h')
    requires PIPE !in p && PIPE !in i && PIPE !in p' && PIPE !in i'
    ensures p == p' && i == i' && h == h'
  {
    var x, y := i + [PIPE] + h, i' + [PIPE] + h';
    assert p + [PIPE] + x == p + ([PIPE] + x) && p' + [PIPE] + y == p' + ([PIPE] + y);
    SplitAtFirst(p, x, p', y, PIPE);
    assert x == i + ([PIPE] + h) && y == i' + ([PIPE] + h');
    SplitAtFirst(i, h, i', h', PIPE);
  }

  /** A text that contains a pipe, cut at one. */
  lemma CutAtPipe(t: Text) returns (a: Text, b: Text)
    requires PIPE in t
    ensures t == a + [PIPE] + b
  {
    var i :| 0 <= i < |t| && t[i] == PIPE;
    assert t == t[..i] + [PIPE] + t[i + 1..];
    ValidSplitAscii(t[..i], PIPE, t[i + 1..]);
    a, b := t[..i], t[i + 1..];
  }

  lemma JoinAtPipe(a: Text, b: Text) returns (t: Text)
    ensures t == a + [PIPE] + b
  {
    ValidSplitAscii(a, PIPE, b);
    t := a + [PIPE] + b;
  }

  /** Moving a pipe from one field to the next leaves the printed fields alone. */
  lemma Regroup(a: Octets, b: Octets, c: Octets, d: Octets)
    ensures (a + [PIPE] + b) + [PIPE] + (c + [PIPE] + d) == a + [PIPE] + ((b + [PIPE] + c) + [PIPE] + d)
    ensures a + [PIPE] + ((b + [PIPE] + c) + [PIPE] + d) == a + [PIPE] + (b + [PIPE] + (c + [PIPE] + d))
  {
  }

  /** A claim with a pipe in a field has a different twin with the same bytes. */
  lemma PipeMakesTwin(c: BindingClaim) returns (d: BindingClaim)
    requires !PipeFree(c)
    ensures ClaimBytes(d) == ClaimBytes(c) && d != c
  {
    var h := PrintedHandle(c.handle);
    if PIPE in c.provider {
      var a, b := CutAtPipe(c.provider);
      var id := JoinAtPipe(b, c.canonicalId);
      d := c.(provider := a, canonicalId := id);
      Regroup(a, b, c.canonicalId, h);
      assert |d.provider| < |c.provider|;
    } else if PIPE in c.canonicalId {
      var a, b := CutAtPipe(c.canonicalId);
      var p := JoinAtPipe(c.provider, a);
      d := c.(provider := p, canonicalId := b);
      Regroup(c.provider, a, b, h);
      assert |d.provider| > |c.provider|;
    } else {
      var a, b := CutAtPipe(h);
      var id := JoinAtPipe(c.canonicalId, a);
      d := c.(canonicalId := id, handle := Some(b));
      Regroup(c.provider, c.canonicalId, a, b);
      assert |d.canonicalId| > |c.canonicalId|;
    }
    ClaimBytesAgree(c, d);
  }

  /** Exactly when a signature over a claim pins the claim down: no pipe in any text field, and a
      handle that is present and not empty (an absent and an empty handle print alike). */
  lemma ClaimUnambiguousIff(c: BindingClaim)
    ensures Unambiguous(c) <==> PipeFree(c) && c.handle.Some? && c.handle.value != []
  {
    if !PipeFree(c) {
      var d := PipeMakesTwin(c);
    } else if c.handle.None? || c.handle.value == [] {
      var d := c.(handle := if c.handle.None? then Some([]) else None);
      assert ClaimBytes(d) == ClaimBytes(c) && d != c;
    } else {
      forall d: BindingClaim | ClaimBytes(d) == ClaimBytes(c) ensures d == c {
        ClaimBytesAgree(c, d);
        PipeFreeFields(c, d);
      }
    }
  }
}
