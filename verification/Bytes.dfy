/** Bytes, byte-string search and the small sequence vocabulary the other modules share. */
module Bytes {

  newtype byte = x: int | 0 <= x < 256

  type Octets = seq<byte>

  datatype Option<+T> = None | Some(value: T)

  datatype Result<+T, +E> = Ok(value: T) | Err(error: E)

  /** The bytes of an ASCII literal. */
  function Ascii(s: string): (b: Octets)
    requires forall i | 0 <= i < |s| :: s[i] as int < 128
    ensures |b| == |s|
    ensures forall i | 0 <= i < |s| :: b[i] as int == s[i] as int
  {
    seq(|s|, i requires 0 <= i < |s| => s[i] as int as byte)
  }

  const CRLF: Octets := [13, 10]
  const COLON: byte := 58
  const SPACE: byte := 32
  const PIPE: byte := 124

  /** `u8::to_ascii_lowercase` */
  function LowerByte(c: byte): byte {
    if 65 <= c <= 90 then c + 32 else c
  }

  function Lower(s: Octets): (r: Octets)
    ensures |r| == |s| && forall i | 0 <= i < |s| :: r[i] == LowerByte(s[i])
  {
    seq(|s|, i requires 0 <= i < |s| => LowerByte(s[i]))
  }

  /** `needle` occurs in `hay` at index `i`. */
  predicate MatchAt(hay: Octets, needle: Octets, i: int) {
    0 <= i && i + |needle| <= |hay| && hay[i..i + |needle|] == needle
  }

  predicate FirstMatch(hay: Octets, needle: Octets, i: int) {
    MatchAt(hay, needle, i) && forall j | 0 <= j < i :: !MatchAt(hay, needle, j)
  }

  lemma {:induction false} FirstMatchExists(hay: Octets, needle: Octets, i: nat) returns (k: nat)
    requires MatchAt(hay, needle, i)
    ensures k <= i && FirstMatch(hay, needle, k)
  {
    if j: nat :| j < i && MatchAt(hay, needle, j) {
      k := FirstMatchExists(hay, needle, j);
    } else {
      k := i;
    }
  }

  /** Index of the first occurrence of `needle` in `hay`. */
  function Find(hay: Octets, needle: Octets): (r: Option<nat>)
    ensures r.Some? ==> FirstMatch(hay, needle, r.value)
    ensures r.None? ==> forall j :: !MatchAt(hay, needle, j)
  {
    if exists k: nat | k <= |hay| :: FirstMatch(hay, needle, k) then
      var k: nat :| k <= |hay| && FirstMatch(hay, needle, k);
      Some(k)
    else
      assert forall j :: !MatchAt(hay, needle, j) by {
        if j :| MatchAt(hay, needle, j) {
          var k := FirstMatchExists(hay, needle, j);
        }
      }
      None
  }

  lemma FindAt(hay: Octets, needle: Octets, i: nat)
    requires FirstMatch(hay, needle, i)
    ensures Find(hay, needle) == Some(i)
  {
  }

  lemma MatchExtend(hay: Octets, ext: Octets, needle: Octets, i: int)
    requires i + |needle| <= |hay|
    ensures MatchAt(hay + ext, needle, i) <==> MatchAt(hay, needle, i)
  {
  }

  /** A hit in a prefix is the hit in every extension. */
  lemma FindExtend(hay: Octets, ext: Octets, needle: Octets)
    requires Find(hay, needle).Some?
    ensures Find(hay + ext, needle) == Find(hay, needle)
  {
    var i := Find(hay, needle).value;
    forall j | 0 <= j <= i ensures MatchAt(hay + ext, needle, j) <==> MatchAt(hay, needle, j) {
      MatchExtend(hay, ext, needle, j);
    }
    FindAt(hay + ext, needle, i);
  }

  /** A hit that already fits in a prefix is the prefix's own hit. */
  lemma FindShrink(hay: Octets, ext: Octets, needle: Octets)
    requires Find(hay + ext, needle).Some?
    requires Find(hay + ext, needle).value + |needle| <= |hay|
    ensures Find(hay, needle) == Find(hay + ext, needle)
  {
    var i := Find(hay + ext, needle).value;
    forall j | 0 <= j <= i ensures MatchAt(hay + ext, needle, j) <==> MatchAt(hay, needle, j) {
      MatchExtend(hay, ext, needle, j);
    }
    FindAt(hay, needle, i);
  }

  /** `pre` lacks byte `b`, so the first `b` of `pre + [b] + rest` is the separator. */
  lemma FindByte(pre: Octets, b: byte, rest: Octets)
    requires b !in pre
    ensures Find(pre + [b] + rest, [b]) == Some(|pre|)
  {
    var hay := pre + [b] + rest;
    assert hay[|pre|..|pre| + 1] == [b];
    forall j | 0 <= j < |pre| ensures !MatchAt(hay, [b], j) {
      assert hay[j..j + 1][0] == pre[j];
    }
    FindAt(hay, [b], |pre|);
  }

  /** A byte foreign to the needle separates the search of what lies before and behind it. */
  lemma FindBarrier(a: Octets, c: byte, rest: Octets, needle: Octets)
    requires c !in needle && needle != []
    ensures Find(a + [c] + rest, needle) ==
            if Find(a, needle).Some? then Find(a, needle)
            else if Find(rest, needle).Some? then Some(|a| + 1 + Find(rest, needle).value)
            else None
  {
    if Find(a, needle).Some? {
      assert a + [c] + rest == a + ([c] + rest);
      FindExtend(a, [c] + rest, needle);
    } else {
      forall j | 0 <= j < |a + [c]| ensures !MatchAt(a + [c] + rest, needle, j) {
        BarrierMatch(a, c, rest, needle, j);
      }
      FindShift(a + [c], rest, needle);
    }
  }

  lemma BarrierMatch(a: Octets, c: byte, rest: Octets, needle: Octets, j: nat)
    requires c !in needle && needle != []
    ensures MatchAt(a + [c] + rest, needle, j)
      <==> MatchAt(a, needle, j) || (j > |a| && MatchAt(rest, needle, j - |a| - 1))
  {
    var hay := a + [c] + rest;
    if j + |needle| <= |a| {
      assert hay[j..j + |needle|] == a[j..j + |needle|];
    } else if j <= |a| {
      if j + |needle| <= |hay| {
        assert hay[j..j + |needle|][|a| - j] == c;
      }
    } else if j + |needle| <= |hay| {
      assert hay[j..j + |needle|] == rest[j - |a| - 1..j - |a| - 1 + |needle|];
    }
  }

  lemma ShiftMatch(a: Octets, rest: Octets, needle: Octets, j: nat)
    ensures MatchAt(a + rest, needle, |a| + j) <==> MatchAt(rest, needle, j)
  {
  }

  lemma FindNone(hay: Octets, needle: Octets)
    requires forall j: nat :: !MatchAt(hay, needle, j)
    ensures Find(hay, needle) == None
  {
  }

  /** When nothing matches before `rest` starts, the first match is that of `rest`. */
  lemma FindShift(a: Octets, rest: Octets, needle: Octets)
    requires forall j | 0 <= j < |a| :: !MatchAt(a + rest, needle, j)
    ensures Find(a + rest, needle) == if Find(rest, needle).Some? then Some(|a| + Find(rest, needle).value) else None
  {
    var r := Find(rest, needle);
    forall j: nat | r.None? || j < |a| + r.value ensures !MatchAt(a + rest, needle, j) {
      if j >= |a| {
        ShiftMatch(a, rest, needle, j - |a|);
      }
    }
    if r.Some? {
      ShiftMatch(a, rest, needle, r.value);
      FindAt(a + rest, needle, |a| + r.value);
    } else {
      FindNone(a + rest, needle);
    }
  }

  /** A line without CRLF ends at the first CRLF that follows it. */
  lemma FindLineEnd(line: Octets, rest: Octets)
    requires Find(line, CRLF).None?
    ensures Find(line + CRLF + rest, CRLF) == Some(|line|)
  {
    var hay := line + CRLF + rest;
    assert hay[|line|..|line| + 2] == CRLF;
    forall j | 0 <= j < |line| ensures !MatchAt(hay, CRLF, j) {
      if j + 2 <= |line| {
        assert hay[j..j + 2] == line[j..j + 2];
        assert !MatchAt(line, CRLF, j);
      } else {
        assert hay[j..j + 2][1] == 13;
      }
    }
    FindAt(hay, CRLF, |line|);
  }

  lemma FindByteNone(s: Octets, b: byte)
    ensures Find(s, [b]).None? <==> b !in s
  {
    if b in s {
      var i :| 0 <= i < |s| && s[i] == b;
      assert MatchAt(s, [b], i) by { assert s[i..i + 1] == [b]; }
    } else {
      forall j ensures !MatchAt(s, [b], j) {
        if 0 <= j < |s| {
          assert s[j..j + 1][0] == s[j];
        }
      }
    }
  }

  /** The last `n` elements (all of them when there are fewer). */
  function LastN<T>(s: seq<T>, n: nat): (r: seq<T>)
    ensures |r| == if |s| <= n then |s| else n
    ensures |r| <= |s| && r == s[|s| - |r|..]
  {
    if |s| <= n then s else s[|s| - n..]
  }

  /** Dropping the oldest early does not change the newest `n`. */
  lemma LastNTwice<T>(a: seq<T>, b: seq<T>, n: nat)
    ensures LastN(LastN(a, n) + b, n) == LastN(a + b, n)
  {
    if |a| > n {
      var s := a + b;
      assert LastN(a, n) + b == s[|a| - n..];
      assert s[|a| - n..][|b|..] == s[|a| - n + |b|..];
    }
  }

  lemma ConcatAssoc<T>(a: seq<T>, b: seq<T>, c: seq<T>)
    ensures (a + b) + c == a + (b + c)
  {
  }

  lemma SliceOfRest<T>(s: seq<T>, off: nat, i: nat, j: nat)
    requires i <= j && off + j <= |s|
    ensures s[off..][i..j] == s[off + i..off + j] && s[off..][j..] == s[off + j..]
  {
  }

  /** The first `n` elements (all of them when there are fewer). */
  function FirstN<T>(s: seq<T>, n: nat): (r: seq<T>)
    ensures |r| == if |s| <= n then |s| else n
    ensures |r| <= |s| && r == s[..|r|]
  {
    if |s| <= n then s else s[..n]
  }

  function Filter<T>(s: seq<T>, keep: T -> bool): (r: seq<T>)
    ensures forall x | x in r :: x in s && keep(x)
    ensures forall x | x in s && keep(x) :: x in r
    ensures |r| <= |s|
  {
    if s == [] then [] else (if keep(s[0]) then [s[0]] else []) + Filter(s[1..], keep)
  }

  lemma {:induction false} FilterConcat<T>(a: seq<T>, b: seq<T>, keep: T -> bool)
    ensures Filter(a + b, keep) == Filter(a, keep) + Filter(b, keep)
  {
    if a == [] {
      assert a + b == b;
    } else {
      assert (a + b)[1..] == a[1..] + b;
      FilterConcat(a[1..], b, keep);
    }
  }

  /** How many elements are kept. */
  function Count<T>(s: seq<T>, keep: T -> bool): nat {
    if s == [] then 0 else Count(s[..|s| - 1], keep) + if keep(s[|s| - 1]) then 1 else 0
  }

  /** Element `k` stands in `r` behind as many elements as are kept before it. */
  ghost predicate InPlace<T>(s: seq<T>, keep: T -> bool, r: seq<T>, k: nat)
    requires k < |s|
  {
    Count(s[..k], keep) < |r| && r[Count(s[..k], keep)] == s[k]
  }

  /** `r` holds the kept elements of `s`, each as often as it stands there and in the same order. */
  ghost predicate Picks<T>(s: seq<T>, keep: T -> bool, r: seq<T>) {
    |r| == Count(s, keep) && forall k: nat | k < |s| && keep(s[k]) :: InPlace(s, keep, r, k)
  }

  lemma InPlaceLater<T>(s: seq<T>, keep: T -> bool, r: seq<T>, more: seq<T>, k: nat)
    requires s != [] && k < |s| - 1 && InPlace(s[..|s| - 1], keep, r, k)
    ensures InPlace(s, keep, r + more, k)
  {
    assert s[..|s| - 1][..k] == s[..k];
  }

  lemma {:induction false} FilterPicks<T>(s: seq<T>, keep: T -> bool)
    ensures Picks(s, keep, Filter(s, keep))
  {
    if s != [] {
      var front, x := s[..|s| - 1], s[|s| - 1];
      FilterPicks(front, keep);
      assert s == front + [x];
      FilterSnoc(front, x, keep);
      forall k: nat | k < |s| && keep(s[k]) ensures InPlace(s, keep, Filter(s, keep), k) {
        if k < |front| {
          InPlaceLater(s, keep, Filter(front, keep), if keep(x) then [x] else [], k);
        }
      }
    }
  }

  lemma FilterSnoc<T>(s: seq<T>, x: T, keep: T -> bool)
    ensures Filter(s + [x], keep) == Filter(s, keep) + if keep(x) then [x] else []
  {
    FilterConcat(s, [x], keep);
    assert [x][1..] == [];
  }

  function Flatten<T>(ss: seq<seq<T>>): seq<T> {
    if ss == [] then [] else ss[0] + Flatten(ss[1..])
  }
}
