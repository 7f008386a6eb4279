/** Decimal text of unsigned integers: Rust's `{}` on unsigned integers and its inverse. */
module Decimal {
  import opened Bytes

  predicate IsDigit(b: byte) {
    48 <= b <= 57
  }

  predicate AllDigits(s: Octets) {
    forall i | 0 <= i < |s| :: IsDigit(s[i])
  }

  /** Positional value of a digit string; the empty string is worth 0. */
  function Value(s: Octets): nat
    requires AllDigits(s)
  {
    if s == [] then 0 else 10 * Value(s[..|s| - 1]) + (s[|s| - 1] as int - 48)
  }

  /** The digits of `n`, no leading zero. */
  function Digits(n: nat): (s: Octets)
    ensures s != [] && AllDigits(s) && Value(s) == n
    ensures s[0] == 48 ==> n == 0
  {
    if n < 10 then
      assert [(48 + n) as byte][..0] == [];
      [(48 + n) as byte]
    else
      var front, last := Digits(n / 10), (48 + n % 10) as byte;
      assert (front + [last])[..|front|] == front;
      front + [last]
  }

  lemma OneMoreTen(a: nat, tens: nat)
    ensures 10 * (a * tens) == a * (10 * tens)
  {
  }

  /** Each digit counts ten times the one behind it. */
  lemma {:induction false} ValueAt(s: Octets, t: Octets)
    requires AllDigits(s) && AllDigits(t)
    ensures AllDigits(s + t) && Value(s + t) == Value(s) * Tens(|t|) + Value(t)
  {
    if t == [] {
      assert s + t == s;
    } else {
      var front := t[..|t| - 1];
      ValueAt(s, front);
      OneMoreTen(Value(s), Tens(|front|));
      assert (s + t)[..|s + t| - 1] == s + front;
    }
  }

  function Tens(k: nat): nat {
    if k == 0 then 1 else 10 * Tens(k - 1)
  }

  lemma DigitsInjective(m: nat, n: nat)
    requires Digits(m) == Digits(n)
    ensures m == n
  {
  }
}
