/** Numerals in bases up to sixteen, without leading zeros, and their values. */
module Numerals {

  function Digit(n: nat): char
    requires n < 16
  {
    if n < 10 then '0' + n as char else 'a' + (n - 10) as char
  }

  /** The value of a digit of either case, or -1. */
  function DigitValue(c: char): (n: int)
    ensures -1 <= n < 16
  {
    if '0' <= c <= '9' then c as int - '0' as int
    else if 'a' <= c <= 'f' then c as int - 'a' as int + 10
    else if 'A' <= c <= 'F' then c as int - 'A' as int + 10
    else -1
  }

  lemma DigitIsRead(n: nat)
    requires n < 16
    ensures DigitValue(Digit(n)) == n
  {}

  predicate DigitsOf(s: string, base: nat) {
    s != [] && forall i :: 0 <= i < |s| ==> 0 <= DigitValue(s[i]) < base
  }

  function ValueOf(s: string, base: nat): nat
    requires forall i :: 0 <= i < |s| ==> 0 <= DigitValue(s[i]) < base
  {
    if s == [] then 0
    else
      assert 0 <= DigitValue(s[|s| - 1]);
      base * ValueOf(s[..|s| - 1], base) + DigitValue(s[|s| - 1])
  }

  function Numeral(n: nat, base: nat): (s: string)
    requires 2 <= base <= 16
    ensures DigitsOf(s, base) && ValueOf(s, base) == n
    ensures |s| > 1 ==> s[0] != '0'
    ensures s == "0" <==> n == 0
    decreases n
  {
    if n < base then
      DigitIsRead(n);
      assert [Digit(n)][..0] == [];
      [Digit(n)]
    else
      Shrinks(n, base);
      var s := Numeral(n / base, base) + [Digit(n % base)];
      DigitIsRead(n % base);
      assert s[..|s| - 1] == Numeral(n / base, base);
      s
  }

  lemma Shrinks(n: nat, base: nat)
    requires 2 <= base <= n
    ensures 1 <= n / base < n && n == base * (n / base) + n % base && n % base < base
  {
    var q, r := n / base, n % base;
    assert n == base * q + r;
    Bound(q, base, r);
  }

  lemma Bound(q: int, base: nat, r: nat)
    requires 2 <= base <= base * q + r && r < base
    ensures 1 <= q < base * q + r
  {
    assert q <= 0 ==> base * q <= 0;
    if q > 0 {
      assert base * q == 2 * q + (base - 2) * q;
      assert (base - 2) * q >= 0;
    }
  }
}
