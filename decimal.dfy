/** The decimal text JavaScript gives an integer number inside a template literal (`${n}`). */
module Decimal {

  function DigitChar(d: nat): (c: char)
    requires d < 10
    ensures '0' <= c <= '9'
  {
    "0123456789"[d]
  }

  function DigitValue(c: char): nat
    requires '0' <= c <= '9'
  {
    (c as int - '0' as int) as nat
  }

  predicate IsDigits(s: string) {
    forall i :: 0 <= i < |s| ==> '0' <= s[i] <= '9'
  }

  /** The number a digit string denotes. */
  function DigitsValue(s: string): nat
    requires IsDigits(s)
  {
    if s == [] then 0 else 10 * DigitsValue(s[..|s| - 1]) + DigitValue(s[|s| - 1])
  }

  /** Shortest decimal digits of `n`: no leading zero except for `0` itself. */
  function NatToDecimal(n: nat): (s: string)
    ensures |s| >= 1 && IsDigits(s)
    ensures s[0] == '0' ==> n == 0
  {
    if n < 10 then [DigitChar(n)] else NatToDecimal(n / 10) + [DigitChar(n % 10)]
  }

  /** Reading the digits back gives the number. */
  lemma {:induction false} NatToDecimalValue(n: nat)
    ensures DigitsValue(NatToDecimal(n)) == n
  {
    var s := NatToDecimal(n);
    if n < 10 {
      assert s[..0] == [];
      assert "0123456789"[n] as int - '0' as int == n;
    } else {
      NatToDecimalValue(n / 10);
      assert s[..|s| - 1] == NatToDecimal(n / 10);
      assert "0123456789"[n % 10] as int - '0' as int == n % 10;
    }
  }

  /** `${n}` for an integer-valued number: a minus sign for negatives, then the digits. */
  function IntToDecimal(n: int): (s: string)
    ensures |s| >= 1
    ensures n < 0 <==> s[0] == '-'
  {
    if n < 0 then "-" + NatToDecimal(-n) else NatToDecimal(n)
  }

  /** The text determines the number: distinct numbers never print alike. */
  lemma IntToDecimalInjective(m: int, n: int)
    requires IntToDecimal(m) == IntToDecimal(n)
    ensures m == n
  {
    var t := IntToDecimal(m);
    assert (m < 0) == (n < 0) by {
      assert m < 0 <==> t[0] == '-';
      assert n < 0 <==> t[0] == '-';
    }
    var a: nat := if m < 0 then -m else m;
    var b: nat := if n < 0 then -n else n;
    assert NatToDecimal(a) == NatToDecimal(b) by {
      if m < 0 {
        assert t == "-" + NatToDecimal(a) && t == "-" + NatToDecimal(b);
        assert t[1..] == NatToDecimal(a) && t[1..] == NatToDecimal(b);
      }
    }
    NatToDecimalValue(a);
    NatToDecimalValue(b);
  }
}
