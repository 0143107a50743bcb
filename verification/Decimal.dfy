/** Integers as Rust's `Display` prints them, and the digit runs the scanners look for. */
module Decimal {

  const I64_MIN: int := -0x8000_0000_0000_0000
  const I64_MAX: int := 0x7FFF_FFFF_FFFF_FFFF
  const U64_MAX: int := 0xFFFF_FFFF_FFFF_FFFF

  predicate IsDigit(c: char) {
    '0' <= c <= '9'
  }

  predicate AllDigits(s: string) {
    forall i :: 0 <= i < |s| ==> IsDigit(s[i])
  }

  function DigitChar(d: int): (c: char)
    requires 0 <= d < 10
    ensures IsDigit(c) && DigitValue(c) == d
  {
    (d + '0' as int) as char
  }

  function DigitValue(c: char): (d: int)
    requires IsDigit(c)
    ensures 0 <= d < 10
  {
    c as int - '0' as int
  }

  /** The value of a digit run, most significant digit first. */
  function Value(s: string): (n: nat)
    requires AllDigits(s)
  {
    if s == "" then 0 else 10 * Value(s[..|s| - 1]) + DigitValue(s[|s| - 1])
  }

  function OfNat(n: nat): (s: string)
    ensures AllDigits(s) && s != ""
    ensures Value(s) == n
    ensures s[0] == '0' ==> s == "0"
  {
    if n < 10 then [DigitChar(n)]
    else
      var s := OfNat(n / 10) + [DigitChar(n % 10)];
      assert s[..|s| - 1] == OfNat(n / 10);
      s
  }

  function OfInt(n: int): (s: string)
    ensures s != "" && (s[0] == '-' <==> n < 0)
  {
    if n < 0 then "-" + OfNat(-n) else OfNat(n)
  }

  /** A digit run without a leading zero is the printed form of its value. */
  lemma {:induction false} CanonicalDigits(s: string)
    requires AllDigits(s) && s != ""
    requires s == "0" || s[0] != '0'
    ensures OfNat(Value(s)) == s
  {
    var init, last := s[..|s| - 1], s[|s| - 1];
    assert s == init + [last];
    if init == "" {
      assert Value(init) == 0;
    } else {
      CanonicalDigits(init);
      PositiveValue(init);
      assert Value(s) / 10 == Value(init) && Value(s) % 10 == DigitValue(last);
    }
  }

  lemma {:induction false} PositiveValue(s: string)
    requires AllDigits(s) && s != "" && s[0] != '0'
    ensures Value(s) > 0
  {
    if |s| > 1 {
      PositiveValue(s[..|s| - 1]);
    } else {
      assert s[..0] == "";
    }
  }

  lemma OfNatInjective(m: nat, n: nat)
    requires OfNat(m) == OfNat(n)
    ensures m == n
  {
    assert Value(OfNat(m)) == Value(OfNat(n));
  }

  lemma OfIntInjective(m: int, n: int)
    requires OfInt(m) == OfInt(n)
    ensures m == n
  {
    if m < 0 && n < 0 {
      assert OfInt(m)[1..] == OfNat(-m) && OfInt(n)[1..] == OfNat(-n);
      OfNatInjective(-m, -n);
    } else if m >= 0 && n >= 0 {
      OfNatInjective(m, n);
    }
  }

  function Pow10(k: nat): (p: nat)
    ensures p >= 1
  {
    if k == 0 then 1 else 10 * Pow10(k - 1)
  }

  /** `n` below ten to the `k` needs at most `k` digits. */
  lemma {:induction false} DigitCount(n: nat, k: nat)
    requires k >= 1 && n < Pow10(k)
    ensures |OfNat(n)| <= k
  {
    if n >= 10 {
      DigitCount(n / 10, k - 1);
    }
  }

  /** A 64-bit integer prints in at most 20 characters. */
  lemma MachineWidth(n: int)
    requires I64_MIN <= n <= U64_MAX
    ensures |OfInt(n)| <= 20
  {
    assert Pow10(5) == 100000;
    assert Pow10(10) == 100000 * 100000 by { assert Pow10(9) == 10000 * 100000; }
    assert Pow10(15) == 100000 * 100000 * 100000 by { assert Pow10(14) == 10000 * 100000 * 100000; }
    assert Pow10(19) == 10000 * 100000 * 100000 * 100000 by { assert Pow10(17) == 100 * 100000 * 100000 * 100000; }
    assert Pow10(20) == 100000 * 100000 * 100000 * 100000;
    if n < 0 {
      DigitCount(-n, 19);
    } else {
      DigitCount(n, 20);
    }
  }
}
