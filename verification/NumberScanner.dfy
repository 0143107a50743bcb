/** The strict lexical forms of integer and float cells in a portable CSV (import.rs). */
module NumberScanner {
  import opened Wrappers
  import opened Decimal

  /** What `str::parse::<f64>` makes of a text it accepts. */
  datatype FloatClass = Finite | Infinite | NotANumber

  /** `str::parse::<i64>`: an optional sign, then digits, in range. */
  function ParseI64(s: string): Option<int> {
    var digits := if s != "" && (s[0] == '+' || s[0] == '-') then s[1..] else s;
    if digits == "" || !AllDigits(digits) then None
    else
      var n: int := if s[0] == '-' then 0 - Value(digits) else Value(digits);
      if I64_MIN <= n <= I64_MAX then Some(n) else None
  }

  predicate ValidInteger(s: string) {
    if s == "" || s[0] == '+' || ParseI64(s).None? then false
    else
      var digits := if s[0] == '-' then s[1..] else s;
      (digits == "0" || !(digits != "" && digits[0] == '0')) && AllDigits(digits)
  }

  /** Accepted integers are the printed 64-bit integers, and negative zero. */
  lemma ValidIntegerExactly(s: string)
    ensures ValidInteger(s) <==> s == "-0" || exists n :: I64_MIN <= n <= I64_MAX && s == OfInt(n)
  {
    if ValidInteger(s) {
      ValidIntegerIsPrinted(s);
    }
    if s == "-0" {
      NegativeZeroIsValid();
    }
    forall n | I64_MIN <= n <= I64_MAX && s == OfInt(n) ensures ValidInteger(s) {
      PrintedIntegerIsValid(n);
    }
  }

  lemma ValidIntegerIsPrinted(s: string)
    requires ValidInteger(s)
    ensures s == "-0" || exists n :: I64_MIN <= n <= I64_MAX && s == OfInt(n)
  {
    var digits := if s[0] == '-' then s[1..] else s;
    CanonicalDigits(digits);
    if s[0] == '-' {
      assert s == "-" + digits;
      if digits != "0" {
        PositiveValue(digits);
        assert s == OfInt(0 - Value(digits));
      }
    } else {
      assert s == OfInt(Value(digits));
    }
  }

  lemma PrintedIntegerIsValid(n: int)
    requires I64_MIN <= n <= I64_MAX
    ensures ValidInteger(OfInt(n)) && ParseI64(OfInt(n)) == Some(n)
  {
    if n < 0 {
      assert OfInt(n)[1..] == OfNat(-n);
    } else {
      assert IsDigit(OfInt(n)[0]);
    }
  }

  lemma NegativeZeroIsValid()
    ensures ValidInteger("-0") && ParseI64("-0") == Some(0)
  {
    assert "-0"[1..] == "0";
    assert "0"[..0] == "";
    assert Value("0") == 10 * Value("0"[..0]) + DigitValue('0');
  }

  // ---------- the number production of section 6 of RFC 8259 ----------

  ghost predicate IsInt(s: string) {
    s != "" && AllDigits(s) && (s[0] == '0' ==> s == "0")
  }

  ghost predicate IsFrac(s: string) {
    s == "" || (s[0] == '.' && s[1..] != "" && AllDigits(s[1..]))
  }

  ghost predicate IsExp(s: string) {
    s == "" || ((s[0] == 'e' || s[0] == 'E') && AllDigits(s[ExpDigits(s)..]) && s[ExpDigits(s)..] != "")
  }

  /** Where the digits of an exponent part start: after the letter and an optional sign. */
  function ExpDigits(s: string): (i: nat)
    requires s != ""
    ensures i <= |s|
  {
    if |s| > 1 && (s[1] == '+' || s[1] == '-') then 2 else 1
  }

  function AfterMinus(s: string): (i: nat)
    ensures i <= |s|
  {
    if s != "" && s[0] == '-' then 1 else 0
  }

  ghost predicate NumberParts(s: string, a: nat, b: nat) {
    AfterMinus(s) <= a <= b <= |s| && IsInt(s[AfterMinus(s)..a]) && IsFrac(s[a..b]) && IsExp(s[b..])
  }

  ghost predicate IsNumber(s: string) {
    exists a, b :: NumberParts(s, a, b)
  }

  ghost predicate MaximalRun(s: string, i: nat, j: nat) {
    i <= j <= |s| && (forall k :: i <= k < j ==> IsDigit(s[k])) && (j < |s| ==> !IsDigit(s[j]))
  }

  lemma RunDigits(s: string, i: nat, j: nat)
    requires i <= j <= |s|
    ensures AllDigits(s[i..j]) <==> forall k :: i <= k < j ==> IsDigit(s[k])
  {
    assert forall k :: i <= k < j ==> s[k] == s[i..j][k - i];
  }

  /** Both splits of a number are forced by where its digit runs stop. */
  lemma PartsAreForced(s: string, a: nat, b: nat)
    requires NumberParts(s, a, b)
    ensures MaximalRun(s, AfterMinus(s), a)
    ensures b == a <==> !(a < |s| && s[a] == '.')
    ensures b > a ==> MaximalRun(s, a + 1, b)
  {
    RunDigits(s, AfterMinus(s), a);
    if a < |s| {
      assert a == b ==> s[a] == s[b..][0];
      assert a < b ==> s[a] == s[a..b][0];
    }
    if a < b {
      assert s[a..b][1..] == s[a + 1..b];
      RunDigits(s, a + 1, b);
      if b < |s| { assert s[b] == s[b..][0]; }
    }
  }

  function RunEnd(s: string, i: nat): (j: nat)
    requires i <= |s|
    ensures MaximalRun(s, i, j)
    decreases |s| - i
  {
    if i < |s| && IsDigit(s[i]) then RunEnd(s, i + 1) else i
  }

  lemma RunEndBounds(s: string)
    ensures AfterMinus(s) <= RunEnd(s, AfterMinus(s)) <= |s|
    ensures s != "" && s[0] == '+' ==> RunEnd(s, AfterMinus(s)) == AfterMinus(s)
  {
  }

  function FractionEnd(s: string, a: nat): (b: nat)
    requires a <= |s|
    ensures a <= b <= |s|
  {
    if a < |s| && s[a] == '.' then RunEnd(s, a + 1) else a
  }

  /** Reading greedily finds the parts of a number whenever there are any. */
  lemma GreedyParts(s: string, a: nat, b: nat)
    requires a == RunEnd(s, AfterMinus(s)) && b == FractionEnd(s, a)
    ensures IsNumber(s) <==> NumberParts(s, a, b)
  {
    forall a': nat, b': nat | NumberParts(s, a', b') ensures a' == a && b' == b {
      PartsAreForced(s, a', b');
    }
  }

  lemma IntAt(s: string, a: nat)
    requires a == RunEnd(s, AfterMinus(s))
    ensures IsInt(s[AfterMinus(s)..a]) <==>
            a > AfterMinus(s) && !(a - AfterMinus(s) > 1 && s[AfterMinus(s)] == '0')
  {
    RunDigits(s, AfterMinus(s), a);
  }

  lemma FracAt(s: string, a: nat, b: nat)
    requires a <= |s| && b == FractionEnd(s, a)
    ensures IsFrac(s[a..b]) <==> b != a + 1
  {
    if a < |s| && s[a] == '.' {
      RunDigits(s, a + 1, b);
      assert s[a..b][1..] == s[a + 1..b];
    }
  }

  /** Where the digits of an exponent starting at `b` begin. */
  function ExpStart(s: string, b: nat): (i: nat)
    requires b < |s|
    ensures i <= |s|
  {
    if b + 1 < |s| && (s[b + 1] == '+' || s[b + 1] == '-') then b + 2 else b + 1
  }

  lemma ExpAt(s: string, b: nat)
    requires b <= |s|
    ensures IsExp(s[b..]) <==>
            b == |s| || ((s[b] == 'e' || s[b] == 'E') && ExpStart(s, b) < RunEnd(s, ExpStart(s, b)) == |s|)
  {
    if b < |s| {
      var i := ExpStart(s, b);
      RunDigits(s, i, |s|);
      assert s[b..][ExpDigits(s[b..])..] == s[i..|s|];
    }
  }

  method SkipDigits(s: string, start: nat) returns (index: nat)
    requires start <= |s|
    ensures index == RunEnd(s, start) && start <= index <= |s|
  {
    index := start;
    while index < |s| && IsDigit(s[index])
      invariant start <= index <= |s|
      invariant RunEnd(s, index) == RunEnd(s, start)
    {
      index := index + 1;
    }
  }

  /** The index-driven scan accepts a text exactly when it is an RFC 8259 number with a finite value. */
  method ValidFloat(s: string, parseF64: string -> Option<FloatClass>) returns (valid: bool)
    ensures valid <==> IsNumber(s) && parseF64(s) == Some(Finite)
  {
    hide IsNumber, IsInt, IsFrac, IsExp, MaximalRun, IsDigit, RunEnd, AllDigits, ExpDigits;
    RunEndBounds(s);
    ghost var a := RunEnd(s, AfterMinus(s));
    ghost var b := FractionEnd(s, a);
    GreedyParts(s, a, b);
    IntAt(s, a);
    FracAt(s, a, b);
    ExpAt(s, b);
    if s == "" || s[0] == '+' || parseF64(s).None? {
      return false;
    }
    var integerStart := if s[0] == '-' then 1 else 0;
    var index := SkipDigits(s, integerStart);
    if index == integerStart || (index - integerStart > 1 && s[integerStart] == '0') {
      return false;
    }
    if index < |s| && s[index] == '.' {
      index := index + 1;
      var fractionStart := index;
      index := SkipDigits(s, fractionStart);
      if fractionStart == index {
        return false;
      }
    }
    if index < |s| && (s[index] == 'e' || s[index] == 'E') {
      index := index + 1;
      if index < |s| && (s[index] == '+' || s[index] == '-') {
        index := index + 1;
      }
      var exponentStart := index;
      index := SkipDigits(s, exponentStart);
      if exponentStart == index {
        return false;
      }
    }
    valid := index == |s| && parseF64(s) == Some(Finite);
  }
}
