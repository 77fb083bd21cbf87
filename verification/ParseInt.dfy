/** Overflow-checked parsing of unsigned decimal integers in format strings. */
module ParseInt {
  import opened Sequences

  const INT_MAX: int := 0x7FFF_FFFF
  const UINT_RANGE: int := 0x1_0000_0000

  predicate IsDigit(c: char) {
    '0' <= c <= '9'
  }

  /** The value of a digit; other characters do not count. */
  function Digit(c: char): (d: nat)
    ensures d <= 9
  {
    if IsDigit(c) then c as int - '0' as int else 0
  }

  predicate AllDigits(s: string) {
    forall i :: 0 <= i < |s| ==> IsDigit(s[i])
  }

  /** The number a digit string denotes. */
  function Value(digits: string): nat {
    if digits == "" then 0
    else 10 * Value(digits[..|digits| - 1]) + Digit(digits[|digits| - 1])
  }

  /** Where the run of digits that starts at p ends. */
  function RunEnd(s: string, p: nat): (end: nat)
    requires p <= |s|
    ensures p <= end <= |s| && (end < |s| ==> !IsDigit(s[end]))
    decreases |s| - p
  {
    if p < |s| && IsDigit(s[p]) then RunEnd(s, p + 1) else p
  }

  lemma {:induction false} RunIsDigits(s: string, p: nat)
    requires p <= |s|
    ensures AllDigits(s[p..RunEnd(s, p)])
    decreases |s| - p
  {
    if p < |s| && IsDigit(s[p]) {
      RunIsDigits(s, p + 1);
      assert s[p..RunEnd(s, p)] == [s[p]] + s[p + 1..RunEnd(s, p)];
    }
  }

  lemma {:induction false} RunEndIs(s: string, p: nat, digits: string)
    requires At(s, p, digits) && AllDigits(digits)
    requires p + |digits| < |s| ==> !IsDigit(s[p + |digits|])
    ensures RunEnd(s, p) == p + |digits|
    decreases |digits|
  {
    if digits != "" {
      assert digits[0] == s[p];
      AtConcat(s, p, [digits[0]], digits[1..]);
      RunEndIs(s, p + 1, digits[1..]);
    }
  }

  function Pow10(n: nat): nat {
    if n == 0 then 1 else 10 * Pow10(n - 1)
  }

  lemma {:induction false} ValueBound(digits: string)
    ensures Value(digits) < Pow10(|digits|)
  {
    if digits != "" {
      ValueBound(digits[..|digits| - 1]);
    }
  }

  lemma {:induction false} ValueAtLeast(digits: string)
    requires AllDigits(digits) && digits != "" && digits[0] != '0'
    ensures Value(digits) >= Pow10(|digits| - 1)
  {
    if |digits| > 1 {
      ValueAtLeast(digits[..|digits| - 1]);
    }
  }

  lemma {:induction false} Pow10Monotonic(m: nat, n: nat)
    requires m <= n
    ensures Pow10(m) <= Pow10(n)
  {
    if m < n {
      Pow10Monotonic(m, n - 1);
    }
  }

  lemma Pow10Values()
    ensures Pow10(9) == 1_000_000_000 && Pow10(10) == 10_000_000_000
  {
    assert Pow10(3) == 1000;
    assert Pow10(6) == 1_000_000;
  }

  /**
   What the parser makes of a run of digits: its value, if that fits an int and the run has at most
   ten digits.
   */
  function Parsed(digits: string, errorValue: int): int {
    if |digits| <= 10 && Value(digits) <= INT_MAX then Value(digits) else errorValue
  }

  /** What a caller wants: the value whenever an int can hold it. */
  function Ideal(digits: string, errorValue: int): int {
    if Value(digits) <= INT_MAX then Value(digits) else errorValue
  }

  /**
   The loop works in 32-bit unsigned arithmetic and wraps; the last step is redone in 64 bits. The
   result is the value whenever an int can hold it, exactly up to ten digits, or if it cannot.
   */
  method ParseNonnegativeInt(s: string, begin: nat, errorValue: int) returns (r: int, end: nat)
    requires begin < |s| && IsDigit(s[begin])
    ensures end == RunEnd(s, begin)
    ensures r == Parsed(s[begin..end], errorValue)
    ensures (Value(s[begin..end]) <= INT_MAX ==> errorValue != Value(s[begin..end])) ==>
              (r == Ideal(s[begin..end], errorValue) <==> end - begin <= 10 || Value(s[begin..end]) > INT_MAX)
  {
    var value, prev := 0, 0;
    var p := begin;
    while p == begin || (p < |s| && IsDigit(s[p]))
      invariant begin <= p <= |s| && RunEnd(s, begin) == RunEnd(s, p)
      invariant value == Wrap(Value(s[begin..p]))
      invariant p > begin ==> prev == Wrap(Value(s[begin..p - 1]))
      decreases |s| - p
    {
      RunGrows(s, begin, p);
      prev := value;
      value := Wrap(value * 10 + Digit(s[p]));
      p := p + 1;
    }
    var numDigits := p - begin;
    end := p;
    var digits10 := 9;
    RunGrows(s, begin, p - 1);
    FinalCheck(s[begin..p]);
    if numDigits <= digits10 {
      r := value;
    } else if numDigits == digits10 + 1 && prev * 10 + Digit(s[p - 1]) <= INT_MAX {
      r := value;
    } else {
      r := errorValue;
    }
  }

  function Wrap(x: nat): nat {
    x % UINT_RANGE
  }

  /** One turn of the loop: the run is a digit longer, and wrapping early makes no difference. */
  lemma RunGrows(s: string, begin: nat, p: nat)
    requires begin <= p < |s|
    ensures Value(s[begin..p + 1]) == 10 * Value(s[begin..p]) + Digit(s[p])
    ensures s[begin..p + 1][..p - begin] == s[begin..p]
    ensures Wrap(Wrap(Value(s[begin..p])) * 10 + Digit(s[p])) == Wrap(Value(s[begin..p + 1]))
  {
    var run := s[begin..p + 1];
    assert run[..|run| - 1] == s[begin..p] && run[|run| - 1] == s[p];
    WrappedStep(Value(s[begin..p]), Digit(s[p]));
  }

  lemma WrappedStep(v: nat, d: nat)
    ensures Wrap(Wrap(v) * 10 + d) == Wrap(10 * v + d)
  {
    var q, m := v / UINT_RANGE, v % UINT_RANGE;
    assert 10 * v + d == m * 10 + d + UINT_RANGE * (10 * q);
  }

  lemma ShortValue(digits: string)
    requires |digits| <= 9
    ensures Value(digits) < 1_000_000_000
  {
    Pow10Values();
    ValueBound(digits);
    Pow10Monotonic(|digits|, 9);
  }

  /** Nothing has wrapped where it matters. */
  lemma FinalCheck(digits: string)
    requires digits != ""
    ensures |digits| <= 9 ==> Wrap(Value(digits)) == Value(digits) <= INT_MAX
    ensures |digits| <= 10 ==> Wrap(Value(digits[..|digits| - 1])) == Value(digits[..|digits| - 1])
    ensures Value(digits) <= INT_MAX ==> Wrap(Value(digits)) == Value(digits)
  {
    if |digits| <= 9 {
      ShortValue(digits);
    }
    if |digits| <= 10 {
      ShortValue(digits[..|digits| - 1]);
    }
  }

  /** A representable value in more than ten digits takes a leading zero. */
  lemma NoLeadingZeroIsIdeal(digits: string, errorValue: int)
    requires AllDigits(digits) && digits != "" && digits[0] != '0'
    ensures Parsed(digits, errorValue) == Ideal(digits, errorValue)
  {
    if |digits| > 10 {
      ValueAtLeast(digits);
      Pow10Monotonic(10, |digits| - 1);
      Pow10Values();
    }
  }

  lemma ElevenDigitZeroFails()
    ensures Parsed("00000000000", -1) == -1 && Ideal("00000000000", -1) == 0
  {
    ValueOfZeros("00000000000");
  }

  lemma {:induction false} ValueOfZeros(digits: string)
    requires forall i :: 0 <= i < |digits| ==> digits[i] == '0'
    ensures AllDigits(digits) && Value(digits) == 0
  {
    if digits != "" {
      ValueOfZeros(digits[..|digits| - 1]);
    }
  }
}
