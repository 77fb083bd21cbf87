/**
 Machine words as natural numbers: a shift is a product or quotient by a power of two, a bit test is
 the parity of a quotient, and the bitwise or is defined on the binary digits.
 */
module Words {

  const WORD := 0x1_0000_0000_0000_0000

  function BitOr(x: nat, y: nat): nat
    decreases x + y
  {
    if x == 0 && y == 0 then 0
    else 2 * BitOr(x / 2, y / 2) + if x % 2 == 1 || y % 2 == 1 then 1 else 0
  }

  predicate TestBit(x: nat, bit: nat)
    requires bit > 0
  {
    x / bit % 2 == 1
  }

  function Pow2(k: nat): nat {
    if k == 0 then 1 else 2 * Pow2(k - 1)
  }

  lemma {:induction false} OrOfFields(k: nat, p: nat, a: nat, b: nat, c: nat, d: nat)
    requires p == Pow2(k) && a < p && b < p
    ensures BitOr(a + p * c, b + p * d) == BitOr(a, b) + p * BitOr(c, d)
    ensures BitOr(a, b) < p
    decreases k
  {
    if k == 0 {
      OrWithZero(0);
      assert a + p * c == c && b + p * d == d && p * BitOr(c, d) == BitOr(c, d);
    } else {
      var h := Pow2(k - 1);
      var hc, hd, hr := Product(h, c), Product(h, d), Product(h, BitOr(c, d));
      OrOfFields(k - 1, h, a / 2, b / 2, c, d);
      OrOfFieldsStep(a, b, hc, hd, hr);
      TimesDouble(h, p, c);
      TimesDouble(h, p, d);
      TimesDouble(h, p, BitOr(c, d));
      assert BitOr(a + p * c, b + p * d) == BitOr(a + 2 * hc, b + 2 * hd);
      OrBelow(a, b, h);
    }
  }

  function Product(x: nat, y: nat): nat {
    x * y
  }

  lemma OrBelow(a: nat, b: nat, h: nat)
    requires BitOr(a / 2, b / 2) < h
    ensures BitOr(a, b) < 2 * h
  {
    OrStep(a, b);
  }

  lemma OrOfFieldsStep(a: nat, b: nat, c: nat, d: nat, r: nat)
    requires BitOr(a / 2 + c, b / 2 + d) == BitOr(a / 2, b / 2) + r
    ensures BitOr(a + 2 * c, b + 2 * d) == BitOr(a, b) + 2 * r
  {
    OrDouble(a, b, c, d);
    OrStep(a, b);
  }

  lemma TimesDouble(p: nat, q: nat, c: nat)
    requires q == 2 * p
    ensures q * c == 2 * (p * c)
  {
  }

  lemma OrStep(x: nat, y: nat)
    ensures BitOr(x, y) == 2 * BitOr(x / 2, y / 2) + if x % 2 == 1 || y % 2 == 1 then 1 else 0
  {
  }

  lemma OrDouble(a: nat, b: nat, c: nat, d: nat)
    ensures BitOr(a + 2 * c, b + 2 * d) == 2 * BitOr(a / 2 + c, b / 2 + d) + if a % 2 == 1 || b % 2 == 1 then 1 else 0
  {
    OrStep(a + 2 * c, b + 2 * d);
    assert (a + 2 * c) / 2 == a / 2 + c && (b + 2 * d) / 2 == b / 2 + d;
  }

  lemma {:induction false} OrWithZero(x: nat)
    ensures BitOr(x, 0) == x && BitOr(0, x) == x
  {
    if x > 0 {
      OrWithZero(x / 2);
    }
  }

  function ShiftRight(x: nat, n: nat): nat
    decreases n
  {
    if n == 0 then x else ShiftRight(x / 2, n - 1)
  }

  lemma {:induction false} ShiftRightTwice(x: nat, m: nat, n: nat)
    ensures ShiftRight(x, n + m) == ShiftRight(ShiftRight(x, m), n)
    decreases m
  {
    if m > 0 {
      ShiftRightTwice(x / 2, m - 1, n);
    }
  }
}
