/** Shifts, exclusive or, inclusive or and bit lengths of natural numbers.  The
    encoder works on JavaScript numbers whose bit operations act on 32-bit
    words; every value it forms stays below 2^31, where these agree. */
module Bits {

  function Shl(a: nat, s: nat): nat { if s == 0 then a else 2 * Shl(a, s - 1) }

  function Shr(a: nat, s: nat): nat { if s == 0 then a else Shr(a / 2, s - 1) }

  function Pow2(n: nat): (p: nat)
    ensures p > 0
  {
    if n == 0 then 1 else 2 * Pow2(n - 1)
  }

  lemma {:induction false} Pow2Monotone(m: nat, n: nat)
    requires m <= n
    ensures Pow2(m) <= Pow2(n)
  {
    if m < n {
      Pow2Monotone(m, n - 1);
    }
  }

  lemma {:induction false} ShlDouble(a: nat, s: nat)
    ensures Shl(2 * a, s) == 2 * Shl(a, s)
  {
    if s > 0 {
      ShlDouble(a, s - 1);
    }
  }

  function Bit(b: bool): nat { if b then 1 else 0 }

  function Xor(a: nat, b: nat): nat
    decreases a + b
  {
    if a == 0 then b else if b == 0 then a
    else 2 * Xor(a / 2, b / 2) + Bit(a % 2 != b % 2)
  }

  function Or(a: nat, b: nat): nat
    decreases a + b
  {
    if a == 0 then b else if b == 0 then a
    else 2 * Or(a / 2, b / 2) + Bit(a % 2 == 1 || b % 2 == 1)
  }

  // The number of significant bits.
  function Digits(d: nat): nat { if d == 0 then 0 else 1 + Digits(d / 2) }

  // ---------- Exclusive or ----------

  lemma XorStep(a: nat, b: nat)
    ensures Xor(a, b) / 2 == Xor(a / 2, b / 2)
    ensures Xor(a, b) % 2 == Bit(a % 2 != b % 2)
  {}

  lemma ByHalves(a: nat, b: nat)
    requires a / 2 == b / 2 && a % 2 == b % 2
    ensures a == b
  {}

  lemma {:induction false} XorComm(a: nat, b: nat)
    ensures Xor(a, b) == Xor(b, a)
    decreases a + b
  {
    if a > 0 && b > 0 {
      XorComm(a / 2, b / 2);
    }
  }

  lemma {:induction false} XorAssoc(a: nat, b: nat, c: nat)
    ensures Xor(Xor(a, b), c) == Xor(a, Xor(b, c))
    decreases a + b + c
  {
    if a > 0 || b > 0 || c > 0 {
      XorAssoc(a / 2, b / 2, c / 2);
      XorStep(a, b);
      XorStep(b, c);
      XorStep(Xor(a, b), c);
      XorStep(a, Xor(b, c));
      ByHalves(Xor(Xor(a, b), c), Xor(a, Xor(b, c)));
    }
  }

  lemma {:induction false} XorSelf(a: nat)
    ensures Xor(a, a) == 0
  {
    if a > 0 {
      XorSelf(a / 2);
    }
  }

  lemma XorDouble(a: nat, b: nat)
    ensures Xor(2 * a, 2 * b) == 2 * Xor(a, b)
  {
    XorStep(2 * a, 2 * b);
  }

  // (a + b) + (c + d) == (a + c) + (b + d)
  lemma XorSwap(a: nat, b: nat, c: nat, d: nat)
    ensures Xor(Xor(a, b), Xor(c, d)) == Xor(Xor(a, c), Xor(b, d))
  {
    XorAssoc(a, b, Xor(c, d));
    XorAssoc(b, c, d);
    XorComm(b, c);
    XorAssoc(c, b, d);
    XorAssoc(a, c, Xor(b, d));
  }

  // ---------- Bit lengths ----------

  lemma {:induction false} DigitsBound(d: nat, n: nat)
    ensures Digits(d) <= n <==> d < Pow2(n)
  {
    if d > 0 && n > 0 {
      DigitsBound(d / 2, n - 1);
    }
  }

  lemma {:induction false} DigitsShift(d: nat, s: nat)
    requires d > 0
    ensures Shl(d, s) > 0 && Digits(Shl(d, s)) == Digits(d) + s
  {
    if s > 0 {
      DigitsShift(d, s - 1);
    }
  }

  // Exclusive or of two numbers of equal bit length is shorter than both.
  lemma {:induction false} XorCancelsTop(a: nat, b: nat)
    requires a > 0 && Digits(a) == Digits(b)
    ensures Digits(Xor(a, b)) < Digits(a)
  {
    XorStep(a, b);
    if a > 1 {
      XorCancelsTop(a / 2, b / 2);
    }
  }

  lemma {:induction false} XorKeepsTop(a: nat, b: nat)
    requires Digits(a) > Digits(b)
    ensures Digits(Xor(a, b)) == Digits(a)
  {
    XorStep(a, b);
    if b > 0 {
      XorKeepsTop(a / 2, b / 2);
    }
  }

  lemma {:induction false} XorBound(a: nat, b: nat, n: nat)
    requires a < Pow2(n) && b < Pow2(n)
    ensures Xor(a, b) < Pow2(n)
  {
    if n > 0 {
      XorBound(a / 2, b / 2, n - 1);
      XorStep(a, b);
    }
  }

  lemma {:induction false} ShrBelow(a: nat, s: nat, n: nat)
    requires Shr(a, s) < Pow2(n)
    ensures a < Pow2(s + n)
  {
    if s > 0 {
      ShrBelow(a / 2, s - 1, n);
    }
  }

  // ---------- Or of disjoint parts ----------

  // A shifted number and one that fits below the shift have no bit in common:
  // both kinds of or are the sum, and the shift back drops the lower part.
  lemma {:induction false} OrShifted(a: nat, b: nat, s: nat)
    requires b < Pow2(s)
    ensures Or(Shl(a, s), b) == Shl(a, s) + b == Xor(Shl(a, s), b)
    ensures Shr(Shl(a, s) + b, s) == a
  {
    hide Or, Xor;
    if s == 0 {
      OrZero(a);
    } else {
      OrShifted(a, b / 2, s - 1);
      var h := Shl(a, s);
      assert h / 2 == Shl(a, s - 1) && h % 2 == 0;
      assert (h + b) / 2 == h / 2 + b / 2;
      XorStep(h, b);
      OrStep(h, b);
      ByHalves(Or(h, b), h + b);
      ByHalves(Xor(h, b), h + b);
    }
  }

  lemma OrZero(a: nat)
    ensures Or(a, 0) == a == Xor(a, 0)
  {}

  lemma OrStep(a: nat, b: nat)
    ensures Or(a, b) / 2 == Or(a / 2, b / 2)
    ensures Or(a, b) % 2 == Bit(a % 2 == 1 || b % 2 == 1)
  {}
}
