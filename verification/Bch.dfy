/** The check bits of the format and version words: binary division with
    remainder by repeated exclusive or (sections 7.9 and 7.10 of ISO/IEC
    18004:2015). */
module Bch {
  import opened Bits

  const G15 := 0x537
  const G18 := 0x1f25
  const G15_MASK := 0x5412

  // Product of binary polynomials.
  function Times(q: nat, g: nat): nat {
    if q == 0 then 0
    else Xor(if q % 2 == 1 then g else 0, 2 * Times(q / 2, g))
  }

  ghost predicate IsMultiple(w: nat, g: nat) { exists q :: w == Times(q, g) }

  lemma {:induction false} TimesXor(p: nat, q: nat, g: nat)
    ensures Times(Xor(p, q), g) == Xor(Times(p, g), Times(q, g))
    decreases p + q
  {
    if p > 0 && q > 0 {
      TimesXor(p / 2, q / 2, g);
      XorStep(p, q);
      var a, b := (if p % 2 == 1 then g else 0), (if q % 2 == 1 then g else 0);
      var s, t := Times(p / 2, g), Times(q / 2, g);
      XorSwap(a, 2 * s, b, 2 * t);
      XorDouble(s, t);
      XorSelf(g);
      TimesUnfold(Xor(p, q), g);
    }
  }

  lemma TimesUnfold(q: nat, g: nat)
    ensures Times(q, g) == Xor(if q % 2 == 1 then g else 0, 2 * Times(q / 2, g))
  {}

  lemma {:induction false} TimesPow2(s: nat, g: nat)
    ensures Times(Pow2(s), g) == Shl(g, s)
  {
    if s == 0 {
      assert Times(1, g) == Xor(g, 2 * Times(0, g));
      XorComm(g, 0);
    } else {
      TimesPow2(s - 1, g);
      assert Pow2(s) / 2 == Pow2(s - 1);
    }
  }

  lemma MultipleXor(v: nat, w: nat, g: nat)
    requires IsMultiple(v, g) && IsMultiple(w, g)
    ensures IsMultiple(Xor(v, w), g)
  {
    var p :| v == Times(p, g);
    var q :| w == Times(q, g);
    TimesXor(p, q, g);
  }

  lemma ShiftedIsMultiple(g: nat, s: nat)
    ensures IsMultiple(Shl(g, s), g)
  {
    TimesPow2(s, g);
  }

  lemma {:induction false} TimesDigits(q: nat, g: nat)
    requires q > 0 && g > 0
    ensures Digits(Times(q, g)) == Digits(q) + Digits(g) - 1
  {
    if q == 1 {
      assert Times(1, g) == Xor(g, 2 * Times(0, g));
      XorComm(g, 0);
    } else {
      TimesDigits(q / 2, g);
      var t := Times(q / 2, g);
      assert t > 0;
      assert Digits(2 * t) == 1 + Digits(t);
      XorComm(g, 2 * t);
      XorKeepsTop(2 * t, g);
      TimesUnfold(q, g);
      XorComm(0, 2 * t);
    }
  }

  // Among the words that share their data bits, one is a multiple of g: the
  // check bits are determined.
  lemma CheckBitsUnique(v: nat, w: nat, g: nat)
    requires g > 0 && IsMultiple(v, g) && IsMultiple(w, g)
    requires Shr(v, Digits(g) - 1) == Shr(w, Digits(g) - 1)
    ensures v == w
  {
    MultipleXor(v, w, g);
    var q :| Xor(v, w) == Times(q, g);
    var k := Digits(g) - 1;
    SameTopXor(v, w, k);
    DigitsBound(Xor(v, w), k);
    if q > 0 {
      TimesDigits(q, g);
    }
    XorZeroMeansEqual(v, w);
  }

  lemma {:induction false} SameTopXor(v: nat, w: nat, k: nat)
    requires Shr(v, k) == Shr(w, k)
    ensures Xor(v, w) < Pow2(k)
  {
    if k == 0 {
      XorSelf(v);
    } else {
      SameTopXor(v / 2, w / 2, k - 1);
      XorStep(v, w);
    }
  }

  lemma {:induction false} XorZeroMeansEqual(v: nat, w: nat)
    requires Xor(v, w) == 0
    ensures v == w
    decreases v + w
  {
    if v > 0 && w > 0 {
      XorZeroMeansEqual(v / 2, w / 2);
    }
  }

  // ---------- The loops ----------

  method BchDigit(data: nat) returns (digit: nat)
    ensures digit == Digits(data)
  {
    var d := data;
    digit := 0;
    while d != 0
      invariant digit + Digits(d) == Digits(data)
    {
      digit := digit + 1;
      d := d / 2;
    }
  }

  // Divides any number by any generator: what is left is shorter than the
  // generator, and differs from the dividend by a multiple of it.
  method Reduce(data: nat, g: nat) returns (d: nat)
    requires g > 0
    ensures Digits(d) < Digits(g)
    ensures IsMultiple(Xor(data, d), g)
  {
    d := data;
    XorSelf(data);
    assert IsMultiple(0, g) by { assert Times(0, g) == 0; }
    var dd: int := BchDigit(d);
    var gd := BchDigit(g);
    while dd - gd >= 0
      invariant dd == Digits(d) && gd == Digits(g)
      invariant IsMultiple(Xor(data, d), g)
      decreases Digits(d)
    {
      var shifted := Shl(g, dd - gd);
      DigitsShift(g, dd - gd);
      XorCancelsTop(d, shifted);
      ShiftedIsMultiple(g, dd - gd);
      MultipleXor(Xor(data, d), shifted, g);
      XorAssoc(data, d, shifted);
      d := Xor(d, shifted);
      dd := BchDigit(d);
    }
  }

  // Data in the high bits, remainder in the low bits.
  lemma WordIsMultiple(data: nat, d: nat, g: nat)
    requires g > 0 && Digits(d) < Digits(g)
    requires IsMultiple(Xor(Shl(data, Digits(g) - 1), d), g)
    ensures var w := Or(Shl(data, Digits(g) - 1), d);
            IsMultiple(w, g) && Shr(w, Digits(g) - 1) == data
  {
    var k := Digits(g) - 1;
    DigitsBound(d, k);
    OrShifted(data, d, k);
  }

  // The 15-bit format word: without its mask, the one multiple of G15 whose
  // high bits are the data.
  method BchTypeInfo(data: nat) returns (bits: nat)
    requires data < 0x20_0000
    ensures IsMultiple(Xor(bits, G15_MASK), G15)
    ensures Shr(Xor(bits, G15_MASK), 10) == data
    ensures data < 32 ==> bits < 0x8000
  {
    GeneratorDigits();
    var d := Reduce(Shl(data, 10), G15);
    WordIsMultiple(data, d, G15);
    bits := Xor(Or(Shl(data, 10), d), G15_MASK);
    if data < 32 {
      FormatBound(Or(Shl(data, 10), d));
    }
    XorAssoc(Or(Shl(data, 10), d), G15_MASK, G15_MASK);
    XorSelf(G15_MASK);
    XorComm(Or(Shl(data, 10), d), 0);
  }

  lemma FormatBound(w: nat)
    requires Shr(w, 10) < 32
    ensures Xor(w, G15_MASK) < 0x8000
  {
    hide Xor, Shr;
    assert Pow2(5) == 32;
    assert Pow2(10) == 32 * Pow2(5);
    assert Pow2(15) == 32 * Pow2(10);
    ShrBelow(w, 10, 5);
    XorBound(w, G15_MASK, 15);
  }

  // The 18-bit version word.
  method BchTypeNumber(data: nat) returns (bits: nat)
    requires data < 0x8_0000
    ensures IsMultiple(bits, G18)
    ensures Shr(bits, 12) == data
    ensures data < 64 ==> bits < 0x4_0000
  {
    GeneratorDigits();
    var d := Reduce(Shl(data, 12), G18);
    WordIsMultiple(data, d, G18);
    bits := Or(Shl(data, 12), d);
    if data < 64 {
      VersionBound(bits);
    }
  }

  lemma VersionBound(w: nat)
    requires Shr(w, 12) < 64
    ensures w < 0x4_0000
  {
    hide Shr;
    assert Pow2(6) == 64;
    assert Pow2(12) == 64 * Pow2(6);
    assert Pow2(18) == 64 * Pow2(12);
    ShrBelow(w, 12, 6);
  }

  lemma GeneratorDigits()
    ensures Digits(G15) == 11 && Digits(G18) == 13
  {
    FormatDigits();
    VersionDigits();
  }

  lemma FormatDigits()
    ensures Digits(G15) == 11
  {
    assert Digits(5) == 3;
    assert Digits(20) == 5;
    assert Digits(83) == 7;
    assert Digits(333) == 9;
  }

  lemma VersionDigits()
    ensures Digits(G18) == 13
  {
    assert Digits(7) == 3;
    assert Digits(31) == 5;
    assert Digits(124) == 7;
    assert Digits(498) == 9;
    assert Digits(1993) == 11;
  }
}
