/** The field GF(256) behind the QR encoder's check bytes: the power table, its
    inverse, and the laws the polynomial code relies on.  Elements are bytes,
    addition is exclusive or, and multiplying by the k-th power of the generator
    is k applications of `XTime`. */
module Galois {

  // ---------- Addition ----------

  function Add(a: bv8, b: bv8): bv8 { a ^ b }

  lemma AddCommutes(a: bv8, b: bv8)
    ensures Add(a, b) == Add(b, a)
  {}

  lemma AddAssociates(a: bv8, b: bv8, c: bv8)
    ensures Add(Add(a, b), c) == Add(a, Add(b, c))
  {}

  lemma AddZero(a: bv8)
    ensures Add(a, 0) == a && Add(a, a) == 0
  {}

  lemma AddLaws(a: bv8, b: bv8, c: bv8)
    ensures Add(a, b) == Add(b, a)
    ensures Add(a, 0) == a
    ensures Add(a, a) == 0
    ensures Add(Add(a, b), c) == Add(a, Add(b, c))
    ensures Add(Add(a, b), b) == a
    ensures Add(a, b) == 0 ==> a == b
  {
    hide Add;
    AddCommutes(a, b);
    AddCommutes(0, b);
    AddAssociates(a, b, c);
    AddAssociates(a, b, b);
    AddZero(a);
    AddZero(b);
  }

  // (a + b) + (c + d) == (a + c) + (b + d)
  lemma AddSwap(a: bv8, b: bv8, c: bv8, d: bv8)
    ensures Add(Add(a, b), Add(c, d)) == Add(Add(a, c), Add(b, d))
  {
    hide Add;
    AddLaws(a, b, Add(c, d));
    AddLaws(b, c, d);
    AddLaws(c, b, d);
    AddLaws(a, c, Add(b, d));
  }

  // ---------- Doubling and its powers ----------

  // One step of the shift register for x^8 + x^4 + x^3 + x^2 + 1.
  function XTime(b: bv8): bv8 { (b + b) ^ (0x1d & (0 - (b >> 7))) }

  lemma XTimeAdd(a: bv8, b: bv8)
    ensures XTime(Add(a, b)) == Add(XTime(a), XTime(b))
  {}

  lemma XTimeInjective(a: bv8, b: bv8)
    requires XTime(a) == XTime(b)
    ensures a == b
  {}

  // Multiplication by the k-th power of the field's generator.
  function Scale(b: bv8, k: nat): bv8 {
    if k == 0 then b else XTime(Scale(b, k - 1))
  }

  lemma {:induction false} ScaleAdd(a: bv8, b: bv8, k: nat)
    ensures Scale(Add(a, b), k) == Add(Scale(a, k), Scale(b, k))
  {
    hide Add, XTime;
    if k > 0 {
      ScaleAdd(a, b, k - 1);
      XTimeAdd(Scale(a, k - 1), Scale(b, k - 1));
    }
  }

  lemma {:induction false} ScaleScale(b: bv8, i: nat, j: nat)
    ensures Scale(Scale(b, i), j) == Scale(b, i + j)
  {
    hide XTime;
    if j > 0 {
      ScaleScale(b, i, j - 1);
    }
  }

  lemma {:induction false} ScaleInjective(a: bv8, b: bv8, k: nat)
    requires Scale(a, k) == Scale(b, k)
    ensures a == b
  {
    hide XTime;
    if k > 0 {
      XTimeInjective(Scale(a, k - 1), Scale(b, k - 1));
      ScaleInjective(a, b, k - 1);
    }
  }

  lemma ScaleZero(k: nat)
    ensures Scale(0, k) == 0
  {
    if k > 0 {
      ScaleZero(k - 1);
    }
  }

  // ---------- The power table ----------

  // Entry i of the power table, by the recurrence that fills it.
  function Exp(i: nat): bv8 {
    if i < 8 then 1 << i
    else Add(Add(Add(Exp(i - 4), Exp(i - 5)), Exp(i - 6)), Exp(i - 8))
  }

  lemma ExpSmall()
    ensures Exp(0) == 1 && Exp(1) == 2 && Exp(2) == 4 && Exp(3) == 8
    ensures Exp(4) == 16 && Exp(5) == 32 && Exp(6) == 64 && Exp(7) == 128
  {}

  lemma Exp8()
    ensures Exp(8) == 16 ^ 8 ^ 4 ^ 1
  {
    hide Exp;
    ExpSmall();
    ExpUnfold(8);
  }

  lemma ExpLow(i: nat)
    requires i < 8
    ensures Exp(i) == 1 << i
  {}

  lemma ExpUnfold(i: nat)
    requires i >= 8
    ensures Exp(i) == Add(Add(Add(Exp(i - 4), Exp(i - 5)), Exp(i - 6)), Exp(i - 8))
  {}

  lemma DoublingSmall()
    ensures XTime(1) == 2 && XTime(2) == 4 && XTime(4) == 8 && XTime(8) == 16
    ensures XTime(16) == 32 && XTime(32) == 64 && XTime(64) == 128
    ensures XTime(128) == 16 ^ 8 ^ 4 ^ 1
  {}

  lemma XTimeAdd4(a: bv8, b: bv8, c: bv8, d: bv8)
    ensures XTime(Add(Add(Add(a, b), c), d)) == Add(Add(Add(XTime(a), XTime(b)), XTime(c)), XTime(d))
  {
    hide Add, XTime;
    XTimeAdd(Add(Add(a, b), c), d);
    XTimeAdd(Add(a, b), c);
    XTimeAdd(a, b);
  }

  // The recurrence that fills the table is repeated doubling.
  lemma {:induction false} ExpStep(i: nat)
    ensures Exp(i + 1) == XTime(Exp(i))
  {
    hide Add, XTime;
    if i < 8 {
      ExpSmall();
      assert Exp(8) == 16 ^ 8 ^ 4 ^ 1 by { Exp8(); }
      DoublingSmall();
    } else {
      ExpStep(i - 4);
      ExpStep(i - 5);
      ExpStep(i - 6);
      ExpStep(i - 8);
      XTimeAdd4(Exp(i - 4), Exp(i - 5), Exp(i - 6), Exp(i - 8));
    }
  }

  lemma {:induction false} ExpIsScale(i: nat, k: nat)
    ensures Scale(Exp(i), k) == Exp(i + k)
  {
    hide XTime, Exp;
    if k > 0 {
      ExpIsScale(i, k - 1);
      ExpStep(i + k - 1);
    }
  }

  // ---------- The generator has order 255 ----------

  function XTime4(b: bv8): bv8 { XTime(XTime(XTime(XTime(b)))) }

  function XTime17(b: bv8): bv8 { XTime(XTime4(XTime4(XTime4(XTime4(b))))) }

  lemma ExpStep4(i: nat)
    ensures Exp(i + 4) == XTime4(Exp(i))
  {
    hide Exp, XTime;
    ExpStep(i);
    ExpStep(i + 1);
    ExpStep(i + 2);
    ExpStep(i + 3);
  }

  lemma ExpStep17(i: nat)
    ensures Exp(i + 17) == XTime17(Exp(i))
  {
    hide Exp, XTime, XTime4;
    ExpStep4(i);
    ExpStep4(i + 4);
    ExpStep4(i + 8);
    ExpStep4(i + 12);
    ExpStep(i + 16);
  }

  lemma Landmark(n: nat)
    ensures n == 255 ==> Exp(n) == 1
    ensures n == 15 || n == 51 || n == 85 ==> Exp(n) != 1
  {
    hide Exp;
    ExpSmall();
    ExpStep4(7);
    ExpStep4(11);
    MultiplesOf17(n);
  }

  lemma MultiplesOf17(n: nat)
    ensures n == 51 ==> Exp(n) == 0x0a
    ensures n == 85 ==> Exp(n) == 0xd6
    ensures n == 255 ==> Exp(n) == 1
  {
    hide Exp;
    ExpSmall();
    ExpStep17(0);
    ExpStep17(17);
    ExpStep17(34);
    ExpStep17(51);
    ExpStep17(68);
    UpperMultiplesOf17(n);
  }

  lemma UpperMultiplesOf17(n: nat)
    requires Exp(85) == 0xd6
    ensures n == 255 ==> Exp(n) == 1
  {
    hide Exp;
    ExpStep17(85);
    ExpStep17(102);
    ExpStep17(119);
    ExpStep17(136);
    ExpStep17(153);
    ExpStep17(170);
    ExpStep17(187);
    ExpStep17(204);
    ExpStep17(221);
    ExpStep17(238);
  }

  // Exponents at which the table reads 1 are closed under differences.
  lemma OneDifference(d: nat, m: nat)
    requires d <= m && Exp(d) == 1 && Exp(m) == 1
    ensures Exp(m - d) == 1
  {
    hide Exp, XTime;
    ExpIsScale(d, m - d);
    ExpIsScale(0, m - d);
    ExpSmall();
  }

  lemma {:induction false} OneMultiple(d: nat, q: nat)
    requires Exp(d) == 1
    ensures Exp(q * d) == 1
  {
    hide Exp, XTime;
    if q == 0 {
      ExpSmall();
    } else {
      OneMultiple(d, q - 1);
      ExpIsScale((q - 1) * d, d);
      ExpIsScale(0, d);
      ExpSmall();
      assert (q - 1) * d + d == q * d;
    }
  }

  // No exponent strictly between 0 and 255 gives 1: such an exponent could be
  // reduced, as in Euclid's algorithm, to a proper divisor of 255 = 3 * 5 * 17.
  lemma {:induction false} NoSmallerPeriod(d: nat)
    requires 0 < d < 255
    ensures Exp(d) != 1
  {
    hide Exp, XTime, Scale;
    if Exp(d) == 1 {
      var q, r := 255 / d, 255 % d;
      Landmark(255);
      OneMultiple(d, q);
      OneDifference(q * d, 255);
      if r > 0 {
        NoSmallerPeriod(r);
      } else {
        var c, m := ProperDivisor(d, q);
        OneMultiple(d, m);
        Landmark(c);
      }
    }
  }

  lemma ProperDivisor(d: nat, q: nat) returns (c: nat, m: nat)
    requires 0 < d < 255 && q * d == 255
    ensures c in {15, 51, 85} && m * d == c
  {
    if d < 17 {
      assert d == 1 || d == 3 || d == 5 || d == 15;
      c, m := 15, 15 / d;
    } else {
      assert q * 17 <= q * d;
      assert q == 3 || q == 5 || q == 15;
      if q == 3 { c, m := 85, 1; } else if q == 5 { c, m := 51, 1; } else { c, m := 85, 5; }
    }
  }

  lemma PowersDistinct(i: nat, j: nat)
    requires i < j < 255
    ensures Exp(i) != Exp(j)
  {
    hide Exp, XTime;
    if Exp(i) == Exp(j) {
      ExpIsScale(0, i);
      ExpIsScale(j - i, i);
      ScaleInjective(Exp(0), Exp(j - i), i);
      ExpSmall();
      NoSmallerPeriod(j - i);
    }
  }

  lemma PowersNonzero(i: nat)
    ensures Exp(i) != 0
  {
    hide Exp, XTime;
    if Exp(i) == 0 {
      ExpIsScale(0, i);
      ScaleZero(i);
      ScaleInjective(Exp(0), 0, i);
      ExpSmall();
    }
  }

  // ---------- Every nonzero byte is a power ----------

  lemma ByteValue(a: bv8, b: bv8)
    requires a as int == b as int
    ensures a == b
  {}

  predicate PowerHasValue(i: nat, k: int) { Exp(i) as int == k }

  function FirstPowers(n: nat): set<int> {
    if n == 0 then {} else FirstPowers(n - 1) + {Exp(n - 1) as int}
  }

  lemma {:induction false} FirstPowersMembers(n: nat, k: int)
    ensures k in FirstPowers(n) <==> exists i: nat :: i < n && PowerHasValue(i, k)
  {
    hide Exp;
    if n > 0 {
      FirstPowersMembers(n - 1, k);
      var last := Exp(n - 1) as int;
      assert FirstPowers(n) == FirstPowers(n - 1) + {last};
      assert last == k ==> PowerHasValue(n - 1, k);
    }
  }

  lemma {:induction false} FirstPowersSize(n: nat)
    requires n <= 255
    ensures |FirstPowers(n)| == n
  {
    hide Exp;
    if n > 0 {
      FirstPowersSize(n - 1);
      FirstPowersMembers(n - 1, Exp(n - 1) as int);
      forall i: nat | i < n - 1 ensures Exp(i) as int != Exp(n - 1) as int {
        PowersDistinct(i, n - 1);
        if Exp(i) as int == Exp(n - 1) as int { ByteValue(Exp(i), Exp(n - 1)); }
      }
    }
  }

  function Range(lo: int, n: nat): (s: set<int>)
    ensures |s| == n && forall k :: k in s <==> lo <= k < lo + n
  {
    if n == 0 then {} else {lo + n - 1} + Range(lo, n - 1)
  }

  lemma SubsetSameSize(a: set<int>, b: set<int>)
    requires a <= b && |a| == |b|
    ensures a == b
  {
    assert |b - a| == |b| - |a| by { assert b == a + (b - a); }
  }

  lemma EveryByteIsPower(n: bv8)
    requires n != 0
    ensures exists i: nat :: i < 255 && Exp(i) == n
  {
    hide Exp;
    var s, all := FirstPowers(255), Range(1, 255);
    forall k | k in s ensures k in all {
      FirstPowersMembers(255, k);
      var i: nat :| i < 255 && PowerHasValue(i, k);
      PowersNonzero(i);
      NonzeroValue(Exp(i));
    }
    FirstPowersSize(255);
    SubsetSameSize(s, all);
    NonzeroValue(n);
    assert n as int in s;
    FirstPowersMembers(255, n as int);
    var i: nat :| i < 255 && PowerHasValue(i, n as int);
    ByteValue(Exp(i), n);
  }

  lemma NonzeroValue(n: bv8)
    requires n != 0
    ensures 1 <= n as int < 256
  {
    if n as int == 0 { ByteValue(n, 0); }
  }

  // The discrete logarithm: what the log table holds for n.
  ghost function Log(n: bv8): (i: nat)
    requires n != 0
    ensures i < 255 && Exp(i) == n
  {
    EveryByteIsPower(n);
    var i: nat :| i < 255 && Exp(i) == n;
    i
  }

  // The table pair is an inverse pair: section 7.5.2 of ISO/IEC 18004:2015
  // works with both directions.
  lemma LogOfPower(i: nat)
    requires i < 255
    ensures Exp(i) != 0 && Log(Exp(i)) == i
  {
    hide Exp;
    PowersNonzero(i);
    var j := Log(Exp(i));
    if i < j { PowersDistinct(i, j); }
    if j < i { PowersDistinct(j, i); }
  }

  lemma {:induction false} ScalePeriod(b: bv8)
    ensures Scale(b, 255) == b
  {
    hide Exp, XTime, Scale;
    if b == 0 {
      ScaleZero(255);
    } else {
      var j := Log(b);
      ExpIsScale(j, 255);
      ExpIsScale(255, j);
      Landmark(255);
      ExpIsScale(0, j);
      ExpSmall();
    }
  }

  // What `gexp` returns for an exponent of either sign.
  function GExp(n: int): bv8 { Exp(n % 255) }

  lemma ResidueStep(n: nat)
    requires n >= 255
    ensures n % 255 == (n - 255) % 255
  {}

  lemma GExpStep(n: nat)
    ensures Exp(n) == GExp(n)
    decreases n
  {
    hide Exp, XTime, Scale;
    if n >= 255 {
      GExpStep(n - 255);
      ExpIsScale(n - 255, 255);
      ScalePeriod(Exp(n - 255));
      ResidueStep(n);
    }
  }

  // Adding a logarithm scales: the product formula gexp(glog(a) + k) of the
  // source is multiplication of a by the k-th power, for k of either sign.
  lemma ScaleByLog(a: bv8, k: int)
    requires a != 0
    ensures GExp(Log(a) + k) == Scale(a, k % 255)
  {
    hide Exp, XTime, Scale;
    ExpIsScale(Log(a), k % 255);
    GExpStep(Log(a) + k % 255);
    assert (Log(a) + k % 255) % 255 == (Log(a) + k) % 255;
  }
}
