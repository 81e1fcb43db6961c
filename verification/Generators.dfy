/** The generator polynomials of the QR check bytes: their roots, and the fact
    that none of their coefficients is zero as long as the degree stays below
    the order of the field's generator. */
module Generators {
  import opened Wrappers
  import opened Galois
  import opened Coefficients
  import opened QrMath
  import opened Polynomial

  // The product of x + a^i for i below n, a being the field's generator.
  ghost function Generator(n: nat): (g: seq<bv8>)
    ensures |g| == n + 1
  {
    if n == 0 then [1] else Product(Generator(n - 1), [1, GExp(n - 1)])
  }

  ghost predicate GeneratorNonzero(n: nat) { AllNonzero(Bytes(Generator(n))) }

  lemma RootOfLinear(k: nat)
    ensures Eval([1, GExp(k)], k) == 0
  {
    hide Add, Scale, Exp, GExp;
    EvalPair([1, GExp(k)], k);
    ExpIsScale(0, k);
    ExpSmall();
    GExpStep(k);
    AddLaws(Exp(k), 0, 0);
  }

  // Every power below n is a root of the n-th generator.
  lemma {:induction false} GeneratorRoots(n: nat, k: nat)
    requires k < n
    ensures Eval(Generator(n), k) == 0
  {
    hide Product, Eval, GExp;
    if k == n - 1 {
      RootOfLinear(k);
      RootOfProduct(Generator(n - 1), [1, GExp(n - 1)], k);
    } else {
      GeneratorRoots(n - 1, k);
      RootOfLeftFactor(Generator(n - 1), [1, GExp(n - 1)], k);
    }
  }

  lemma {:induction false} GeneratorMonic(n: nat)
    ensures Generator(n)[0] == 1
  {
    hide Add, Exp;
    if n > 0 {
      GeneratorMonic(n - 1);
      MulOne(1);
      AddLaws(1, 0, 0);
    }
  }

  // ---------- No coefficient vanishes ----------

  lemma {:induction false} ProductByPairAt(q: seq<bv8>, b: bv8, j: nat)
    requires j <= |q|
    ensures Product(q, [1, b])[j] == Add(if j < |q| then q[j] else 0, if j > 0 then Mul(q[j - 1], b) else 0)
  {
    hide Add, Mul;
    AddLaws(0, 0, 0);
    if q != [] {
      var head := Scaled([1, b], q[0]) + Zeros(|q| - 1);
      var rest := Product(q[1..], [1, b]);
      assert Product(q, [1, b])[j] == Add(head[j], ([0] + rest)[j]);
      MulOne(q[0]);
      if j > 0 {
        ProductByPairAt(q[1..], b, j - 1);
        AddLaws(Mul(q[0], b), if 1 < |q| then q[1] else 0, 0);
        AddLaws(0, rest[j - 1], 0);
        AddLaws(rest[j - 1], 0, 0);
        AddLaws(if j < |q| then q[j] else 0, 0, 0);
      }
    }
  }

  // Coefficient j of generator n, zero outside its range.
  ghost function Coefficient(n: nat, j: int): bv8 {
    if 0 <= j <= n then Generator(n)[j] else 0
  }

  lemma CoefficientStep(n: nat, j: int)
    ensures Coefficient(n + 1, j) == Add(Coefficient(n, j), Scale(Coefficient(n, j - 1), n % 255))
  {
    hide Add, Scale, Mul, Product, Exp;
    ScaleZero(n % 255);
    AddLaws(0, 0, 0);
    if 0 <= j <= n + 1 {
      ProductByPairAt(Generator(n), GExp(n), j);
      if j > 0 {
        var c := Generator(n)[j - 1];
        MulComm(c, GExp(n));
        MulByPower(c, n);
      }
    }
  }

  lemma MulByPower(c: bv8, n: nat)
    ensures Mul(GExp(n), c) == Scale(c, n % 255)
  {
    hide Scale, Exp;
    LogOfPower(n % 255);
  }

  // a + b + b + c == a + c, in the grouping the proofs below meet it.
  lemma AddMiddle(a: bv8, b: bv8, c: bv8)
    ensures Add(Add(a, b), Add(b, c)) == Add(a, c)
  {
    hide Add;
    AddLaws(a, b, Add(b, c));
    AddLaws(b, b, c);
    AddLaws(0, c, 0);
    AddLaws(c, 0, 0);
  }

  // Neighbouring coefficients determine each other:
  //   c(n, j) * (1 + a^j) == c(n, j - 1) * (a^(j - 1) + a^n).
  lemma {:induction false} CoefficientRatio(n: nat, j: nat)
    requires n <= 255 && 1 <= j <= n + 1
    ensures var c, d := Coefficient(n, j), Coefficient(n, j - 1);
            Add(c, Scale(c, j)) == Add(Scale(d, j - 1), Scale(d, n))
  {
    hide Add, Scale, Coefficient;
    if n == 0 {
      RatioBase();
    } else {
      var m := n - 1;
      var x, y, z := Coefficient(m, j), Coefficient(m, j - 1), Coefficient(m, j - 2);
      CoefficientStep(m, j);
      CoefficientStep(m, j - 1);
      if j <= n {
        CoefficientRatio(m, j);
      } else {
        RatioPastEnd(m);
      }
      RatioLeft(x, y, m, j);
      if j == 1 {
        NoCoefficient(m, j - 2);
        RatioFirst(y, m);
      } else {
        CoefficientRatio(m, j - 1);
        RatioRight(y, z, m, j);
      }
    }
  }

  lemma NoCoefficient(n: nat, j: int)
    requires j < 0
    ensures Coefficient(n, j) == 0
  {}

  lemma RatioBase()
    ensures Add(Coefficient(0, 1), Scale(Coefficient(0, 1), 1))
         == Add(Scale(Coefficient(0, 0), 0), Scale(Coefficient(0, 0), 0))
  {
    hide Add, Scale;
    ScaleZero(1);
    AddLaws(0, 0, 0);
    AddLaws(Scale(1, 0), 0, 0);
  }

  lemma RatioPastEnd(m: nat)
    ensures var x, y := Coefficient(m, m + 2), Coefficient(m, m + 1);
            Add(x, Scale(x, m + 2)) == Add(Scale(y, m + 1), Scale(y, m))
  {
    hide Add, Scale;
    ScaleZero(m);
    ScaleZero(m + 1);
    ScaleZero(m + 2);
  }

  lemma RatioLeft(x: bv8, y: bv8, m: nat, j: nat)
    requires j >= 1 && Add(x, Scale(x, j)) == Add(Scale(y, j - 1), Scale(y, m))
    ensures var c := Add(x, Scale(y, m));
            Add(c, Scale(c, j)) == Add(Scale(y, j - 1), Scale(y, m + j))
  {
    hide Add, Scale;
    ScaleAdd(x, Scale(y, m), j);
    ScaleScale(y, m, j);
    AddSwap(x, Scale(y, m), Scale(x, j), Scale(y, m + j));
    AddMiddle(Scale(y, j - 1), Scale(y, m), Scale(y, m + j));
  }

  lemma RatioRight(y: bv8, z: bv8, m: nat, j: nat)
    requires j >= 2 && Add(y, Scale(y, j - 1)) == Add(Scale(z, j - 2), Scale(z, m))
    ensures var d := Add(y, Scale(z, m));
            Add(Scale(d, j - 1), Scale(d, m + 1)) == Add(Scale(y, j - 1), Scale(y, m + j))
  {
    hide Add, Scale;
    var n := m + 1;
    ScaleAdd(y, Scale(z, m), j - 1);
    ScaleAdd(y, Scale(z, m), n);
    ScaleScale(z, m, j - 1);
    ScaleScale(z, m, n);
    AddSwap(Scale(y, j - 1), Scale(z, m + j - 1), Scale(y, n), Scale(z, m + n));
    // the hypothesis, multiplied by a^n
    ScaleAdd(y, Scale(y, j - 1), n);
    ScaleAdd(Scale(z, j - 2), Scale(z, m), n);
    ScaleScale(y, j - 1, n);
    ScaleScale(z, j - 2, n);
    AddMiddle(Scale(y, j - 1), Scale(y, n), Scale(y, m + j));
  }

  lemma RatioFirst(y: bv8, m: nat)
    ensures var d := Add(y, Scale(0, m));
            Add(Scale(d, 0), Scale(d, m + 1)) == Add(Scale(y, 0), Scale(y, m + 1))
  {
    hide Add, Scale;
    ScaleZero(m);
    AddLaws(y, 0, 0);
  }

  lemma {:induction false} CoefficientNonzero(n: nat, j: nat)
    requires j <= n < 255
    ensures Coefficient(n, j) != 0
  {
    hide Add, Scale, Generator, Exp;
    if j == 0 {
      GeneratorMonic(n);
    } else {
      var c, d := Coefficient(n, j), Coefficient(n, j - 1);
      CoefficientNonzero(n, j - 1);
      CoefficientRatio(n, j);
      if c == 0 {
        ScaleZero(j);
        AddLaws(0, 0, 0);
        AddLaws(Scale(d, j - 1), Scale(d, n), 0);
        PowersOfNonzeroDiffer(d, j - 1, n);
      }
    }
  }

  lemma PowersOfNonzeroDiffer(d: bv8, i: nat, j: nat)
    requires d != 0 && i < j < 255
    ensures Scale(d, i) != Scale(d, j)
  {
    hide Scale, Exp;
    if Scale(d, i) == Scale(d, j) {
      var l := Log(d);
      ExpIsScale(l, i);
      ExpIsScale(l, j);
      ExpIsScale(i, l);
      ExpIsScale(j, l);
      ScaleInjective(Exp(i), Exp(j), l);
      PowersDistinct(i, j);
    }
  }

  // The exact range of degrees on which the generator can be divided by: below
  // 255 no coefficient is zero, and generator 255 has one, x^255 + 1 being the
  // product over the whole multiplicative group.
  lemma GeneratorNonzeroBelow(n: nat)
    requires n < 255
    ensures GeneratorNonzero(n)
  {
    hide Generator;
    forall j | 0 <= j <= n ensures Generator(n)[j] != 0 {
      CoefficientNonzero(n, j);
    }
  }

  lemma GeneratorVanishesAt255()
    ensures !GeneratorNonzero(255)
  {
    hide Add, Scale, Generator, Exp;
    GeneratorMonic(255);
    CoefficientRatio(255, 1);
    var c := Coefficient(255, 1);
    ScalePeriod(1);
    ScaleNone(1);
    AddLaws(1, 0, 0);
    AddLaws(c, Scale(c, 1), 0);
    if c != 0 {
      ScaleNone(c);
      PowersOfNonzeroDiffer(c, 0, 1);
    }
    assert Bytes(Generator(255))[1] == Byte(0);
  }

  lemma ScaleNone(b: bv8)
    ensures Scale(b, 0) == b
  {}

  lemma MonicNormalized(v: seq<bv8>)
    requires |v| > 0 && v[0] == 1
    ensures Normalized(Bytes(v), 0) == Bytes(v)
  {
    LeadingZerosUnique(Bytes(v), 0);
    assert Bytes(v)[0..] == Bytes(v);
  }

  // Throws exactly when more than 255 factors are asked for.
  method ErrorCorrectPolynomial(math: Tables, n: nat) returns (r: Option<seq<Slot>>)
    requires math.Valid()
    ensures r.Some? <==> n <= 255
    ensures r.Some? ==> r.value == Bytes(Generator(n))
  {
    hide Product, GExp, Normalized;
    var a := [Byte(1)];
    assert a == Bytes(Generator(0));
    for i := 0 to n
      invariant a == Bytes(Generator(i)) && i <= 255
    {
      var power := math.Gexp(i);
      var factor := [Byte(1), Byte(power)];
      FactorNonzero(i);
      assert Values(factor) == [1, GExp(i)];
      assert Values(a) == Generator(i);
      var product := Multiply(math, a, factor);
      if product.None? {
        if i < 255 { GeneratorNonzeroBelow(i); }
        return None;
      }
      if i == 255 { GeneratorVanishesAt255(); }
      GeneratorMonic(i + 1);
      MonicNormalized(Generator(i + 1));
      a := product.value;
    }
    r := Some(a);
  }

  lemma FactorNonzero(k: nat)
    ensures AllNonzero([Byte(1), Byte(GExp(k))])
  {
    hide Exp;
    PowersNonzero(k % 255);
  }
}
