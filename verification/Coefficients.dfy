/** Coefficient lists over GF(256), highest degree first: sums, products and
    evaluation at powers of the generator.  This is the reference algebra the
    encoder's polynomial objects are proved against. */
module Coefficients {
  import opened Galois

  function Zeros(n: nat): (s: seq<bv8>)
    ensures |s| == n && forall i :: 0 <= i < n ==> s[i] == 0
  {
    seq(n, _ => 0)
  }

  function Sum(a: seq<bv8>, b: seq<bv8>): (s: seq<bv8>)
    requires |a| == |b|
    ensures |s| == |a| && forall i :: 0 <= i < |a| ==> s[i] == Add(a[i], b[i])
  {
    seq(|a|, i requires 0 <= i < |a| => Add(a[i], b[i]))
  }

  ghost function Mul(a: bv8, b: bv8): bv8 {
    if a == 0 then 0 else Scale(b, Log(a))
  }

  ghost function Scaled(g: seq<bv8>, c: bv8): (s: seq<bv8>)
    ensures |s| == |g| && forall i :: 0 <= i < |g| ==> s[i] == Mul(c, g[i])
  {
    seq(|g|, i requires 0 <= i < |g| => Mul(c, g[i]))
  }

  // The product of q and g: the sum of the shifts of g scaled by q's entries.
  ghost function Product(q: seq<bv8>, g: seq<bv8>): (s: seq<bv8>)
    requires |g| > 0
    ensures |s| == |q| + |g| - 1
  {
    if q == [] then Zeros(|g| - 1)
    else Sum(Scaled(g, q[0]) + Zeros(|q| - 1), [0] + Product(q[1..], g))
  }

  ghost predicate IsMultiple(w: seq<bv8>, g: seq<bv8>)
    requires |g| > 0
  {
    exists q :: w == Product(q, g)
  }

  // The value of w at the k-th power of the generator.
  function Eval(w: seq<bv8>, k: nat): bv8 {
    if w == [] then 0 else Add(Scale(w[0], k * (|w| - 1)), Eval(w[1..], k))
  }

  lemma ZerosCons(n: nat)
    ensures Zeros(n + 1) == [0] + Zeros(n)
  {}

  lemma SumZeros(a: seq<bv8>)
    ensures Sum(a, Zeros(|a|)) == a && Sum(Zeros(|a|), a) == a
  {
    hide Add;
    forall i | 0 <= i < |a| ensures Add(a[i], 0) == a[i] && Add(0, a[i]) == a[i] {
      AddLaws(a[i], 0, 0);
    }
  }

  lemma SumTwice(a: seq<bv8>, b: seq<bv8>)
    requires |a| == |b|
    ensures Sum(Sum(a, b), b) == a
    ensures Sum(a, a) == Zeros(|a|)
  {
    hide Add;
    forall i | 0 <= i < |a| ensures Add(Add(a[i], b[i]), b[i]) == a[i] && Add(a[i], a[i]) == 0 {
      AddLaws(a[i], b[i], 0);
    }
  }

  lemma SumAssoc(a: seq<bv8>, b: seq<bv8>, c: seq<bv8>)
    requires |a| == |b| == |c|
    ensures Sum(Sum(a, b), c) == Sum(a, Sum(b, c))
    ensures Sum(a, b) == Sum(b, a)
  {
    hide Add;
    forall i | 0 <= i < |a|
      ensures Add(Add(a[i], b[i]), c[i]) == Add(a[i], Add(b[i], c[i]))
      ensures Add(a[i], b[i]) == Add(b[i], a[i])
    {
      AddLaws(a[i], b[i], c[i]);
    }
  }

  // Adding s to one summand and again to the total changes nothing.
  lemma SumCancel(s: seq<bv8>, p: seq<bv8>, r: seq<bv8>)
    requires |s| == |p| == |r|
    ensures Sum(p, r) == Sum(s, Sum(Sum(s, p), r))
  {
    hide Add;
    SumAssoc(s, p, r);
    SumAssoc(s, s, Sum(p, r));
    SumTwice(s, s);
    SumZeros(Sum(p, r));
  }

  // Appending a coefficient to the left factor adds one more shifted copy of g.
  lemma {:induction false} ProductSnoc(q: seq<bv8>, c: bv8, g: seq<bv8>)
    requires |g| > 0
    ensures Product(q + [c], g) == Sum(Product(q, g) + [0], Zeros(|q|) + Scaled(g, c))
  {
    hide Add, Mul;
    var n := |g|;
    if q == [] {
      assert q + [c] == [c] && [c][1..] == [];
      assert [0] + Zeros(n - 1) == Zeros(n) && Zeros(n - 1) + [0] == Zeros(n);
      assert Scaled(g, c) + Zeros(0) == Scaled(g, c) && Zeros(0) + Scaled(g, c) == Scaled(g, c);
      SumAssoc(Scaled(g, c), Zeros(n), Zeros(n));
    } else {
      var t := q[1..];
      ProductSnoc(t, c, g);
      assert (q + [c])[1..] == t + [c];
      var rest: seq<bv8> := [0] + Product(t, g);
      var last := Zeros(|t|) + Scaled(g, c);
      assert [0] + last == Zeros(|q|) + Scaled(g, c);
      SumCons(Product(t, g) + [0], last);
      assert [0] + (Product(t, g) + [0]) == rest + [0];
      var head := Scaled(g, q[0]) + Zeros(|t|);
      assert Scaled(g, q[0]) + Zeros(|q|) == head + [0];
      SumSnoc(head, rest);
      SumAssoc(head + [0], rest + [0], [0] + last);
    }
  }

  lemma SumSnoc(a: seq<bv8>, b: seq<bv8>)
    requires |a| == |b|
    ensures Sum(a, b) + [0] == Sum(a + [0], b + [0])
  {
    AddLaws(0, 0, 0);
  }

  lemma SumCons(a: seq<bv8>, b: seq<bv8>)
    requires |a| == |b|
    ensures [0] + Sum(a, b) == Sum([0] + a, [0] + b)
  {
    hide Add;
    AddLaws(0, 0, 0);
    forall i | 0 <= i < |a| + 1
      ensures ([0] + Sum(a, b))[i] == Sum([0] + a, [0] + b)[i]
    {
      if i > 0 {
        assert ([0] + a)[i] == a[i - 1] && ([0] + b)[i] == b[i - 1];
      }
    }
  }

  // ---------- Evaluation ----------

  lemma {:induction false} EvalSum(a: seq<bv8>, b: seq<bv8>, k: nat)
    requires |a| == |b|
    ensures Eval(Sum(a, b), k) == Add(Eval(a, k), Eval(b, k))
  {
    hide Add, Scale;
    if a == [] {
      AddLaws(0, 0, 0);
    } else {
      var e := k * (|a| - 1);
      assert Sum(a, b)[1..] == Sum(a[1..], b[1..]);
      EvalSum(a[1..], b[1..], k);
      ScaleAdd(a[0], b[0], e);
      AddSwap(Scale(a[0], e), Scale(b[0], e), Eval(a[1..], k), Eval(b[1..], k));
    }
  }

  lemma {:induction false} EvalZeros(n: nat, k: nat)
    ensures Eval(Zeros(n), k) == 0
  {
    hide Add, Scale;
    if n > 0 {
      assert Zeros(n)[1..] == Zeros(n - 1);
      EvalZeros(n - 1, k);
      ScaleZero(k * (n - 1));
      AddLaws(0, 0, 0);
    }
  }

  lemma {:induction false} EvalScaled(g: seq<bv8>, c: bv8, k: nat)
    ensures Eval(Scaled(g, c), k) == Mul(c, Eval(g, k))
  {
    hide Add, Scale;
    if g == [] {
      if c != 0 { ScaleZero(Log(c)); }
    } else {
      assert Scaled(g, c)[1..] == Scaled(g[1..], c);
      EvalScaled(g[1..], c, k);
      var e := k * (|g| - 1);
      if c == 0 {
        ScaleZero(e);
        AddLaws(0, 0, 0);
      } else {
        ScaleAdd(Scale(g[0], e), Eval(g[1..], k), Log(c));
        ScaleScale(g[0], e, Log(c));
        ScaleScale(g[0], Log(c), e);
      }
    }
  }

  lemma {:induction false} EvalShift(w: seq<bv8>, n: nat, k: nat)
    ensures Eval(w + Zeros(n), k) == Scale(Eval(w, k), k * n)
  {
    hide Add, Scale;
    if w == [] {
      assert w + Zeros(n) == Zeros(n);
      EvalZeros(n, k);
      ScaleZero(k * n);
    } else {
      assert (w + Zeros(n))[1..] == w[1..] + Zeros(n);
      EvalShift(w[1..], n, k);
      var e := k * (|w| - 1);
      ScaleAdd(Scale(w[0], e), Eval(w[1..], k), k * n);
      ScaleScale(w[0], e, k * n);
      assert e + k * n == k * (|w| - 1 + n);
    }
  }

  lemma EvalLeadingZero(w: seq<bv8>, k: nat)
    ensures Eval([0] + w, k) == Eval(w, k)
  {
    hide Add, Scale;
    assert ([0] + w)[1..] == w;
    ScaleZero(k * |w|);
    AddLaws(Eval(w, k), 0, 0);
    AddLaws(0, Eval(w, k), 0);
  }

  // A root of g is a root of every multiple of g.
  lemma {:induction false} RootOfProduct(q: seq<bv8>, g: seq<bv8>, k: nat)
    requires |g| > 0 && Eval(g, k) == 0
    ensures Eval(Product(q, g), k) == 0
  {
    hide Add, Scale;
    if q == [] {
      EvalZeros(|g| - 1, k);
    } else {
      RootOfProduct(q[1..], g, k);
      EvalSum(Scaled(g, q[0]) + Zeros(|q| - 1), [0] + Product(q[1..], g), k);
      EvalLeadingZero(Product(q[1..], g), k);
      EvalShift(Scaled(g, q[0]), |q| - 1, k);
      EvalScaled(g, q[0], k);
      if q[0] != 0 { ScaleZero(Log(q[0])); }
      ScaleZero(k * (|q| - 1));
      AddLaws(0, 0, 0);
    }
  }

  // A value of q that is zero makes the product zero there as well.
  lemma {:induction false} RootOfLeftFactor(q: seq<bv8>, g: seq<bv8>, k: nat)
    requires |g| == 2 && g[0] == 1 && Eval(q, k) == 0
    ensures Eval(Product(q, g), k) == 0
  {
    hide Add, Scale;
    EvalProductByMonic(q, g, k);
    ScaleZero(k);
    MulZero(g[1]);
    AddLaws(0, 0, 0);
  }

  lemma MulZero(c: bv8)
    ensures Mul(c, 0) == 0 && Mul(0, c) == 0
  {
    hide Scale;
    if c != 0 { ScaleZero(Log(c)); }
  }

  lemma MulComm(a: bv8, b: bv8)
    ensures Mul(a, b) == Mul(b, a)
  {
    hide Exp, Scale;
    if a == 0 || b == 0 {
      MulZero(a);
      MulZero(b);
    } else {
      ExpIsScale(Log(a), Log(b));
      ExpIsScale(Log(b), Log(a));
    }
  }

  lemma MulOne(a: bv8)
    ensures Mul(1, a) == a && Mul(a, 1) == a
  {
    hide Exp;
    ExpSmall();
    LogOfPower(0);
    MulComm(a, 1);
  }

  // Multiplying by x + b evaluates to E * x + b * E.
  lemma {:induction false} EvalProductByMonic(q: seq<bv8>, g: seq<bv8>, k: nat)
    requires |g| == 2 && g[0] == 1
    ensures Eval(Product(q, g), k) == Add(Scale(Eval(q, k), k), Mul(g[1], Eval(q, k)))
  {
    hide Add, Scale, Mul;
    if q == [] {
      EvalZeros(1, k);
      ScaleZero(k);
      MulZero(g[1]);
      AddLaws(0, 0, 0);
    } else {
      var n := |q| - 1;
      var c, t := q[0], Eval(q[1..], k);
      EvalProductByMonic(q[1..], g, k);
      var head := Scaled(g, c) + Zeros(n);
      EvalSum(head, [0] + Product(q[1..], g), k);
      EvalLeadingZero(Product(q[1..], g), k);
      EvalShift(Scaled(g, c), n, k);
      EvalPair(Scaled(g, c), k);
      MulOne(c);
      MulComm(c, g[1]);
      // head evaluates to Scale(c, k * n) * x + g[1] * Scale(c, k * n)
      var h := Scale(c, k * n);
      ScaleAdd(Scale(c, k), Mul(g[1], c), k * n);
      ScaleScale(c, k, k * n);
      ScaleScale(c, k * n, k);
      MulScale(g[1], c, k * n);
      AddSwap(Scale(h, k), Mul(g[1], h), Scale(t, k), Mul(g[1], t));
      ScaleAdd(h, t, k);
      MulAdd(g[1], h, t);
    }
  }

  lemma EvalPair(w: seq<bv8>, k: nat)
    requires |w| == 2
    ensures Eval(w, k) == Add(Scale(w[0], k), w[1])
  {
    hide Add;
    var t := w[1..];
    assert t == [w[1]] && t[1..] == [];
    assert Eval(t[1..], k) == 0;
    assert Eval(t, k) == Add(Scale(t[0], k * 0), 0);
    AddLaws(w[1], 0, 0);
  }

  lemma MulScale(a: bv8, b: bv8, e: nat)
    ensures Scale(Mul(a, b), e) == Mul(a, Scale(b, e))
  {
    hide Scale;
    ScaleZero(e);
    if a != 0 {
      ScaleScale(b, Log(a), e);
      ScaleScale(b, e, Log(a));
    }
  }

  lemma MulAdd(a: bv8, b: bv8, c: bv8)
    ensures Mul(a, Add(b, c)) == Add(Mul(a, b), Mul(a, c))
  {
    hide Add, Scale;
    if a == 0 {
      AddLaws(0, 0, 0);
    } else {
      ScaleAdd(b, c, Log(a));
    }
  }
}
