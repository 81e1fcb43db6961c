/** How far apart codewords are, and so how many wrong bytes of a block a reader
    can correct (section 7.5.1 of ISO/IEC 18004:2015). */
module Distance {
  import opened SetLaws
  import opened Galois
  import opened Coefficients

  // The word vanishes at the first n powers of the field's generator.
  ghost predicate IsCodeword(w: seq<bv8>, n: nat) { forall k :: 0 <= k < n ==> Eval(w, k) == 0 }

  function Support(w: seq<bv8>): set<nat> { set i | 0 <= i < |w| && w[i] != 0 }

  function Differences(v: seq<bv8>, w: seq<bv8>): set<nat>
    requires |v| == |w|
  {
    set i | 0 <= i < |v| && v[i] != w[i]
  }

  // ---------- Dropping one position ----------

  // Every coefficient times the power of the generator that belongs to its place.
  function Shifted(w: seq<bv8>): (r: seq<bv8>)
    ensures |r| == |w| && forall i :: 0 <= i < |w| ==> r[i] == Scale(w[i], |w| - 1 - i)
  {
    seq(|w|, i requires 0 <= i < |w| => Scale(w[i], |w| - 1 - i))
  }

  // Every coefficient times the same power.
  function Times(w: seq<bv8>, p: nat): (r: seq<bv8>)
    ensures |r| == |w| && forall i :: 0 <= i < |w| ==> r[i] == Scale(w[i], p)
  {
    seq(|w|, i requires 0 <= i < |w| => Scale(w[i], p))
  }

  lemma {:induction false} EvalShifted(w: seq<bv8>, k: nat)
    ensures Eval(Shifted(w), k) == Eval(w, k + 1)
  {
    hide Add, Scale;
    if w != [] {
      var e := |w| - 1;
      assert Shifted(w)[1..] == Shifted(w[1..]);
      EvalShifted(w[1..], k);
      ScaleScale(w[0], e, k * e);
      assert e + k * e == (k + 1) * e;
    }
  }

  lemma {:induction false} EvalTimes(w: seq<bv8>, p: nat, k: nat)
    ensures Eval(Times(w, p), k) == Scale(Eval(w, k), p)
  {
    hide Add, Scale;
    if w == [] {
      ScaleZero(p);
    } else {
      var e := k * (|w| - 1);
      assert Times(w, p)[1..] == Times(w[1..], p);
      EvalTimes(w[1..], p, k);
      ScaleScale(w[0], p, e);
      ScaleScale(w[0], e, p);
      ScaleAdd(Scale(w[0], e), Eval(w[1..], k), p);
    }
  }

  // Multiplied by the difference between its own power and the p-th.
  function Dropped(w: seq<bv8>, p: nat): (r: seq<bv8>)
    ensures |r| == |w|
  {
    Sum(Shifted(w), Times(w, p))
  }

  lemma DroppedVanishes(w: seq<bv8>, p: nat, n: nat)
    requires IsCodeword(w, n) && n > 0
    ensures IsCodeword(Dropped(w, p), n - 1)
  {
    hide Add, Scale, Eval;
    forall k | 0 <= k < n - 1 ensures Eval(Dropped(w, p), k) == 0 {
      EvalSum(Shifted(w), Times(w, p), k);
      EvalShifted(w, k);
      EvalTimes(w, p, k);
      ScaleZero(p);
      AddLaws(0, 0, 0);
    }
  }

  // Different powers below the order take a nonzero byte to different bytes.
  lemma ScaleDistinct(a: bv8, i: nat, j: nat)
    requires a != 0 && i < j < 255
    ensures Scale(a, i) != Scale(a, j)
  {
    hide Exp, XTime, Scale;
    if Scale(a, i) == Scale(a, j) {
      ScaleScale(a, j - i, i);
      ScaleInjective(a, Scale(a, j - i), i);
      var l := Log(a);
      ExpIsScale(l, j - i);
      ExpIsScale(0, l);
      ExpIsScale(j - i, l);
      ScaleInjective(Exp(0), Exp(j - i), l);
      ExpSmall();
      NoSmallerPeriod(j - i);
    }
  }

  lemma DifferenceZero(a: bv8, i: nat, j: nat)
    requires i < 255 && j < 255
    ensures Add(Scale(a, i), Scale(a, j)) == 0 <==> a == 0 || i == j
  {
    hide Add, Scale;
    AddLaws(Scale(a, i), Scale(a, j), 0);
    if a == 0 {
      ScaleZero(i);
      ScaleZero(j);
      AddLaws(0, 0, 0);
    } else if i < j {
      ScaleDistinct(a, i, j);
    } else if j < i {
      ScaleDistinct(a, j, i);
    }
  }

  lemma DroppedSupport(w: seq<bv8>, i: nat)
    requires i < |w| <= 255
    ensures Support(Dropped(w, |w| - 1 - i)) == Support(w) - {i}
  {
    hide Add, Scale;
    var p := |w| - 1 - i;
    forall j | 0 <= j < |w| ensures Dropped(w, p)[j] == 0 <==> w[j] == 0 || j == i {
      DifferenceZero(w[j], |w| - 1 - j, p);
    }
  }

  // ---------- No codeword has few nonzero bytes ----------

  lemma LoneElsewhere(w: seq<bv8>, i: nat)
    requires i < |w| && Support(w) == {i}
    ensures forall j :: 0 <= j < |w| && j != i ==> w[j] == 0
  {
    forall j | 0 <= j < |w| && j != i ensures w[j] == 0 {
      assert j !in Support(w);
    }
  }

  lemma {:induction false} EvalLone(w: seq<bv8>, i: nat)
    requires i < |w| && forall j :: 0 <= j < |w| && j != i ==> w[j] == 0
    ensures Eval(w, 0) == w[i]
  {
    hide Add, Scale;
    var rest := w[1..];
    NoShift(w[0]);
    assert Eval(w, 0) == Add(w[0], Eval(rest, 0));
    if i == 0 {
      assert rest == Zeros(|w| - 1);
      EvalZeros(|w| - 1, 0);
      AddLaws(w[0], 0, 0);
    } else {
      assert forall j :: 0 <= j < |rest| ==> rest[j] == w[j + 1];
      EvalLone(rest, i - 1);
      AddLaws(0, w[i], 0);
      AddLaws(w[i], 0, 0);
    }
  }

  lemma NoShift(b: bv8)
    ensures Scale(b, 0) == b
  {}

  // At most n nonzero bytes of at most 255, and n roots: there are none.
  lemma {:induction false} FewNonzero(w: seq<bv8>, n: nat)
    requires |w| <= 255 && IsCodeword(w, n) && |Support(w)| <= n
    ensures Support(w) == {}
    decreases n
  {
    hide Support, Dropped, Eval;
    if Support(w) != {} {
      var i :| i in Support(w);
      SupportIn(w, i);
      var p := |w| - 1 - i;
      DroppedVanishes(w, p, n);
      DroppedSupport(w, i);
      assert |Support(w) - {i}| == |Support(w)| - 1;
      FewNonzero(Dropped(w, p), n - 1);
      assert Support(w) == {i};
      LoneElsewhere(w, i);
      EvalLone(w, i);
    }
  }

  lemma SupportIn(w: seq<bv8>, i: nat)
    requires i in Support(w)
    ensures i < |w| && w[i] != 0
  {}

  lemma DifferencesAre(v: seq<bv8>, w: seq<bv8>)
    requires |v| == |w|
    ensures Support(Sum(v, w)) == Differences(v, w)
  {
    hide Add;
    forall i | 0 <= i < |v| ensures Add(v[i], w[i]) == 0 <==> v[i] == w[i] {
      AddLaws(v[i], w[i], 0);
      AddLaws(v[i], v[i], 0);
    }
  }

  lemma NoDifference(v: seq<bv8>, w: seq<bv8>)
    requires |v| == |w|
    ensures Differences(v, w) == {} <==> v == w
  {
    if Differences(v, w) == {} {
      forall i | 0 <= i < |v| ensures v[i] == w[i] {
        assert i !in Differences(v, w);
      }
    }
  }

  // Two codewords with n check bytes differ in more than n places.
  lemma FarApart(v: seq<bv8>, w: seq<bv8>, n: nat)
    requires |v| == |w| <= 255 && IsCodeword(v, n) && IsCodeword(w, n) && v != w
    ensures |Differences(v, w)| > n
  {
    hide Eval, Add;
    forall k | 0 <= k < n ensures Eval(Sum(v, w), k) == 0 {
      EvalSum(v, w, k);
      AddLaws(0, 0, 0);
    }
    DifferencesAre(v, w);
    if |Differences(v, w)| <= n {
      FewNonzero(Sum(v, w), n);
      NoDifference(v, w);
    }
  }

  // So with at most half as many wrong bytes as check bytes, whatever is
  // received belongs to one codeword only.
  lemma OneNearest(v: seq<bv8>, w: seq<bv8>, received: seq<bv8>, n: nat)
    requires |v| == |w| == |received| <= 255 && IsCodeword(v, n) && IsCodeword(w, n)
    requires 2 * |Differences(v, received)| <= n && 2 * |Differences(w, received)| <= n
    ensures v == w
  {
    var a, b := Differences(v, received), Differences(w, received);
    UnionSize(a, b);
    SubsetSize(Differences(v, w), a + b);
    if v != w {
      FarApart(v, w, n);
    }
  }
}
