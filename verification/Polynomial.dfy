/** The QR encoder's polynomial objects: construction, product and remainder,
    proved against the reference algebra of `Coefficients`. */
module Polynomial {
  import opened Wrappers
  import opened Galois
  import opened Coefficients
  import opened QrMath
  import opened SeqLaws

  // An array slot.  A slot that was never written is not equal to zero, but
  // every bit operation reads it as zero.
  datatype Slot = Hole | Byte(value: bv8)

  function Read(s: Slot): bv8 { if s.Hole? then 0 else s.value }

  function Values(p: seq<Slot>): (v: seq<bv8>)
    ensures |v| == |p| && forall i :: 0 <= i < |p| ==> v[i] == Read(p[i])
  {
    seq(|p|, i requires 0 <= i < |p| => Read(p[i]))
  }

  function Bytes(v: seq<bv8>): (p: seq<Slot>)
    ensures |p| == |v| && forall i :: 0 <= i < |p| ==> p[i] == Byte(v[i])
  {
    seq(|v|, i requires 0 <= i < |v| => Byte(v[i]))
  }

  function Numbers(p: seq<Slot>): (v: seq<nat>)
    ensures |v| == |p| && forall i :: 0 <= i < |p| ==> v[i] == Read(p[i]) as nat
  {
    seq(|p|, i requires 0 <= i < |p| => Read(p[i]) as nat)
  }

  predicate NoHoles(p: seq<Slot>) { forall i :: 0 <= i < |p| ==> p[i].Byte? }

  // No coefficient on which glog would throw.
  predicate AllNonzero(p: seq<Slot>) { forall i :: 0 <= i < |p| ==> p[i].Byte? && p[i].value != 0 }

  // ---------- Construction ----------

  function LeadingZeros(num: seq<Slot>): (n: nat)
    ensures n <= |num| && (forall i :: 0 <= i < n ==> num[i] == Byte(0))
    ensures n < |num| ==> num[n] != Byte(0)
  {
    if num == [] || num[0] != Byte(0) then 0 else 1 + LeadingZeros(num[1..])
  }

  function Normalized(num: seq<Slot>, shift: nat): seq<Slot> {
    num[LeadingZeros(num)..] + seq(shift, _ => Hole)
  }

  lemma LeadingZerosUnique(num: seq<Slot>, n: nat)
    requires n <= |num| && (forall i :: 0 <= i < n ==> num[i] == Byte(0))
    requires n < |num| ==> num[n] != Byte(0)
    ensures n == LeadingZeros(num)
  {}

  method NewPolynomial(num: seq<Slot>, shift: nat) returns (p: seq<Slot>)
    ensures p == Normalized(num, shift)
  {
    var offset := 0;
    while offset < |num| && num[offset] == Byte(0)
      invariant offset <= |num| && forall i :: 0 <= i < offset ==> num[i] == Byte(0)
    {
      offset := offset + 1;
    }
    LeadingZerosUnique(num, offset);
    var slots := new Slot[|num| - offset + shift](_ => Hole);
    for i := 0 to |num| - offset
      invariant slots[..i] == num[offset..offset + i]
      invariant forall j :: i <= j < slots.Length ==> slots[j] == Hole
    {
      slots[i] := num[i + offset];
    }
    p := slots[..];
    assert p[..|num| - offset] == num[offset..];
  }

  // ---------- Product ----------

  ghost function Row(base: seq<bv8>, c: bv8, g: seq<bv8>, i: nat, j: nat): (s: seq<bv8>)
    requires j <= |g| && i + |g| <= |base|
    ensures |s| == |base|
    ensures forall k :: 0 <= k < |base| ==> s[k] == if i <= k < i + j then Add(base[k], Mul(c, g[k - i])) else base[k]
  {
    seq(|base|, k requires 0 <= k < |base| => if i <= k < i + j then Add(base[k], Mul(c, g[k - i])) else base[k])
  }

  lemma RowComplete(q: seq<bv8>, g: seq<bv8>, i: nat)
    requires |g| > 0 && i < |q|
    ensures Row(Product(q[..i], g) + Zeros(|q| - i), q[i], g, i, |g|)
         == Product(q[..i + 1], g) + Zeros(|q| - (i + 1))
  {
    hide *;
    TakeSnoc(q, i);
    ProductSnoc(q[..i], q[i], g);
    RowSum(Product(q[..i], g), q[i], g, i, |q| - (i + 1));
  }

  lemma RowSum(p: seq<bv8>, c: bv8, g: seq<bv8>, i: nat, m: nat)
    requires |g| > 0 && |p| == i + |g| - 1
    ensures Row(p + Zeros(m + 1), c, g, i, |g|) == Sum(p + [0], Zeros(i) + Scaled(g, c)) + Zeros(m)
  {
    hide *;
    var n := i + |g|;
    var before := p + [0];
    var base := p + Zeros(m + 1);
    ZerosCons(m);
    ConcatAssoc(p, [0], Zeros(m));
    var row := Row(base, c, g, i, |g|);
    var added := Zeros(i) + Scaled(g, c);
    forall k | 0 <= k < n ensures row[k] == Add(before[k], added[k]) {
      AddLaws(base[k], 0, 0);
    }
    assert row[..n] == Sum(before, added);
    assert row[n..] == Zeros(m);
    SplitAt(row, n);
  }

  lemma ProductOfOne(g: seq<bv8>, n: nat)
    requires |g| > 0
    ensures Product([], g) + Zeros(n) == Zeros(|g| - 1 + n)
  {}

  // Throws exactly when some coefficient is zero, and otherwise returns the
  // product with its leading zeros removed.
  method Multiply(math: Tables, a: seq<Slot>, e: seq<Slot>) returns (r: Option<seq<Slot>>)
    requires math.Valid()
    requires |a| > 0 && |e| > 0 && NoHoles(a) && NoHoles(e)
    ensures r.Some? <==> AllNonzero(a) && AllNonzero(e)
    ensures r.Some? ==> r.value == Normalized(Bytes(Product(Values(a), Values(e))), 0)
  {
    hide Add, Mul, Product;
    var num := new Slot[|a| + |e| - 1](_ => Hole);
    ghost var q, g := Values(a), Values(e);
    assert Values(num[..]) == Product(q[..0], g) + Zeros(|q|) by {
      assert q[..0] == [];
      ProductOfOne(g, |a|);
    }
    for i := 0 to |a|
      invariant AllNonzero(a[..i]) && (i > 0 ==> AllNonzero(e))
      invariant Values(num[..]) == Product(q[..i], g) + Zeros(|q| - i)
      invariant i > 0 ==> NoHoles(num[..i + |e| - 1])
    {
      var ok := MultiplyRow(math, num, a[i].value, e, i);
      if !ok {
        return None;
      }
      RowComplete(q, g, i);
    }
    assert q[..|a|] == q && a[..|a|] == a;
    assert Product(q, g) + Zeros(0) == Product(q, g);
    assert num[..] == Bytes(Product(q, g)) by {
      assert num[..|a| - 1 + |e|] == num[..];
      forall k | 0 <= k < num.Length ensures num[k] == Byte(Product(q, g)[k]) {
        assert Values(num[..])[k] == Read(num[k]);
      }
    }
    var p := NewPolynomial(num[..], 0);
    r := Some(p);
  }

  // The inner loop: one coefficient times every coefficient of e.
  method MultiplyRow(math: Tables, num: array<Slot>, c: bv8, e: seq<Slot>, i: nat) returns (ok: bool)
    requires math.Valid()
    requires |e| > 0 && NoHoles(e) && i + |e| <= num.Length
    requires i > 0 ==> NoHoles(num[..i + |e| - 1])
    requires num as object != math.exp && num as object != math.log
    modifies num
    ensures ok <==> c != 0 && AllNonzero(e)
    ensures ok ==> NoHoles(num[..i + |e|])
    ensures ok ==> Values(num[..]) == Row(old(Values(num[..])), c, Values(e), i, |e|)
  {
    hide Add, Mul, Row;
    ghost var was := num[..];
    for j := 0 to |e|
      invariant j > 0 ==> c != 0
      invariant AllNonzero(e[..j])
      invariant forall k :: 0 <= k < i || i + j <= k < num.Length ==> num[k] == old(num[k])
      invariant forall k :: i <= k < i + j ==>
        num[k] == Byte(Add(Read(old(num[k])), Mul(c, e[k - i].value)))
    {
      var lc := math.Glog(c);
      var le := math.Glog(e[j].value);
      if lc.None? || le.None? {
        return false;
      }
      var product := math.Gexp(lc.value + le.value);
      ProductByLogs(c, e[j].value);
      num[i + j] := Byte(Add(Read(num[i + j]), product));
    }
    assert e[..|e|] == e;
    RowFinished(was, num[..], c, e, i);
    ok := true;
  }

  lemma RowFinished(was: seq<Slot>, now: seq<Slot>, c: bv8, e: seq<Slot>, i: nat)
    requires |e| > 0 && NoHoles(e) && i + |e| <= |was| == |now| && (i > 0 ==> NoHoles(was[..i + |e| - 1]))
    requires forall k :: 0 <= k < i || i + |e| <= k < |was| ==> now[k] == was[k]
    requires forall k :: i <= k < i + |e| ==> now[k] == Byte(Add(Read(was[k]), Mul(c, e[k - i].value)))
    ensures NoHoles(now[..i + |e|]) && Values(now) == Row(Values(was), c, Values(e), i, |e|)
  {
    hide Add, Mul;
    forall k | 0 <= k < i + |e| ensures now[k].Byte? {
      if k < i {
        assert was[..i + |e| - 1][k].Byte?;
      }
    }
  }

  lemma ProductByLogs(a: bv8, b: bv8)
    requires a != 0 && b != 0
    ensures GExp(Log(a) + Log(b)) == Mul(a, b)
  {
    hide GExp, Scale;
    ScaleByLog(b, Log(a));
  }

  // ---------- Remainder ----------

  // What `mod` may be applied to: no leading zero, and nothing unwritten in
  // front of the last n slots.
  predicate Reducible(p: seq<Slot>, n: nat) {
    && (p != [] ==> p[0] != Byte(0))
    && (forall i :: 0 <= i < |p| - n ==> p[i].Byte?)
  }

  // The factor that cancels p's leading coefficient against e's.
  ghost function Ratio(p: seq<Slot>, e: seq<Slot>): bv8
    requires |p| >= |e| > 0 && AllNonzero(e) && Reducible(p, |e| - 1)
  {
    GExp(Log(p[0].value) - Log(e[0].value))
  }

  ghost function Cancelled(p: seq<Slot>, e: seq<Slot>): (s: seq<Slot>)
    requires |p| >= |e| > 0 && AllNonzero(e) && Reducible(p, |e| - 1)
    ensures |s| == |p|
    ensures forall i :: 0 <= i < |p| ==>
      s[i] == (if i < |e| then Byte(Add(Read(p[i]), Mul(Ratio(p, e), e[i].value))) else p[i])
  {
    seq(|p|, i requires 0 <= i < |p| =>
      if i < |e| then Byte(Add(Read(p[i]), Mul(Ratio(p, e), e[i].value))) else p[i])
  }

  lemma RatioCancels(p: seq<Slot>, e: seq<Slot>)
    requires |p| >= |e| > 0 && AllNonzero(e) && Reducible(p, |e| - 1)
    ensures Mul(Ratio(p, e), e[0].value) == p[0].value
    ensures Cancelled(p, e)[0] == Byte(0)
  {
    hide Exp, Scale, Add;
    var a, b := p[0].value, e[0].value;
    RatioScales(p, e, 0);
    ScaleByLog(b, Log(a) - Log(b));
    AddLaws(a, a, 0);
    assert GExp(Log(a)) == a;
  }

  lemma RatioScales(p: seq<Slot>, e: seq<Slot>, i: nat)
    requires |p| >= |e| > 0 && AllNonzero(e) && Reducible(p, |e| - 1)
    requires i < |e|
    ensures Mul(Ratio(p, e), e[i].value)
         == GExp(Log(e[i].value) + (Log(p[0].value) - Log(e[0].value)))
  {
    hide Exp, Scale;
    var ratio := Log(p[0].value) - Log(e[0].value);
    LogOfPower(ratio % 255);
    ScaleByLog(e[i].value, ratio);
  }

  lemma CancelledReducible(p: seq<Slot>, e: seq<Slot>)
    requires |p| >= |e| > 0 && AllNonzero(e) && Reducible(p, |e| - 1)
    ensures var next := Normalized(Cancelled(p, e), 0);
            |next| < |p| && Reducible(next, |e| - 1)
  {
    hide Ratio, Mul, Add;
    RatioCancels(p, e);
    var c := Cancelled(p, e);
    var d := LeadingZeros(c);
    assert d >= 1;
    assert Normalized(c, 0) == c[d..];
  }

  ghost function Remainder(p: seq<Slot>, e: seq<Slot>): seq<Slot>
    requires |e| > 0 && AllNonzero(e) && Reducible(p, |e| - 1)
    decreases |p|
  {
    if |p| < |e| then p
    else
      CancelledReducible(p, e);
      Remainder(Normalized(Cancelled(p, e), 0), e)
  }

  method Mod(math: Tables, p: seq<Slot>, e: seq<Slot>) returns (r: seq<Slot>)
    requires math.Valid()
    requires |e| > 0 && AllNonzero(e) && Reducible(p, |e| - 1)
    ensures r == Remainder(p, e)
    decreases |p|
  {
    hide Add, Mul, GExp, Ratio, Cancelled;
    if |p| - |e| < 0 {
      return p;
    }
    var lp := math.Glog(p[0].value);
    var le := math.Glog(e[0].value);
    var ratio := lp.value - le.value;
    var num := new Slot[|p|](_ => Hole);
    for i := 0 to |p|
      invariant forall j :: 0 <= j < i ==> num[j] == p[j]
    {
      num[i] := p[i];
    }
    for i := 0 to |e|
      invariant forall j :: 0 <= j < i ==> num[j] == Cancelled(p, e)[j]
      invariant forall j :: i <= j < |p| ==> num[j] == p[j]
    {
      var l := math.Glog(e[i].value);
      var term := math.Gexp(l.value + ratio);
      RatioScales(p, e, i);
      num[i] := Byte(Add(Read(num[i]), term));
    }
    assert num[..] == Cancelled(p, e);
    CancelledReducible(p, e);
    var next := NewPolynomial(num[..], 0);
    r := Mod(math, next, e);
  }

  // ---------- The remainder is congruent to the dividend ----------

  function Padded(p: seq<Slot>, n: nat): (s: seq<bv8>)
    requires |p| <= n
    ensures |s| == n
  {
    Zeros(n - |p|) + Values(p)
  }

  lemma {:induction false} RemainderShort(p: seq<Slot>, e: seq<Slot>)
    requires |e| > 0 && AllNonzero(e) && Reducible(p, |e| - 1)
    ensures |Remainder(p, e)| < |e| && |Remainder(p, e)| <= |p|
    decreases |p|
  {
    if |p| >= |e| {
      CancelledReducible(p, e);
      RemainderShort(Normalized(Cancelled(p, e), 0), e);
    }
  }

  // Written to any common length, dividend plus remainder is a multiple of e.
  lemma {:induction false} RemainderCongruent(p: seq<Slot>, e: seq<Slot>, n: nat) returns (q: seq<bv8>)
    requires |e| > 0 && AllNonzero(e) && Reducible(p, |e| - 1)
    requires |p| <= n && |e| - 1 <= n
    ensures |Remainder(p, e)| <= |p|
    ensures |q| == n - (|e| - 1)
    ensures Sum(Padded(p, n), Padded(Remainder(p, e), n)) == Product(q, Values(e))
    decreases n
  {
    hide Add, Mul, Ratio, Values, Zeros, Sum, Scaled, Padded, Normalized, Cancelled;
    RemainderShort(p, e);
    var r := Remainder(p, e);
    if n == |e| - 1 {
      q := [];
      SumTwice(Padded(p, n), Padded(p, n));
    } else if |p| < n {
      q := RemainderCongruent(p, e, n - 1);
      PaddedCons(p, n);
      PaddedCons(r, n);
      SumCons(Padded(p, n - 1), Padded(r, n - 1));
      q := LeadingZeroFactor(q, Values(e));
    } else {
      CancelledReducible(p, e);
      var next := Normalized(Cancelled(p, e), 0);
      q := RemainderCongruent(next, e, n - 1);
      CancelStep(p, e, q, r);
      q := [Ratio(p, e)] + q;
    }
  }

  lemma LeadingZeroFactor(q: seq<bv8>, g: seq<bv8>) returns (q': seq<bv8>)
    requires |g| > 0
    ensures |q'| == |q| + 1 && Product(q', g) == [0] + Product(q, g)
  {
    hide Add;
    q' := [0] + q;
    assert q'[1..] == q;
    forall i | 0 <= i < |g| ensures Mul(0, g[i]) == 0 {
      MulZero(g[i]);
    }
    assert Scaled(g, 0) + Zeros(|q|) == Zeros(|g| + |q|);
    SumZeros([0] + Product(q, g));
  }

  lemma CancelStep(p: seq<Slot>, e: seq<Slot>, q: seq<bv8>, r: seq<Slot>)
    requires |p| >= |e| > 0 && AllNonzero(e) && Reducible(p, |e| - 1)
    requires |Normalized(Cancelled(p, e), 0)| < |p|
    requires |q| == |p| - |e| && |r| < |p|
    requires Sum(Padded(Normalized(Cancelled(p, e), 0), |p| - 1), Padded(r, |p| - 1)) == Product(q, Values(e))
    ensures Sum(Padded(p, |p|), Padded(r, |p|)) == Product([Ratio(p, e)] + q, Values(e))
  {
    hide Add, Mul, Ratio;
    hide Cancelled, LeadingZeros, Values, Zeros, Sum, Scaled, Normalized;
    var n, c := |p|, Cancelled(p, e);
    var next := Normalized(c, 0);
    var shifted := Scaled(Values(e), Ratio(p, e)) + Zeros(|q|);
    RatioCancels(p, e);
    PaddedNormalized(c);
    CancelledValues(p, e);
    PaddedCons(r, n);
    SumCancel(shifted, Padded(p, n), Padded(r, n));
    SumCons(Padded(next, n - 1), Padded(r, n - 1));
    assert ([Ratio(p, e)] + q)[1..] == q;
  }

  lemma CancelledValues(p: seq<Slot>, e: seq<Slot>)
    requires |p| >= |e| > 0 && AllNonzero(e) && Reducible(p, |e| - 1)
    ensures Padded(Cancelled(p, e), |p|)
         == Sum(Scaled(Values(e), Ratio(p, e)) + Zeros(|p| - |e|), Padded(p, |p|))
  {
    hide Add, Mul, Ratio, Cancelled, Values, Zeros, Sum, Scaled, Padded, Reducible;
    var c := Cancelled(p, e);
    var shifted := Scaled(Values(e), Ratio(p, e)) + Zeros(|p| - |e|);
    PaddedWhole(c);
    PaddedWhole(p);
    forall i | 0 <= i < |p| ensures Values(c)[i] == Add(shifted[i], Values(p)[i]) {
      AddLaws(shifted[i], Values(p)[i], 0);
      AddLaws(Values(p)[i], 0, 0);
    }
  }

  lemma PaddedWhole(p: seq<Slot>)
    ensures Padded(p, |p|) == Values(p)
  {
    hide Values;
    assert Zeros(0) == [];
  }

  // Removing leading zeros does not change the padded word.
  lemma PaddedNormalized(c: seq<Slot>)
    requires c != [] && c[0] == Byte(0)
    ensures |Normalized(c, 0)| < |c|
    ensures Padded(c, |c|) == [0] + Padded(Normalized(c, 0), |c| - 1)
  {
    hide LeadingZeros, Padded;
    var d := LeadingZeros(c);
    assert Normalized(c, 0) == c[d..];
    PaddedSplit(c, d);
  }

  lemma PaddedCons(p: seq<Slot>, n: nat)
    requires |p| < n
    ensures Padded(p, n) == [0] + Padded(p, n - 1)
  {
    ZerosCons(n - |p| - 1);
    ConcatAssoc([0], Zeros(n - |p| - 1), Values(p));
  }

  lemma PaddedSplit(c: seq<Slot>, d: nat)
    requires 0 < d <= |c| && forall i :: 0 <= i < d ==> c[i] == Byte(0)
    ensures Padded(c, |c|) == [0] + Padded(c[d..], |c| - 1)
  {
    hide Values, Zeros;
    var v, w := Values(c), Values(c[d..]);
    assert v == Zeros(d) + w;
    assert Zeros(d) == [0] + Zeros(d - 1);
    assert Zeros(0) + v == v;
    assert [0] + Zeros(d - 1) + w == [0] + (Zeros(d - 1) + w);
  }
}
