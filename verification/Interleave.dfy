/** Column-wise interleaving of blocks of differing lengths, and its inverse
    (section 7.6 of ISO/IEC 18004:2015). */
module Interleave {
  import opened SeqLaws

  // The i-th elements of the first n blocks that are long enough to have one.
  function Column<T>(blocks: seq<seq<T>>, n: nat, i: nat): seq<T>
    requires n <= |blocks|
  {
    if n == 0 then []
    else Column(blocks, n - 1, i) + if i < |blocks[n - 1]| then [blocks[n - 1][i]] else []
  }

  // The first m columns, one after the other.
  function Columns<T>(blocks: seq<seq<T>>, m: nat): seq<T> {
    if m == 0 then [] else Columns(blocks, m - 1) + Column(blocks, |blocks|, m - 1)
  }

  function Lengths<T>(blocks: seq<seq<T>>): (lens: seq<nat>)
    ensures |lens| == |blocks| && forall r :: 0 <= r < |lens| ==> lens[r] == |blocks[r]|
  {
    seq(|blocks|, r requires 0 <= r < |blocks| => |blocks[r]|)
  }

  predicate Bounds(lens: seq<nat>, m: nat) { forall r :: 0 <= r < |lens| ==> lens[r] <= m }

  function SumOf(lens: seq<nat>, n: nat): nat
    requires n <= |lens|
  {
    if n == 0 then 0 else SumOf(lens, n - 1) + lens[n - 1]
  }

  // ---------- Positions, from the lengths alone ----------

  function Count(lens: seq<nat>, n: nat, i: nat): nat
    requires n <= |lens|
  {
    if n == 0 then 0 else Count(lens, n - 1, i) + if i < lens[n - 1] then 1 else 0
  }

  function Before(lens: seq<nat>, m: nat): nat {
    if m == 0 then 0 else Before(lens, m - 1) + Count(lens, |lens|, m - 1)
  }

  // Where element i of block r lands.
  function Position(lens: seq<nat>, r: nat, i: nat): nat
    requires r < |lens| && i < lens[r]
  {
    Before(lens, i) + Count(lens, r, i)
  }

  lemma {:induction false} CountMonotone(lens: seq<nat>, r: nat, n: nat, i: nat)
    requires r < n <= |lens| && i < lens[r]
    ensures Count(lens, r, i) < Count(lens, n, i)
  {
    if r < n - 1 {
      CountMonotone(lens, r, n - 1, i);
    }
  }

  lemma {:induction false} BeforeMonotone(lens: seq<nat>, i: nat, m: nat)
    requires i <= m
    ensures Before(lens, i) <= Before(lens, m)
  {
    if i < m {
      BeforeMonotone(lens, i, m - 1);
    }
  }

  lemma PositionBounds(lens: seq<nat>, r: nat, i: nat)
    requires r < |lens| && i < lens[r]
    ensures Before(lens, i) <= Position(lens, r, i) < Before(lens, i + 1)
  {
    CountMonotone(lens, r, |lens|, i);
  }

  // No output slot is written twice.
  lemma PositionInjective(lens: seq<nat>, r: nat, i: nat, r': nat, i': nat)
    requires r < |lens| && i < lens[r] && r' < |lens| && i' < lens[r']
    requires Position(lens, r, i) == Position(lens, r', i')
    ensures r == r' && i == i'
  {
    PositionOrder(lens, r, i, r', i');
    PositionOrder(lens, r', i', r, i);
  }

  // The order of the output: by element number, and for the same number by block.
  lemma PositionOrder(lens: seq<nat>, r: nat, i: nat, r': nat, i': nat)
    requires r < |lens| && i < lens[r] && r' < |lens| && i' < lens[r']
    ensures Position(lens, r, i) < Position(lens, r', i') <==> i < i' || (i == i' && r < r')
  {
    PositionBounds(lens, r, i);
    PositionBounds(lens, r', i');
    if i < i' {
      BeforeMonotone(lens, i + 1, i');
    } else if i' < i {
      BeforeMonotone(lens, i' + 1, i);
    } else if r < r' {
      CountMonotone(lens, r, r', i);
    } else if r' < r {
      CountMonotone(lens, r', r, i);
    }
  }

  // No output slot is left out.
  lemma {:induction false} PositionSurjective(lens: seq<nat>, m: nat, k: nat) returns (r: nat, i: nat)
    requires k < Before(lens, m)
    ensures r < |lens| && i < lens[r] && i < m && Position(lens, r, i) == k
  {
    if k < Before(lens, m - 1) {
      r, i := PositionSurjective(lens, m - 1, k);
    } else {
      i := m - 1;
      r := CountSurjective(lens, |lens|, i, k - Before(lens, i));
    }
  }

  lemma {:induction false} CountSurjective(lens: seq<nat>, n: nat, i: nat, k: nat) returns (r: nat)
    requires n <= |lens| && k < Count(lens, n, i)
    ensures r < n && i < lens[r] && Count(lens, r, i) == k
  {
    if k < Count(lens, n - 1, i) {
      r := CountSurjective(lens, n - 1, i, k);
    } else {
      r := n - 1;
    }
  }

  // ---------- Lengths ----------

  lemma {:induction false} ColumnLength<T>(blocks: seq<seq<T>>, n: nat, i: nat)
    requires n <= |blocks|
    ensures |Column(blocks, n, i)| == Count(Lengths(blocks), n, i)
  {
    if n > 0 {
      ColumnLength(blocks, n - 1, i);
    }
  }

  lemma {:induction false} ColumnsLength<T>(blocks: seq<seq<T>>, m: nat)
    ensures |Columns(blocks, m)| == Before(Lengths(blocks), m)
  {
    hide Lengths, Count, Column;
    if m > 0 {
      ColumnsLength(blocks, m - 1);
      ColumnLength(blocks, |blocks|, m - 1);
    }
  }

  function Min(a: nat, b: nat): nat { if a < b then a else b }

  function SumCapped(lens: seq<nat>, n: nat, m: nat): nat
    requires n <= |lens|
  {
    if n == 0 then 0 else SumCapped(lens, n - 1, m) + Min(lens[n - 1], m)
  }

  lemma {:induction false} CappedStep(lens: seq<nat>, n: nat, m: nat)
    requires n <= |lens|
    ensures SumCapped(lens, n, m + 1) == SumCapped(lens, n, m) + Count(lens, n, m)
  {
    if n > 0 {
      CappedStep(lens, n - 1, m);
    }
  }

  lemma {:induction false} CappedZero(lens: seq<nat>, n: nat)
    requires n <= |lens|
    ensures SumCapped(lens, n, 0) == 0
  {
    if n > 0 {
      CappedZero(lens, n - 1);
    }
  }

  lemma {:induction false} CappedAll(lens: seq<nat>, n: nat, m: nat)
    requires n <= |lens| && Bounds(lens, m)
    ensures SumCapped(lens, n, m) == SumOf(lens, n)
  {
    if n > 0 {
      CappedAll(lens, n - 1, m);
    }
  }

  lemma {:induction false} BeforeIsCapped(lens: seq<nat>, m: nat)
    ensures Before(lens, m) == SumCapped(lens, |lens|, m)
  {
    if m == 0 {
      CappedZero(lens, |lens|);
    } else {
      BeforeIsCapped(lens, m - 1);
      CappedStep(lens, |lens|, m - 1);
    }
  }

  // Once every column is out, exactly the elements of all blocks are out.
  lemma TotalLength<T>(blocks: seq<seq<T>>, m: nat)
    requires Bounds(Lengths(blocks), m)
    ensures |Columns(blocks, m)| == SumOf(Lengths(blocks), |blocks|)
  {
    var lens := Lengths(blocks);
    ColumnsLength(blocks, m);
    BeforeIsCapped(lens, m);
    CappedAll(lens, |lens|, m);
  }

  // ---------- The inverse ----------

  lemma {:induction false} ElementAt<T>(blocks: seq<seq<T>>, m: nat, r: nat, i: nat)
    requires r < |blocks| && i < |blocks[r]| && i < m
    ensures var p := Position(Lengths(blocks), r, i);
            p < |Columns(blocks, m)| && Columns(blocks, m)[p] == blocks[r][i]
  {
    if i < m - 1 {
      ElementAt(blocks, m - 1, r, i);
    } else {
      ColumnsLength(blocks, i);
      ElementInColumn(blocks, |blocks|, r, i);
    }
  }

  lemma {:induction false} ElementInColumn<T>(blocks: seq<seq<T>>, n: nat, r: nat, i: nat)
    requires r < n <= |blocks| && i < |blocks[r]|
    ensures var p := Count(Lengths(blocks), r, i);
            p < |Column(blocks, n, i)| && Column(blocks, n, i)[p] == blocks[r][i]
  {
    hide Count, Lengths;
    var column := Column(blocks, n - 1, i);
    assert column <= Column(blocks, n, i);
    if r < n - 1 {
      ElementInColumn(blocks, n - 1, r, i);
    } else {
      ColumnLength(blocks, r, i);
      assert Column(blocks, n, i) == column + [blocks[r][i]];
    }
  }

  // Reads every block back from the positions its length dictates.
  function Deinterleaved<T>(data: seq<T>, lens: seq<nat>, m: nat): seq<seq<T>>
    requires |data| == Before(lens, m) && Bounds(lens, m)
  {
    seq(|lens|, r requires 0 <= r < |lens| =>
      seq(lens[r], i requires 0 <= i < lens[r] =>
        PositionBounds(lens, r, i); BeforeMonotone(lens, i + 1, m);
        data[Position(lens, r, i)]))
  }

  lemma RoundTrip<T>(blocks: seq<seq<T>>, m: nat)
    requires Bounds(Lengths(blocks), m)
    ensures |Columns(blocks, m)| == Before(Lengths(blocks), m)
    ensures Deinterleaved(Columns(blocks, m), Lengths(blocks), m) == blocks
  {
    ColumnsLength(blocks, m);
    var back := Deinterleaved(Columns(blocks, m), Lengths(blocks), m);
    forall r | 0 <= r < |blocks| ensures back[r] == blocks[r] {
      forall i | 0 <= i < |blocks[r]| ensures back[r][i] == blocks[r][i] {
        ElementAt(blocks, m, r, i);
      }
    }
  }

  // ---------- The loop ----------

  // Writes the blocks column by column from index `start` and returns the index
  // after the last slot written.
  method Spread<T>(data: array<T>, start: nat, blocks: seq<seq<T>>, maxCount: nat) returns (index: nat)
    requires start + |Columns(blocks, maxCount)| <= data.Length
    modifies data
    ensures index == start + |Columns(blocks, maxCount)|
    ensures data[..index] == old(data[..start]) + Columns(blocks, maxCount)
    ensures forall k :: index <= k < data.Length ==> data[k] == old(data[k])
  {
    hide Column, Columns;
    index := start;
    ghost var kept := data[..start];
    ColumnsStep(blocks, 0);
    for i := 0 to maxCount
      invariant index == start + |Columns(blocks, i)| <= data.Length
      invariant data[..index] == kept + Columns(blocks, i)
      invariant forall k :: index <= k < data.Length ==> data[k] == old(data[k])
    {
      ColumnsFit(blocks, i + 1, maxCount);
      ColumnsStep(blocks, i);
      index := SpreadColumn(data, index, blocks, i);
      ConcatAssoc(kept, Columns(blocks, i), Column(blocks, |blocks|, i));
    }
  }

  lemma ColumnsStep<T>(blocks: seq<seq<T>>, m: nat)
    ensures Columns(blocks, 0) == []
    ensures Columns(blocks, m + 1) == Columns(blocks, m) + Column(blocks, |blocks|, m)
  {}

  // The inner loop: one column.
  method SpreadColumn<T>(data: array<T>, start: nat, blocks: seq<seq<T>>, i: nat) returns (index: nat)
    requires start + |Column(blocks, |blocks|, i)| <= data.Length
    modifies data
    ensures index == start + |Column(blocks, |blocks|, i)|
    ensures data[..index] == old(data[..start]) + Column(blocks, |blocks|, i)
    ensures forall k :: index <= k < data.Length ==> data[k] == old(data[k])
  {
    index := start;
    for r := 0 to |blocks|
      invariant index == start + |Column(blocks, r, i)| <= data.Length
      invariant data[..index] == old(data[..start]) + Column(blocks, r, i)
      invariant forall k :: index <= k < data.Length ==> data[k] == old(data[k])
    {
      if i < |blocks[r]| {
        ColumnFits(blocks, r + 1, i);
        data[index] := blocks[r][i];
        index := index + 1;
        TakeSnoc(data[..], index - 1);
        ConcatAssoc(old(data[..start]), Column(blocks, r, i), [blocks[r][i]]);
      }
    }
  }

  lemma {:induction false} ColumnsFit<T>(blocks: seq<seq<T>>, i: nat, m: nat)
    requires i <= m
    ensures |Columns(blocks, i)| <= |Columns(blocks, m)|
  {
    if i < m {
      ColumnsFit(blocks, i, m - 1);
    }
  }

  lemma {:induction false} ColumnFits<T>(blocks: seq<seq<T>>, r: nat, i: nat)
    requires r <= |blocks|
    ensures |Column(blocks, r, i)| <= |Column(blocks, |blocks|, i)|
    decreases |blocks| - r
  {
    if r < |blocks| {
      ColumnFits(blocks, r + 1, i);
    }
  }
}
