/** The order in which the cells are filled, told cell by cell: from the lower
    right corner, in pairs of columns, up and down in turn (section 7.7.3 of
    ISO/IEC 18004:2015). */
module Route {
  import opened NumberLaws
  import opened ZigZag

  // A walker on a cell, on the left or right side of its pair of columns, on the
  // way up or down.
  datatype Walker = Walker(row: int, col: int, left: bool, inc: int)

  // From the right side to the left; from there on to the next row, or, where
  // there is none, to the next pair in the same row, past column 6, and back.
  function Onward(n: int, w: Walker): Walker {
    if !w.left then w.(col := w.col - 1, left := true)
    else if 0 <= w.row + w.inc < n then Walker(w.row + w.inc, w.col + 1, false, w.inc)
    else Walker(w.row, if w.col - 1 == 6 then 5 else w.col - 1, false, -w.inc)
  }

  function Walked(n: int, i: nat): Walker {
    if i == 0 then Walker(n - 1, n - 1, false, -1) else Onward(n, Walked(n, i - 1))
  }

  // Where the walker is at visit c of row t of pair p.
  function Expected(n: int, p: nat, t: nat, c: nat): Walker {
    Walker(RowAt(n, p, t), RightColumn(n, p) - c, c == 1, if p % 2 == 0 then -1 else 1)
  }

  lemma Advance(n: int, p: nat, t: nat, c: nat)
    requires Side(n) && p < Pairs(n) && t < n && c < 2 && (p < Pairs(n) - 1 || t < n - 1 || c == 0)
    ensures Onward(n, Expected(n, p, t, c))
         == if c == 0 then Expected(n, p, t, 1)
            else if t < n - 1 then Expected(n, p, t + 1, 0) else Expected(n, p + 1, 0, 0)
  {
    if c == 1 && t == n - 1 {
      NextColumn(n, p);
    }
  }

  lemma NextColumn(n: int, p: nat)
    requires Side(n) && p < Pairs(n) - 1
    ensures RightColumn(n, p + 1) == if RightColumn(n, p) - 2 == 6 then 5 else RightColumn(n, p) - 2
  {}

  lemma {:induction false} WalkerAt(n: int, p: nat, t: nat, c: nat)
    requires Side(n) && p < Pairs(n) && t < n && c < 2
    ensures Walked(n, Visit(n, p, t) + c) == Expected(n, p, t, c)
    decreases p, t, c
  {
    hide Expected, Onward, Walked, Visit;
    if c == 1 {
      WalkerAt(n, p, t, 0);
      Advance(n, p, t, 0);
      WalkStep(n, Visit(n, p, t));
    } else if t > 0 {
      WalkerAt(n, p, t - 1, 1);
      Advance(n, p, t - 1, 1);
      VisitSteps(n, p, t - 1);
      WalkStep(n, Visit(n, p, t - 1) + 1);
    } else if p > 0 {
      WalkerAt(n, p - 1, n - 1, 1);
      Advance(n, p - 1, n - 1, 1);
      VisitSteps(n, p - 1, n - 1);
      WalkStep(n, Visit(n, p - 1, n - 1) + 1);
    } else {
      VisitSteps(n, 0, 0);
      WalkStarts(n);
    }
  }

  lemma WalkStep(n: int, i: nat)
    ensures Walked(n, i + 1) == Onward(n, Walked(n, i))
  {}

  lemma WalkStarts(n: int)
    requires Side(n)
    ensures Walked(n, 0) == Expected(n, 0, 0, 0)
  {}

  // The visits are the walker's.
  lemma PathWalked(n: int, i: nat)
    requires Side(n) && i < |Path(n)|
    ensures Path(n)[i] == (Walked(n, i).row, Walked(n, i).col)
  {
    hide RightColumn, RowAt, Walked;
    FirstPairsLength(n, Pairs(n));
    var p, t, c := Split(n, Pairs(n), i);
    FirstPairsAt(n, Pairs(n), p, t, c);
    WalkerAt(n, p, t, c);
  }

  // So columns are filled from the right: a cell two or more columns further
  // right comes first.
  lemma RightFirst(n: int, i: nat, j: nat)
    requires Side(n) && i < |Path(n)| && j < |Path(n)| && Path(n)[i].1 > Path(n)[j].1 + 1
    ensures i < j
  {
    hide RightColumn, RowAt;
    FirstPairsLength(n, Pairs(n));
    var p, t, c := Split(n, Pairs(n), i);
    FirstPairsAt(n, Pairs(n), p, t, c);
    var q, u, d := Split(n, Pairs(n), j);
    FirstPairsAt(n, Pairs(n), q, u, d);
    if q <= p {
      Leftwards(n, q, p);
    } else {
      PairsApart(n, p, q);
    }
  }

  lemma {:induction false} Leftwards(n: int, q: nat, p: nat)
    requires Side(n) && q <= p < Pairs(n)
    ensures RightColumn(n, p) <= RightColumn(n, q)
  {
    if q < p {
      Leftwards(n, q, p - 1);
      NextColumn(n, p - 1);
    }
  }

  lemma PairsApart(n: int, p: nat, q: nat)
    requires Side(n) && p < q
    ensures Visit(n, p, n) <= Visit(n, q, 0)
  {
    VisitSteps(n, p, 0);
    MulMonotone(p + 1, q, 2 * n);
  }

  // The first visit, and each later one from the one before.
  lemma FirstVisit(n: int)
    requires Side(n)
    ensures |Path(n)| == n * (n - 1) && Path(n)[0] == (n - 1, n - 1)
  {
    hide Path;
    PathLength(n);
    assert n * (n - 1) >= 21 * 20;
    PathWalked(n, 0);
  }

  lemma StepLeft(n: int, i: nat)
    requires Side(n) && i + 1 < |Path(n)| && i % 2 == 0
    ensures Path(n)[i + 1] == (Path(n)[i].0, Path(n)[i].1 - 1)
  {
    hide Path;
    PathWalked(n, i);
    PathWalked(n, i + 1);
    Sides(n, i);
  }

  lemma {:induction false} Sides(n: int, i: nat)
    requires n > 0
    ensures Walked(n, i).left <==> i % 2 == 1
  {
    if i > 0 { Sides(n, i - 1); }
  }
}
