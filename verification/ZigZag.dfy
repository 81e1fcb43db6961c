/** Placement of the codeword bits in the symbol: the encoder's `mapData`
    (sections 7.7.3 and 7.8 of ISO/IEC 18004:2015). */
module ZigZag {
  import opened SeqLaws
  import opened Bits
  import opened BitBuffer
  import opened Polynomial

  // A module of the symbol: not decided yet, or dark or light.
  datatype Cell = Unset | Module(dark: bool)

  type Coord = (int, int)

  // Side lengths of the symbols: 4 * version + 17.
  predicate Side(n: int) { n >= 21 && n % 4 == 1 }

  // ---------- The order of visits ----------

  // Columns are taken in pairs from the right; the pair to the left of the
  // vertical timing pattern in column 6 is shifted by one.
  function RightColumn(n: int, p: nat): int {
    if n - 1 - 2 * p > 6 then n - 1 - 2 * p else n - 2 - 2 * p
  }

  function Pairs(n: int): nat
    requires Side(n)
  {
    (n - 1) / 2
  }

  // Even pairs run upwards, odd pairs downwards.
  function RowAt(n: int, p: nat, s: nat): int { if p % 2 == 0 then n - 1 - s else s }

  // The first s rows of pair p.
  function Sweep(n: int, p: nat, s: nat): (path: seq<Coord>)
    ensures |path| == 2 * s
  {
    if s == 0 then []
    else
      var row, col := RowAt(n, p, s - 1), RightColumn(n, p);
      Sweep(n, p, s - 1) + [(row, col), (row, col - 1)]
  }

  function FirstPairs(n: int, p: nat): seq<Coord>
    requires n >= 0
  {
    if p == 0 then [] else FirstPairs(n, p - 1) + Sweep(n, p - 1, n)
  }

  function Path(n: int): seq<Coord>
    requires Side(n)
  {
    FirstPairs(n, Pairs(n))
  }

  predicate OnPath(n: int, cell: Coord) { 0 <= cell.0 < n && 0 <= cell.1 < n && cell.1 != 6 }

  // Which pair, which row of it, and which side of the pair a cell is on.
  function PairOf(n: int, col: int): int { if col > 6 then (n - 1 - col) / 2 else (n - 2 - col) / 2 }

  function SideOf(n: int, col: int): int { RightColumn(n, if PairOf(n, col) >= 0 then PairOf(n, col) else 0) - col }

  function StepOf(n: int, cell: Coord): int { if PairOf(n, cell.1) % 2 == 0 then n - 1 - cell.0 else cell.0 }

  // The visit at which a cell is reached.
  function Index(n: int, cell: Coord): int {
    PairOf(n, cell.1) * (2 * n) + 2 * StepOf(n, cell) + SideOf(n, cell.1)
  }

  // The number of visits before row s of pair p.
  function Visit(n: int, p: nat, s: nat): nat
    requires n >= 0
  {
    p * (2 * n) + 2 * s
  }

  lemma VisitSteps(n: int, p: nat, s: nat)
    requires n >= 0
    ensures Visit(n, p, s + 1) == Visit(n, p, s) + 2 && Visit(n, p + 1, 0) == Visit(n, p, n) && Visit(n, 0, 0) == 0
  {
    assert (p + 1) * (2 * n) == p * (2 * n) + 2 * n;
  }

  lemma {:induction false} FirstPairsLength(n: int, p: nat)
    requires n >= 0
    ensures |FirstPairs(n, p)| == Visit(n, p, 0)
  {
    if p > 0 {
      FirstPairsLength(n, p - 1);
      VisitSteps(n, p - 1, 0);
    }
  }

  lemma {:induction false} SweepAt(n: int, p: nat, s: nat, t: nat, c: nat)
    requires t < s && c < 2
    ensures Sweep(n, p, s)[2 * t + c] == (RowAt(n, p, t), RightColumn(n, p) - c)
  {
    if t < s - 1 {
      SweepAt(n, p, s - 1, t, c);
    }
  }

  lemma {:induction false} FirstPairsAt(n: int, m: nat, p: nat, t: nat, c: nat)
    requires n >= 0 && p < m && t < n && c < 2
    ensures var i := Visit(n, p, t) + c;
            i < |FirstPairs(n, m)| && FirstPairs(n, m)[i] == (RowAt(n, p, t), RightColumn(n, p) - c)
  {
    hide RowAt, RightColumn;
    FirstPairsLength(n, m - 1);
    if p < m - 1 {
      FirstPairsAt(n, m - 1, p, t, c);
    } else {
      SweepAt(n, p, n, t, c);
    }
  }

  lemma PathLength(n: int)
    requires Side(n)
    ensures |Path(n)| == n * (n - 1)
  {
    FirstPairsLength(n, Pairs(n));
    assert Pairs(n) * (2 * n) == n * (n - 1);
  }

  lemma HalfBounds(q: int)
    ensures 2 * (q / 2) <= q <= 2 * (q / 2) + 1
  {}

  lemma ColumnCoordinates(n: int, col: int)
    requires Side(n) && 0 <= col < n && col != 6
    ensures 0 <= PairOf(n, col) < Pairs(n) && 0 <= RightColumn(n, PairOf(n, col)) - col < 2
  {
    var v := n / 4;
    assert n == 4 * v + 1;
    var q := if col > 6 then n - 1 - col else n - 2 - col;
    var p := PairOf(n, col);
    HalfBounds(q);
    assert 2 * p <= q <= 2 * p + 1;
    assert Pairs(n) == 2 * v;
  }

  lemma Coordinates(n: int, cell: Coord)
    requires Side(n) && OnPath(n, cell)
    ensures 0 <= PairOf(n, cell.1) < Pairs(n) && 0 <= SideOf(n, cell.1) < 2 && 0 <= StepOf(n, cell) < n
    ensures RightColumn(n, PairOf(n, cell.1)) - SideOf(n, cell.1) == cell.1
    ensures RowAt(n, PairOf(n, cell.1), StepOf(n, cell)) == cell.0
  {
    hide PairOf, RightColumn;
    ColumnCoordinates(n, cell.1);
  }

  // Every cell outside column 6 is visited, at its index.
  lemma EveryCellVisited(n: int, cell: Coord)
    requires Side(n) && OnPath(n, cell)
    ensures 0 <= Index(n, cell) < |Path(n)| && Path(n)[Index(n, cell)] == cell
  {
    hide RightColumn, PairOf, SideOf, StepOf, RowAt;
    Coordinates(n, cell);
    FirstPairsAt(n, Pairs(n), PairOf(n, cell.1), StepOf(n, cell), SideOf(n, cell.1));
  }

  lemma PairCoordinates(n: int, p: nat, t: nat, c: nat)
    requires Side(n) && p < Pairs(n) && t < n && c < 2
    ensures var cell := (RowAt(n, p, t), RightColumn(n, p) - c);
            OnPath(n, cell) && PairOf(n, cell.1) == p && StepOf(n, cell) == t && SideOf(n, cell.1) == c
  {}

  // Each visit is to a cell outside column 6 whose index it is, so no cell is
  // visited twice.
  lemma EachVisitOnce(n: int, i: nat)
    requires Side(n) && i < |Path(n)|
    ensures OnPath(n, Path(n)[i]) && Index(n, Path(n)[i]) == i
  {
    hide RightColumn, PairOf, SideOf, StepOf, RowAt;
    FirstPairsLength(n, Pairs(n));
    var p, t, c := Split(n, Pairs(n), i);
    FirstPairsAt(n, Pairs(n), p, t, c);
    PairCoordinates(n, p, t, c);
  }

  lemma {:induction false} Split(n: int, m: nat, i: nat) returns (p: nat, t: nat, c: nat)
    requires n > 0 && m > 0 && i < m * (2 * n)
    ensures p < m && t < n && c < 2 && i == p * (2 * n) + 2 * t + c
  {
    if i < (m - 1) * (2 * n) {
      p, t, c := Split(n, m - 1, i);
    } else {
      p := m - 1;
      assert m * (2 * n) == p * (2 * n) + 2 * n;
      var j := i - p * (2 * n);
      t, c := j / 2, j % 2;
    }
  }

  // ---------- What each cell receives ----------

  type Grid = seq<seq<Cell>>

  predicate IsGrid(g: Grid, n: int) { |g| == n && forall r :: 0 <= r < n ==> |g[r]| == n }

  // The eight mask patterns, as functions of row and column.
  function Mask(pattern: int, i: int, j: int): bool
    requires 0 <= pattern < 8
  {
    match pattern
    case 0 => (i + j) % 2 == 0
    case 1 => i % 2 == 0
    case 2 => j % 3 == 0
    case 3 => (i + j) % 3 == 0
    case 4 => (i / 2 + j / 3) % 2 == 0
    case 5 => (i * j) % 2 + (i * j) % 3 == 0
    case 6 => ((i * j) % 2 + (i * j) % 3) % 2 == 0
    case _ => ((i * j) % 3 + (i + j) % 2) % 2 == 0
  }

  // The cell of visit i.
  function PathCell(n: int, i: nat): (cell: Coord)
    requires Side(n) && i < |Path(n)|
    ensures cell == Path(n)[i] && OnPath(n, cell)
  {
    EachVisitOnce(n, i);
    Path(n)[i]
  }

  // How many of the first i visits find an undecided cell.
  function Free(g: Grid, n: int, i: nat): nat
    requires Side(n) && IsGrid(g, n) && i <= |Path(n)|
  {
    if i == 0 then 0
    else
      var cell := PathCell(n, i - 1);
      Free(g, n, i - 1) + Bit(g[cell.0][cell.1].Unset?)
  }

  // Past the end of the data every bit is zero.
  function DataBit(bits: seq<bool>, k: nat): bool { k < |bits| && bits[k] }

  // The cell's content after placement: an undecided cell takes the next data
  // bit in visiting order, inverted where the mask says so.
  function PlacedCell(g: Grid, n: int, bits: seq<bool>, pattern: int, cell: Coord): Cell
    requires Side(n) && IsGrid(g, n) && 0 <= pattern < 8
    requires 0 <= cell.0 < n && 0 <= cell.1 < n
  {
    if cell.1 == 6 || !g[cell.0][cell.1].Unset? then g[cell.0][cell.1]
    else
      EveryCellVisited(n, cell);
      Module(DataBit(bits, Free(g, n, Index(n, cell))) != Mask(pattern, cell.0, cell.1))
  }

  function Snapshot(modules: array2<Cell>): (g: Grid)
    requires modules.Length0 == modules.Length1
    reads modules
    ensures IsGrid(g, modules.Length0)
    ensures forall r, c :: 0 <= r < modules.Length0 && 0 <= c < modules.Length0 ==> g[r][c] == modules[r, c]
  {
    seq(modules.Length0, r requires 0 <= r < modules.Length0 reads modules =>
      seq(modules.Length0, c requires 0 <= c < modules.Length0 reads modules => modules[r, c]))
  }

  // After i visits: the cells visited so far are placed, all others untouched.
  ghost predicate PlacedUpTo(modules: array2<Cell>, g: Grid, bits: seq<bool>, pattern: int, i: int)
    requires modules.Length0 == modules.Length1 && Side(modules.Length0) && 0 <= pattern < 8
    requires IsGrid(g, modules.Length0)
    reads modules
  {
    var n := modules.Length0;
    forall r, c :: 0 <= r < n && 0 <= c < n ==>
      modules[r, c] == if c != 6 && Index(n, (r, c)) < i then PlacedCell(g, n, bits, pattern, (r, c)) else g[r][c]
  }

  // ---------- The loops ----------

  // One cell of the path; returns the number of data bits used up.
  method VisitCell(modules: array2<Cell>, data: seq<Slot>, pattern: int, row: int, col: int,
                   byteIndex: nat, bitIndex: int, ghost g: Grid, ghost i: nat)
    returns (byteIndex': nat, bitIndex': int)
    requires modules.Length0 == modules.Length1 && Side(modules.Length0) && 0 <= pattern < 8
    requires IsGrid(g, modules.Length0) && i < |Path(modules.Length0)| && Path(modules.Length0)[i] == (row, col)
    requires 0 <= bitIndex < 8 && 8 * byteIndex + 7 - bitIndex == Free(g, modules.Length0, i)
    requires PlacedUpTo(modules, g, Unpacked(Numbers(data)), pattern, i)
    modifies modules
    ensures 0 <= bitIndex' < 8 && 8 * byteIndex' + 7 - bitIndex' == Free(g, modules.Length0, i + 1)
    ensures PlacedUpTo(modules, g, Unpacked(Numbers(data)), pattern, i + 1)
  {
    hide Path, Index, Unpacked, Mask, Shr, Numbers;
    var n := modules.Length0;
    byteIndex', bitIndex' := byteIndex, bitIndex;
    EachVisitOnce(n, i);
    OnlyVisit(n, i);
    if modules[row, col] == Unset {
      var dark := false;
      if byteIndex < |data| {
        dark := Shr(Read(data[byteIndex]) as nat, bitIndex) % 2 == 1;
        UnpackedAt(Numbers(data), 8 * byteIndex + 7 - bitIndex);
      }
      var mask := Mask(pattern, row, col);
      if mask {
        dark := !dark;
      }
      modules[row, col] := Module(dark);
      bitIndex' := bitIndex' - 1;
      if bitIndex' == -1 {
        byteIndex' := byteIndex' + 1;
        bitIndex' := 7;
      }
    }
  }

  // No other cell has index i.
  lemma OnlyVisit(n: int, i: nat)
    requires Side(n) && i < |Path(n)|
    ensures forall r, c :: 0 <= r < n && 0 <= c < n && c != 6 && Index(n, (r, c)) == i ==> (r, c) == Path(n)[i]
  {
    hide Path, Index;
    forall r, c | 0 <= r < n && 0 <= c < n && c != 6 && Index(n, (r, c)) == i ensures (r, c) == Path(n)[i] {
      EveryCellVisited(n, (r, c));
    }
  }

  lemma VisitAt(n: int, p: nat, s: nat)
    requires Side(n) && p < Pairs(n) && s < n
    ensures Visit(n, p, s) + 1 < |Path(n)|
    ensures Path(n)[Visit(n, p, s)] == (RowAt(n, p, s), RightColumn(n, p))
    ensures Path(n)[Visit(n, p, s) + 1] == (RowAt(n, p, s), RightColumn(n, p) - 1)
  {
    hide Visit, FirstPairs;
    FirstPairsAt(n, Pairs(n), p, s, 0);
    FirstPairsAt(n, Pairs(n), p, s, 1);
  }

  // What holds between two visits: the cells visited are placed and the bit
  // counters stand at the number of free cells passed.
  ghost predicate Progress(modules: array2<Cell>, g: Grid, data: seq<Slot>, pattern: int,
                           byteIndex: nat, bitIndex: int, i: nat)
    requires modules.Length0 == modules.Length1 && Side(modules.Length0) && 0 <= pattern < 8
    requires IsGrid(g, modules.Length0)
    reads modules
  {
    && 0 <= bitIndex < 8 && i <= |Path(modules.Length0)|
    && 8 * byteIndex + 7 - bitIndex == Free(g, modules.Length0, i)
    && PlacedUpTo(modules, g, Unpacked(Numbers(data)), pattern, i)
  }

  // The two inner loops: one pair of columns.  Afterwards the direction is
  // reversed and the row is the first of the next pair.
  method SweepPair(modules: array2<Cell>, data: seq<Slot>, pattern: int, start: int, inc: int, col: int,
                   byteIndex: nat, bitIndex: int, ghost g: Grid, ghost p: nat)
    returns (row: int, inc': int, byteIndex': nat, bitIndex': int)
    requires modules.Length0 == modules.Length1 && Side(modules.Length0) && 0 <= pattern < 8
    requires IsGrid(g, modules.Length0) && p < Pairs(modules.Length0)
    requires start == RowAt(modules.Length0, p, 0) && inc == (if p % 2 == 0 then -1 else 1)
    requires col == RightColumn(modules.Length0, p)
    requires Progress(modules, g, data, pattern, byteIndex, bitIndex, Visit(modules.Length0, p, 0))
    modifies modules
    ensures row == RowAt(modules.Length0, p + 1, 0) && inc' == -inc
    ensures Progress(modules, g, data, pattern, byteIndex', bitIndex', Visit(modules.Length0, p + 1, 0))
  {
    hide Path, Index, Unpacked, Mask, PlacedCell, Numbers, Free, Visit, PlacedUpTo, RightColumn;
    var moduleCount := modules.Length0;
    ghost var n := moduleCount;
    row, inc', byteIndex', bitIndex' := start, inc, byteIndex, bitIndex;
    ghost var s := 0;
    while true
      invariant s < n && row == RowAt(n, p, s)
      invariant Progress(modules, g, data, pattern, byteIndex', bitIndex', Visit(n, p, s))
      decreases n - s
    {
      VisitAt(n, p, s);
      for c := 0 to 2
        invariant Progress(modules, g, data, pattern, byteIndex', bitIndex', Visit(n, p, s) + c)
      {
        byteIndex', bitIndex' :=
          VisitCell(modules, data, pattern, row, col - c, byteIndex', bitIndex', g, Visit(n, p, s) + c);
      }
      VisitSteps(n, p, s);
      row := row + inc;
      s := s + 1;
      if row < 0 || moduleCount <= row {
        row := row - inc;
        inc' := -inc;
        break;
      }
    }
  }

  // Every cell of the symbol ends up exactly as PlacedCell says.
  method MapData(modules: array2<Cell>, data: seq<Slot>, pattern: int)
    requires modules.Length0 == modules.Length1 && Side(modules.Length0) && 0 <= pattern < 8
    modifies modules
    ensures forall r, c :: 0 <= r < modules.Length0 && 0 <= c < modules.Length0 ==>
      modules[r, c] == PlacedCell(old(Snapshot(modules)), modules.Length0, Unpacked(Numbers(data)), pattern, (r, c))
  {
    hide Unpacked, PlacedCell, Numbers, Visit, Snapshot, Progress;
    var moduleCount := modules.Length0;
    ghost var n, g := moduleCount, Snapshot(modules);
    ghost var p := 0;
    ProgressStarts(modules, data, pattern);
    var inc := -1;
    var row := moduleCount - 1;
    var bitIndex := 7;
    var byteIndex := 0;
    var col := moduleCount - 1;
    while col > 0
      invariant p <= Pairs(n) && col == n - 1 - 2 * p - Bit(p > 0 && n - 1 - 2 * (p - 1) <= 6)
      invariant inc == (if p % 2 == 0 then -1 else 1) && row == RowAt(n, p, 0)
      invariant Progress(modules, g, data, pattern, byteIndex, bitIndex, Visit(n, p, 0))
      decreases col
    {
      if col == 6 {
        col := col - 1;
      }
      row, inc, byteIndex, bitIndex := SweepPair(modules, data, pattern, row, inc, col, byteIndex, bitIndex, g, p);
      p := p + 1;
      col := col - 2;
    }
    ProgressEnds(modules, g, data, pattern, byteIndex, bitIndex, p);
  }

  lemma ProgressStarts(modules: array2<Cell>, data: seq<Slot>, pattern: int)
    requires modules.Length0 == modules.Length1 && Side(modules.Length0) && 0 <= pattern < 8
    ensures Progress(modules, Snapshot(modules), data, pattern, 0, 7, Visit(modules.Length0, 0, 0))
  {
    hide Path, Index, Unpacked, PlacedCell, Numbers, Free, Visit, Snapshot;
    StartOfPath(Snapshot(modules), modules.Length0);
    VisitSteps(modules.Length0, 0, 0);
  }

  lemma ProgressEnds(modules: array2<Cell>, g: Grid, data: seq<Slot>, pattern: int,
                     byteIndex: nat, bitIndex: int, p: nat)
    requires modules.Length0 == modules.Length1 && Side(modules.Length0) && 0 <= pattern < 8
    requires IsGrid(g, modules.Length0) && p == Pairs(modules.Length0)
    requires Progress(modules, g, data, pattern, byteIndex, bitIndex, Visit(modules.Length0, p, 0))
    ensures forall r, c :: 0 <= r < modules.Length0 && 0 <= c < modules.Length0 ==>
      modules[r, c] == PlacedCell(g, modules.Length0, Unpacked(Numbers(data)), pattern, (r, c))
  {
    hide Path, Index, Unpacked, PlacedCell, Numbers, Free, Visit;
    AllVisited(modules.Length0, p);
    PlacedOffPath(g, modules.Length0, Unpacked(Numbers(data)), pattern);
  }

  lemma PlacedOffPath(g: Grid, n: int, bits: seq<bool>, pattern: int)
    requires Side(n) && IsGrid(g, n) && 0 <= pattern < 8
    ensures forall r :: 0 <= r < n ==> PlacedCell(g, n, bits, pattern, (r, 6)) == g[r][6]
  {}

  lemma StartOfPath(g: Grid, n: int)
    requires Side(n) && IsGrid(g, n)
    ensures Free(g, n, 0) == 0
    ensures forall r, c :: 0 <= r < n && 0 <= c < n && c != 6 ==> Index(n, (r, c)) >= 0
  {
    hide Index, Path;
    forall r, c | 0 <= r < n && 0 <= c < n && c != 6 ensures Index(n, (r, c)) >= 0 {
      EveryCellVisited(n, (r, c));
    }
  }

  lemma AllVisited(n: int, p: nat)
    requires Side(n) && p == Pairs(n)
    ensures forall r, c :: 0 <= r < n && 0 <= c < n && c != 6 ==> Index(n, (r, c)) < Visit(n, p, 0)
  {
    hide Index;
    FirstPairsLength(n, p);
    forall r, c | 0 <= r < n && 0 <= c < n && c != 6 ensures Index(n, (r, c)) < p * (2 * n) {
      EveryCellVisited(n, (r, c));
    }
  }

  // ---------- Reading the symbol ----------

  // What a reader that knows the reserved cells and the mask collects in the
  // first i visits.
  function Recovered(g: Grid, placed: Grid, n: int, pattern: int, i: nat): seq<bool>
    requires Side(n) && IsGrid(g, n) && IsGrid(placed, n) && 0 <= pattern < 8 && i <= |Path(n)|
  {
    if i == 0 then []
    else
      var cell := PathCell(n, i - 1);
      Recovered(g, placed, n, pattern, i - 1) +
      if g[cell.0][cell.1].Unset?
      then [(placed[cell.0][cell.1] == Module(true)) != Mask(pattern, cell.0, cell.1)]
      else []
  }

  // The grid mapData leaves behind.
  ghost predicate IsPlaced(g: Grid, placed: Grid, n: int, bits: seq<bool>, pattern: int)
    requires Side(n) && 0 <= pattern < 8
  {
    && IsGrid(g, n) && IsGrid(placed, n)
    && forall r, c :: 0 <= r < n && 0 <= c < n ==> placed[r][c] == PlacedCell(g, n, bits, pattern, (r, c))
  }

  // Reading undoes placement: the k-th free cell carries data bit k, and zero
  // past the end of the data.
  lemma {:induction false} RecoveredData(g: Grid, placed: Grid, n: int, bits: seq<bool>, pattern: int, i: nat)
    requires Side(n) && 0 <= pattern < 8 && IsPlaced(g, placed, n, bits, pattern) && i <= |Path(n)|
    ensures |Recovered(g, placed, n, pattern, i)| == Free(g, n, i)
    ensures forall k :: 0 <= k < Free(g, n, i) ==> Recovered(g, placed, n, pattern, i)[k] == DataBit(bits, k)
  {
    hide Path, Index, Mask;
    if i > 0 {
      RecoveredData(g, placed, n, bits, pattern, i - 1);
      EachVisitOnce(n, i - 1);
      var cell := Path(n)[i - 1];
      assert placed[cell.0][cell.1] == PlacedCell(g, n, bits, pattern, cell);
    }
  }

  // Nothing stays undecided, provided the timing column was drawn first; with
  // an undecided cell there, that cell stays undecided.
  lemma AllDecided(g: Grid, placed: Grid, n: int, bits: seq<bool>, pattern: int)
    requires Side(n) && 0 <= pattern < 8 && IsPlaced(g, placed, n, bits, pattern)
    ensures (forall r, c :: 0 <= r < n && 0 <= c < n ==> placed[r][c].Module?)
       <==> (forall r :: 0 <= r < n ==> g[r][6].Module?)
  {
    hide Index, Mask, Free;
    forall r | 0 <= r < n ensures placed[r][6] == g[r][6] {
      assert placed[r][6] == PlacedCell(g, n, bits, pattern, (r, 6));
    }
  }
}
