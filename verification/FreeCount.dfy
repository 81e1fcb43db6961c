/** How many cells the patterns of a symbol leave free for data, exactly. */
module FreeCount {
  import opened Wrappers
  import opened SetLaws
  import opened ZigZag
  import opened Patterns

  // ---------- Counting cells ----------

  function Strip(x: int, y0: int, w: nat): (s: set<Coord>)
    ensures |s| == w && forall c: Coord :: c in s <==> c.0 == x && y0 <= c.1 < y0 + w
  {
    if w == 0 then {} else Strip(x, y0, w - 1) + {(x, y0 + w - 1)}
  }

  function Rect(x0: int, h: nat, y0: int, w: nat): (s: set<Coord>)
    ensures |s| == h * w && forall c: Coord :: c in s <==> x0 <= c.0 < x0 + h && y0 <= c.1 < y0 + w
  {
    if h == 0 then {}
    else
      var above, last := Rect(x0, h - 1, y0, w), Strip(x0 + h - 1, y0, w);
      assert above !! last && h * w == (h - 1) * w + w;
      above + last
  }

  // ---------- What the alignment patterns cover outside the timing cells ----------

  predicate Corner(k: nat, i: nat, j: nat) { (i == 0 && j == 0) || (i == 0 && j == k - 1) || (i == k - 1 && j == 0) }

  function AlignCells(pos: seq<int>, i: nat, j: nat): (s: set<Coord>)
    requires i < |pos| && j < |pos|
    ensures |s| == if Corner(|pos|, i, j) then 0 else if i == 0 || j == 0 then 20 else 25
  {
    var x, y := pos[i] - 2, pos[j] - 2;
    if Corner(|pos|, i, j) then {}
    else if i == 0 then Rect(x, 2, y, 5) + Rect(x + 3, 2, y, 5)
    else if j == 0 then Rect(x, 5, y, 2) + Rect(x, 5, y + 3, 2)
    else Rect(x, 5, y, 5)
  }

  function AlignRow(pos: seq<int>, i: nat, m: nat): set<Coord>
    requires i < |pos| && m <= |pos|
  {
    if m == 0 then {} else AlignRow(pos, i, m - 1) + AlignCells(pos, i, m - 1)
  }

  function AlignAll(pos: seq<int>, m: nat): set<Coord>
    requires m <= |pos|
  {
    if m == 0 then {} else AlignAll(pos, m - 1) + AlignRow(pos, m - 1, |pos|)
  }

  lemma AlignCellsAre(pos: seq<int>, i: nat, j: nat, c: Coord)
    requires i < |pos| && j < |pos|
    ensures c in AlignCells(pos, i, j) <==>
      && !Corner(|pos|, i, j) && -2 <= c.0 - pos[i] <= 2 && -2 <= c.1 - pos[j] <= 2
      && (i == 0 ==> c.0 != pos[i]) && (i != 0 && j == 0 ==> c.1 != pos[j])
  {
    hide Rect;
  }

  lemma {:induction false} AlignRowHas(pos: seq<int>, i: nat, m: nat, j: nat)
    requires i < |pos| && j < m <= |pos|
    ensures AlignCells(pos, i, j) <= AlignRow(pos, i, m)
  {
    hide AlignCells;
    if j < m - 1 { AlignRowHas(pos, i, m - 1, j); }
  }

  lemma {:induction false} AlignAllHas(pos: seq<int>, m: nat, i: nat, j: nat)
    requires i < m <= |pos| && j < |pos|
    ensures AlignCells(pos, i, j) <= AlignAll(pos, m)
  {
    hide AlignCells, AlignRow;
    if i < m - 1 {
      AlignAllHas(pos, m - 1, i, j);
    } else {
      AlignRowHas(pos, i, |pos|, j);
    }
  }

  lemma {:induction false} AlignRowFrom(pos: seq<int>, i: nat, m: nat, c: Coord) returns (j: nat)
    requires i < |pos| && m <= |pos| && c in AlignRow(pos, i, m)
    ensures j < m && c in AlignCells(pos, i, j)
  {
    hide AlignCells;
    if c in AlignCells(pos, i, m - 1) {
      j := m - 1;
    } else {
      j := AlignRowFrom(pos, i, m - 1, c);
    }
  }

  lemma {:induction false} AlignAllFrom(pos: seq<int>, m: nat, c: Coord) returns (i: nat, j: nat)
    requires m <= |pos| && c in AlignAll(pos, m)
    ensures i < m && j < |pos| && c in AlignCells(pos, i, j)
  {
    hide AlignCells, AlignRow;
    if c in AlignRow(pos, m - 1, |pos|) {
      i := m - 1;
      j := AlignRowFrom(pos, m - 1, |pos|, c);
    } else {
      i, j := AlignAllFrom(pos, m - 1, c);
    }
  }

  // Patterns do not overlap.
  lemma RowApart(pos: seq<int>, n: int, i: nat, m: nat)
    requires Spaced(pos, n) && i < |pos| && m < |pos|
    ensures AlignRow(pos, i, m) !! AlignCells(pos, i, m)
  {
    hide AlignCells, AlignRow;
    forall c | c in AlignRow(pos, i, m) ensures c !in AlignCells(pos, i, m) {
      var j := AlignRowFrom(pos, i, m, c);
      AlignCellsAre(pos, i, j, c);
      AlignCellsAre(pos, i, m, c);
    }
  }

  lemma AllApart(pos: seq<int>, n: int, m: nat)
    requires Spaced(pos, n) && m < |pos|
    ensures AlignAll(pos, m) !! AlignRow(pos, m, |pos|)
  {
    hide AlignCells, AlignRow, AlignAll;
    forall c | c in AlignAll(pos, m) ensures c !in AlignRow(pos, m, |pos|) {
      var i, j := AlignAllFrom(pos, m, c);
      AlignCellsAre(pos, i, j, c);
      if c in AlignRow(pos, m, |pos|) {
        var k := AlignRowFrom(pos, m, |pos|, c);
        AlignCellsAre(pos, m, k, c);
      }
    }
  }

  lemma {:induction false} FirstRowSize(pos: seq<int>, n: int, m: nat)
    requires Spaced(pos, n) && 2 <= |pos| && 1 <= m <= |pos|
    ensures |AlignRow(pos, 0, m)| == if m == |pos| then 20 * (m - 2) else 20 * (m - 1)
  {
    hide AlignCells, Spaced;
    if m == 1 {
      assert AlignRow(pos, 0, 1) == AlignRow(pos, 0, 0) + AlignCells(pos, 0, 0);
    } else {
      FirstRowSize(pos, n, m - 1);
      RowApart(pos, n, 0, m - 1);
    }
  }

  lemma {:induction false} OtherRowSize(pos: seq<int>, n: int, i: nat, m: nat)
    requires Spaced(pos, n) && 2 <= |pos| && 1 <= i < |pos| && 1 <= m <= |pos|
    ensures |AlignRow(pos, i, m)| == 25 * (m - 1) + if i == |pos| - 1 then 0 else 20
  {
    hide AlignCells, Spaced;
    if m == 1 {
      assert AlignRow(pos, i, 1) == AlignRow(pos, i, 0) + AlignCells(pos, i, 0);
    } else {
      OtherRowSize(pos, n, i, m - 1);
      RowApart(pos, n, i, m - 1);
    }
  }

  lemma {:induction false} AlignSize(pos: seq<int>, n: int, m: nat)
    requires Spaced(pos, n) && 2 <= |pos| && 1 <= m <= |pos|
    ensures |AlignAll(pos, m)| ==
      20 * (|pos| - 2) + (m - 1) * (25 * (|pos| - 1)) + 20 * (if m == |pos| then m - 2 else m - 1)
  {
    hide AlignRow, Spaced;
    if m == 1 {
      FirstRowSize(pos, n, |pos|);
      assert AlignAll(pos, 1) == AlignAll(pos, 0) + AlignRow(pos, 0, |pos|);
    } else {
      AlignSize(pos, n, m - 1);
      OtherRowSize(pos, n, m - 1, |pos|);
      AllApart(pos, n, m - 1);
      assert (m - 1) * (25 * (|pos| - 1)) == (m - 2) * (25 * (|pos| - 1)) + 25 * (|pos| - 1);
    }
  }

  // ---------- What all patterns cover outside column 6 ----------

  function Around(n: int): set<Coord>
    requires n >= 21
  {
    Rect(0, 9, 0, 6) + Rect(0, 9, 7, 2) + Rect(0, 9, n - 8, 8) + Rect(n - 8, 8, 0, 6) + Rect(n - 8, 8, 7, 2)
    + Strip(6, 9, n - 17)
  }

  lemma AroundSize(n: int)
    requires n >= 21
    ensures |Around(n)| == 208 + (n - 17)
  {
    hide Rect, Strip;
    var a, b, c := Rect(0, 9, 0, 6), Rect(0, 9, 7, 2), Rect(0, 9, n - 8, 8);
    var d, e, f := Rect(n - 8, 8, 0, 6), Rect(n - 8, 8, 7, 2), Strip(6, 9, n - 17);
    assert |a| == 54 && |b| == 18 && |c| == 72 && |d| == 48 && |e| == 16;
    DisjointSize(a, b);
    DisjointSize(a + b, c);
    DisjointSize(a + b + c, d);
    DisjointSize(a + b + c + d, e);
    DisjointSize(a + b + c + d + e, f);
  }

  lemma AroundHas(n: int, x: int, y: int)
    requires n >= 21
    ensures (x, y) in Around(n) <==>
      || (0 <= x < 9 && 0 <= y < 6) || (0 <= x < 9 && 7 <= y < 9) || (0 <= x < 9 && n - 8 <= y < n)
      || (n - 8 <= x < n && 0 <= y < 6) || (n - 8 <= x < n && 7 <= y < 9) || (x == 6 && 9 <= y < n - 8)
  {
    hide Rect, Strip;
  }

  function NumberCells(version: int): (s: set<Coord>)
    requires 1 <= version <= 40
    ensures |s| == if version >= 7 then 36 else 0
  {
    var n := ModuleCount(version);
    if version >= 7 then Rect(0, 6, n - 11, 3) + Rect(n - 11, 3, 0, 6) else {}
  }

  function Covered(version: int): set<Coord>
    requires 1 <= version <= 40
  {
    var pos := PatternPosition(version);
    Around(ModuleCount(version)) + NumberCells(version) + AlignAll(pos, |pos|)
  }

  // The cells of the alignment patterns when there are k rows and columns of
  // centres, without those in row and column 6.
  function AlignTotal(k: int): int { 40 * (k - 2) + (k - 1) * (25 * (k - 1)) }

  function AlignCount(version: int): int { if version == 1 then 0 else AlignTotal(version / 7 + 2) }

  // The cells outside column 6.
  function PathCells(n: int): int { n * (n - 1) }

  // The free cells: what the patterns leave of the path.
  function FreeCells(version: int): int
    requires 1 <= version <= 40
  {
    var n := ModuleCount(version);
    PathCells(n) - (208 + (n - 17)) - (if version >= 7 then 36 else 0) - AlignCount(version)
  }

  lemma AlignSizeOf(version: int)
    requires 1 <= version <= 40
    ensures var pos := PatternPosition(version); |AlignAll(pos, |pos|)| == AlignCount(version)
  {
    PositionsSpaced(version);
    hide PatternPosition, AlignAll, Spaced;
    var pos := PatternPosition(version);
    if version > 1 {
      AlignSize(pos, ModuleCount(version), |pos|);
    } else {
      NoAlignment(pos);
    }
  }

  lemma NoAlignment(pos: seq<int>)
    requires pos == []
    ensures AlignAll(pos, |pos|) == {}
  {}

  lemma CoveredSize(version: int)
    requires 1 <= version <= 40
    ensures |Covered(version)|
         == 208 + (ModuleCount(version) - 17) + (if version >= 7 then 36 else 0) + AlignCount(version)
  {
    hide *;
    CountAtLeast(version);
    AroundSize(ModuleCount(version));
    AlignSizeOf(version);
    CoveredParts(version);
    var pos := PatternPosition(version);
    var a, b, c := Around(ModuleCount(version)), NumberCells(version), AlignAll(pos, |pos|);
    forall cell | cell in b ensures cell !in a {
      NumberApart(version, cell);
    }
    forall cell | cell in c ensures cell !in a && cell !in b {
      AlignmentApart(version, cell);
    }
    DisjointSize(a, b);
    DisjointSize(a + b, c);
  }

  lemma CountAtLeast(version: int)
    requires 1 <= version <= 40
    ensures ModuleCount(version) >= 21
  {}

  lemma CoveredParts(version: int)
    requires 1 <= version <= 40
    ensures var pos := PatternPosition(version);
            Covered(version) == Around(ModuleCount(version)) + NumberCells(version) + AlignAll(pos, |pos|)
  {
    hide PatternPosition, AlignAll, AlignRow, AlignCells, Around, NumberCells, Rect, Strip, ModuleCount;
  }

  lemma NumberCellsAre(version: int, c: Coord)
    requires 1 <= version <= 40
    ensures c in NumberCells(version) <==>
      version >= 7 && NumberBit(ModuleCount(version), c.0, c.1) >= 0
  {
    hide Rect;
  }

  lemma NumberApart(version: int, c: Coord)
    requires 1 <= version <= 40 && c in NumberCells(version)
    ensures c !in Around(ModuleCount(version))
  {
    hide Around, NumberCells;
    NumberCellsAre(version, c);
    AroundHas(ModuleCount(version), c.0, c.1);
  }

  // The alignment patterns stay clear of the finder patterns, the timing row
  // and the version words.
  lemma AlignmentApart(version: int, c: Coord)
    requires 1 <= version <= 40
    requires var pos := PatternPosition(version); c in AlignAll(pos, |pos|)
    ensures c !in Around(ModuleCount(version)) && c !in NumberCells(version)
  {
    hide PatternPosition, AlignAll, AlignCells, Around, NumberCells, ModuleCount, Centres, NumberBit;
    var pos, n := PatternPosition(version), ModuleCount(version);
    CountAtLeast(version);
    var i, j := AlignAllFrom(pos, |pos|, c);
    AlignCellsAre(pos, i, j, c);
    AroundHas(n, c.0, c.1);
    NumberCellsAre(version, c);
    CentresOf(version);
    AlignApart(version, pos, i, j, c);
  }

  lemma AlignApart(version: int, pos: seq<int>, i: nat, j: nat, c: Coord)
    requires 1 <= version <= 40 && pos == PatternPosition(version) && i < |pos| && j < |pos| && !Corner(|pos|, i, j)
    requires Centres(pos, ModuleCount(version), version) && -2 <= c.0 - pos[i] <= 2 && -2 <= c.1 - pos[j] <= 2
    requires (i == 0 ==> c.0 != pos[i]) && (i != 0 && j == 0 ==> c.1 != pos[j])
    ensures var n := ModuleCount(version);
            c.0 != 6 && c.1 != 6 && (c.0 < 9 ==> 9 <= c.1 < n - 8) && (c.1 < 9 ==> 9 <= c.0 < n - 8)
            && (version >= 7 ==> NumberBit(n, c.0, c.1) < 0)
  {
    hide PatternPosition;
    var k := |pos|;
    assert i > 0 ==> pos[0] + 5 <= pos[i];
    assert j > 0 ==> pos[0] + 5 <= pos[j];
    assert i < k - 1 ==> pos[i] + 5 <= pos[k - 1];
    assert j < k - 1 ==> pos[j] + 5 <= pos[k - 1];
    assert i < k - 2 ==> pos[i] + 5 <= pos[k - 2];
    assert j < k - 2 ==> pos[j] + 5 <= pos[k - 2];
  }

  // ---------- Every decided cell of the path is covered ----------

  lemma FinderCovered(n: int, x: int, y: int)
    requires n >= 21 && 0 <= x < n && 0 <= y < n && y != 6 && Finder(n, x, y).Module?
    ensures (x, y) in Around(n)
  {
    hide Around, ProbeDark;
    AroundHas(n, x, y);
  }

  lemma WordsCovered(version: int, words: Words, x: int, y: int)
    requires 1 <= version <= 40 && 0 <= x < ModuleCount(version) && 0 <= y < ModuleCount(version) && y != 6
    requires Fixed(version, x, y).Unset? && TemplateCell(version, words, x, y).Module?
    ensures (x, y) in Around(ModuleCount(version)) || (x, y) in NumberCells(version)
  {
    hide Around, Fixed, Lit, Rect;
    AroundHas(ModuleCount(version), x, y);
  }

  lemma TimingCovered(n: int, x: int, y: int)
    requires n >= 21 && 0 <= x < n && 0 <= y < n && y != 6 && Timed(n, x, y, Unset).Module?
    ensures (x, y) in Around(n)
  {
    hide Around;
    AroundHas(n, x, y);
  }

  // Centres as every version but the first has them; from version 7 on there
  // is room for the version word in front of the last.
  predicate Centres(pos: seq<int>, n: int, version: int) {
    && n >= 21 && |pos| >= 2 && Spaced(pos, n) && pos[0] == 6 && pos[|pos| - 1] == n - 7
    && (version >= 7 ==> |pos| >= 3 && pos[|pos| - 2] + 7 <= pos[|pos| - 1])
  }

  // A pattern centred on row 6 crosses it inside the timing pattern.
  lemma AdjustOnTiming(version: int, pos: seq<int>, n: int, j: nat, y: int)
    requires Centres(pos, n, version) && j < |pos| && !Corner(|pos|, 0, j) && -2 <= y - pos[j] <= 2
    ensures 9 <= y < n - 8
  {
    assert pos[0] + 5 <= pos[j] && pos[j] + 5 <= pos[|pos| - 1];
  }

  lemma NotCorner(version: int, pos: seq<int>, n: int, i: nat, j: nat)
    requires Centres(pos, n, version) && i < |pos| && j < |pos| && Finder(n, pos[i], pos[j]).Unset?
    ensures !Corner(|pos|, i, j)
  {
    hide ProbeDark, Spaced;
  }

  lemma HasCentre(pos: seq<int>, g: Grid, x: int, y: int) returns (i: nat, j: nat)
    requires Spaced(pos, |g|) && IsGrid(g, |g|) && 0 <= x < |g| && 0 <= y < |g|
    requires g[x][y].Unset? && Adjusted(pos, g, x, y).Module?
    ensures i < |pos| && j < |pos| && -2 <= x - pos[i] <= 2 && -2 <= y - pos[j] <= 2
    ensures 0 <= pos[i] < |g| && 0 <= pos[j] < |g| && g[pos[i]][pos[j]].Unset?
  {
    i, j := Near(pos, x).value, Near(pos, y).value;
  }

  lemma CentresOf(version: int)
    requires 1 <= version <= 40 && PatternPosition(version) != []
    ensures Centres(PatternPosition(version), ModuleCount(version), version)
  {
    PositionsSpaced(version);
    if version >= 7 {
      LastGap(version);
    }
    hide PatternPosition;
  }

  lemma LastGap(version: int)
    requires 7 <= version <= 40
    ensures var pos := PatternPosition(version); |pos| >= 3 && pos[|pos| - 2] + 7 <= pos[|pos| - 1]
  {}

  lemma DecidedCovered(version: int, words: Words, x: int, y: int)
    requires 1 <= version <= 40 && 0 <= x < ModuleCount(version) && 0 <= y < ModuleCount(version) && y != 6
    requires TemplateCell(version, words, x, y).Module?
    ensures (x, y) in Covered(version)
  {
    hide TemplateCell, Around, PatternPosition, AlignAll, AlignCells, NumberCells;
    hide Adjusted, Finder, Timed, Covered, Spaced;
    var n, pos := ModuleCount(version), PatternPosition(version);
    PositionsSpaced(version);
    CoveredParts(version);
    if Finder(n, x, y).Module? {
      FinderCovered(n, x, y);
    } else if Adjusted(pos, FinderGrid(n), x, y).Module? {
      var i, j := HasCentre(pos, FinderGrid(n), x, y);
      CentresOf(version);
      NotCorner(version, pos, n, i, j);
      if x == 6 && i == 0 {
        AdjustOnTiming(version, pos, n, j, y);
        AroundHas(n, x, y);
      } else {
        AlignAllHas(pos, |pos|, i, j);
        AlignCellsAre(pos, i, j, (x, y));
      }
    } else if Timed(n, x, y, Unset).Module? {
      TimingCovered(n, x, y);
    } else {
      WordsCovered(version, words, x, y);
    }
  }

  // ---------- Every covered cell is decided ----------

  // The finder patterns, the words beside them, and the timing row between.
  lemma AroundShown(n: int, words: Words, x: int, y: int, before: Cell)
    requires n >= 21 && (x, y) in Around(n)
    ensures 0 <= x < n && 0 <= y < n && y != 6
    ensures Finder(n, x, y).Module? || Informed(n, words.test, words.info, x, y, before).Module?
         || Timed(n, x, y, before).Module?
  {
    hide Around, Lit, ProbeDark;
    AroundHas(n, x, y);
  }

  lemma LaterShown(version: int, words: Words, x: int, y: int)
    requires 1 <= version <= 40 && 0 <= x < ModuleCount(version) && 0 <= y < ModuleCount(version)
    requires var n := ModuleCount(version);
      || Finder(n, x, y).Module? || Informed(n, words.test, words.info, x, y, Unset).Module?
      || Timed(n, x, y, Unset).Module?
    ensures TemplateCell(version, words, x, y).Module?
  {
    hide Finder, Lit, AdjustDark, PatternPosition, Spaced, Near;
    PositionsSpaced(version);
  }

  predicate DecidedAt(version: int, words: Words, c: Coord)
    requires 1 <= version <= 40
  {
    OnPath(ModuleCount(version), c) && TemplateCell(version, words, c.0, c.1).Module?
  }

  lemma AroundDecided(version: int, n: int, words: Words, c: Coord)
    requires 1 <= version <= 40 && n == ModuleCount(version) && n >= 21 && c in Around(n)
    ensures DecidedAt(version, words, c)
  {
    hide Around, TemplateCell, ModuleCount, Finder, Informed, Timed;
    AroundShown(n, words, c.0, c.1, Unset);
    LaterShown(version, words, c.0, c.1);
  }

  lemma NumberDecided(version: int, words: Words, c: Coord)
    requires 1 <= version <= 40 && c in NumberCells(version)
    ensures DecidedAt(version, words, c)
  {
    hide NumberCells, Fixed, Lit;
    NumberCellsAre(version, c);
  }

  lemma AlignDecided(version: int, words: Words, c: Coord, i: nat, j: nat)
    requires 1 <= version <= 40
    requires var pos := PatternPosition(version); i < |pos| && j < |pos| && c in AlignCells(pos, i, j)
    ensures DecidedAt(version, words, c)
  {
    hide AlignCells, Lit, ProbeDark, AdjustDark, PatternPosition, Near;
    var n, pos := ModuleCount(version), PatternPosition(version);
    AlignCellsAre(pos, i, j, c);
    CentresOf(version);
    AlignApart(version, pos, i, j, c);
    PositionsSpaced(version);
    NearUnique(pos, n, c.0, i);
    NearUnique(pos, n, c.1, j);
    CentreFree(version, pos, n, i, j);
  }

  // A centre that is not in a corner is clear of the finder patterns.
  lemma CentreFree(version: int, pos: seq<int>, n: int, i: nat, j: nat)
    requires Centres(pos, n, version) && i < |pos| && j < |pos| && !Corner(|pos|, i, j)
    ensures Finder(n, pos[i], pos[j]).Unset?
  {
    hide ProbeDark;
    var k := |pos|;
    assert i > 0 ==> pos[0] + 5 <= pos[i];
    assert j > 0 ==> pos[0] + 5 <= pos[j];
    assert i < k - 1 ==> pos[i] + 5 <= pos[k - 1];
    assert j < k - 1 ==> pos[j] + 5 <= pos[k - 1];
  }

  lemma CoveredDecided(version: int, words: Words, c: Coord)
    requires 1 <= version <= 40 && c in Covered(version)
    ensures DecidedAt(version, words, c)
  {
    hide DecidedAt, Around, PatternPosition, AlignAll, AlignCells, NumberCells, Covered, ModuleCount;
    CountAtLeast(version);
    var n, pos := ModuleCount(version), PatternPosition(version);
    CoveredParts(version);
    if c in Around(n) {
      AroundDecided(version, n, words, c);
    } else if c in NumberCells(version) {
      NumberDecided(version, words, c);
    } else {
      var i, j := AlignAllFrom(pos, |pos|, c);
      AlignDecided(version, words, c, i, j);
    }
  }

  // ---------- The free cells are those not covered ----------

  // The decided cells among the first i visits.
  function Decided(g: Grid, n: int, i: nat): set<Coord>
    requires Side(n) && IsGrid(g, n) && i <= |Path(n)|
  {
    if i == 0 then {}
    else
      var cell := PathCell(n, i - 1);
      Decided(g, n, i - 1) + if g[cell.0][cell.1].Unset? then {} else {cell}
  }

  lemma {:induction false} DecidedOnPath(g: Grid, n: int, i: nat, cell: Coord)
    requires Side(n) && IsGrid(g, n) && i <= |Path(n)| && cell in Decided(g, n, i)
    ensures OnPath(n, cell) && Index(n, cell) < i && g[cell.0][cell.1].Module?
  {
    hide Path, Index;
    EachVisitOnce(n, i - 1);
    if cell in Decided(g, n, i - 1) { DecidedOnPath(g, n, i - 1, cell); }
  }

  // Each visit finds a free cell or one decided cell more.
  lemma {:induction false} FreeAndDecided(g: Grid, n: int, i: nat)
    requires Side(n) && IsGrid(g, n) && i <= |Path(n)|
    ensures Free(g, n, i) + |Decided(g, n, i)| == i
  {
    hide Path, Index;
    if i > 0 {
      FreeAndDecided(g, n, i - 1);
      EachVisitOnce(n, i - 1);
      var cell := Path(n)[i - 1];
      if cell in Decided(g, n, i - 1) {
        DecidedOnPath(g, n, i - 1, cell);
        assert false;
      }
    }
  }

  lemma {:induction false} DecidedHas(g: Grid, n: int, i: nat, cell: Coord)
    requires Side(n) && IsGrid(g, n) && i <= |Path(n)|
    requires OnPath(n, cell) && Index(n, cell) < i && g[cell.0][cell.1].Module?
    ensures cell in Decided(g, n, i)
  {
    hide Path, Index;
    EveryCellVisited(n, cell);
    if Index(n, cell) < i - 1 { DecidedHas(g, n, i - 1, cell); }
  }

  // After the whole path the decided cells are those the patterns cover.
  lemma DecidedIsCovered(version: int, words: Words)
    requires 1 <= version <= 40
    ensures var n := ModuleCount(version); Decided(Template(version, words), n, |Path(n)|) == Covered(version)
  {
    hide Path, Decided, Covered, Index;
    var n, g := ModuleCount(version), Template(version, words);
    var d := Decided(g, n, |Path(n)|);
    hide ModuleCount, Template;
    forall cell | cell in d ensures cell in Covered(version) {
      DecidedOnPath(g, n, |Path(n)|, cell);
      DecidedCovered(version, words, cell.0, cell.1);
    }
    forall cell | cell in Covered(version) ensures cell in d {
      CoveredDecided(version, words, cell);
      EveryCellVisited(n, cell);
      DecidedHas(g, n, |Path(n)|, cell);
    }
  }

  // The patterns leave exactly this many cells of the path, in every version
  // and whatever words are drawn.
  lemma FreeExact(version: int, words: Words)
    requires 1 <= version <= 40
    ensures var n := ModuleCount(version); Free(Template(version, words), n, |Path(n)|) == FreeCells(version)
  {
    hide *;
    var n := ModuleCount(version);
    PathSize(version);
    CoveredSize(version);
    FreeAndDecided(Template(version, words), n, |Path(n)|);
    DecidedIsCovered(version, words);
  }

  lemma PathCellsOf(n: int)
    requires Side(n)
    ensures |Path(n)| == PathCells(n)
  {
    PathLength(n);
  }

  lemma PathSize(version: int)
    requires 1 <= version <= 40
    ensures var n := ModuleCount(version);
            |Path(n)| - FreeCells(version) == 208 + (n - 17) + (if version >= 7 then 36 else 0) + AlignCount(version)
  {
    hide Path, AlignCount, PathCells;
    PathCellsOf(ModuleCount(version));
  }
}
