/** The function patterns of a symbol: finder, alignment and timing patterns, and
    the format and version words (section 6.3 of ISO/IEC 18004:2015). */
module Patterns {
  import opened Wrappers
  import opened Bits
  import opened ZigZag

  // ---------- Finder patterns ----------

  // Row and column count from the pattern's corner; the separator lies around it.
  predicate ProbeDark(r: int, c: int) {
    || (0 <= r <= 6 && (c == 0 || c == 6))
    || (0 <= c <= 6 && (r == 0 || r == 6))
    || (2 <= r <= 4 && 2 <= c <= 4)
  }

  function Probed(row: int, col: int, x: int, y: int, before: Cell): Cell {
    if -1 <= x - row <= 7 && -1 <= y - col <= 7 then Module(ProbeDark(x - row, y - col)) else before
  }

  method SetupPositionProbePattern(modules: array2<Cell>, row: int, col: int)
    requires modules.Length0 == modules.Length1
    modifies modules
    ensures forall x, y :: 0 <= x < modules.Length0 && 0 <= y < modules.Length0 ==>
      modules[x, y] == Probed(row, col, x, y, old(modules[x, y]))
  {
    hide ProbeDark;
    var n := modules.Length0;
    for r := -1 to 8
      invariant forall x, y :: 0 <= x < n && 0 <= y < n ==>
        modules[x, y] == if x - row < r then Probed(row, col, x, y, old(modules[x, y])) else old(modules[x, y])
    {
      if row + r <= -1 || n <= row + r {
        continue;
      }
      for c := -1 to 8
        invariant forall x, y :: 0 <= x < n && 0 <= y < n ==>
          modules[x, y] == if x - row < r || (x - row == r && y - col < c)
                           then Probed(row, col, x, y, old(modules[x, y])) else old(modules[x, y])
      {
        if col + c <= -1 || n <= col + c {
          continue;
        }
        modules[row + r, col + c] := Module(ProbeDark(r, c));
      }
    }
  }

  // ---------- Alignment patterns ----------

  // The rows and columns of the centres, by version.
  function PatternPosition(version: int): seq<int> {
    match version
    case 1 => []
    case 2 => [6, 18]
    case 3 => [6, 22]
    case 4 => [6, 26]
    case 5 => [6, 30]
    case 6 => [6, 34]
    case 7 => [6, 22, 38]
    case 8 => [6, 24, 42]
    case 9 => [6, 26, 46]
    case 10 => [6, 28, 50]
    case 11 => [6, 30, 54]
    case 12 => [6, 32, 58]
    case 13 => [6, 34, 62]
    case 14 => [6, 26, 46, 66]
    case 15 => [6, 26, 48, 70]
    case 16 => [6, 26, 50, 74]
    case 17 => [6, 30, 54, 78]
    case 18 => [6, 30, 56, 82]
    case 19 => [6, 30, 58, 86]
    case 20 => [6, 34, 62, 90]
    case 21 => [6, 28, 50, 72, 94]
    case 22 => [6, 26, 50, 74, 98]
    case 23 => [6, 30, 54, 78, 102]
    case 24 => [6, 28, 54, 80, 106]
    case 25 => [6, 32, 58, 84, 110]
    case 26 => [6, 30, 58, 86, 114]
    case 27 => [6, 34, 62, 90, 118]
    case 28 => [6, 26, 50, 74, 98, 122]
    case 29 => [6, 30, 54, 78, 102, 126]
    case 30 => [6, 26, 52, 78, 104, 130]
    case 31 => [6, 30, 56, 82, 108, 134]
    case 32 => [6, 34, 60, 86, 112, 138]
    case 33 => [6, 30, 58, 86, 114, 142]
    case 34 => [6, 34, 62, 90, 118, 146]
    case 35 => [6, 30, 54, 78, 102, 126, 150]
    case 36 => [6, 24, 50, 76, 102, 128, 154]
    case 37 => [6, 28, 54, 80, 106, 132, 158]
    case 38 => [6, 32, 58, 84, 110, 136, 162]
    case 39 => [6, 26, 54, 82, 110, 138, 166]
    case _ => [6, 30, 58, 86, 114, 142, 170]
  }

  // Patterns do not touch each other or the border.
  predicate Spaced(pos: seq<int>, n: int) {
    && (forall i :: 0 <= i < |pos| ==> 2 <= pos[i] <= n - 3)
    && (forall i, j :: 0 <= i < j < |pos| ==> pos[i] + 5 <= pos[j])
  }

  predicate AdjustDark(r: int, c: int) { r == -2 || r == 2 || c == -2 || c == 2 || (r == 0 && c == 0) }

  // The position whose pattern reaches x, if any.
  function Near(pos: seq<int>, x: int): (i: Option<nat>)
    ensures i.Some? ==> i.value < |pos| && -2 <= x - pos[i.value] <= 2
    ensures i.None? ==> forall j :: 0 <= j < |pos| ==> !(-2 <= x - pos[j] <= 2)
  {
    if pos == [] then None
    else if -2 <= x - pos[|pos| - 1] <= 2 then Some(|pos| - 1)
    else Near(pos[..|pos| - 1], x)
  }

  lemma NearUnique(pos: seq<int>, n: int, x: int, i: nat)
    requires Spaced(pos, n) && i < |pos|
    ensures Near(pos, x) == Some(i) <==> -2 <= x - pos[i] <= 2
  {
    var j := Near(pos, x);
    if j.Some? && j.value != i {
      assert j.value < i || i < j.value;
    }
  }

  // A pattern is drawn where its centre is undecided.
  function Adjusted(pos: seq<int>, g: Grid, x: int, y: int): Cell
    requires Spaced(pos, |g|) && IsGrid(g, |g|) && 0 <= x < |g| && 0 <= y < |g|
  {
    var i, j := Near(pos, x), Near(pos, y);
    if i.Some? && j.Some? && g[pos[i.value]][pos[j.value]].Unset?
    then Module(AdjustDark(x - pos[i.value], y - pos[j.value])) else g[x][y]
  }

  method DrawAdjustPattern(modules: array2<Cell>, row: int, col: int)
    requires modules.Length0 == modules.Length1
    requires 2 <= row <= modules.Length0 - 3 && 2 <= col <= modules.Length0 - 3
    modifies modules
    ensures forall x, y :: 0 <= x < modules.Length0 && 0 <= y < modules.Length0 ==>
      modules[x, y] == if -2 <= x - row <= 2 && -2 <= y - col <= 2
                       then Module(AdjustDark(x - row, y - col)) else old(modules[x, y])
  {
    hide AdjustDark;
    var n := modules.Length0;
    for r := -2 to 3
      invariant forall x, y :: 0 <= x < n && 0 <= y < n ==>
        modules[x, y] == if -2 <= x - row < r && -2 <= y - col <= 2
                         then Module(AdjustDark(x - row, y - col)) else old(modules[x, y])
    {
      for c := -2 to 3
        invariant forall x, y :: 0 <= x < n && 0 <= y < n ==>
          modules[x, y] == if (-2 <= x - row < r && -2 <= y - col <= 2) || (x - row == r && -2 <= y - col < c)
                           then Module(AdjustDark(x - row, y - col)) else old(modules[x, y])
      {
        modules[row + r, col + c] := Module(AdjustDark(r, c));
      }
    }
  }

  // A cell once the patterns before number (i, j) are drawn.
  function AdjustedSoFar(pos: seq<int>, g: Grid, i: nat, j: nat, x: int, y: int): Cell
    requires Spaced(pos, |g|) && IsGrid(g, |g|) && 0 <= x < |g| && 0 <= y < |g|
  {
    var a, b := Near(pos, x), Near(pos, y);
    if a.Some? && b.Some? && (a.value < i || (a.value == i && b.value < j)) then Adjusted(pos, g, x, y) else g[x][y]
  }

  ghost predicate AdjustedUpTo(modules: array2<Cell>, g: Grid, pos: seq<int>, i: nat, j: nat)
    requires modules.Length0 == modules.Length1 == |g| && IsGrid(g, |g|) && Spaced(pos, |g|)
    reads modules
  {
    forall x, y :: 0 <= x < |g| && 0 <= y < |g| ==> modules[x, y] == AdjustedSoFar(pos, g, i, j, x, y)
  }

  lemma AdjustStep(pos: seq<int>, g: Grid, i: nat, j: nat, x: int, y: int)
    requires Spaced(pos, |g|) && IsGrid(g, |g|) && 0 <= x < |g| && 0 <= y < |g|
    requires i < |pos| && j < |pos|
    ensures 2 <= pos[i] <= |g| - 3 && 2 <= pos[j] <= |g| - 3
    ensures AdjustedSoFar(pos, g, i, j, pos[i], pos[j]) == g[pos[i]][pos[j]]
    ensures AdjustedSoFar(pos, g, i, j + 1, x, y) ==
      if -2 <= x - pos[i] <= 2 && -2 <= y - pos[j] <= 2 && g[pos[i]][pos[j]].Unset?
      then Module(AdjustDark(x - pos[i], y - pos[j])) else AdjustedSoFar(pos, g, i, j, x, y)
  {
    hide AdjustDark, Near;
    NearUnique(pos, |g|, x, i);
    NearUnique(pos, |g|, y, j);
    NearUnique(pos, |g|, pos[i], i);
    NearUnique(pos, |g|, pos[j], j);
  }

  method SetupPositionAdjustPattern(modules: array2<Cell>, pos: seq<int>)
    requires modules.Length0 == modules.Length1 && Spaced(pos, modules.Length0)
    modifies modules
    ensures forall x, y :: 0 <= x < modules.Length0 && 0 <= y < modules.Length0 ==>
      modules[x, y] == Adjusted(pos, old(Snapshot(modules)), x, y)
  {
    hide AdjustDark, Near;
    ghost var g := Snapshot(modules);
    for i := 0 to |pos|
      invariant AdjustedUpTo(modules, g, pos, i, 0)
    {
      for j := 0 to |pos|
        invariant AdjustedUpTo(modules, g, pos, i, j)
      {
        AdjustOne(modules, pos, i, j, g);
      }
    }
  }

  // One centre of the two loops.
  method AdjustOne(modules: array2<Cell>, pos: seq<int>, i: nat, j: nat, ghost g: Grid)
    requires modules.Length0 == modules.Length1 == |g| && IsGrid(g, |g|) && Spaced(pos, |g|)
    requires i < |pos| && j < |pos| && AdjustedUpTo(modules, g, pos, i, j)
    modifies modules
    ensures AdjustedUpTo(modules, g, pos, i, j + 1)
  {
    hide AdjustedSoFar, AdjustDark, Near;
    var row, col := pos[i], pos[j];
    AdjustStep(pos, g, i, j, row, col);
    forall x, y | 0 <= x < |g| && 0 <= y < |g|
      ensures AdjustedSoFar(pos, g, i, j + 1, x, y) ==
        if -2 <= x - row <= 2 && -2 <= y - col <= 2 && g[row][col].Unset?
        then Module(AdjustDark(x - row, y - col)) else AdjustedSoFar(pos, g, i, j, x, y)
    {
      AdjustStep(pos, g, i, j, x, y);
    }
    if modules[row, col] == Unset {
      DrawAdjustPattern(modules, row, col);
    }
  }

  // ---------- Timing patterns ----------

  function Timed(n: int, x: int, y: int, before: Cell): Cell {
    if before.Module? then before
    else if y == 6 && 8 <= x < n - 8 then Module(x % 2 == 0)
    else if x == 6 && 8 <= y < n - 8 then Module(y % 2 == 0)
    else before
  }

  method SetupTimingPattern(modules: array2<Cell>)
    requires modules.Length0 == modules.Length1 && modules.Length0 >= 21
    modifies modules
    ensures forall x, y :: 0 <= x < modules.Length0 && 0 <= y < modules.Length0 ==>
      modules[x, y] == Timed(modules.Length0, x, y, old(modules[x, y]))
  {
    var n := modules.Length0;
    for r := 8 to n - 8
      invariant forall x, y :: 0 <= x < n && 0 <= y < n ==>
        modules[x, y] == if y == 6 && 8 <= x < r then Timed(n, x, y, old(modules[x, y])) else old(modules[x, y])
    {
      if modules[r, 6] != Unset {
        continue;
      }
      modules[r, 6] := Module(r % 2 == 0);
    }
    for c := 8 to n - 8
      invariant forall x, y :: 0 <= x < n && 0 <= y < n ==>
        modules[x, y] == if y == 6 || (x == 6 && 8 <= y < c) then Timed(n, x, y, old(modules[x, y]))
                         else old(modules[x, y])
    {
      if modules[6, c] != Unset {
        continue;
      }
      modules[6, c] := Module(c % 2 == 0);
    }
  }

  // ---------- Format and version words ----------

  // Trial symbols, made to choose the mask, show no words.
  predicate Lit(test: bool, bits: nat, i: nat) { !test && Shr(bits, i) % 2 == 1 }

  // Which bit of the format word stands in row x of column 8, and in column y of
  // row 8; -1 for none.
  function VerticalBit(n: int, x: int): int {
    if x < 6 then x else if x == 7 || x == 8 then x - 1 else if x >= n - 7 then x - (n - 15) else -1
  }

  function HorizontalBit(n: int, y: int): int {
    if y < 6 then 14 - y else if y == 7 then 8 else if y >= n - 8 then n - 1 - y else -1
  }

  function Informed(n: int, test: bool, bits: nat, x: int, y: int, before: Cell): Cell {
    if x == n - 8 && y == 8 then Module(!test)
    else if y == 8 && VerticalBit(n, x) >= 0 then Module(Lit(test, bits, VerticalBit(n, x)))
    else if x == 8 && HorizontalBit(n, y) >= 0 then Module(Lit(test, bits, HorizontalBit(n, y)))
    else before
  }

  method SetupTypeInfo(modules: array2<Cell>, test: bool, bits: nat)
    requires modules.Length0 == modules.Length1 && modules.Length0 >= 21
    modifies modules
    ensures forall x, y :: 0 <= x < modules.Length0 && 0 <= y < modules.Length0 ==>
      modules[x, y] == Informed(modules.Length0, test, bits, x, y, old(modules[x, y]))
  {
    hide Lit;
    var n := modules.Length0;
    for i := 0 to 15
      invariant forall x, y :: 0 <= x < n && 0 <= y < n ==>
        modules[x, y] == if y == 8 && 0 <= VerticalBit(n, x) < i then Module(Lit(test, bits, VerticalBit(n, x)))
                         else old(modules[x, y])
    {
      var mod := Lit(test, bits, i);
      if i < 6 {
        modules[i, 8] := Module(mod);
      } else if i < 8 {
        modules[i + 1, 8] := Module(mod);
      } else {
        modules[n - 15 + i, 8] := Module(mod);
      }
    }
    for i := 0 to 15
      invariant forall x, y :: 0 <= x < n && 0 <= y < n ==>
        modules[x, y] == if y == 8 && 0 <= VerticalBit(n, x) then Module(Lit(test, bits, VerticalBit(n, x)))
                         else if x == 8 && 0 <= HorizontalBit(n, y) < i
                         then Module(Lit(test, bits, HorizontalBit(n, y)))
                         else old(modules[x, y])
    {
      var mod := Lit(test, bits, i);
      if i < 8 {
        modules[8, n - i - 1] := Module(mod);
      } else if i < 9 {
        modules[8, 15 - i - 1 + 1] := Module(mod);
      } else {
        modules[8, 15 - i - 1] := Module(mod);
      }
    }
    modules[n - 8, 8] := Module(!test);
  }

  // Which bit of the version word a cell shows; -1 for none.
  function NumberBit(n: int, x: int, y: int): int {
    if 0 <= x < 6 && n - 11 <= y < n - 8 then 3 * x + (y - (n - 11))
    else if 0 <= y < 6 && n - 11 <= x < n - 8 then 3 * y + (x - (n - 11))
    else -1
  }

  function Numbered(n: int, test: bool, bits: nat, x: int, y: int, before: Cell): Cell {
    if NumberBit(n, x, y) >= 0 then Module(Lit(test, bits, NumberBit(n, x, y))) else before
  }

  method SetupTypeNumber(modules: array2<Cell>, test: bool, bits: nat)
    requires modules.Length0 == modules.Length1 && modules.Length0 >= 21
    modifies modules
    ensures forall x, y :: 0 <= x < modules.Length0 && 0 <= y < modules.Length0 ==>
      modules[x, y] == Numbered(modules.Length0, test, bits, x, y, old(modules[x, y]))
  {
    hide Lit;
    var n := modules.Length0;
    for i := 0 to 18
      invariant forall x, y :: 0 <= x < n && 0 <= y < n ==>
        modules[x, y] == if x < 6 && 0 <= NumberBit(n, x, y) < i then Module(Lit(test, bits, NumberBit(n, x, y)))
                         else old(modules[x, y])
    {
      modules[i / 3, i % 3 + n - 8 - 3] := Module(Lit(test, bits, i));
    }
    for i := 0 to 18
      invariant forall x, y :: 0 <= x < n && 0 <= y < n ==>
        modules[x, y] == if 0 <= NumberBit(n, x, y) && (x < 6 || NumberBit(n, x, y) < i)
                         then Module(Lit(test, bits, NumberBit(n, x, y))) else old(modules[x, y])
    {
      modules[i % 3 + n - 8 - 3, i / 3] := Module(Lit(test, bits, i));
    }
  }

  // ---------- The symbol before its data ----------

  function ModuleCount(version: int): (n: int)
    requires 1 <= version <= 40
    ensures Side(n)
  {
    version * 4 + 17
  }

  // The first centre is in the timing row, the last mirrors it, and neighbours
  // keep their distance.
  predicate PositionsOk(version: int)
    requires 1 <= version <= 40
  {
    var pos, n := PatternPosition(version), ModuleCount(version);
    && (version == 1 ==> pos == [])
    && (version > 1 ==> |pos| == version / 7 + 2 && pos[0] == 6 && pos[|pos| - 1] == n - 7)
    && forall i :: 0 < i < |pos| ==> pos[i - 1] + 5 <= pos[i]
  }

  lemma Positions1(version: int)
    requires 1 <= version <= 13
    ensures PositionsOk(version)
  {}

  lemma Positions14(version: int)
    requires 14 <= version <= 27
    ensures PositionsOk(version)
  {}

  lemma Positions28(version: int)
    requires 28 <= version <= 34
    ensures PositionsOk(version)
  {}

  lemma Positions35(version: int)
    requires 35 <= version <= 40
    ensures PositionsOk(version)
  {}

  // The alignment patterns of every version are apart from each other and from
  // the border.
  lemma PositionsSpaced(version: int)
    requires 1 <= version <= 40
    ensures PositionsOk(version) && Spaced(PatternPosition(version), ModuleCount(version))
  {
    if version <= 13 {
      Positions1(version);
    } else if version <= 27 {
      Positions14(version);
    } else if version <= 34 {
      Positions28(version);
    } else {
      Positions35(version);
    }
    hide PatternPosition;
    var pos, n := PatternPosition(version), ModuleCount(version);
    forall i, j | 0 <= i < j < |pos| ensures pos[i] + 5 <= pos[j] {
      Apart(pos, i, j);
    }
    forall i | 0 <= i < |pos| ensures 2 <= pos[i] <= n - 3 {
      if i > 0 { Apart(pos, 0, i); }
      if i < |pos| - 1 { Apart(pos, i, |pos| - 1); }
    }
  }

  lemma {:induction false} Apart(pos: seq<int>, i: nat, j: nat)
    requires i < j < |pos| && forall k :: 0 < k < |pos| ==> pos[k - 1] + 5 <= pos[k]
    ensures pos[i] + 5 <= pos[j]
  {
    if i + 1 < j { Apart(pos, i, j - 1); }
  }

  function Finder(n: int, x: int, y: int): Cell {
    Probed(0, n - 7, x, y, Probed(n - 7, 0, x, y, Probed(0, 0, x, y, Unset)))
  }

  function FinderGrid(n: int): (g: Grid)
    requires n >= 0
    ensures IsGrid(g, n) && forall x, y :: 0 <= x < n && 0 <= y < n ==> g[x][y] == Finder(n, x, y)
  {
    seq(n, x requires 0 <= x < n => seq(n, y requires 0 <= y < n => Finder(n, x, y)))
  }

  // A cell after the finder, alignment and timing patterns.
  function Fixed(version: int, x: int, y: int): Cell
    requires 1 <= version <= 40 && 0 <= x < ModuleCount(version) && 0 <= y < ModuleCount(version)
  {
    PositionsSpaced(version);
    var n := ModuleCount(version);
    Timed(n, x, y, Adjusted(PatternPosition(version), FinderGrid(n), x, y))
  }

  // The words of the symbol: trial or not, format bits, version bits.
  datatype Words = Words(test: bool, info: nat, number: nat)

  function Template(version: int, words: Words): (g: Grid)
    requires 1 <= version <= 40
    ensures IsGrid(g, ModuleCount(version))
    ensures forall x, y :: 0 <= x < ModuleCount(version) && 0 <= y < ModuleCount(version) ==>
      g[x][y] == TemplateCell(version, words, x, y)
  {
    var n := ModuleCount(version);
    seq(n, x requires 0 <= x < n => seq(n, y requires 0 <= y < n => TemplateCell(version, words, x, y)))
  }

  function TemplateCell(version: int, words: Words, x: int, y: int): Cell
    requires 1 <= version <= 40 && 0 <= x < ModuleCount(version) && 0 <= y < ModuleCount(version)
  {
    var n := ModuleCount(version);
    var informed := Informed(n, words.test, words.info, x, y, Fixed(version, x, y));
    if version >= 7 then Numbered(n, words.test, words.number, x, y, informed) else informed
  }

  lemma SameGrid(g: Grid, h: Grid, n: int)
    requires IsGrid(g, n) && IsGrid(h, n) && forall x, y :: 0 <= x < n && 0 <= y < n ==> g[x][y] == h[x][y]
    ensures g == h
  {
    assert forall x :: 0 <= x < n ==> g[x] == h[x];
  }

  // Drawing onto an undecided grid.
  method DrawPatterns(modules: array2<Cell>, version: int, words: Words)
    requires 1 <= version <= 40 && modules.Length0 == modules.Length1 == ModuleCount(version)
    requires forall x, y :: 0 <= x < modules.Length0 && 0 <= y < modules.Length0 ==> modules[x, y] == Unset
    modifies modules
    ensures Snapshot(modules) == Template(version, words)
  {
    hide Probed, Adjusted, Timed, Informed, Numbered, Spaced, PatternPosition;
    var n := modules.Length0;
    PositionsSpaced(version);
    SetupPositionProbePattern(modules, 0, 0);
    SetupPositionProbePattern(modules, n - 7, 0);
    SetupPositionProbePattern(modules, 0, n - 7);
    assert forall x, y :: 0 <= x < n && 0 <= y < n ==> modules[x, y] == Finder(n, x, y);
    SameGrid(Snapshot(modules), FinderGrid(n), n);
    ghost var pos, g := PatternPosition(version), FinderGrid(n);
    SetupPositionAdjustPattern(modules, PatternPosition(version));
    assert forall x, y :: 0 <= x < n && 0 <= y < n ==> modules[x, y] == Adjusted(pos, g, x, y);
    SetupTimingPattern(modules);
    forall x, y | 0 <= x < n && 0 <= y < n ensures modules[x, y] == Fixed(version, x, y) {
      assert Fixed(version, x, y) == Timed(n, x, y, Adjusted(pos, g, x, y));
    }
    SetupTypeInfo(modules, words.test, words.info);
    if version >= 7 {
      SetupTypeNumber(modules, words.test, words.number);
    }
    assert forall x, y :: 0 <= x < n && 0 <= y < n ==> modules[x, y] == TemplateCell(version, words, x, y);
    SameGrid(Snapshot(modules), Template(version, words), n);
  }

  // Which cells are decided does not depend on the words.
  lemma SameFree(version: int, v: Words, w: Words, x: int, y: int)
    requires 1 <= version <= 40 && 0 <= x < ModuleCount(version) && 0 <= y < ModuleCount(version)
    ensures TemplateCell(version, v, x, y).Unset? <==> TemplateCell(version, w, x, y).Unset?
  {
    hide Fixed, Lit;
  }

  // The timing column is complete.
  lemma ColumnSixDecided(version: int, words: Words, x: int)
    requires 1 <= version <= 40 && 0 <= x < ModuleCount(version)
    ensures TemplateCell(version, words, x, 6).Module?
  {
    hide Lit, ProbeDark, AdjustDark, PatternPosition, Spaced;
    PositionsSpaced(version);
    var n := ModuleCount(version);
    assert Finder(n, x, 6).Module? || 8 <= x < n - 8;
    assert Fixed(version, x, 6).Module?;
  }
}
