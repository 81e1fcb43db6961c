/** Every symbol has room: the cells its patterns leave free are those of the
    codewords of the block table and a few remainder bits. */
module SymbolRoom {
  import opened ZigZag
  import opened Patterns
  import opened Codewords
  import opened BlockTable
  import opened FreeCount

  // ---------- The block table fills the symbol ----------

  // The codewords of a symbol: the same at every level.
  function CodewordCount(version: int): nat {
    match version
    case 1 => 26
    case 2 => 44
    case 3 => 70
    case 4 => 100
    case 5 => 134
    case 6 => 172
    case 7 => 196
    case 8 => 242
    case 9 => 292
    case 10 => 346
    case 11 => 404
    case 12 => 466
    case 13 => 532
    case 14 => 581
    case 15 => 655
    case 16 => 733
    case 17 => 815
    case 18 => 901
    case 19 => 991
    case 20 => 1085
    case 21 => 1156
    case 22 => 1258
    case 23 => 1364
    case 24 => 1474
    case 25 => 1588
    case 26 => 1706
    case 27 => 1828
    case 28 => 1921
    case 29 => 2051
    case 30 => 2185
    case 31 => 2323
    case 32 => 2465
    case 33 => 2611
    case 34 => 2761
    case 35 => 2876
    case 36 => 3034
    case 37 => 3196
    case 38 => 3362
    case 39 => 3532
    case _ => 3706
  }

  predicate RowIs(row: seq<Group>, total: nat) {
    || (|row| == 1 && row[0].count * row[0].totalCount == total)
    || (|row| == 2 && row[0].count * row[0].totalCount + row[1].count * row[1].totalCount == total)
  }

  lemma RowLIs(version: int)
    requires 1 <= version <= 40
    ensures RowIs(RowL(version), CodewordCount(version))
  {}

  lemma RowMIs(version: int)
    requires 1 <= version <= 40
    ensures RowIs(RowM(version), CodewordCount(version))
  {}

  lemma RowQIs(version: int)
    requires 1 <= version <= 40
    ensures RowIs(RowQ(version), CodewordCount(version))
  {}

  lemma RowHIs(version: int)
    requires 1 <= version <= 40
    ensures RowIs(RowH(version), CodewordCount(version))
  {}

  lemma RowsAgree(version: int, level: Level)
    requires 1 <= version <= 40
    ensures RowIs(TableRow(version, level).value, CodewordCount(version))
  {
    hide RowL, RowM, RowQ, RowH, CodewordCount, RowIs;
    match level
    case L => RowLIs(version);
    case M => RowMIs(version);
    case Q => RowQIs(version);
    case H => RowHIs(version);
  }

  lemma AlignValue(version: int)
    requires 1 <= version <= 40
    ensures AlignCount(version) ==
      if version == 1 then 0 else if version < 7 then 25 else if version < 14 then 140 else if version < 21 then 305
      else if version < 28 then 520 else if version < 35 then 785 else 1100
  {
    assert AlignTotal(2) == 25 && AlignTotal(3) == 140 && AlignTotal(4) == 305;
    assert AlignTotal(5) == 520 && AlignTotal(6) == 785 && AlignTotal(7) == 1100;
    hide AlignTotal;
    var k := version / 7 + 2;
    assert 2 <= k <= 7;
  }

  // The bits left over when every codeword is placed.
  function Remainder(version: int): nat {
    if 2 <= version <= 6 then 7
    else if 14 <= version <= 20 || 28 <= version <= 34 then 3
    else if 21 <= version <= 27 then 4
    else 0
  }

  // The codewords and the remainder bits take all the free cells.
  lemma CodewordsFill(version: int)
    requires 1 <= version <= 40
    ensures FreeCells(version) == 8 * CodewordCount(version) + Remainder(version)
  {
    AlignValue(version);
    hide AlignCount;
    var n := ModuleCount(version);
    assert PathCells(n) == 16 * version * version + 132 * version + 272;
    hide PathCells;
  }

  lemma {:induction false} TotalAppend(a: seq<RsBlock>, g: Group, m: nat)
    ensures |Repeated(g, m)| == m
    ensures TotalCount(a + Repeated(g, m), |a| + m) == TotalCount(a, |a|) + m * g.totalCount
  {
    if m == 0 {
      assert a + Repeated(g, 0) == a;
    } else {
      TotalAppend(a, g, m - 1);
      var b := a + Repeated(g, m - 1);
      assert a + Repeated(g, m) == b + [RsBlock(g.totalCount, g.dataCount)];
      TotalPrefix(b, a + Repeated(g, m), |b|);
      assert m * g.totalCount == (m - 1) * g.totalCount + g.totalCount;
    }
  }

  lemma {:induction false} TotalPrefix(a: seq<RsBlock>, b: seq<RsBlock>, n: nat)
    requires n <= |a| && n <= |b| && forall i :: 0 <= i < n ==> a[i] == b[i]
    ensures TotalCount(a, n) == TotalCount(b, n)
  {
    if n > 0 { TotalPrefix(a, b, n - 1); }
  }

  lemma TotalIs(version: int, level: Level)
    requires 1 <= version <= 40
    ensures var blocks := RsBlocks(version, level); TotalCount(blocks, |blocks|) == CodewordCount(version)
  {
    hide RowL, RowM, RowQ, RowH, CodewordCount, Repeated;
    RowsAgree(version, level);
    var row := TableRow(version, level).value;
    assert Expanded(row, 0) == [];
    TotalAppend([], row[0], row[0].count);
    assert Expanded(row, 1) == [] + Repeated(row[0], row[0].count);
    if |row| == 2 {
      TotalAppend(Expanded(row, 1), row[1], row[1].count);
    }
  }

  // Whatever the version, the level and the words drawn, the free cells hold
  // every codeword and the remainder bits and no more.
  lemma EveryCodewordFits(version: int, level: Level, words: Words)
    requires 1 <= version <= 40
    ensures var n, blocks := ModuleCount(version), RsBlocks(version, level);
            Free(Template(version, words), n, |Path(n)|) == 8 * TotalCount(blocks, |blocks|) + Remainder(version)
  {
    hide *;
    FreeExact(version, words);
    CodewordsFill(version);
    TotalIs(version, level);
  }
}
