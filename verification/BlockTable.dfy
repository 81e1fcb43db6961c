/** The block structure of every version and error correction level, as the
    table of the encoder lists it (table 9 of ISO/IEC 18004:2015). */
module BlockTable {
  import opened Wrappers
  import opened Interleave
  import opened Codewords

  datatype Level = L | M | Q | H

  // `count` blocks of `totalCount` codewords each, `dataCount` of them data.
  datatype Group = Group(count: nat, totalCount: nat, dataCount: nat)

  function RowL(version: int): seq<Group> {
    match version
    case 1 => [Group(1, 26, 19)]
    case 2 => [Group(1, 44, 34)]
    case 3 => [Group(1, 70, 55)]
    case 4 => [Group(1, 100, 80)]
    case 5 => [Group(1, 134, 108)]
    case 6 => [Group(2, 86, 68)]
    case 7 => [Group(2, 98, 78)]
    case 8 => [Group(2, 121, 97)]
    case 9 => [Group(2, 146, 116)]
    case 10 => [Group(2, 86, 68), Group(2, 87, 69)]
    case 11 => [Group(4, 101, 81)]
    case 12 => [Group(2, 116, 92), Group(2, 117, 93)]
    case 13 => [Group(4, 133, 107)]
    case 14 => [Group(3, 145, 115), Group(1, 146, 116)]
    case 15 => [Group(5, 109, 87), Group(1, 110, 88)]
    case 16 => [Group(5, 122, 98), Group(1, 123, 99)]
    case 17 => [Group(1, 135, 107), Group(5, 136, 108)]
    case 18 => [Group(5, 150, 120), Group(1, 151, 121)]
    case 19 => [Group(3, 141, 113), Group(4, 142, 114)]
    case 20 => [Group(3, 135, 107), Group(5, 136, 108)]
    case 21 => [Group(4, 144, 116), Group(4, 145, 117)]
    case 22 => [Group(2, 139, 111), Group(7, 140, 112)]
    case 23 => [Group(4, 151, 121), Group(5, 152, 122)]
    case 24 => [Group(6, 147, 117), Group(4, 148, 118)]
    case 25 => [Group(8, 132, 106), Group(4, 133, 107)]
    case 26 => [Group(10, 142, 114), Group(2, 143, 115)]
    case 27 => [Group(8, 152, 122), Group(4, 153, 123)]
    case 28 => [Group(3, 147, 117), Group(10, 148, 118)]
    case 29 => [Group(7, 146, 116), Group(7, 147, 117)]
    case 30 => [Group(5, 145, 115), Group(10, 146, 116)]
    case 31 => [Group(13, 145, 115), Group(3, 146, 116)]
    case 32 => [Group(17, 145, 115)]
    case 33 => [Group(17, 145, 115), Group(1, 146, 116)]
    case 34 => [Group(13, 145, 115), Group(6, 146, 116)]
    case 35 => [Group(12, 151, 121), Group(7, 152, 122)]
    case 36 => [Group(6, 151, 121), Group(14, 152, 122)]
    case 37 => [Group(17, 152, 122), Group(4, 153, 123)]
    case 38 => [Group(4, 152, 122), Group(18, 153, 123)]
    case 39 => [Group(20, 147, 117), Group(4, 148, 118)]
    case 40 => [Group(19, 148, 118), Group(6, 149, 119)]
    case _ => []
  }

  function RowM(version: int): seq<Group> {
    match version
    case 1 => [Group(1, 26, 16)]
    case 2 => [Group(1, 44, 28)]
    case 3 => [Group(1, 70, 44)]
    case 4 => [Group(2, 50, 32)]
    case 5 => [Group(2, 67, 43)]
    case 6 => [Group(4, 43, 27)]
    case 7 => [Group(4, 49, 31)]
    case 8 => [Group(2, 60, 38), Group(2, 61, 39)]
    case 9 => [Group(3, 58, 36), Group(2, 59, 37)]
    case 10 => [Group(4, 69, 43), Group(1, 70, 44)]
    case 11 => [Group(1, 80, 50), Group(4, 81, 51)]
    case 12 => [Group(6, 58, 36), Group(2, 59, 37)]
    case 13 => [Group(8, 59, 37), Group(1, 60, 38)]
    case 14 => [Group(4, 64, 40), Group(5, 65, 41)]
    case 15 => [Group(5, 65, 41), Group(5, 66, 42)]
    case 16 => [Group(7, 73, 45), Group(3, 74, 46)]
    case 17 => [Group(10, 74, 46), Group(1, 75, 47)]
    case 18 => [Group(9, 69, 43), Group(4, 70, 44)]
    case 19 => [Group(3, 70, 44), Group(11, 71, 45)]
    case 20 => [Group(3, 67, 41), Group(13, 68, 42)]
    case 21 => [Group(17, 68, 42)]
    case 22 => [Group(17, 74, 46)]
    case 23 => [Group(4, 75, 47), Group(14, 76, 48)]
    case 24 => [Group(6, 73, 45), Group(14, 74, 46)]
    case 25 => [Group(8, 75, 47), Group(13, 76, 48)]
    case 26 => [Group(19, 74, 46), Group(4, 75, 47)]
    case 27 => [Group(22, 73, 45), Group(3, 74, 46)]
    case 28 => [Group(3, 73, 45), Group(23, 74, 46)]
    case 29 => [Group(21, 73, 45), Group(7, 74, 46)]
    case 30 => [Group(19, 75, 47), Group(10, 76, 48)]
    case 31 => [Group(2, 74, 46), Group(29, 75, 47)]
    case 32 => [Group(10, 74, 46), Group(23, 75, 47)]
    case 33 => [Group(14, 74, 46), Group(21, 75, 47)]
    case 34 => [Group(14, 74, 46), Group(23, 75, 47)]
    case 35 => [Group(12, 75, 47), Group(26, 76, 48)]
    case 36 => [Group(6, 75, 47), Group(34, 76, 48)]
    case 37 => [Group(29, 74, 46), Group(14, 75, 47)]
    case 38 => [Group(13, 74, 46), Group(32, 75, 47)]
    case 39 => [Group(40, 75, 47), Group(7, 76, 48)]
    case 40 => [Group(18, 75, 47), Group(31, 76, 48)]
    case _ => []
  }

  function RowQ(version: int): seq<Group> {
    match version
    case 1 => [Group(1, 26, 13)]
    case 2 => [Group(1, 44, 22)]
    case 3 => [Group(2, 35, 17)]
    case 4 => [Group(2, 50, 24)]
    case 5 => [Group(2, 33, 15), Group(2, 34, 16)]
    case 6 => [Group(4, 43, 19)]
    case 7 => [Group(2, 32, 14), Group(4, 33, 15)]
    case 8 => [Group(4, 40, 18), Group(2, 41, 19)]
    case 9 => [Group(4, 36, 16), Group(4, 37, 17)]
    case 10 => [Group(6, 43, 19), Group(2, 44, 20)]
    case 11 => [Group(4, 50, 22), Group(4, 51, 23)]
    case 12 => [Group(4, 46, 20), Group(6, 47, 21)]
    case 13 => [Group(8, 44, 20), Group(4, 45, 21)]
    case 14 => [Group(11, 36, 16), Group(5, 37, 17)]
    case 15 => [Group(5, 54, 24), Group(7, 55, 25)]
    case 16 => [Group(15, 43, 19), Group(2, 44, 20)]
    case 17 => [Group(1, 50, 22), Group(15, 51, 23)]
    case 18 => [Group(17, 50, 22), Group(1, 51, 23)]
    case 19 => [Group(17, 47, 21), Group(4, 48, 22)]
    case 20 => [Group(15, 54, 24), Group(5, 55, 25)]
    case 21 => [Group(17, 50, 22), Group(6, 51, 23)]
    case 22 => [Group(7, 54, 24), Group(16, 55, 25)]
    case 23 => [Group(11, 54, 24), Group(14, 55, 25)]
    case 24 => [Group(11, 54, 24), Group(16, 55, 25)]
    case 25 => [Group(7, 54, 24), Group(22, 55, 25)]
    case 26 => [Group(28, 50, 22), Group(6, 51, 23)]
    case 27 => [Group(8, 53, 23), Group(26, 54, 24)]
    case 28 => [Group(4, 54, 24), Group(31, 55, 25)]
    case 29 => [Group(1, 53, 23), Group(37, 54, 24)]
    case 30 => [Group(15, 54, 24), Group(25, 55, 25)]
    case 31 => [Group(42, 54, 24), Group(1, 55, 25)]
    case 32 => [Group(10, 54, 24), Group(35, 55, 25)]
    case 33 => [Group(29, 54, 24), Group(19, 55, 25)]
    case 34 => [Group(44, 54, 24), Group(7, 55, 25)]
    case 35 => [Group(39, 54, 24), Group(14, 55, 25)]
    case 36 => [Group(46, 54, 24), Group(10, 55, 25)]
    case 37 => [Group(49, 54, 24), Group(10, 55, 25)]
    case 38 => [Group(48, 54, 24), Group(14, 55, 25)]
    case 39 => [Group(43, 54, 24), Group(22, 55, 25)]
    case 40 => [Group(34, 54, 24), Group(34, 55, 25)]
    case _ => []
  }

  function RowH(version: int): seq<Group> {
    match version
    case 1 => [Group(1, 26, 9)]
    case 2 => [Group(1, 44, 16)]
    case 3 => [Group(2, 35, 13)]
    case 4 => [Group(4, 25, 9)]
    case 5 => [Group(2, 33, 11), Group(2, 34, 12)]
    case 6 => [Group(4, 43, 15)]
    case 7 => [Group(4, 39, 13), Group(1, 40, 14)]
    case 8 => [Group(4, 40, 14), Group(2, 41, 15)]
    case 9 => [Group(4, 36, 12), Group(4, 37, 13)]
    case 10 => [Group(6, 43, 15), Group(2, 44, 16)]
    case 11 => [Group(3, 36, 12), Group(8, 37, 13)]
    case 12 => [Group(7, 42, 14), Group(4, 43, 15)]
    case 13 => [Group(12, 33, 11), Group(4, 34, 12)]
    case 14 => [Group(11, 36, 12), Group(5, 37, 13)]
    case 15 => [Group(11, 36, 12), Group(7, 37, 13)]
    case 16 => [Group(3, 45, 15), Group(13, 46, 16)]
    case 17 => [Group(2, 42, 14), Group(17, 43, 15)]
    case 18 => [Group(2, 42, 14), Group(19, 43, 15)]
    case 19 => [Group(9, 39, 13), Group(16, 40, 14)]
    case 20 => [Group(15, 43, 15), Group(10, 44, 16)]
    case 21 => [Group(19, 46, 16), Group(6, 47, 17)]
    case 22 => [Group(34, 37, 13)]
    case 23 => [Group(16, 45, 15), Group(14, 46, 16)]
    case 24 => [Group(30, 46, 16), Group(2, 47, 17)]
    case 25 => [Group(22, 45, 15), Group(13, 46, 16)]
    case 26 => [Group(33, 46, 16), Group(4, 47, 17)]
    case 27 => [Group(12, 45, 15), Group(28, 46, 16)]
    case 28 => [Group(11, 45, 15), Group(31, 46, 16)]
    case 29 => [Group(19, 45, 15), Group(26, 46, 16)]
    case 30 => [Group(23, 45, 15), Group(25, 46, 16)]
    case 31 => [Group(23, 45, 15), Group(28, 46, 16)]
    case 32 => [Group(19, 45, 15), Group(35, 46, 16)]
    case 33 => [Group(11, 45, 15), Group(46, 46, 16)]
    case 34 => [Group(59, 46, 16), Group(1, 47, 17)]
    case 35 => [Group(22, 45, 15), Group(41, 46, 16)]
    case 36 => [Group(2, 45, 15), Group(64, 46, 16)]
    case 37 => [Group(24, 45, 15), Group(46, 46, 16)]
    case 38 => [Group(42, 45, 15), Group(32, 46, 16)]
    case 39 => [Group(10, 45, 15), Group(67, 46, 16)]
    case 40 => [Group(20, 45, 15), Group(61, 46, 16)]
    case _ => []
  }

  // None where the source throws for an unknown version.
  function TableRow(version: int, level: Level): Option<seq<Group>> {
    if 1 <= version <= 40 then
      Some(match level
           case L => RowL(version)
           case M => RowM(version)
           case Q => RowQ(version)
           case H => RowH(version))
    else None
  }

  // The largest data capacity, in bytes, of any level of the version.
  function LargestCapacity(version: int): nat {
    if version < 10 then 232 else if version < 27 then 1370 else 2956
  }

  predicate GroupOk(g: Group) { g.dataCount <= g.totalCount < g.dataCount + 255 && g.totalCount <= 255 }

  // Every row has one or two groups, each with a usable generator, and stays
  // within the version's capacity.
  predicate RowOk(row: seq<Group>, version: int) {
    || (|row| == 1 && GroupOk(row[0]) && row[0].count * row[0].dataCount <= LargestCapacity(version))
    || (|row| == 2 && GroupOk(row[0]) && GroupOk(row[1])
        && row[0].count * row[0].dataCount + row[1].count * row[1].dataCount <= LargestCapacity(version))
  }

  lemma RowLOk(version: int)
    requires 1 <= version <= 40
    ensures RowOk(RowL(version), version)
  {}

  lemma RowMOk(version: int)
    requires 1 <= version <= 40
    ensures RowOk(RowM(version), version)
  {}

  lemma RowQOk(version: int)
    requires 1 <= version <= 40
    ensures RowOk(RowQ(version), version)
  {}

  lemma RowHOk(version: int)
    requires 1 <= version <= 40
    ensures RowOk(RowH(version), version)
  {}

  lemma TableOk(version: int, level: Level)
    requires 1 <= version <= 40
    ensures RowOk(TableRow(version, level).value, version)
  {
    hide RowL, RowM, RowQ, RowH, RowOk;
    match level
    case L => RowLOk(version);
    case M => RowMOk(version);
    case Q => RowQOk(version);
    case H => RowHOk(version);
  }

  function Repeated(g: Group, n: nat): seq<RsBlock> {
    if n == 0 then [] else Repeated(g, n - 1) + [RsBlock(g.totalCount, g.dataCount)]
  }

  // The first n groups, each written out block by block.
  function Expanded(row: seq<Group>, n: nat): seq<RsBlock>
    requires n <= |row|
  {
    if n == 0 then [] else Expanded(row, n - 1) + Repeated(row[n - 1], row[n - 1].count)
  }

  function RsBlocks(version: int, level: Level): seq<RsBlock>
    requires 1 <= version <= 40
  {
    var row := TableRow(version, level).value;
    Expanded(row, |row|)
  }

  method GetRsBlocks(version: int, level: Level) returns (list: Option<seq<RsBlock>>)
    ensures list == if 1 <= version <= 40 then Some(RsBlocks(version, level)) else None
  {
    hide RowL, RowM, RowQ, RowH;
    var rsBlock := TableRow(version, level);
    if rsBlock.None? {
      return None;
    }
    var blocks: seq<RsBlock> := [];
    for i := 0 to |rsBlock.value|
      invariant blocks == Expanded(rsBlock.value, i)
    {
      var g := rsBlock.value[i];
      ghost var before := blocks;
      for j := 0 to g.count
        invariant blocks == before + Repeated(g, j)
      {
        blocks := blocks + [RsBlock(g.totalCount, g.dataCount)];
      }
    }
    list := Some(blocks);
  }

  function Capacity(blocks: seq<RsBlock>): nat { SumOf(DataCounts(blocks), |blocks|) }

  lemma {:induction false} CapacityAppend(a: seq<RsBlock>, b: RsBlock)
    ensures Capacity(a + [b]) == Capacity(a) + b.dataCount
  {
    SumOfPrefix(DataCounts(a), DataCounts(a + [b]), |a|);
  }

  lemma {:induction false} SumOfPrefix(s: seq<nat>, t: seq<nat>, n: nat)
    requires n <= |s| && n <= |t| && forall i :: 0 <= i < n ==> s[i] == t[i]
    ensures SumOf(s, n) == SumOf(t, n)
  {
    if n > 0 {
      SumOfPrefix(s, t, n - 1);
    }
  }

  // No block is longer than the field has nonzero elements.
  ghost predicate Usable(blocks: seq<RsBlock>) {
    && WellFormed(blocks) && GeneratorsUsable(blocks)
    && forall r :: 0 <= r < |blocks| ==> blocks[r].totalCount <= 255
  }

  lemma {:induction false} RepeatedOk(a: seq<RsBlock>, g: Group, n: nat)
    requires GroupOk(g) && Usable(a)
    ensures Usable(a + Repeated(g, n))
    ensures Capacity(a + Repeated(g, n)) == Capacity(a) + n * g.dataCount
  {
    if n == 0 {
      assert a + Repeated(g, 0) == a;
    } else {
      RepeatedOk(a, g, n - 1);
      var b := a + Repeated(g, n - 1);
      var x := RsBlock(g.totalCount, g.dataCount);
      assert a + Repeated(g, n) == b + [x];
      CapacityAppend(b, x);
      assert n * g.dataCount == (n - 1) * g.dataCount + g.dataCount;
    }
  }

  // The data bytes of a row.
  function RowData(row: seq<Group>): nat {
    if |row| == 0 then 0
    else if |row| == 1 then row[0].count * row[0].dataCount
    else row[0].count * row[0].dataCount + row[1].count * row[1].dataCount
  }

  lemma RowExpanded(version: int, level: Level)
    requires 1 <= version <= 40
    ensures Usable(RsBlocks(version, level))
    ensures Capacity(RsBlocks(version, level)) == RowData(TableRow(version, level).value)
  {
    hide RowL, RowM, RowQ, RowH, Repeated, Usable, Capacity;
    TableOk(version, level);
    var row := TableRow(version, level).value;
    NoBlocksOk();
    RepeatedOk([], row[0], row[0].count);
    assert Expanded(row, 0) == [];
    assert Expanded(row, 1) == [] + Repeated(row[0], row[0].count);
    if |row| == 2 {
      RepeatedOk(Expanded(row, 1), row[1], row[1].count);
    }
  }

  lemma LessThanL(version: int)
    requires 1 <= version <= 40
    ensures RowData(RowM(version)) < RowData(RowL(version))
  {}

  lemma LessThanM(version: int)
    requires 1 <= version <= 40
    ensures RowData(RowQ(version)) < RowData(RowM(version))
  {}

  lemma LessThanQ(version: int)
    requires 1 <= version <= 40
    ensures RowData(RowH(version)) < RowData(RowQ(version))
  {}

  // The higher the level the less data, in every version.
  lemma LevelsOrdered(version: int)
    requires 1 <= version <= 40
    ensures Capacity(RsBlocks(version, H)) < Capacity(RsBlocks(version, Q))
          < Capacity(RsBlocks(version, M)) < Capacity(RsBlocks(version, L))
  {
    hide RowL, RowM, RowQ, RowH, RowData, RsBlocks, Capacity;
    RowExpanded(version, L);
    RowExpanded(version, M);
    RowExpanded(version, Q);
    RowExpanded(version, H);
    LessThanL(version);
    LessThanM(version);
    LessThanQ(version);
  }

  // For every version and level: block counts are consistent, every generator
  // is usable, and the data capacity respects the version's bound.
  lemma BlocksOk(version: int, level: Level)
    requires 1 <= version <= 40
    ensures Usable(RsBlocks(version, level))
    ensures Capacity(RsBlocks(version, level)) <= LargestCapacity(version)
  {
    hide RowL, RowM, RowQ, RowH, Usable, Capacity, RsBlocks;
    TableOk(version, level);
    RowExpanded(version, level);
  }

  lemma NoBlocksOk()
    ensures Usable([]) && Capacity([]) == 0
  {}
}
