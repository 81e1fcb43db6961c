/** The finished symbol, read from its modules alone: the whole chain from segments
    to modules and back. */
module Symbol {
  import opened Wrappers
  import opened SeqLaws
  import opened Bits
  import opened BitBuffer
  import opened Segments
  import opened QrMath
  import opened Polynomial
  import opened Codewords
  import opened BlockTable
  import opened SymbolData
  import opened ZigZag
  import opened Patterns
  import opened SymbolRoom
  import Bch
  import BitStream

  // What a reader makes of a symbol whose reserved cells, mask, version and
  // level it knows: unmask the free cells in visiting order, cut the bits into
  // codewords, undo the interleaving, parse.
  function ReadSymbol(g: Grid, placed: Grid, version: int, level: Level, pattern: int): Option<seq<Segment>>
    requires 1 <= version <= 40 && 0 <= pattern < 8
    requires IsGrid(g, ModuleCount(version)) && IsGrid(placed, ModuleCount(version))
  {
    var n, blocks := ModuleCount(version), RsBlocks(version, level);
    var bits := Recovered(g, placed, n, pattern, |Path(n)|);
    var codewords := TotalCount(blocks, |blocks|);
    if |bits| < 8 * codewords then None
    else
      var numbers := Packed(bits[..8 * codewords]);
      if |numbers| < Cut(blocks) then None else Parse(ReadBits(numbers, blocks), version)
  }

  // A symbol with room for every codeword reads back as the segments it was
  // made from, whatever the reserved cells and whichever mask was chosen.
  lemma SymbolRoundTrip(g: Grid, placed: Grid, version: int, level: Level, pattern: int,
                        segs: seq<Segment>, data: seq<Slot>)
    requires 1 <= version <= 40 && 0 <= pattern < 8
    requires Expected(version, level, segs) == Codewords(data)
    requires IsPlaced(g, placed, ModuleCount(version), Unpacked(Numbers(data)), pattern)
    requires Free(g, ModuleCount(version), |Path(ModuleCount(version))|) >= 8 * |data|
    ensures ReadSymbol(g, placed, version, level, pattern) == Some(segs)
  {
    hide Expected, PlacedCell, Free, Path, Recovered, Unpacked, Packed;
    hide Parse, ReadBits, Cut, RsBlocks, TotalCount, Numbers, ModuleCount;
    var n := ModuleCount(version);
    var all := Unpacked(Numbers(data));
    RecoveredData(g, placed, n, all, pattern, |Path(n)|);
    ExpectedLength(version, level, segs);
    var bits := Recovered(g, placed, n, pattern, |Path(n)|);
    assert bits[..8 * |data|] == all;
    PackedUnpacked(Numbers(data));
    SymbolReadsBack(version, level, segs);
  }

  lemma ExpectedLength(version: int, level: Level, segs: seq<Segment>)
    requires Expected(version, level, segs).Codewords?
    ensures |Expected(version, level, segs).data| == TotalCount(RsBlocks(version, level), |RsBlocks(version, level)|)
  {
    hide RsBlocks, CodewordSequence, Packed, Filled, TotalCount;
    var blocks := RsBlocks(version, level);
    BlocksOk(version, level);
    UsableMeans(blocks);
    SequenceLength(Packed(Filled(Encoded(segs, |segs|, version), Room(version, level))), blocks);
  }

  lemma SequenceLength(buffer: seq<int>, blocks: seq<RsBlock>)
    requires WellFormed(blocks) && GeneratorsUsable(blocks)
    ensures |CodewordSequence(buffer, blocks)| == TotalCount(blocks, |blocks|)
  {
    BlockTotals(buffer, blocks);
  }

  // The tail of makeImpl: create the codewords and place them.
  method PlaceSegments(math: Tables, modules: array2<Cell>, version: int, level: Level, pattern: int,
                       segs: seq<Segment>)
    returns (outcome: Outcome)
    requires math.Valid() && WritableBytes(segs)
    requires 1 <= version <= 40 && 0 <= pattern < 8
    requires modules.Length0 == modules.Length1 == ModuleCount(version)
    modifies modules
    ensures outcome == Expected(version, level, segs)
    ensures !outcome.Codewords? ==> Snapshot(modules) == old(Snapshot(modules))
    ensures outcome.Codewords? ==>
      IsPlaced(old(Snapshot(modules)), Snapshot(modules), modules.Length0, Unpacked(Numbers(outcome.data)), pattern)
  {
    hide Expected, PlacedCell, Unpacked, Numbers;
    outcome := CreateData(math, version, level, segs);
    if outcome.Codewords? {
      MapData(modules, outcome.data, pattern);
    }
  }

  // ---------- Drawing the whole symbol ----------

  function LevelNumber(level: Level): (k: nat)
    ensures k < 4
  {
    match level
    case L => 1
    case M => 0
    case Q => 3
    case H => 2
  }

  function LevelOf(k: nat): Level
    requires k < 4
  {
    match k
    case 0 => M
    case 1 => L
    case 2 => H
    case _ => Q
  }

  // The format word of a level and mask: without its own mask, the multiple of
  // the generator with these five bits in front.
  ghost predicate IsFormat(info: nat, level: Level, pattern: int)
    requires 0 <= pattern < 8
  {
    var w := Xor(info, Bch.G15_MASK);
    info < 0x8000 && Bch.IsMultiple(w, Bch.G15) && Shr(w, 10) == 8 * LevelNumber(level) + pattern
  }

  ghost predicate IsVersion(number: nat, version: int) {
    number < 0x4_0000 && Bch.IsMultiple(number, Bch.G18) && Shr(number, 12) == version
  }

  // The words of the symbol.  They are determined by level, mask and version.
  method TypeWords(test: bool, version: int, level: Level, pattern: int) returns (words: Words)
    requires 1 <= version <= 40 && 0 <= pattern < 8
    ensures words.test == test && IsFormat(words.info, level, pattern) && IsVersion(words.number, version)
  {
    hide Or, Xor, Shr, Bch.IsMultiple;
    FormatData(LevelNumber(level), pattern);
    var info := Bch.BchTypeInfo(Or(Shl(LevelNumber(level), 3), pattern));
    var number := Bch.BchTypeNumber(version);
    words := Words(test, info, number);
  }

  lemma FormatData(k: nat, pattern: int)
    requires k < 4 && 0 <= pattern < 8
    ensures Or(Shl(k, 3), pattern) == 8 * k + pattern < 32
  {
    assert Pow2(3) == 8;
    assert Shl(k, 3) == 8 * k by { ShlDouble(k, 0); }
    OrShifted(k, pattern, 3);
  }

  // A grid with nothing decided yet, the patterns, and the data.
  method MakeImpl(math: Tables, version: int, level: Level, segs: seq<Segment>, test: bool, pattern: int)
    returns (modules: array2<Cell>, outcome: Outcome, words: Words)
    requires math.Valid() && WritableBytes(segs)
    requires 1 <= version <= 40 && 0 <= pattern < 8
    ensures fresh(modules) && modules.Length0 == modules.Length1 == ModuleCount(version)
    ensures words.test == test && IsFormat(words.info, level, pattern) && IsVersion(words.number, version)
    ensures outcome == Expected(version, level, segs)
    ensures !outcome.Codewords? ==> Snapshot(modules) == Template(version, words)
    ensures outcome.Codewords? ==>
      IsPlaced(Template(version, words), Snapshot(modules), ModuleCount(version),
               Unpacked(Numbers(outcome.data)), pattern)
  {
    hide Expected, IsPlaced, Template, IsFormat, IsVersion, Unpacked, Numbers;
    var n := ModuleCount(version);
    modules := new Cell[n, n]((_, _) => Unset);
    words := TypeWords(test, version, level, pattern);
    DrawPatterns(modules, version, words);
    outcome := PlaceSegments(math, modules, version, level, pattern, segs);
  }

  // ---------- Reading a symbol from its modules ----------

  // Where bit i of the format word stands: a row of column 8, and a column of
  // row 8.
  function VerticalRow(n: int, i: nat): int { if i < 6 then i else if i < 8 then i + 1 else n - 15 + i }

  function HorizontalColumn(n: int, i: nat): int { if i < 8 then n - 1 - i else if i == 8 then 7 else 14 - i }

  function InfoBits(g: Grid, n: int): (bits: seq<bool>)
    requires n >= 21 && IsGrid(g, n)
    ensures |bits| == 15
    ensures forall i :: 0 <= i < 15 ==> bits[i] == (g[VerticalRow(n, i)][8] == Module(true))
  {
    seq(15, i requires 0 <= i < 15 => g[VerticalRow(n, i)][8] == Module(true))
  }

  function InfoCopy(g: Grid, n: int): (bits: seq<bool>)
    requires n >= 21 && IsGrid(g, n)
    ensures |bits| == 15
    ensures forall i :: 0 <= i < 15 ==> bits[i] == (g[8][HorizontalColumn(n, i)] == Module(true))
  {
    seq(15, i requires 0 <= i < 15 => g[8][HorizontalColumn(n, i)] == Module(true))
  }

  // The version word beside the upper right finder, and its mirror image.
  function NumberBits(g: Grid, n: int): (bits: seq<bool>)
    requires n >= 21 && IsGrid(g, n)
    ensures |bits| == 18
    ensures forall i :: 0 <= i < 18 ==> bits[i] == (g[i / 3][n - 11 + i % 3] == Module(true))
  {
    seq(18, i requires 0 <= i < 18 => g[i / 3][n - 11 + i % 3] == Module(true))
  }

  function NumberCopy(g: Grid, n: int): (bits: seq<bool>)
    requires n >= 21 && IsGrid(g, n)
    ensures |bits| == 18
    ensures forall i :: 0 <= i < 18 ==> bits[i] == (g[n - 11 + i % 3][i / 3] == Module(true))
  {
    seq(18, i requires 0 <= i < 18 => g[n - 11 + i % 3][i / 3] == Module(true))
  }

  // Both copies of the version word are there and say the version.
  predicate VersionShown(g: Grid, version: int)
    requires 1 <= version <= 40 && IsGrid(g, ModuleCount(version))
  {
    var n := ModuleCount(version);
    version >= 7 ==>
      NumberBits(g, n) == NumberCopy(g, n) && Shr(BitStream.LowValue(NumberBits(g, n)), 12) == version
  }

  // The side length gives the version, which the version word has to confirm; the
  // two copies of the format word have to agree and give level and mask; and the
  // version gives the cells that carry data.
  function ReadGrid(g: Grid): Option<seq<Segment>> {
    var n := |g|;
    if !(21 <= n <= 177 && n % 4 == 1 && IsGrid(g, n)) then None
    else
      var version := (n - 17) / 4;
      var data := Shr(Xor(BitStream.LowValue(InfoBits(g, n)), Bch.G15_MASK), 10);
      if InfoBits(g, n) != InfoCopy(g, n) || data >= 32 || !VersionShown(g, version) then None
      else ReadSymbol(Template(version, Words(true, 0, 0)), g, version, LevelOf(data / 8), data % 8)
  }

  lemma {:induction false} LowBitsAt(n: nat, len: nat, i: nat)
    requires i < len
    ensures BitStream.LowBits(n, len)[i] == (Shr(n, i) % 2 == 1)
  {
    if i > 0 { LowBitsAt(n / 2, len - 1, i - 1); }
  }

  lemma InfoShown(version: int, words: Words, i: nat)
    requires 1 <= version <= 40 && i < 15 && !words.test
    ensures var n := ModuleCount(version);
            && TemplateCell(version, words, VerticalRow(n, i), 8) == Module(Shr(words.info, i) % 2 == 1)
            && TemplateCell(version, words, 8, HorizontalColumn(n, i)) == Module(Shr(words.info, i) % 2 == 1)
  {
    hide Fixed, Shr;
  }

  lemma NumberShown(version: int, words: Words, i: nat)
    requires 7 <= version <= 40 && i < 18 && !words.test
    ensures var n := ModuleCount(version);
            && TemplateCell(version, words, i / 3, n - 11 + i % 3) == Module(Shr(words.number, i) % 2 == 1)
            && TemplateCell(version, words, n - 11 + i % 3, i / 3) == Module(Shr(words.number, i) % 2 == 1)
  {
    hide Fixed, Shr, Informed;
  }

  lemma PlacedIsGrid(g: Grid, placed: Grid, n: int, bits: seq<bool>, pattern: int)
    requires Side(n) && 0 <= pattern < 8 && IsPlaced(g, placed, n, bits, pattern)
    ensures IsGrid(placed, n)
  {}

  // Placement leaves what the patterns decided.
  lemma StillShown(version: int, words: Words, placed: Grid, bits: seq<bool>, pattern: int, x: int, y: int)
    requires 1 <= version <= 40 && 0 <= pattern < 8
    requires IsPlaced(Template(version, words), placed, ModuleCount(version), bits, pattern)
    requires 0 <= x < ModuleCount(version) && 0 <= y < ModuleCount(version)
    requires TemplateCell(version, words, x, y).Module?
    ensures placed[x][y] == TemplateCell(version, words, x, y)
  {
    hide TemplateCell, Free;
    assert placed[x][y] == PlacedCell(Template(version, words), ModuleCount(version), bits, pattern, (x, y));
  }

  // The placed symbol still shows its format word, twice.
  lemma InfoRead(version: int, words: Words, placed: Grid, bits: seq<bool>, pattern: int)
    requires 1 <= version <= 40 && 0 <= pattern < 8 && !words.test && words.info < 0x8000
    requires IsPlaced(Template(version, words), placed, ModuleCount(version), bits, pattern)
    ensures var n := ModuleCount(version);
            InfoBits(placed, n) == InfoCopy(placed, n) && BitStream.LowValue(InfoBits(placed, n)) == words.info
  {
    hide TemplateCell, Shr, BitStream.LowBits, BitStream.LowValue, PlacedCell, Template;
    var n := ModuleCount(version);
    var shown := BitStream.LowBits(words.info, 15);
    forall i | 0 <= i < 15 ensures InfoBits(placed, n)[i] == shown[i] == InfoCopy(placed, n)[i] {
      InfoShown(version, words, i);
      LowBitsAt(words.info, 15, i);
      StillShown(version, words, placed, bits, pattern, VerticalRow(n, i), 8);
      StillShown(version, words, placed, bits, pattern, 8, HorizontalColumn(n, i));
    }
    assert InfoBits(placed, n) == shown == InfoCopy(placed, n);
    WordSizes();
    BitStream.LowRoundTrip(words.info, 15);
  }

  // And, from version 7 on, its version word, twice.
  lemma NumberBitRead(version: int, words: Words, placed: Grid, bits: seq<bool>, pattern: int, i: nat)
    requires 7 <= version <= 40 && 0 <= pattern < 8 && !words.test && i < 18
    requires IsPlaced(Template(version, words), placed, ModuleCount(version), bits, pattern)
    ensures var n := ModuleCount(version);
            NumberBits(placed, n)[i] == NumberCopy(placed, n)[i] == BitStream.LowBits(words.number, 18)[i]
  {
    hide TemplateCell, Shr, BitStream.LowBits, PlacedCell, Template, IsPlaced;
    var n := ModuleCount(version);
    NumberShown(version, words, i);
    LowBitsAt(words.number, 18, i);
    PlacedIsGrid(Template(version, words), placed, n, bits, pattern);
    StillShown(version, words, placed, bits, pattern, i / 3, n - 11 + i % 3);
    StillShown(version, words, placed, bits, pattern, n - 11 + i % 3, i / 3);
  }

  lemma NumberRead(version: int, words: Words, placed: Grid, bits: seq<bool>, pattern: int)
    requires 1 <= version <= 40 && 0 <= pattern < 8 && !words.test && IsVersion(words.number, version)
    requires IsPlaced(Template(version, words), placed, ModuleCount(version), bits, pattern)
    ensures VersionShown(placed, version)
  {
    hide Shr, BitStream.LowBits, BitStream.LowValue, Template, Bch.IsMultiple, IsPlaced, ModuleCount;
    var n := ModuleCount(version);
    PlacedIsGrid(Template(version, words), placed, n, bits, pattern);
    if version >= 7 {
      var shown := BitStream.LowBits(words.number, 18);
      forall i | 0 <= i < 18 ensures NumberBits(placed, n)[i] == NumberCopy(placed, n)[i] == shown[i] {
        NumberBitRead(version, words, placed, bits, pattern, i);
      }
      assert NumberBits(placed, n) == shown && NumberCopy(placed, n) == shown;
      WordSizes();
      BitStream.LowRoundTrip(words.number, 18);
    }
  }

  lemma WordSizes()
    ensures Pow2(15) == 0x8000 && Pow2(18) == 0x4_0000
  {
    assert Pow2(5) == 32;
    assert Pow2(10) == 32 * Pow2(5);
    assert Pow2(15) == 32 * Pow2(10);
  }

  // What a reader recovers depends on the reserved cells only.
  lemma {:induction false} RecoveredSame(g: Grid, h: Grid, placed: Grid, n: int, pattern: int, i: nat)
    requires Side(n) && IsGrid(g, n) && IsGrid(h, n) && IsGrid(placed, n) && 0 <= pattern < 8 && i <= |Path(n)|
    requires forall x, y :: 0 <= x < n && 0 <= y < n ==> (g[x][y].Unset? <==> h[x][y].Unset?)
    ensures Recovered(g, placed, n, pattern, i) == Recovered(h, placed, n, pattern, i)
  {
    hide Path, Index, Mask;
    if i > 0 {
      RecoveredSame(g, h, placed, n, pattern, i - 1);
      EachVisitOnce(n, i - 1);
    }
  }

  lemma BlankReads(version: int, words: Words, placed: Grid, level: Level, pattern: int)
    requires 1 <= version <= 40 && 0 <= pattern < 8 && IsGrid(placed, ModuleCount(version))
    ensures ReadSymbol(Template(version, Words(true, 0, 0)), placed, version, level, pattern)
         == ReadSymbol(Template(version, words), placed, version, level, pattern)
  {
    var n, blank := ModuleCount(version), Words(true, 0, 0);
    forall x, y | 0 <= x < n && 0 <= y < n
      ensures Template(version, blank)[x][y].Unset? <==> Template(version, words)[x][y].Unset?
    {
      SameFree(version, blank, words, x, y);
    }
    hide Template, TemplateCell, Path, Recovered, Parse, ReadBits, RsBlocks, Packed;
    RecoveredSame(Template(version, blank), Template(version, words), placed, n, pattern, |Path(n)|);
  }

  lemma GridMeans(placed: Grid, version: int, level: Level, pattern: int)
    requires 1 <= version <= 40 && 0 <= pattern < 8 && IsGrid(placed, ModuleCount(version))
    requires IsFormat(BitStream.LowValue(InfoBits(placed, ModuleCount(version))), level, pattern)
    requires InfoBits(placed, ModuleCount(version)) == InfoCopy(placed, ModuleCount(version))
    requires VersionShown(placed, version)
    ensures ReadGrid(placed) == ReadSymbol(Template(version, Words(true, 0, 0)), placed, version, level, pattern)
  {
    hide Template, Xor, Shr, ReadSymbol, Bch.IsMultiple, InfoBits, InfoCopy, VersionShown, BitStream.LowValue;
    assert LevelOf(LevelNumber(level)) == level;
    assert (ModuleCount(version) - 17) / 4 == version;
  }

  // The modules alone give the segments back: for every version, level and mask,
  // with the patterns and the words as drawn and nothing else known.
  lemma SymbolDecodes(version: int, level: Level, pattern: int, words: Words, placed: Grid,
                      segs: seq<Segment>, data: seq<Slot>)
    requires 1 <= version <= 40 && 0 <= pattern < 8
    requires !words.test && IsFormat(words.info, level, pattern) && IsVersion(words.number, version)
    requires Expected(version, level, segs) == Codewords(data)
    requires IsPlaced(Template(version, words), placed, ModuleCount(version), Unpacked(Numbers(data)), pattern)
    ensures ReadGrid(placed) == Some(segs)
  {
    hide Expected, Template, IsPlaced, Unpacked, Numbers, Free, Path;
    hide ReadSymbol, ReadGrid, InfoBits, InfoCopy, VersionShown, BitStream.LowValue, ModuleCount;
    var n := ModuleCount(version);
    PlacedIsGrid(Template(version, words), placed, n, Unpacked(Numbers(data)), pattern);
    EveryCodewordFits(version, level, words);
    ExpectedLength(version, level, segs);
    SymbolRoundTrip(Template(version, words), placed, version, level, pattern, segs, data);
    InfoRead(version, words, placed, Unpacked(Numbers(data)), pattern);
    NumberRead(version, words, placed, Unpacked(Numbers(data)), pattern);
    BlankReads(version, words, placed, level, pattern);
    GridMeans(placed, version, level, pattern);
  }

  lemma WhenCodewords(version: int, level: Level, segs: seq<Segment>)
    requires 1 <= version <= 40
    ensures var r := Expected(version, level, segs);
            && !r.UnknownVersion? && (r.IllegalCharacter? <==> !AllLegal(segs))
            && (r.Codewords? <==> AllLegal(segs) && FitsVersion(segs, version, level))
  {
    hide RsBlocks, BlockTable.Capacity, Encoded, CodewordSequence, Packed, Filled;
  }

  lemma AllPlaced(version: int, words: Words, placed: Grid, bits: seq<bool>, pattern: int)
    requires 1 <= version <= 40 && 0 <= pattern < 8
    requires IsPlaced(Template(version, words), placed, ModuleCount(version), bits, pattern)
    ensures IsGrid(placed, ModuleCount(version))
    ensures forall x, y :: 0 <= x < ModuleCount(version) && 0 <= y < ModuleCount(version) ==> placed[x][y].Module?
  {
    hide TemplateCell, PlacedCell;
    var n, g: Grid := ModuleCount(version), Template(version, words);
    forall x: int | 0 <= x < n ensures g[x][6].Module? {
      ColumnSixDecided(version, words, x);
    }
    AllDecided(g, placed, n, bits, pattern);
  }
}
