/** Check bytes for each block and the interleaved codeword sequence: the
    encoder's `createBytes` (sections 7.5.2 and 7.6 of ISO/IEC 18004:2015). */
module Codewords {
  import opened Wrappers
  import opened SeqLaws
  import opened Galois
  import opened Coefficients
  import opened QrMath
  import opened Polynomial
  import opened Generators
  import opened Interleave

  datatype RsBlock = RsBlock(totalCount: nat, dataCount: nat)

  // ---------- Check bytes of one block ----------

  // The block's data bytes followed by room for n check bytes.
  ghost function RawPoly(dc: seq<bv8>, n: nat): seq<Slot> { Normalized(Bytes(dc), n) }

  // The remainder, aligned right in the n check slots; slots in front of it
  // are zero.
  function Aligned(r: seq<Slot>, n: nat): (ec: seq<Slot>)
    requires |r| <= n
    ensures |ec| == n
  {
    seq(n, i requires 0 <= i < n => if i + |r| - n >= 0 then r[i + |r| - n] else Byte(0))
  }

  lemma RawPolyReducible(dc: seq<bv8>, n: nat)
    ensures Reducible(RawPoly(dc, n), n)
    ensures |RawPoly(dc, n)| <= |dc| + n
    ensures Padded(RawPoly(dc, n), |dc| + n) == dc + Zeros(n)
  {
    hide LeadingZeros;
    var b := Bytes(dc);
    var d := LeadingZeros(b);
    var raw := RawPoly(dc, n);
    assert raw == b[d..] + seq(n, _ => Hole);
    RawValues(dc, d, n);
  }

  lemma RawValues(dc: seq<bv8>, d: nat, n: nat)
    requires d <= |dc| && forall i :: 0 <= i < d ==> dc[i] == 0
    ensures Zeros(d) + Values(Bytes(dc)[d..] + seq(n, _ => Hole)) == dc + Zeros(n)
  {
    hide Zeros;
  }

  // Data followed by check bytes is a multiple of the generator, whatever the
  // data, and so vanishes at each of the generator's roots.
  lemma CheckedWord(dc: seq<bv8>, n: nat)
    requires n < 255
    ensures GeneratorNonzero(n) && Reducible(RawPoly(dc, n), n)
    ensures var r := Remainder(RawPoly(dc, n), Bytes(Generator(n)));
            && |r| <= n
            && IsMultiple(dc + Values(Aligned(r, n)), Generator(n))
            && forall k :: 0 <= k < n ==> Eval(dc + Values(Aligned(r, n)), k) == 0
  {
    hide Product, Eval, Remainder, RawPoly, Add;
    GeneratorNonzeroBelow(n);
    var g := Bytes(Generator(n));
    var p := RawPoly(dc, n);
    RawPolyReducible(dc, n);
    RemainderShort(p, g);
    var r := Remainder(p, g);
    var q := RemainderCongruent(p, g, |dc| + n);
    assert Values(g) == Generator(n);
    AlignedIsPadded(r, n, |dc|);
    AppendedRemainder(dc, r, n);
    var word := dc + Values(Aligned(r, n));
    assert word == Product(q, Generator(n));
    forall k | 0 <= k < n ensures Eval(word, k) == 0 {
      GeneratorRoots(n, k);
      RootOfProduct(q, Generator(n), k);
    }
  }

  lemma AlignedIsPadded(r: seq<Slot>, n: nat, m: nat)
    requires |r| <= n
    ensures Padded(r, m + n) == Zeros(m) + Values(Aligned(r, n))
  {
    assert Padded(r, m + n) == Zeros(m + n - |r|) + Values(r);
  }

  lemma AppendedRemainder(dc: seq<bv8>, r: seq<Slot>, n: nat)
    requires |r| <= n
    ensures Sum(dc + Zeros(n), Zeros(|dc|) + Values(Aligned(r, n))) == dc + Values(Aligned(r, n))
  {
    hide Add;
    var check := Values(Aligned(r, n));
    SumZeros(dc);
    SumZeros(check);
    forall i | 0 <= i < |dc| + n
      ensures Sum(dc + Zeros(n), Zeros(|dc|) + check)[i] == (dc + check)[i]
    {
      if i < |dc| {
        assert Sum(dc, Zeros(|dc|))[i] == dc[i];
      } else {
        assert Sum(Zeros(n), check)[i - |dc|] == check[i - |dc|];
      }
    }
  }

  // ---------- All blocks ----------

  function DataCounts(blocks: seq<RsBlock>): (lens: seq<nat>)
    ensures |lens| == |blocks| && forall r :: 0 <= r < |lens| ==> lens[r] == blocks[r].dataCount
  {
    seq(|blocks|, r requires 0 <= r < |blocks| => blocks[r].dataCount)
  }

  predicate WellFormed(blocks: seq<RsBlock>) {
    forall r :: 0 <= r < |blocks| ==> blocks[r].dataCount <= blocks[r].totalCount
  }

  function CheckCounts(blocks: seq<RsBlock>): (lens: seq<nat>)
    requires WellFormed(blocks)
    ensures |lens| == |blocks|
    ensures forall r :: 0 <= r < |lens| ==> lens[r] == blocks[r].totalCount - blocks[r].dataCount
  {
    seq(|blocks|, r requires 0 <= r < |blocks| => blocks[r].totalCount - blocks[r].dataCount)
  }

  function TotalCount(blocks: seq<RsBlock>, n: nat): nat
    requires n <= |blocks|
  {
    if n == 0 then 0 else TotalCount(blocks, n - 1) + blocks[n - 1].totalCount
  }

  lemma {:induction false} TotalIsDataPlusCheck(blocks: seq<RsBlock>, n: nat)
    requires WellFormed(blocks) && n <= |blocks|
    ensures TotalCount(blocks, n) == SumOf(DataCounts(blocks), n) + SumOf(CheckCounts(blocks), n)
  {
    if n > 0 {
      TotalIsDataPlusCheck(blocks, n - 1);
    }
  }

  // The largest of the first n counts.
  function Widest(lens: seq<nat>, n: nat): (m: nat)
    requires n <= |lens|
    ensures forall r :: 0 <= r < n ==> lens[r] <= m
  {
    if n == 0 then 0
    else
      var m := Widest(lens, n - 1);
      if m < lens[n - 1] then lens[n - 1] else m
  }

  function WidestData(blocks: seq<RsBlock>): (m: nat)
    ensures Bounds(DataCounts(blocks), m)
  {
    Widest(DataCounts(blocks), |blocks|)
  }

  function WidestCheck(blocks: seq<RsBlock>): (m: nat)
    requires WellFormed(blocks)
    ensures Bounds(CheckCounts(blocks), m)
  {
    Widest(CheckCounts(blocks), |blocks|)
  }

  // Buffer byte i, read as zero past the end.
  function BufferByte(buffer: seq<int>, i: nat): bv8 {
    if i < |buffer| then (buffer[i] % 256) as bv8 else 0
  }

  // The slice of the buffer that becomes block r's data.
  function BlockData(buffer: seq<int>, blocks: seq<RsBlock>, r: nat): (dc: seq<bv8>)
    requires r < |blocks|
    ensures |dc| == blocks[r].dataCount
    ensures forall i :: 0 <= i < |dc| ==> dc[i] == BufferByte(buffer, i + SumOf(DataCounts(blocks), r))
  {
    var offset := SumOf(DataCounts(blocks), r);
    seq(blocks[r].dataCount, i requires 0 <= i => BufferByte(buffer, i + offset))
  }

  // Block r's check slots.
  ghost function BlockCheck(dc: seq<bv8>, n: nat): (ec: seq<Slot>)
    requires n < 255
    ensures |ec| == n
  {
    CheckedWord(dc, n);
    Aligned(Remainder(RawPoly(dc, n), Bytes(Generator(n))), n)
  }

  // No block asks for so many check bytes that its generator has a zero
  // coefficient, on which the division would throw.
  predicate GeneratorsUsable(blocks: seq<RsBlock>) {
    forall r :: 0 <= r < |blocks| ==> blocks[r].totalCount < blocks[r].dataCount + 255
  }

  ghost function DataBlocks(buffer: seq<int>, blocks: seq<RsBlock>): (b: seq<seq<Slot>>)
    ensures |b| == |blocks|
    ensures forall r :: 0 <= r < |b| ==> b[r] == Bytes(BlockData(buffer, blocks, r))
  {
    seq(|blocks|, r requires 0 <= r < |blocks| => Bytes(BlockData(buffer, blocks, r)))
  }

  ghost function CheckBlocks(buffer: seq<int>, blocks: seq<RsBlock>): (b: seq<seq<Slot>>)
    requires WellFormed(blocks) && GeneratorsUsable(blocks)
    ensures |b| == |blocks|
    ensures forall r :: 0 <= r < |b| ==>
      b[r] == BlockCheck(BlockData(buffer, blocks, r), CheckCounts(blocks)[r])
  {
    seq(|blocks|, r requires 0 <= r < |blocks| => BlockCheck(BlockData(buffer, blocks, r), CheckCounts(blocks)[r]))
  }

  method CheckSlots(math: Tables, dc: seq<bv8>, n: nat) returns (ec: seq<Slot>)
    requires math.Valid()
    requires n < 255
    ensures ec == BlockCheck(dc, n)
  {
    hide Product, Remainder, Normalized, Eval, Reducible, AllNonzero, Generator, Bytes, Values;
    GeneratorNonzeroBelow(n);
    var rsPoly := ErrorCorrectPolynomial(math, n);
    var rawPoly := NewPolynomial(Bytes(dc), |rsPoly.value| - 1);
    RawPolyReducible(dc, n);
    var modPoly := Mod(math, rawPoly, rsPoly.value);
    CheckedWord(dc, n);
    var slots := new Slot[n](_ => Hole);
    for i := 0 to n
      invariant forall j :: 0 <= j < i ==> slots[j] == Aligned(modPoly, n)[j]
    {
      var modIndex := i + |modPoly| - n;
      slots[i] := if modIndex >= 0 then modPoly[modIndex] else Byte(0);
    }
    ec := slots[..];
  }

  // The first loop: data and check blocks, and the two largest counts.
  method ComputeBlocks(math: Tables, buffer: seq<int>, blocks: seq<RsBlock>)
    returns (dcdata: seq<seq<Slot>>, ecdata: seq<seq<Slot>>, maxDcCount: nat, maxEcCount: nat)
    requires math.Valid()
    requires WellFormed(blocks) && GeneratorsUsable(blocks)
    ensures maxDcCount == WidestData(blocks) && maxEcCount == WidestCheck(blocks)
    ensures dcdata == DataBlocks(buffer, blocks) && ecdata == CheckBlocks(buffer, blocks)
  {
    hide DataBlocks, CheckBlocks, DataCounts, CheckCounts, BlockCheck, BlockData;
    var offset := 0;
    maxDcCount, maxEcCount := 0, 0;
    dcdata, ecdata := [], [];
    for r := 0 to |blocks|
      invariant offset == SumOf(DataCounts(blocks), r)
      invariant maxDcCount == Widest(DataCounts(blocks), r)
      invariant maxEcCount == Widest(CheckCounts(blocks), r)
      invariant |dcdata| == r && forall k :: 0 <= k < r ==> dcdata[k] == DataBlocks(buffer, blocks)[k]
      invariant |ecdata| == r && forall k :: 0 <= k < r ==> ecdata[k] == CheckBlocks(buffer, blocks)[k]
    {
      var dcCount := blocks[r].dataCount;
      var ecCount := blocks[r].totalCount - dcCount;
      maxDcCount := if maxDcCount < dcCount then dcCount else maxDcCount;
      maxEcCount := if maxEcCount < ecCount then ecCount else maxEcCount;
      var dc := CopyData(buffer, blocks, r, offset);
      offset := offset + dcCount;
      assert ecCount == CheckCounts(blocks)[r];
      var ec := CheckSlots(math, dc, ecCount);
      dcdata := dcdata + [Bytes(dc)];
      ecdata := ecdata + [ec];
    }
  }

  method CopyData(buffer: seq<int>, blocks: seq<RsBlock>, r: nat, offset: nat) returns (dc: seq<bv8>)
    requires r < |blocks| && offset == SumOf(DataCounts(blocks), r)
    ensures dc == BlockData(buffer, blocks, r)
  {
    var bytes := new bv8[blocks[r].dataCount](_ => 0);
    for i := 0 to bytes.Length
      invariant forall j :: 0 <= j < i ==> bytes[j] == BufferByte(buffer, j + offset)
    {
      bytes[i] := BufferByte(buffer, i + offset);
    }
    dc := bytes[..];
  }

  // The codeword sequence: every data column, then every check column.
  ghost function CodewordSequence(buffer: seq<int>, blocks: seq<RsBlock>): seq<Slot>
    requires WellFormed(blocks) && GeneratorsUsable(blocks)
  {
    Columns(DataBlocks(buffer, blocks), WidestData(blocks)) + Columns(CheckBlocks(buffer, blocks), WidestCheck(blocks))
  }

  // Fills the array exactly.
  method CreateBytes(math: Tables, buffer: seq<int>, blocks: seq<RsBlock>) returns (data: seq<Slot>)
    requires math.Valid()
    requires WellFormed(blocks) && GeneratorsUsable(blocks)
    ensures data == CodewordSequence(buffer, blocks)
    ensures |data| == TotalCount(blocks, |blocks|)
  {
    hide Columns, DataBlocks, CheckBlocks, BlockCheck, BlockData, WidestData, WidestCheck;
    var dcdata, ecdata, maxDc, maxEc := ComputeBlocks(math, buffer, blocks);
    var totalCodeCount := 0;
    for i := 0 to |blocks|
      invariant totalCodeCount == TotalCount(blocks, i)
    {
      totalCodeCount := totalCodeCount + blocks[i].totalCount;
    }
    BlockTotals(buffer, blocks);
    hide CodewordSequence;
    var slots := new Slot[totalCodeCount](_ => Hole);
    var index := Spread(slots, 0, dcdata, maxDc);
    assert slots[..0] == [];
    ghost var first := Columns(dcdata, maxDc);
    assert slots[..index] == first;
    index := Spread(slots, index, ecdata, maxEc);
    assert slots[..index] == first + Columns(ecdata, maxEc);
    data := slots[..];
    assert data == slots[..index];
    Sequence(buffer, blocks);
  }

  lemma Sequence(buffer: seq<int>, blocks: seq<RsBlock>)
    requires WellFormed(blocks) && GeneratorsUsable(blocks)
    ensures CodewordSequence(buffer, blocks)
         == Columns(DataBlocks(buffer, blocks), WidestData(blocks))
            + Columns(CheckBlocks(buffer, blocks), WidestCheck(blocks))
  {
    hide Columns, DataBlocks, CheckBlocks, WidestData, WidestCheck;
  }

  lemma BlockTotals(buffer: seq<int>, blocks: seq<RsBlock>)
    requires WellFormed(blocks) && GeneratorsUsable(blocks)
    ensures Lengths(DataBlocks(buffer, blocks)) == DataCounts(blocks)
    ensures Lengths(CheckBlocks(buffer, blocks)) == CheckCounts(blocks)
    ensures |Columns(DataBlocks(buffer, blocks), WidestData(blocks))|
          + |Columns(CheckBlocks(buffer, blocks), WidestCheck(blocks))| == TotalCount(blocks, |blocks|)
  {
    hide Columns, DataBlocks, CheckBlocks, BlockCheck, BlockData, WidestData, WidestCheck;
    TotalIsDataPlusCheck(blocks, |blocks|);
    TotalLength(DataBlocks(buffer, blocks), WidestData(blocks));
    TotalLength(CheckBlocks(buffer, blocks), WidestCheck(blocks));
  }

  // Where the check columns start.
  function Cut(blocks: seq<RsBlock>): nat { Before(DataCounts(blocks), WidestData(blocks)) }

  // What a reader of the codeword sequence recovers.
  function ReadData<T>(data: seq<T>, blocks: seq<RsBlock>): seq<seq<T>>
    requires |data| >= Cut(blocks)
  {
    Deinterleaved(data[..Cut(blocks)], DataCounts(blocks), WidestData(blocks))
  }

  function ReadCheck<T>(data: seq<T>, blocks: seq<RsBlock>): seq<seq<T>>
    requires WellFormed(blocks)
    requires |data| == Cut(blocks) + Before(CheckCounts(blocks), WidestCheck(blocks))
  {
    Deinterleaved(data[Cut(blocks)..], CheckCounts(blocks), WidestCheck(blocks))
  }

  // Cutting the sequence after the data columns and undoing each interleaving
  // gives back every block, and every block is a codeword: its data followed by
  // its n check bytes vanishes at the first n powers of the field's generator.
  lemma CodewordsReadBack(buffer: seq<int>, blocks: seq<RsBlock>)
    requires WellFormed(blocks) && GeneratorsUsable(blocks)
    ensures var data := CodewordSequence(buffer, blocks);
            && |data| == Cut(blocks) + Before(CheckCounts(blocks), WidestCheck(blocks))
            && var dc, ec := ReadData(data, blocks), ReadCheck(data, blocks);
            && |dc| == |ec| == |blocks|
            && forall r :: 0 <= r < |blocks| ==>
              && dc[r] == Bytes(BlockData(buffer, blocks, r))
              && |ec[r]| == blocks[r].totalCount - blocks[r].dataCount
              && forall k :: 0 <= k < |ec[r]| ==> Eval(Values(dc[r]) + Values(ec[r]), k) == 0
  {
    hide Columns, BlockData, Eval, Remainder, RawPoly, Before, WidestData, WidestCheck;
    var db, cb := DataBlocks(buffer, blocks), CheckBlocks(buffer, blocks);
    var data := CodewordSequence(buffer, blocks);
    BlockTotals(buffer, blocks);
    RoundTrip(db, WidestData(blocks));
    RoundTrip(cb, WidestCheck(blocks));
    var cut := Cut(blocks);
    assert data[..cut] == Columns(db, WidestData(blocks)) && data[cut..] == Columns(cb, WidestCheck(blocks));
    forall r, k | 0 <= r < |blocks| && 0 <= k < |cb[r]|
      ensures Eval(Values(db[r]) + Values(cb[r]), k) == 0
    {
      var n := CheckCounts(blocks)[r];
      CheckedWord(BlockData(buffer, blocks, r), n);
      assert Values(db[r]) == BlockData(buffer, blocks, r);
    }
  }

  lemma PlaceInFront<T>(a: seq<seq<T>>, b: seq<T>, m: nat, r: nat, i: nat)
    requires r < |a| && i < |a[r]| && i < m
    ensures var k := Position(Lengths(a), r, i);
            k < Before(Lengths(a), m) == |Columns(a, m)| && (Columns(a, m) + b)[k] == a[r][i]
  {
    hide Columns, Position, Before;
    ColumnsLength(a, m);
    ElementAt(a, m, r, i);
  }

  lemma PlaceBehind<T>(a: seq<T>, b: seq<seq<T>>, m: nat, r: nat, i: nat)
    requires r < |b| && i < |b[r]| && i < m
    ensures var k := |a| + Position(Lengths(b), r, i);
            k < |a| + |Columns(b, m)| && (a + Columns(b, m))[k] == b[r][i]
  {
    hide Columns, Position;
    ElementAt(b, m, r, i);
  }

  // Where each byte stands: the data bytes first, then the check bytes, each in
  // the order of their number in the block, and for the same number by block.
  lemma DataPlace(buffer: seq<int>, blocks: seq<RsBlock>, r: nat, i: nat)
    requires WellFormed(blocks) && GeneratorsUsable(blocks) && r < |blocks| && i < blocks[r].dataCount
    ensures var k, data := Position(DataCounts(blocks), r, i), CodewordSequence(buffer, blocks);
            k < Cut(blocks) && k < |data| && data[k] == Byte(BufferByte(buffer, i + SumOf(DataCounts(blocks), r)))
  {
    hide *;
    DataShape(buffer, blocks, r, i);
    Sequence(buffer, blocks);
    PlaceInFront(DataBlocks(buffer, blocks), Columns(CheckBlocks(buffer, blocks), WidestCheck(blocks)),
                 WidestData(blocks), r, i);
  }

  lemma DataShape(buffer: seq<int>, blocks: seq<RsBlock>, r: nat, i: nat)
    requires WellFormed(blocks) && GeneratorsUsable(blocks) && r < |blocks| && i < blocks[r].dataCount
    ensures var db := DataBlocks(buffer, blocks);
      && Lengths(db) == DataCounts(blocks) && Cut(blocks) == Before(DataCounts(blocks), WidestData(blocks))
      && r < |db| && i < |db[r]| && i < WidestData(blocks) && r < |DataCounts(blocks)| && i < DataCounts(blocks)[r]
      && db[r][i] == Byte(BufferByte(buffer, i + SumOf(DataCounts(blocks), r)))
  {
    hide BufferByte, Before, Columns, BlockCheck, CheckBlocks, SumOf;
    BlockTotals(buffer, blocks);
    var dc := BlockData(buffer, blocks, r);
    hide BlockData;
    assert DataBlocks(buffer, blocks)[r] == Bytes(dc);
    hide DataBlocks;
  }

  lemma CheckPlace(buffer: seq<int>, blocks: seq<RsBlock>, r: nat, i: nat)
    requires WellFormed(blocks) && GeneratorsUsable(blocks) && r < |blocks|
    requires i < blocks[r].totalCount - blocks[r].dataCount
    ensures var k, data := Cut(blocks) + Position(CheckCounts(blocks), r, i), CodewordSequence(buffer, blocks);
            k < |data| && data[k] == CheckBlocks(buffer, blocks)[r][i]
  {
    hide *;
    CheckShape(buffer, blocks, r, i);
    Sequence(buffer, blocks);
    PlaceBehind(Columns(DataBlocks(buffer, blocks), WidestData(blocks)), CheckBlocks(buffer, blocks),
                WidestCheck(blocks), r, i);
  }

  lemma CheckShape(buffer: seq<int>, blocks: seq<RsBlock>, r: nat, i: nat)
    requires WellFormed(blocks) && GeneratorsUsable(blocks) && r < |blocks|
    requires i < blocks[r].totalCount - blocks[r].dataCount
    ensures var cb := CheckBlocks(buffer, blocks);
      && Lengths(cb) == CheckCounts(blocks) && Cut(blocks) == |Columns(DataBlocks(buffer, blocks), WidestData(blocks))|
      && r < |cb| && i < |cb[r]| && i < WidestCheck(blocks) && r < |CheckCounts(blocks)| && i < CheckCounts(blocks)[r]
  {
    hide Columns, BlockCheck, Before;
    BlockTotals(buffer, blocks);
    ColumnsLength(DataBlocks(buffer, blocks), WidestData(blocks));
  }
}
