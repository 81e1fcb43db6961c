/** From segments to the codeword sequence: the encoder's `createData` and the
    version search of `make`, with the reader that undoes them. */
module SymbolData {
  import opened Wrappers
  import opened SeqLaws
  import opened Bits
  import opened BitBuffer
  import opened Segments
  import opened QrMath
  import opened Polynomial
  import opened Interleave
  import opened Codewords
  import opened BlockTable

  datatype Outcome =
    | Codewords(data: seq<Slot>)
    | UnknownVersion
    | IllegalCharacter
    | LengthOverflow

  const PAD0 := 0xec
  const PAD1 := 0x11

  // ---------- Terminator and padding ----------

  function WithTerminator(bits: seq<bool>, cap: nat): seq<bool> {
    if |bits| + 4 <= cap then bits + ToBits(0, 4) else bits
  }

  function Gap(n: nat): (g: nat)
    ensures g < 8 && (n + g) % 8 == 0
  {
    if n % 8 == 0 then 0 else 8 - n % 8
  }

  function ToByteBoundary(bits: seq<bool>): (r: seq<bool>)
    ensures |r| == |bits| + Gap(|bits|)
  {
    bits + seq(Gap(|bits|), _ => false)
  }

  lemma GapWithin(n: nat, cap: nat)
    requires n <= cap && cap % 8 == 0
    ensures n + Gap(n) <= cap && (cap - (n + Gap(n))) % 8 == 0
  {}

  // n pad bytes, alternating.
  function PadBits(n: nat): (r: seq<bool>)
    ensures |r| == 8 * n
  {
    if n == 0 then [] else PadBits(n - 1) + ToBits(if n % 2 == 1 then PAD0 else PAD1, 8)
  }

  // Everything the buffer holds at the end, for a capacity of n bytes.
  function Filled(bits: seq<bool>, n: nat): (r: seq<bool>)
    requires |bits| <= 8 * n
    ensures |r| == 8 * n
  {
    var cap := 8 * n;
    var t := ToByteBoundary(WithTerminator(bits, cap));
    GapWithin(|WithTerminator(bits, cap)|, cap);
    t + PadBits((cap - |t|) / 8)
  }

  lemma ZeroBits(n: nat)
    ensures FromBits(ToBits(0, n)) == 0 && ToBits(0, n) == seq(n, _ => false)
  {
    FromToBits(0, n);
    if n > 0 {
      ZeroBits(n - 1);
    }
  }

  // What follows the segments stops the parser.
  lemma FilledEndsParse(bits: seq<bool>, n: nat)
    requires |bits| <= 8 * n
    ensures Filled(bits, n)[..|bits|] == bits && EndsParse(Filled(bits, n)[|bits|..])
  {
    hide ToBits, FromBits, PadBits;
    ZeroBits(4);
    var tail := Filled(bits, n)[|bits|..];
    if |bits| + 4 <= 8 * n {
      assert tail[..4] == ToBits(0, 4);
    }
  }

  method Terminate(buffer: Buffer, cap: nat)
    requires buffer.Valid()
    modifies buffer
    ensures buffer.Valid() && buffer.bits == ToByteBoundary(WithTerminator(old(buffer.bits), cap))
  {
    hide ToBits, Gap;
    if buffer.length + 4 <= cap {
      buffer.Put(0, 4);
    }
    ghost var t := buffer.bits;
    ghost var k := 0;
    while buffer.length % 8 != 0
      invariant buffer.Valid() && k <= Gap(|t|)
      invariant buffer.bits == t + seq(k, _ => false)
      decreases Gap(|t|) - k
    {
      GapReached(|t|, k);
      buffer.PutBit(false);
      FalseSnoc(k);
      ConcatAssoc(t, seq(k, _ => false), [false]);
      k := k + 1;
    }
    GapReached(|t|, k);
  }

  lemma FalseSnoc(k: nat)
    ensures seq(k + 1, _ => false) == seq(k, _ => false) + [false]
  {}

  lemma GapReached(n: nat, k: nat)
    requires k <= Gap(n)
    ensures (n + k) % 8 == 0 <==> k == Gap(n)
  {}

  lemma NoPad(start: seq<bool>)
    ensures start + PadBits(0) == start
  {}

  lemma PadNext(start: seq<bool>, n: nat)
    ensures start + PadBits(n + 1) == (start + PadBits(n)) + ToBits(if n % 2 == 0 then PAD0 else PAD1, 8)
  {
    hide ToBits;
  }

  method PadToCapacity(buffer: Buffer, cap: nat)
    requires buffer.Valid() && |buffer.bits| <= cap && (cap - |buffer.bits|) % 8 == 0
    modifies buffer
    ensures buffer.Valid()
    ensures buffer.bits == old(buffer.bits) + PadBits((cap - |old(buffer.bits)|) / 8)
  {
    hide ToBits, PadBits;
    ghost var start, total := buffer.bits, (cap - |buffer.bits|) / 8;
    assert cap == |start| + 8 * total;
    ghost var n := 0;
    NoPad(start);
    while true
      invariant buffer.Valid() && n % 2 == 0 && n <= total
      invariant buffer.bits == start + PadBits(n)
      decreases total - n
    {
      if buffer.length >= cap {
        break;
      }
      PadNext(start, n);
      buffer.Put(PAD0, 8);
      n := n + 1;
      if buffer.length >= cap {
        break;
      }
      PadNext(start, n);
      buffer.Put(PAD1, 8);
      n := n + 1;
    }
  }

  method FillBuffer(buffer: Buffer, n: nat)
    requires buffer.Valid() && |buffer.bits| <= 8 * n
    modifies buffer
    ensures buffer.Valid() && buffer.bits == Filled(old(buffer.bits), n)
  {
    hide ToByteBoundary, PadBits;
    var cap := 8 * n;
    GapWithin(|WithTerminator(buffer.bits, cap)|, cap);
    Terminate(buffer, cap);
    PadToCapacity(buffer, cap);
  }

  // ---------- createData ----------

  predicate WritableBytes(segs: seq<Segment>) {
    forall i :: 0 <= i < |segs| && segs[i].ByteData? ==> AllBytes(segs[i].bytes)
  }

  // The buffer after all segments; fails on a character with no code.
  method EncodeSegments(segs: seq<Segment>, version: int) returns (buffer: Buffer, ok: bool)
    requires version < 41 && WritableBytes(segs)
    ensures fresh(buffer) && buffer.Valid()
    ensures ok <==> AllLegal(segs)
    ensures ok ==> buffer.bits == Encoded(segs, |segs|, version)
  {
    hide ToBits;
    buffer := new Buffer();
    for i := 0 to |segs|
      invariant fresh(buffer) && buffer.Valid()
      invariant forall j :: 0 <= j < i ==> segs[j].Legal()
      invariant AllLegal(segs) ==> buffer.bits == Encoded(segs, i, version)
    {
      var seg := segs[i];
      ModeKnown(seg, version);
      ghost var before := buffer.bits;
      buffer.Put(seg.Mode(), 4);
      buffer.Put(seg.Count(), LengthBits(seg.Mode(), version).value);
      ok := Write(buffer, seg);
      if !ok {
        return;
      }
      if AllLegal(segs) {
        SegmentAppended(before, seg, version);
      }
    }
    ok := true;
  }

  lemma ModeKnown(seg: Segment, version: int)
    requires version < 41
    ensures LengthBits(seg.Mode(), version).Some?
  {}

  lemma SegmentAppended(before: seq<bool>, seg: Segment, version: int)
    requires version < 41 && seg.Legal()
    ensures before + ToBits(seg.Mode(), 4) + ToBits(seg.Count(), LengthBits(seg.Mode(), version).value) + seg.Payload()
         == before + SegmentBits(seg, version)
  {}

  method TotalDataCount(blocks: seq<RsBlock>) returns (n: nat)
    ensures n == Capacity(blocks)
  {
    n := 0;
    for i := 0 to |blocks|
      invariant n == SumOf(DataCounts(blocks), i)
    {
      n := n + blocks[i].dataCount;
    }
  }

  // The bits to fit, and the room for them in bytes.
  function Need(segs: seq<Segment>, version: int): nat
    requires version < 41 && AllLegal(segs)
  {
    |Encoded(segs, |segs|, version)|
  }

  function Room(version: int, level: Level): nat
    requires 1 <= version <= 40
  {
    Capacity(RsBlocks(version, level))
  }

  // The result createData must have.
  ghost function Expected(version: int, level: Level, segs: seq<Segment>): Outcome {
    if !(1 <= version <= 40) then UnknownVersion
    else if !AllLegal(segs) then IllegalCharacter
    else if Need(segs, version) > 8 * Room(version, level) then LengthOverflow
    else
      BlocksOk(version, level);
      var bits := Filled(Encoded(segs, |segs|, version), Room(version, level));
      Codewords(CodewordSequence(Packed(bits), RsBlocks(version, level)))
  }

  method CreateData(math: Tables, version: int, level: Level, segs: seq<Segment>) returns (r: Outcome)
    requires math.Valid() && WritableBytes(segs)
    ensures r == Expected(version, level, segs)
  {
    hide Encoded, RsBlocks, Capacity, CodewordSequence, Packed, Filled, Usable;
    var rsBlocks := GetRsBlocks(version, level);
    if rsBlocks.None? {
      return UnknownVersion;
    }
    var buffer, ok := EncodeSegments(segs, version);
    if !ok {
      return IllegalCharacter;
    }
    var totalDataCount := TotalDataCount(rsBlocks.value);
    if buffer.length > totalDataCount * 8 {
      return LengthOverflow;
    }
    FillBuffer(buffer, totalDataCount);
    BlocksOk(version, level);
    UsableMeans(rsBlocks.value);
    var data := CreateBytes(math, buffer.bytes, rsBlocks.value);
    r := Codewords(data);
  }

  lemma UsableMeans(blocks: seq<RsBlock>)
    ensures Usable(blocks) ==> WellFormed(blocks) && GeneratorsUsable(blocks)
  {}

  // ---------- The reader ----------

  function Flattened<T>(blocks: seq<seq<T>>, n: nat): seq<T>
    requires n <= |blocks|
  {
    if n == 0 then [] else Flattened(blocks, n - 1) + blocks[n - 1]
  }

  // The bit stream recovered from the numbers of a codeword sequence.
  function ReadBits(codewords: seq<nat>, blocks: seq<RsBlock>): seq<bool>
    requires |codewords| >= Cut(blocks)
  {
    var dc := ReadData(codewords, blocks);
    Unpacked(Flattened(dc, |dc|))
  }

  // Reading numbers or slots makes no difference.
  lemma ReadDataNumbers(data: seq<Slot>, blocks: seq<RsBlock>)
    requires |data| >= Cut(blocks)
    ensures var dc, nums := ReadData(data, blocks), ReadData(Numbers(data), blocks);
            |nums| == |dc| && forall r :: 0 <= r < |dc| ==> nums[r] == Numbers(dc[r])
  {
    hide Numbers, Position, Before, WidestData;
    var cut, lens := Cut(blocks), DataCounts(blocks);
    forall r, i | 0 <= r < |lens| && 0 <= i < lens[r]
      ensures ReadData(Numbers(data), blocks)[r][i] == Numbers(ReadData(data, blocks)[r])[i]
    {
      PositionBounds(lens, r, i);
      BeforeMonotone(lens, i + 1, WidestData(blocks));
    }
  }

  lemma {:induction false} FlattenedNumbers(dc: seq<seq<Slot>>, nums: seq<seq<nat>>, n: nat)
    requires |dc| == |nums| && n <= |dc| && forall r :: 0 <= r < |dc| ==> nums[r] == Numbers(dc[r])
    ensures Flattened(nums, n) == Numbers(Flattened(dc, n))
  {
    hide Numbers;
    if n > 0 {
      FlattenedNumbers(dc, nums, n - 1);
    }
  }

  lemma {:induction false} FlattenedData(buffer: seq<nat>, blocks: seq<RsBlock>, n: nat)
    requires n <= |blocks| && SumOf(DataCounts(blocks), n) <= |buffer|
    requires forall i :: 0 <= i < |buffer| ==> buffer[i] < 256
    ensures Numbers(Flattened(DataBlocks(buffer, blocks), n)) == buffer[..SumOf(DataCounts(blocks), n)]
  {
    hide DataBlocks, BlockData, Numbers, DataCounts, Bytes;
    if n > 0 {
      FlattenedData(buffer, blocks, n - 1);
      var offset := SumOf(DataCounts(blocks), n - 1);
      var front := Flattened(DataBlocks(buffer, blocks), n - 1);
      var last := DataBlocks(buffer, blocks)[n - 1];
      assert Numbers(front + last) == Numbers(front) + Numbers(last);
      forall i | 0 <= i < |last| ensures Numbers(last)[i] == buffer[i + offset] {
        ByteOfNumber(buffer[i + offset]);
      }
      assert Numbers(last) == buffer[offset..offset + |last|];
    }
  }

  lemma ByteOfNumber(n: nat)
    requires n < 256
    ensures (n % 256) as bv8 as nat == n
  {}

  // The codeword sequence for n whole bytes of data reads back as those bytes.
  lemma DataReadsBack(bits: seq<bool>, blocks: seq<RsBlock>)
    requires Usable(blocks) && |bits| == 8 * Capacity(blocks)
    ensures var data := CodewordSequence(Packed(bits), blocks);
            |data| >= Cut(blocks) && ReadBits(Numbers(data), blocks) == bits
  {
    hide CodewordSequence, ReadData, Cut, BlockData, Packed, Unpacked, Numbers;
    var buffer := Packed(bits);
    var data := CodewordSequence(buffer, blocks);
    CodewordsReadBack(buffer, blocks);
    forall i | 0 <= i < |buffer| ensures buffer[i] < 256 {
      PackedByteBound(bits, i);
    }
    var dc := ReadData(data, blocks);
    assert dc == DataBlocks(buffer, blocks);
    ReadDataNumbers(data, blocks);
    FlattenedNumbers(dc, ReadData(Numbers(data), blocks), |dc|);
    FlattenedData(buffer, blocks, |blocks|);
    assert buffer[..|buffer|] == buffer;
    UnpackedPacked(bits);
  }

  // ---------- Counts fit whenever the data does ----------

  lemma {:induction false} NumericSize(s: string)
    requires AllDigits(s)
    ensures 3 * |NumericBits(s)| >= 10 * |s|
  {
    hide ToBits;
    if |s| >= 3 {
      NumericSize(s[3..]);
    }
  }

  lemma {:induction false} AlphaSize(s: string)
    requires AllAlpha(s)
    ensures 2 * |AlphaBits(s)| >= 11 * |s|
  {
    hide ToBits, AlphaCode;
    if |s| >= 2 {
      AlphaSize(s[2..]);
    }
  }

  lemma {:induction false} ByteSize(b: seq<nat>)
    ensures |ByteBits(b)| == 8 * |b|
  {
    hide ToBits;
    if b != [] {
      ByteSize(b[1..]);
    }
  }

  lemma CountFields()
    ensures Pow2(8) == 256 && Pow2(9) == 512 && Pow2(10) == 1024 && Pow2(11) == 2048 && Pow2(12) == 4096
    ensures Pow2(13) == 8192 && Pow2(14) == 16384 && Pow2(16) == 65536
  {
    SmallPowers();
    assert Pow2(9) == 2 * Pow2(8);
    assert Pow2(12) == 4 * Pow2(10);
    assert Pow2(14) == 4 * Pow2(12);
    assert Pow2(16) == 4 * Pow2(14);
  }

  lemma SegmentFits(seg: Segment, version: int)
    requires 1 <= version <= 40 && seg.Legal()
    requires |SegmentBits(seg, version)| <= 8 * LargestCapacity(version)
    ensures Fits(seg, version)
  {
    hide ToBits, NumericBits, AlphaBits, ByteBits, Pow2;
    CountFields();
    match seg
    case Numeric(s) => NumericSize(s);
    case Alphanumeric(s) => AlphaSize(s);
    case ByteData(b) => ByteSize(b);
  }

  lemma {:induction false} EachSegmentWithin(segs: seq<Segment>, n: nat, version: int, i: nat)
    requires version < 41 && AllLegal(segs) && i < n <= |segs|
    ensures |SegmentBits(segs[i], version)| <= |Encoded(segs, n, version)|
  {
    hide SegmentBits;
    if i < n - 1 {
      EachSegmentWithin(segs, n - 1, version, i);
    }
  }

  // The whole chain: whatever segments createData accepts, de-interleaving its
  // output and parsing the bits gives exactly those segments.
  lemma SymbolReadsBack(version: int, level: Level, segs: seq<Segment>)
    requires Expected(version, level, segs).Codewords?
    ensures var data, blocks := Expected(version, level, segs).data, RsBlocks(version, level);
            |data| >= Cut(blocks) && Parse(ReadBits(Numbers(data), blocks), version) == Some(segs)
  {
    hide Encoded, EncodedFrom, RsBlocks, Capacity, CodewordSequence, Packed, Filled, Usable, Parse, ReadBits,
         SegmentBits, Cut, LargestCapacity;
    var blocks := RsBlocks(version, level);
    var enc := Encoded(segs, |segs|, version);
    var bits := Filled(enc, Room(version, level));
    BlocksOk(version, level);
    DataReadsBack(bits, blocks);
    forall i | 0 <= i < |segs| ensures Fits(segs[i], version) {
      EachSegmentWithin(segs, |segs|, version, i);
      SegmentFits(segs[i], version);
    }
    FilledEndsParse(enc, Room(version, level));
    EncodedAll(segs, version);
    ParseEncoded(segs, version, bits[|enc|..]);
    assert bits == enc + bits[|enc|..];
  }

  lemma EncodedAll(segs: seq<Segment>, version: int)
    requires version < 41 && AllLegal(segs)
    ensures Encoded(segs, |segs|, version) == EncodedFrom(segs, version)
  {
    EncodedSplit(segs, |segs|, version);
    assert EncodedFrom(segs[|segs|..], version) == [];
  }

  // ---------- make's version search ----------

  predicate FitsVersion(segs: seq<Segment>, version: int, level: Level)
    requires 1 <= version <= 40 && AllLegal(segs)
  {
    Need(segs, version) <= 8 * Room(version, level)
  }

  // The first version whose capacity suffices, or 40 when none below does;
  // fails on a character with no code.
  method ChooseVersion(level: Level, segs: seq<Segment>) returns (version: int, ok: bool)
    requires WritableBytes(segs)
    ensures ok <==> AllLegal(segs)
    ensures 1 <= version <= 40
    ensures ok ==> forall v :: 1 <= v < version ==> !FitsVersion(segs, v, level)
    ensures ok && version < 40 ==> FitsVersion(segs, version, level)
  {
    hide RsBlocks, Capacity, Encoded;
    version := 1;
    while version < 40
      invariant 1 <= version <= 40
      invariant version > 1 ==> AllLegal(segs)
      invariant AllLegal(segs) ==> forall v :: 1 <= v < version ==> !FitsVersion(segs, v, level)
    {
      var rsBlocks := GetRsBlocks(version, level);
      var buffer;
      buffer, ok := EncodeSegments(segs, version);
      if !ok {
        return;
      }
      var totalDataCount := TotalDataCount(rsBlocks.value);
      if buffer.length <= totalDataCount * 8 {
        break;
      }
      version := version + 1;
    }
    ok := true;
  }
}
