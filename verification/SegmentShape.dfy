/** What the bits of the data look like from outside: modes, counts, lengths,
    terminator and pad bytes (section 7.4 of ISO/IEC 18004:2015). */
module SegmentShape {
  import opened Wrappers
  import opened Bits
  import opened BitBuffer
  import opened Segments
  import opened BlockTable
  import opened SymbolData

  // The three classes of versions.
  function Class(version: int): nat { if version < 10 then 0 else if version < 27 then 1 else 2 }

  function CountWidth(seg: Segment, version: int): nat {
    match seg
    case Numeric(_) => 10 + 2 * Class(version)
    case Alphanumeric(_) => 9 + 2 * Class(version)
    case ByteData(_) => if version < 10 then 8 else 16
  }

  function ModeBits(seg: Segment): seq<bool> {
    match seg
    case Numeric(_) => [false, false, false, true]
    case Alphanumeric(_) => [false, false, true, false]
    case ByteData(_) => [false, true, false, false]
  }

  // Three digits take ten bits, two characters eleven, a byte eight.
  function PayloadLength(seg: Segment): nat {
    match seg
    case Numeric(s) => 10 * (|s| / 3) + (if |s| % 3 == 2 then 7 else if |s| % 3 == 1 then 4 else 0)
    case Alphanumeric(s) => 11 * (|s| / 2) + 6 * (|s| % 2)
    case ByteData(b) => 8 * |b|
  }

  lemma {:induction false} NumericLength(s: string)
    requires AllDigits(s)
    ensures |NumericBits(s)| == 10 * (|s| / 3) + (if |s| % 3 == 2 then 7 else if |s| % 3 == 1 then 4 else 0)
  {
    if |s| >= 3 { NumericLength(s[3..]); }
  }

  lemma {:induction false} AlphaLength(s: string)
    requires AllAlpha(s)
    ensures |AlphaBits(s)| == 11 * (|s| / 2) + 6 * (|s| % 2)
  {
    if |s| >= 2 { AlphaLength(s[2..]); }
  }

  lemma {:induction false} BytesLength(b: seq<nat>)
    ensures |ByteBits(b)| == 8 * |b|
  {
    if b != [] { BytesLength(b[1..]); }
  }

  lemma ModeIs(seg: Segment)
    ensures ToBits(seg.Mode(), 4) == ModeBits(seg)
  {
    var m := seg.Mode();
    assert ToBits(m, 4) == ToBits(m / 2, 3) + [m % 2 == 1];
    assert ToBits(m / 2, 3) == ToBits(m / 4, 2) + [m / 2 % 2 == 1];
    assert ToBits(m / 4, 2) == ToBits(m / 8, 1) + [m / 4 % 2 == 1];
  }

  // Mode, count and payload stand one after the other, at these widths.
  lemma SegmentShown(seg: Segment, version: int)
    requires 1 <= version <= 40 && seg.Legal() && seg.Count() < Pow2(CountWidth(seg, version))
    ensures var bits, w := SegmentBits(seg, version), CountWidth(seg, version);
      && |bits| == 4 + w + PayloadLength(seg)
      && bits[..4] == ModeBits(seg)
      && FromBits(bits[4..4 + w]) == seg.Count()
  {
    hide ToBits, FromBits, NumericBits, AlphaBits, Segments.ByteBits, Pow2;
    ModeIs(seg);
    var w := CountWidth(seg, version);
    FromToBits(seg.Count(), w);
    SegmentLength(seg, version);
    var bits := SegmentBits(seg, version);
    assert bits == ModeBits(seg) + ToBits(seg.Count(), w) + seg.Payload();
    assert bits[4..4 + w] == ToBits(seg.Count(), w);
  }

  // The bits of the first n segments.
  function BitsNeeded(segs: seq<Segment>, n: nat, version: int): nat
    requires n <= |segs|
  {
    if n == 0 then 0
    else BitsNeeded(segs, n - 1, version) + 4 + CountWidth(segs[n - 1], version) + PayloadLength(segs[n - 1])
  }

  lemma SegmentLength(seg: Segment, version: int)
    requires 1 <= version <= 40 && seg.Legal()
    ensures |SegmentBits(seg, version)| == 4 + CountWidth(seg, version) + PayloadLength(seg)
  {
    hide ToBits, NumericBits, AlphaBits, Segments.ByteBits;
    match seg
    case Numeric(s) => NumericLength(s);
    case Alphanumeric(s) => AlphaLength(s);
    case ByteData(b) => BytesLength(b);
  }

  lemma {:induction false} EncodedLength(segs: seq<Segment>, n: nat, version: int)
    requires 1 <= version <= 40 && n <= |segs| && AllLegal(segs)
    ensures |Encoded(segs, n, version)| == BitsNeeded(segs, n, version)
  {
    hide SegmentBits, PayloadLength, CountWidth;
    if n > 0 {
      EncodedLength(segs, n - 1, version);
      SegmentLength(segs[n - 1], version);
    }
  }

  // Segments fit a version and level if and only if their bits are no more than
  // those of its data bytes.
  lemma FitsByLength(segs: seq<Segment>, version: int, level: Level)
    requires 1 <= version <= 40 && AllLegal(segs)
    ensures FitsVersion(segs, version, level)
       <==> BitsNeeded(segs, |segs|, version) <= 8 * RowData(TableRow(version, level).value)
  {
    hide Encoded, RsBlocks, BlockTable.Capacity, TableRow;
    EncodedLength(segs, |segs|, version);
    RowExpanded(version, level);
  }

  // ---------- After the segments ----------

  const FIRST_PAD := [true, true, true, false, true, true, false, false]
  const SECOND_PAD := [false, false, false, true, false, false, false, true]

  lemma LastBit(n: nat, k: nat)
    ensures ToBits(n, k + 1) == ToBits(n / 2, k) + [n % 2 == 1]
  {}

  lemma NoBits(n: nat)
    ensures ToBits(n, 0) == []
  {}

  lemma FirstPad()
    ensures ToBits(PAD0, 8) == FIRST_PAD
  {
    hide ToBits;
    NoBits(0);
    LastBit(1, 0); LastBit(3, 1); LastBit(7, 2); LastBit(14, 3);
    LastBit(29, 4); LastBit(59, 5); LastBit(118, 6); LastBit(236, 7);
  }

  lemma SecondPad()
    ensures ToBits(PAD1, 8) == SECOND_PAD
  {
    hide ToBits;
    NoBits(0);
    LastBit(0, 0); LastBit(0, 1); LastBit(0, 2); LastBit(1, 3);
    LastBit(2, 4); LastBit(4, 5); LastBit(8, 6); LastBit(17, 7);
  }

  lemma {:induction false} PadAt(n: nat, i: nat)
    requires i < n
    ensures PadBits(n)[8 * i..8 * i + 8] == if i % 2 == 0 then FIRST_PAD else SECOND_PAD
  {
    hide ToBits;
    FirstPad();
    SecondPad();
    var front := PadBits(n - 1);
    if i < n - 1 {
      PadAt(n - 1, i);
      assert PadBits(n)[8 * i..8 * i + 8] == front[8 * i..8 * i + 8];
    }
  }

  // Where the pad bytes start: at the byte boundary after four more bits, or at
  // the end where there is no room for them.
  function PadStart(used: nat, n: nat): nat
    requires used <= 8 * n
  {
    if used + 4 <= 8 * n then (used + 11) / 8 else n
  }

  lemma BeforePads(bits: seq<bool>, n: nat) returns (t: seq<bool>)
    requires |bits| <= 8 * n
    ensures var first := PadStart(|bits|, n);
      && |bits| <= |t| == 8 * first <= 8 * n && t[..|bits|] == bits && (forall k :: |bits| <= k < |t| ==> !t[k])
      && Filled(bits, n) == t + PadBits(n - first)
  {
    hide ToBits, PadBits;
    var cap := 8 * n;
    t := ToByteBoundary(WithTerminator(bits, cap));
    GapWithin(|WithTerminator(bits, cap)|, cap);
    ZeroBits(4);
  }

  // After the segments there are zero bits to where the pad bytes start, and then
  // the two pad bytes in turn, to the end.
  lemma FilledShown(bits: seq<bool>, n: nat, k: nat)
    requires |bits| <= 8 * n && |bits| <= k < 8 * n
    ensures Filled(bits, n)[..|bits|] == bits
    ensures var first := PadStart(|bits|, n);
      if k < 8 * first then !Filled(bits, n)[k]
      else Filled(bits, n)[k] == (if (k / 8 - first) % 2 == 0 then FIRST_PAD else SECOND_PAD)[k % 8]
  {
    hide ToBits, PadBits, Filled, PadStart;
    var t := BeforePads(bits, n);
    var first := PadStart(|bits|, n);
    assert (t + PadBits(n - first))[..|bits|] == t[..|bits|];
    if k >= 8 * first {
      var i := k / 8 - first;
      PadAt(n - first, i);
      PadIndex(t, PadBits(n - first), k, first, i);
    }
  }

  lemma PadIndex(t: seq<bool>, pads: seq<bool>, k: nat, first: nat, i: nat)
    requires |t| == 8 * first <= k && i == k / 8 - first && 8 * i + 8 <= |pads|
    ensures k < |t| + |pads| && (t + pads)[k] == pads[8 * i..8 * i + 8][k % 8]
  {
    assert k == 8 * (first + i) + k % 8;
  }
}
