/** Numeric, alphanumeric and byte segments as bit strings, and the parser a
    reader of the symbol applies (section 7.4 of ISO/IEC 18004:2015). */
module Segments {
  import opened Wrappers
  import opened Bits
  import opened BitBuffer
  import opened SeqLaws

  datatype Segment =
    | Numeric(text: string)
    | Alphanumeric(text: string)
    | ByteData(bytes: seq<nat>)
  {
    function Mode(): nat {
      match this
      case Numeric(_) => 1
      case Alphanumeric(_) => 2
      case ByteData(_) => 4
    }

    function Count(): nat {
      match this
      case Numeric(s) => |s|
      case Alphanumeric(s) => |s|
      case ByteData(b) => |b|
    }

    // Whether every character can be encoded; writing throws otherwise.
    predicate Legal() {
      match this
      case Numeric(s) => AllDigits(s)
      case Alphanumeric(s) => AllAlpha(s)
      case ByteData(b) => AllBytes(b)
    }

    function Payload(): seq<bool>
      requires Legal()
    {
      match this
      case Numeric(s) => NumericBits(s)
      case Alphanumeric(s) => AlphaBits(s)
      case ByteData(b) => ByteBits(b)
    }
  }

  // ---------- Characters ----------

  predicate IsDigit(c: char) { '0' <= c <= '9' }

  predicate AllDigits(s: string) { forall i :: 0 <= i < |s| ==> IsDigit(s[i]) }

  predicate AllAlpha(s: string) { forall i :: 0 <= i < |s| ==> AlphaCode(s[i]).Some? }

  predicate AllBytes(b: seq<nat>) { forall i :: 0 <= i < |b| ==> b[i] < 256 }

  function DigitValue(c: char): nat
    requires IsDigit(c)
  {
    c as int - '0' as int
  }

  function DigitChar(v: nat): char
    requires v < 10
  {
    ('0' as int + v) as char
  }

  // The 45-character alphabet; None where the source throws.
  function AlphaCode(c: char): (r: Option<nat>)
    ensures r.Some? ==> r.value < 45
  {
    if '0' <= c <= '9' then Some(c as int - '0' as int)
    else if 'A' <= c <= 'Z' then Some(c as int - 'A' as int + 10)
    else match c
      case ' ' => Some(36)
      case '$' => Some(37)
      case '%' => Some(38)
      case '*' => Some(39)
      case '+' => Some(40)
      case '-' => Some(41)
      case '.' => Some(42)
      case '/' => Some(43)
      case ':' => Some(44)
      case _ => None
  }

  // The reader's alphabet.
  function AlphaChar(v: nat): char
    requires v < 45
  {
    if v < 10 then ('0' as int + v) as char
    else if v < 36 then ('A' as int + v - 10) as char
    else match v
      case 36 => ' '
      case 37 => '$'
      case 38 => '%'
      case 39 => '*'
      case 40 => '+'
      case 41 => '-'
      case 42 => '.'
      case 43 => '/'
      case _ => ':'
  }

  lemma AlphaInverse(c: char)
    requires AlphaCode(c).Some?
    ensures AlphaChar(AlphaCode(c).value) == c
  {}

  // ---------- Payload bits ----------

  function Decimal(s: string): nat
    requires AllDigits(s)
  {
    if s == "" then 0 else 10 * Decimal(s[..|s| - 1]) + DigitValue(s[|s| - 1])
  }

  function NumericBits(s: string): seq<bool>
    requires AllDigits(s)
  {
    if |s| >= 3 then ToBits(Decimal(s[..3]), 10) + NumericBits(s[3..])
    else if |s| == 2 then ToBits(Decimal(s), 7)
    else if |s| == 1 then ToBits(Decimal(s), 4)
    else []
  }

  function AlphaBits(s: string): seq<bool>
    requires AllAlpha(s)
  {
    if |s| >= 2 then ToBits(AlphaCode(s[0]).value * 45 + AlphaCode(s[1]).value, 11) + AlphaBits(s[2..])
    else if |s| == 1 then ToBits(AlphaCode(s[0]).value, 6)
    else []
  }

  function ByteBits(b: seq<nat>): seq<bool> {
    if b == [] then [] else ToBits(b[0], 8) + ByteBits(b[1..])
  }

  // The width of the count field; None where the source throws.
  function LengthBits(mode: nat, version: int): Option<nat> {
    if 1 <= version < 10 then
      match mode
      case 1 => Some(10)
      case 2 => Some(9)
      case 4 => Some(8)
      case 8 => Some(8)
      case _ => None
    else if version < 27 then
      match mode
      case 1 => Some(12)
      case 2 => Some(11)
      case 4 => Some(16)
      case 8 => Some(10)
      case _ => None
    else if version < 41 then
      match mode
      case 1 => Some(14)
      case 2 => Some(13)
      case 4 => Some(16)
      case 8 => Some(12)
      case _ => None
    else None
  }

  predicate AllLegal(segs: seq<Segment>) { forall i :: 0 <= i < |segs| ==> segs[i].Legal() }

  function SegmentBits(seg: Segment, version: int): seq<bool>
    requires version < 41 && seg.Legal()
  {
    ToBits(seg.Mode(), 4) + ToBits(seg.Count(), LengthBits(seg.Mode(), version).value) + seg.Payload()
  }

  // What the buffer holds after the first n segments.
  function Encoded(segs: seq<Segment>, n: nat, version: int): seq<bool>
    requires version < 41 && n <= |segs| && AllLegal(segs)
  {
    if n == 0 then [] else Encoded(segs, n - 1, version) + SegmentBits(segs[n - 1], version)
  }

  // ---------- Writing ----------

  method StrToNum(s: string) returns (r: Option<nat>)
    ensures r.Some? <==> AllDigits(s)
    ensures r.Some? ==> r.value == Decimal(s)
  {
    var num := 0;
    for i := 0 to |s|
      invariant AllDigits(s[..i]) && num == Decimal(s[..i])
    {
      TakeSnoc(s, i);
      if !('0' <= s[i] <= '9') {
        return None;
      }
      assert s[..i + 1][..i] == s[..i];
      num := num * 10 + (s[i] as int - '0' as int);
    }
    assert s[..|s|] == s;
    r := Some(num);
  }

  method WriteNumeric(buffer: Buffer, s: string) returns (ok: bool)
    requires buffer.Valid()
    modifies buffer
    ensures buffer.Valid()
    ensures ok <==> AllDigits(s)
    ensures ok ==> buffer.bits == old(buffer.bits) + NumericBits(s)
  {
    hide ToBits, Decimal;
    var i := 0;
    while i + 2 < |s|
      invariant 0 <= i <= |s| && buffer.Valid() && AllDigits(s[..i])
      invariant AllDigits(s) ==> buffer.bits + NumericBits(s[i..]) == old(buffer.bits) + NumericBits(s)
    {
      var group := s[i..i + 3];
      assert s[i..][..3] == group && s[i..][3..] == s[i + 3..];
      var num := StrToNum(group);
      DigitsSlice(s, i, i + 3);
      if num.None? {
        return false;
      }
      assert AllDigits(s) ==> NumericBits(s[i..]) == ToBits(num.value, 10) + NumericBits(s[i + 3..]);
      ghost var before := buffer.bits;
      buffer.Put(num.value, 10);
      if AllDigits(s) { ConcatAssoc(before, ToBits(num.value, 10), NumericBits(s[i + 3..])); }
      i := i + 3;
    }
    if i < |s| {
      var rest := s[i..];
      DigitsSlice(s, i, |s|);
      var num := StrToNum(rest);
      if num.None? {
        return false;
      }
      if |s| - i == 1 {
        buffer.Put(num.value, 4);
      } else if |s| - i == 2 {
        buffer.Put(num.value, 7);
      }
    }
    ok := true;
  }

  lemma DigitsSlice(s: string, i: nat, j: nat)
    requires i <= j <= |s|
    ensures AllDigits(s[..i]) ==> (AllDigits(s[..j]) <==> AllDigits(s[i..j]))
    ensures !AllDigits(s[i..j]) ==> !AllDigits(s)
    ensures AllDigits(s[..|s|]) <==> AllDigits(s)
  {
    if !AllDigits(s[i..j]) {
      var k :| 0 <= k < j - i && !IsDigit(s[i..j][k]);
      assert s[i + k] == s[i..j][k] == s[..j][i + k];
    }
    if AllDigits(s[..i]) && AllDigits(s[i..j]) {
      forall k | 0 <= k < j ensures IsDigit(s[..j][k]) {
        if k < i { assert s[..i][k] == s[k]; } else { assert s[i..j][k - i] == s[k]; }
      }
    }
    assert s[..|s|] == s;
  }

  method WriteAlpha(buffer: Buffer, s: string) returns (ok: bool)
    requires buffer.Valid()
    modifies buffer
    ensures buffer.Valid()
    ensures ok <==> AllAlpha(s)
    ensures ok ==> buffer.bits == old(buffer.bits) + AlphaBits(s)
  {
    hide ToBits, AlphaCode;
    var i := 0;
    while i + 1 < |s|
      invariant 0 <= i <= |s| && buffer.Valid() && forall k :: 0 <= k < i ==> AlphaCode(s[k]).Some?
      invariant AllAlpha(s) ==> buffer.bits + AlphaBits(s[i..]) == old(buffer.bits) + AlphaBits(s)
    {
      var hi, lo := AlphaCode(s[i]), AlphaCode(s[i + 1]);
      if hi.None? || lo.None? {
        return false;
      }
      assert s[i..][2..] == s[i + 2..];
      var pair := hi.value * 45 + lo.value;
      assert AllAlpha(s) ==> AlphaBits(s[i..]) == ToBits(pair, 11) + AlphaBits(s[i + 2..]);
      ghost var before := buffer.bits;
      buffer.Put(pair, 11);
      if AllAlpha(s) { ConcatAssoc(before, ToBits(pair, 11), AlphaBits(s[i + 2..])); }
      i := i + 2;
    }
    if i < |s| {
      var code := AlphaCode(s[i]);
      if code.None? {
        return false;
      }
      buffer.Put(code.value, 6);
    }
    ok := true;
  }

  method WriteBytes(buffer: Buffer, b: seq<nat>)
    requires buffer.Valid() && AllBytes(b)
    modifies buffer
    ensures buffer.Valid() && buffer.bits == old(buffer.bits) + ByteBits(b)
  {
    hide ToBits;
    for i := 0 to |b|
      invariant buffer.Valid() && buffer.bits + ByteBits(b[i..]) == old(buffer.bits) + ByteBits(b)
    {
      assert b[i..][1..] == b[i + 1..];
      ghost var before := buffer.bits;
      buffer.Put(b[i], 8);
      ConcatAssoc(before, ToBits(b[i], 8), ByteBits(b[i + 1..]));
    }
  }

  method Write(buffer: Buffer, seg: Segment) returns (ok: bool)
    requires buffer.Valid()
    requires seg.ByteData? ==> AllBytes(seg.bytes)
    modifies buffer
    ensures buffer.Valid()
    ensures ok <==> seg.Legal()
    ensures ok ==> buffer.bits == old(buffer.bits) + seg.Payload()
  {
    match seg
    case Numeric(s) => ok := WriteNumeric(buffer, s);
    case Alphanumeric(s) => ok := WriteAlpha(buffer, s);
    case ByteData(b) => WriteBytes(buffer, b); ok := true;
  }

  // ---------- Reading ----------

  function DecimalText(v: nat, n: nat): (s: string)
    ensures |s| == n && AllDigits(s)
  {
    if n == 0 then "" else DecimalText(v / 10, n - 1) + [DigitChar(v % 10)]
  }

  // n digits from groups of ten, seven or four bits.
  function ParseNumeric(bits: seq<bool>, n: nat): Option<(string, seq<bool>)> {
    var k := if n >= 3 then 3 else n;
    var width := if n >= 3 then 10 else if n == 2 then 7 else if n == 1 then 4 else 0;
    if n == 0 then Some(("", bits))
    else if |bits| < width then None
    else
      var rest := ParseNumeric(bits[width..], n - k);
      if rest.None? then None
      else Some((DecimalText(FromBits(bits[..width]), k) + rest.value.0, rest.value.1))
  }

  function ParseAlpha(bits: seq<bool>, n: nat): Option<(string, seq<bool>)> {
    if n == 0 then Some(("", bits))
    else if n == 1 then
      if |bits| < 6 then None
      else
        var v := FromBits(bits[..6]);
        if v >= 45 then None else Some(([AlphaChar(v)], bits[6..]))
    else if |bits| < 11 then None
    else
      var v := FromBits(bits[..11]);
      var rest := ParseAlpha(bits[11..], n - 2);
      if v >= 45 * 45 || rest.None? then None
      else Some(([AlphaChar(v / 45), AlphaChar(v % 45)] + rest.value.0, rest.value.1))
  }

  function ParseBytes(bits: seq<bool>, n: nat): Option<(seq<nat>, seq<bool>)> {
    if n == 0 then Some(([], bits))
    else if |bits| < 8 then None
    else
      var rest := ParseBytes(bits[8..], n - 1);
      if rest.None? then None else Some(([FromBits(bits[..8])] + rest.value.0, rest.value.1))
  }

  function ParsePayload(mode: nat, n: nat, bits: seq<bool>): Option<(Segment, seq<bool>)> {
    if mode == 1 then
      var r := ParseNumeric(bits, n);
      if r.None? then None else Some((Numeric(r.value.0), r.value.1))
    else if mode == 2 then
      var r := ParseAlpha(bits, n);
      if r.None? then None else Some((Alphanumeric(r.value.0), r.value.1))
    else if mode == 4 then
      var r := ParseBytes(bits, n);
      if r.None? then None else Some((ByteData(r.value.0), r.value.1))
    else None
  }

  // Segments up to the terminator, or up to where fewer than four bits remain.
  function Parse(bits: seq<bool>, version: int): Option<seq<Segment>>
    decreases |bits|
  {
    if |bits| < 4 || FromBits(bits[..4]) == 0 then Some([])
    else
      var mode := FromBits(bits[..4]);
      var width := LengthBits(mode, version);
      if width.None? || |bits| < 4 + width.value then None
      else
        var seg := ParsePayload(mode, FromBits(bits[4..4 + width.value]), bits[4 + width.value..]);
        if seg.None? || |seg.value.1| >= |bits| then None
        else
          var rest := Parse(seg.value.1, version);
          if rest.None? then None else Some([seg.value.0] + rest.value)
  }

  // ---------- Reading undoes writing ----------

  lemma {:induction false} DecimalRoundTrip(s: string)
    requires AllDigits(s)
    ensures DecimalText(Decimal(s), |s|) == s
  {
    if s != "" {
      DecimalRoundTrip(s[..|s| - 1]);
    }
  }

  lemma DecimalBound(s: string)
    requires AllDigits(s) && |s| <= 3
    ensures Decimal(s) < if |s| == 3 then 1000 else if |s| == 2 then 100 else if |s| == 1 then 10 else 1
  {
    if |s| > 0 {
      DecimalBound(s[..|s| - 1]);
    }
  }

  lemma SmallPowers()
    ensures Pow2(4) == 16 && Pow2(6) == 64 && Pow2(7) == 128 && Pow2(8) == 256
    ensures Pow2(10) == 1024 && Pow2(11) == 2048
  {
    assert Pow2(4) == 16;
    assert Pow2(6) == 4 * Pow2(4);
    assert Pow2(8) == 4 * Pow2(6);
    assert Pow2(10) == 4 * Pow2(8);
  }

  lemma {:induction false} NumericRoundTrip(s: string, tail: seq<bool>)
    requires AllDigits(s)
    ensures ParseNumeric(NumericBits(s) + tail, |s|) == Some((s, tail))
  {
    hide Decimal, DecimalText, ToBits, FromBits, Pow2;
    SmallPowers();
    var k := if |s| >= 3 then 3 else |s|;
    var width := if |s| >= 3 then 10 else if |s| == 2 then 7 else if |s| == 1 then 4 else 0;
    var bits := NumericBits(s) + tail;
    if |s| == 0 {
      assert bits == tail;
    } else {
      var head := s[..k];
      assert |s| < 3 ==> head == s && s[k..] == "" && NumericBits(s[k..]) == [];
      DecimalBound(head);
      DecimalRoundTrip(head);
      FromToBits(Decimal(head), width);
      NumericRoundTrip(s[k..], tail);
      ConcatAssoc(ToBits(Decimal(head), width), NumericBits(s[k..]), tail);
      assert bits == ToBits(Decimal(head), width) + (NumericBits(s[k..]) + tail);
      assert bits[..width] == ToBits(Decimal(head), width);
      assert bits[width..] == NumericBits(s[k..]) + tail;
      assert s == head + s[k..];
    }
  }

  lemma {:induction false} AlphaRoundTrip(s: string, tail: seq<bool>)
    requires AllAlpha(s)
    ensures ParseAlpha(AlphaBits(s) + tail, |s|) == Some((s, tail))
  {
    hide AlphaCode, AlphaChar, ToBits, FromBits, Pow2;
    SmallPowers();
    var bits := AlphaBits(s) + tail;
    if |s| == 0 {
      assert bits == tail;
    } else if |s| == 1 {
      var v := AlphaCode(s[0]).value;
      AlphaInverse(s[0]);
      FromToBits(v, 6);
      assert bits[..6] == ToBits(v, 6) && bits[6..] == tail;
      assert s == [s[0]];
    } else {
      var a, b := AlphaCode(s[0]).value, AlphaCode(s[1]).value;
      var v := a * 45 + b;
      AlphaInverse(s[0]);
      AlphaInverse(s[1]);
      FromToBits(v, 11);
      AlphaRoundTrip(s[2..], tail);
      ConcatAssoc(ToBits(v, 11), AlphaBits(s[2..]), tail);
      assert bits[..11] == ToBits(v, 11) && bits[11..] == AlphaBits(s[2..]) + tail;
      assert v / 45 == a && v % 45 == b;
      assert s == [s[0], s[1]] + s[2..];
    }
  }

  lemma {:induction false} ByteRoundTrip(b: seq<nat>, tail: seq<bool>)
    requires AllBytes(b)
    ensures ParseBytes(ByteBits(b) + tail, |b|) == Some((b, tail))
  {
    hide ToBits, FromBits, Pow2;
    SmallPowers();
    var bits := ByteBits(b) + tail;
    if b == [] {
      assert bits == tail;
    } else {
      FromToBits(b[0], 8);
      ByteRoundTrip(b[1..], tail);
      ConcatAssoc(ToBits(b[0], 8), ByteBits(b[1..]), tail);
      assert bits[..8] == ToBits(b[0], 8) && bits[8..] == ByteBits(b[1..]) + tail;
      assert b == [b[0]] + b[1..];
    }
  }

  // The count can be written in its field.
  predicate Fits(seg: Segment, version: int)
    requires version < 41
  {
    seg.Count() < Pow2(LengthBits(seg.Mode(), version).value)
  }

  lemma SegmentRoundTrip(seg: Segment, version: int, tail: seq<bool>)
    requires version < 41 && seg.Legal() && Fits(seg, version)
    ensures var bits := SegmentBits(seg, version) + tail;
            var width := LengthBits(seg.Mode(), version).value;
            && |bits| >= 4 + width
            && FromBits(bits[..4]) == seg.Mode()
            && FromBits(bits[4..4 + width]) == seg.Count()
            && ParsePayload(seg.Mode(), seg.Count(), bits[4 + width..]) == Some((seg, tail))
  {
    hide ToBits, FromBits, NumericBits, AlphaBits, ByteBits, ParseNumeric, ParseAlpha, ParseBytes, Pow2;
    SmallPowers();
    var bits := SegmentBits(seg, version) + tail;
    var width := LengthBits(seg.Mode(), version).value;
    FromToBits(seg.Mode(), 4);
    FromToBits(seg.Count(), width);
    assert bits[..4] == ToBits(seg.Mode(), 4);
    assert bits[4..4 + width] == ToBits(seg.Count(), width);
    assert bits[4 + width..] == seg.Payload() + tail;
    match seg
    case Numeric(s) => NumericRoundTrip(s, tail);
    case Alphanumeric(s) => AlphaRoundTrip(s, tail);
    case ByteData(b) => ByteRoundTrip(b, tail);
  }

  predicate EndsParse(tail: seq<bool>) { |tail| < 4 || FromBits(tail[..4]) == 0 }

  // The segments in the order the parser meets them.
  function EncodedFrom(segs: seq<Segment>, version: int): seq<bool>
    requires version < 41 && AllLegal(segs)
  {
    if segs == [] then [] else SegmentBits(segs[0], version) + EncodedFrom(segs[1..], version)
  }

  lemma {:induction false} EncodedSplit(segs: seq<Segment>, n: nat, version: int)
    requires version < 41 && AllLegal(segs) && n <= |segs|
    ensures Encoded(segs, n, version) + EncodedFrom(segs[n..], version) == EncodedFrom(segs, version)
  {
    hide SegmentBits;
    if n == 0 {
      assert segs[0..] == segs;
    } else {
      EncodedSplit(segs, n - 1, version);
      assert segs[n - 1..][1..] == segs[n..];
      ConcatAssoc(Encoded(segs, n - 1, version), SegmentBits(segs[n - 1], version), EncodedFrom(segs[n..], version));
    }
  }

  lemma {:induction false} ParseEncoded(segs: seq<Segment>, version: int, tail: seq<bool>)
    requires version < 41 && AllLegal(segs) && EndsParse(tail)
    requires forall i :: 0 <= i < |segs| ==> Fits(segs[i], version)
    ensures Parse(EncodedFrom(segs, version) + tail, version) == Some(segs)
  {
    hide FromBits, SegmentBits, ParsePayload, LengthBits, Fits;
    if segs == [] {
      assert EncodedFrom(segs, version) + tail == tail;
    } else {
      var rest := EncodedFrom(segs[1..], version) + tail;
      ParseEncoded(segs[1..], version, tail);
      SegmentRoundTrip(segs[0], version, rest);
      ConcatAssoc(SegmentBits(segs[0], version), EncodedFrom(segs[1..], version), tail);
      SegmentNonempty(segs[0], version);
      assert segs == [segs[0]] + segs[1..];
    }
  }

  lemma SegmentNonempty(seg: Segment, version: int)
    requires version < 41 && seg.Legal()
    ensures |SegmentBits(seg, version)| >= 4 && seg.Mode() > 0
    ensures LengthBits(seg.Mode(), version).Some?
  {}
}
