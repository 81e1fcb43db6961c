/** The raster loop with the encoder's own table, an object whose inherited
    property names count as keys, and when the pixels survive that. */
module LzwRaster {
  import opened Wrappers
  import opened Bits
  import opened BitStream
  import opened Lzw
  import opened SeqLaws

  // ---------- Names that every object has ----------

  const NAMES: seq<string> := [
    "constructor", "hasOwnProperty", "isPrototypeOf", "propertyIsEnumerable", "toLocaleString", "toString", "valueOf",
    "__proto__", "__defineGetter__", "__defineSetter__", "__lookupGetter__", "__lookupSetter__"]

  function CharCodes(name: string): (s: Str)
    ensures |s| == |name| && forall i :: 0 <= i < |s| ==> s[i] == name[i] as nat
  {
    seq(|name|, i requires 0 <= i < |name| => name[i] as nat)
  }

  predicate Inherited(s: Str) { exists i :: 0 <= i < |NAMES| && s == CharCodes(NAMES[i]) }

  lemma InheritedShape(s: Str)
    requires Inherited(s)
    ensures |s| >= 7 && s[0] >= 95
  {
    var i :| 0 <= i < |NAMES| && s == CharCodes(NAMES[i]);
    NameShape(i);
  }

  lemma NameShape(i: nat)
    requires i < |NAMES|
    ensures |NAMES[i]| >= 7 && NAMES[i][0] as nat >= 95
  {}

  // ---------- The coder, as the source's table makes it ----------

  predicate Has(keys: seq<Str>, s: Str) { s in keys || Inherited(s) }

  // The value under an inherited name is no number and is written as zero bits.
  function CodeOf(keys: seq<Str>, s: Str): (code: nat)
    ensures code < |keys| || code == 0
  {
    if s in keys then IndexOf(keys, s) else 0
  }

  function SourceCodes(e: Coder, s: Str, data: seq<nat>): seq<Code>
    decreases |data|
  {
    if data == [] then [Code(CodeOf(e.keys, s), e.width)]
    else
      var c := data[0];
      if Has(e.keys, s + [c]) then SourceCodes(e, s + [c], data[1..])
      else [Code(CodeOf(e.keys, s), e.width)] + SourceCodes(Grow(e, s, c), [c], data[1..])
  }

  function SourceFinal(e: Coder, s: Str, data: seq<nat>): Coder
    decreases |data|
  {
    if data == [] then e
    else
      var c := data[0];
      if Has(e.keys, s + [c]) then SourceFinal(e, s + [c], data[1..]) else SourceFinal(Grow(e, s, c), [c], data[1..])
  }

  function SourceBits(m: nat, data: seq<nat>): seq<bool>
    requires data != []
  {
    LowBits(ClearCode(m), m + 1)
    + CodeBits(SourceCodes(Start(m), [data[0]], data[1..]))
    + LowBits(EndCode(m), SourceFinal(Start(m), [data[0]], data[1..]).width)
  }

  // The loop comes to a string that is an inherited name and no key.
  predicate Meets(e: Coder, s: Str, data: seq<nat>)
    decreases |data|
  {
    data != [] &&
    var c := data[0];
    if s + [c] in e.keys then Meets(e, s + [c], data[1..])
    else Inherited(s + [c]) || Meets(Grow(e, s, c), [c], data[1..])
  }

  predicate MeetsName(m: nat, data: seq<nat>)
    requires data != []
  {
    Meets(Start(m), [data[0]], data[1..])
  }

  // Without such a string the table is a plain one.
  lemma {:induction false} PlainCodes(m: nat, e: Coder, s: Str, d: Decoder, data: seq<nat>)
    requires InStep(m, e, s, d) && Pixels(m, data) && !Meets(e, s, data)
    ensures s in e.keys && forall i :: 0 <= i < |data| ==> [data[i]] in e.keys
    ensures SourceCodes(e, s, data) == Codes(e, s, data) && SourceFinal(e, s, data) == Final(e, s, data)
    decreases |data|
  {
    hide InStep, Pixels, Grow, Advance, Inherited, IndexOf;
    KeysKnow(m, e, s, d, data);
    if data != [] {
      var c := data[0];
      PixelsSplit(m, data);
      if s + [c] in e.keys {
        Extend(m, e, s, d, c);
        PlainCodes(m, e, s + [c], d, data[1..]);
      } else {
        NextInStep(m, e, s, d, c);
        PlainCodes(m, Grow(e, s, c), [c], Advance(d, s), data[1..]);
      }
    }
  }

  // Pixels of up to six bits spell no name.
  lemma {:induction false} SixBitsSafe(m: nat, e: Coder, s: Str, data: seq<nat>)
    requires m <= 6 && s != [] && s[0] < Pow2(m) && Pixels(m, data)
    ensures !Meets(e, s, data)
    decreases |data|
  {
    hide Grow, Inherited, Pow2;
    if data != [] {
      var c := data[0];
      PixelsSplit(m, data);
      SixBits(m);
      if Inherited(s + [c]) { InheritedShape(s + [c]); }
      SixBitsSafe(m, e, s + [c], data[1..]);
      SixBitsSafe(m, Grow(e, s, c), [c], data[1..]);
    }
  }

  lemma SixBits(m: nat)
    requires m <= 6
    ensures Pow2(m) <= 64
  {
    Pow2Monotone(m, 6);
    assert Pow2(6) == 64;
  }

  // ---------- A met name is lost ----------

  // Every key but the one-character ones extends another key.
  predicate Closed(keys: seq<Str>) {
    forall i :: 0 <= i < |keys| && |keys[i]| >= 2 ==> keys[i][..|keys[i]| - 1] in keys
  }

  lemma ClosedGrow(e: Coder, s: Str, c: nat)
    requires Closed(e.keys) && s in e.keys
    ensures Closed(Grow(e, s, c).keys)
  {
    assert (s + [c])[..|s|] == s;
  }

  lemma NotExtended(keys: seq<Str>, s: Str, c: nat)
    requires Closed(keys) && s != [] && s !in keys
    ensures s + [c] !in keys
  {
    forall i | 0 <= i < |keys| ensures keys[i] != s + [c] {
      assert (s + [c])[..|s|] == s;
    }
  }

  // What is written for a string that is no key starts with code zero.
  lemma {:induction false} ZeroFirst(e: Coder, s: Str, data: seq<nat>)
    requires Closed(e.keys) && s != [] && s !in e.keys
    ensures SourceCodes(e, s, data) != [] && SourceCodes(e, s, data)[0] == Code(0, e.width)
    decreases |data|
  {
    hide Closed, Inherited, Grow;
    if data != [] {
      NotExtended(e.keys, s, data[0]);
      ZeroFirst(e, s + [data[0]], data[1..]);
    }
  }

  // The decoder takes code zero for pixel zero.
  lemma ZeroRead(m: nat, e: Coder, s: Str, d: Decoder, rest: seq<bool>)
    requires InStep(m, e, s, d)
    ensures var r := Decode(LowBits(0, e.width) + rest, m, d);
            r.Some? ==> r.value.pixels != [] && r.value.pixels[0] == 0
  {
    SmallTables(m);
    var bits := LowBits(0, e.width) + rest;
    LowBitsZero(e.width);
    LowRoundTrip(0, e.width);
    assert bits[..e.width] == LowBits(0, e.width);
    assert e.keys[0] == [0] && |e.keys| >= 6;
    assert Lookup(d, 0) == Some([0]);
    hide InStep, LowBits, LowValue, Advance;
  }

  lemma {:induction false} MetIsLost(m: nat, e: Coder, s: Str, d: Decoder, data: seq<nat>, tail: seq<bool>)
    requires InStep(m, e, s, d) && Pixels(m, data) && Closed(e.keys) && Meets(e, s, data)
    ensures var r := Decode(CodeBits(SourceCodes(e, s, data)) + tail, m, d);
            r.Some? ==> r.value.pixels != s + data
    decreases |data|
  {
    hide InStep, Decode, LowBits, IndexOf, Pixels, Grow, Advance, Closed, Inherited;
    KeysKnow(m, e, s, d, data);
    var c := data[0];
    PixelsSplit(m, data);
    if s + [c] in e.keys {
      Extend(m, e, s, d, c);
      MetIsLost(m, e, s + [c], d, data[1..], tail);
      assert s + [c] + data[1..] == s + data;
    } else if Inherited(s + [c]) {
      InheritedShape(s + [c]);
      assert (s + [c])[0] == s[0];
      ZeroFirst(e, s + [c], data[1..]);
      var codes := SourceCodes(e, s + [c], data[1..]);
      assert codes == [Code(0, e.width)] + codes[1..];
      MoreCodes(Code(0, e.width), codes[1..], tail);
      ZeroRead(m, e, s, d, CodeBits(codes[1..]) + tail);
      assert (s + data)[0] == s[0];
    } else {
      NextInStep(m, e, s, d, c);
      ClosedGrow(e, s, c);
      MetIsLost(m, Grow(e, s, c), [c], Advance(d, s), data[1..], tail);
      var more := SourceCodes(Grow(e, s, c), [c], data[1..]);
      MoreCodes(Code(IndexOf(e.keys, s), e.width), more, tail);
      DecodeStep(m, e, s, d, CodeBits(more) + tail);
      assert [c] + data[1..] == data;
      SamePrefix(s, data);
    }
  }

  lemma SamePrefix(s: Str, data: seq<nat>)
    ensures forall pixels: seq<nat> :: s + pixels == s + data ==> pixels == data
  {
    forall pixels: seq<nat> | s + pixels == s + data ensures pixels == data {
      assert pixels == (s + pixels)[|s|..] && data == (s + data)[|s|..];
    }
  }

  // The decoder gets every pixel back if and only if the loop met no inherited
  // name; and none is met with pixels of up to six bits.
  lemma RasterExact(m: nat, data: seq<nat>, bits: seq<bool>, pad: nat)
    requires 2 <= m <= 8 && data != [] && Pixels(m, data) && pad < 8
    requires bits == SourceBits(m, data) + FalseBits(pad)
    ensures var r := Decode(bits, m, Reset(m));
            (r.Some? && r.value.pixels == data) <==> !MeetsName(m, data)
    ensures m <= 6 ==> !MeetsName(m, data)
  {
    hide Decode, CodeBits, LowBits, InStep, GrewAtEnd, Codes, SourceCodes, Final, SourceFinal, Pow2, Meets, Closed;
    PixelsSplit(m, data);
    StartInStep(m, data[0]);
    if m <= 6 { SixBitsSafe(m, Start(m), [data[0]], data[1..]); }
    if MeetsName(m, data) {
      StartClosed(m);
      var codes := CodeBits(SourceCodes(Start(m), [data[0]], data[1..]));
      var end := LowBits(EndCode(m), SourceFinal(Start(m), [data[0]], data[1..]).width);
      MetIsLost(m, Start(m), [data[0]], Reset(m), data[1..], end + FalseBits(pad));
      assert bits == LowBits(ClearCode(m), m + 1) + (codes + (end + FalseBits(pad)));
      DecodeClear(m, codes + (end + FalseBits(pad)));
      assert [data[0]] + data[1..] == data;
    } else {
      PlainCodes(m, Start(m), [data[0]], Reset(m), data[1..]);
      PlainBits(m, data);
      Lossless(m, data, bits, pad);
    }
  }

  lemma StartClosed(m: nat)
    ensures Closed(Start(m).keys)
  {}

  lemma PlainBits(m: nat, data: seq<nat>)
    requires 2 <= m <= 8 && data != [] && Pixels(m, data)
    requires forall i :: 0 <= i < |data| ==> [data[i]] in Start(m).keys
    requires SourceCodes(Start(m), [data[0]], data[1..]) == Codes(Start(m), [data[0]], data[1..])
    requires SourceFinal(Start(m), [data[0]], data[1..]) == Final(Start(m), [data[0]], data[1..])
    ensures SourceBits(m, data) == AllBits(m, data)
  {
    hide Codes, SourceCodes, Final, SourceFinal, LowBits, CodeBits, Pow2;
  }

  // ---------- The table ----------

  class LzwTable {
    var codes: map<Str, nat>
    var size: nat
    ghost var keys: seq<Str>

    ghost predicate Valid()
      reads this
    {
      && size == |keys| && Distinct(keys)
      && (forall i :: 0 <= i < |keys| ==> keys[i] in codes && codes[keys[i]] == i)
      && (forall s :: s in codes ==> s in keys)
    }

    constructor ()
      ensures Valid() && keys == []
    {
      codes := map[];
      size := 0;
      keys := [];
    }

    // Fails, where the source throws 'dup key', exactly when the key is known,
    // be it by inheritance.
    method Add(key: Str) returns (ok: bool)
      requires Valid()
      modifies this
      ensures Valid()
      ensures ok <==> !Has(old(keys), key)
      ensures keys == if ok then old(keys) + [key] else old(keys)
    {
      if Contains(key) {
        return false;
      }
      codes := codes[key := size];
      size := size + 1;
      GrowDistinct(keys, key);
      keys := keys + [key];
      ok := true;
    }

    // The number that is written for a key.
    method Find(key: Str) returns (index: nat)
      requires Valid() && Has(keys, key)
      ensures index == CodeOf(keys, key)
    {
      if key !in codes {
        return 0;
      }
      index := codes[key];
      IndexUnique(keys, key, index);
    }

    predicate Contains(key: Str)
      reads this
    {
      key in codes || Inherited(key)
    }
  }

  // The table with the first n characters, in order.
  ghost predicate Holds(table: LzwTable, n: nat)
    reads table
  {
    table.Valid() && table.keys == InitialKeys(n)
  }

  // The table before the first pixel.
  method SetupTable(m: nat) returns (table: LzwTable)
    ensures fresh(table) && Holds(table, Pow2(m) + 2)
  {
    hide Pow2, Holds;
    table := NewTable();
    var clearCode := Pow2(m);
    AddCharacters(table, clearCode);
    AddCharacter(table, clearCode);
    AddCharacter(table, clearCode + 1);
  }

  method NewTable() returns (table: LzwTable)
    ensures fresh(table) && Holds(table, 0)
  {
    table := new LzwTable();
  }

  method AddCharacters(table: LzwTable, n: nat)
    requires Holds(table, 0)
    modifies table
    ensures Holds(table, n)
  {
    hide Holds;
    for i := 0 to n
      invariant Holds(table, i)
    {
      AddCharacter(table, i);
    }
  }

  // One character is never known before, so adding it does not throw.
  method AddCharacter(table: LzwTable, i: nat)
    requires Holds(table, i)
    modifies table
    ensures Holds(table, i + 1)
  {
    hide Inherited, LzwTable.Valid, InitialKeys;
    FirstKeys(i);
    OneCharacter(i);
    var ok := table.Add([i]);
  }

  lemma FirstKeys(i: nat)
    ensures InitialKeys(0) == [] && [i] !in InitialKeys(i) && InitialKeys(i + 1) == InitialKeys(i) + [[i]]
  {}

  lemma OneCharacter(i: nat)
    ensures !Inherited([i])
  {
    if Inherited([i]) { InheritedShape([i]); }
  }

  // ---------- The loop ----------

  // Room for every code in the current width.
  predicate TableOk(m: nat, e: Coder) {
    && 2 <= m <= 8 && m + 1 <= e.width <= 12
    && Pow2(m) + 2 <= |e.keys| <= MAX_SIZE && |e.keys| <= Pow2(e.width)
    && forall i :: 0 <= i < Pow2(m) ==> e.keys[i] == [i]
  }

  // Between two pixels: writing the codes still due completes `all` and ends in
  // table f.
  ghost predicate Coding(m: nat, all: seq<bool>, f: Coder, e: Coder, s: Str, rest: seq<nat>, bits: seq<bool>) {
    && TableOk(m, e) && Pixels(m, rest) && Has(e.keys, s)
    && bits + CodeBits(SourceCodes(e, s, rest)) == all
    && SourceFinal(e, s, rest) == f
  }

  lemma TableGrows(m: nat, e: Coder, s: Str, c: nat)
    requires TableOk(m, e) && c < Pow2(m)
    ensures TableOk(m, Grow(e, s, c)) && [c] in Grow(e, s, c).keys
  {
    hide Pow2;
    var next := Grow(e, s, c);
    assert next.keys[c] == [c];
    NextWidth(e.width);
    if e.width == 12 { TwelveBits(); }
  }

  lemma NextWidth(w: nat)
    ensures Pow2(w + 1) == 2 * Pow2(w)
  {}

  lemma TwelveBits()
    ensures Pow2(12) == 4096
  {
    assert Pow2(4) == 16;
    assert Pow2(8) == 16 * Pow2(4);
    assert Pow2(12) == 16 * Pow2(8);
  }

  lemma StartOk(m: nat, c: nat)
    requires 2 <= m <= 8 && c < Pow2(m)
    ensures TableOk(m, Start(m)) && [c] in Start(m).keys
  {
    SmallTables(m);
    assert Start(m).keys[c] == [c];
  }

  lemma {:induction false} FinalWidth(m: nat, e: Coder, s: Str, data: seq<nat>)
    requires TableOk(m, e) && Pixels(m, data)
    ensures TableOk(m, SourceFinal(e, s, data))
    decreases |data|
  {
    hide TableOk, Has, Pow2;
    if data != [] {
      var c := data[0];
      if Has(e.keys, s + [c]) {
        FinalWidth(m, e, s + [c], data[1..]);
      } else {
        TableGrows(m, e, s, c);
        FinalWidth(m, Grow(e, s, c), [c], data[1..]);
      }
    }
  }

  // What stands at both ends, read low bit first: the number one past the pixel
  // values, in a bit more than a pixel takes, and the number after it, in the
  // width reached.
  lemma Framed(m: nat, data: seq<nat>) returns (width: nat)
    requires 2 <= m <= 8 && data != [] && Pixels(m, data)
    ensures m < width <= 12
    ensures var bits := SourceBits(m, data);
      && |bits| >= m + 1 + width
      && LowValue(bits[..m + 1]) == Pow2(m) && LowValue(bits[|bits| - width..]) == Pow2(m) + 1
  {
    hide SourceFinal, SourceCodes, CodeBits, LowBits, LowValue, Pow2;
    StartOk(m, data[0]);
    FinalWidth(m, Start(m), [data[0]], data[1..]);
    width := SourceFinal(Start(m), [data[0]], data[1..]).width;
    var codes := CodeBits(SourceCodes(Start(m), [data[0]], data[1..]));
    var first, last := LowBits(ClearCode(m), m + 1), LowBits(EndCode(m), width);
    assert SourceBits(m, data) == first + codes + last;
    assert (first + codes + last)[..m + 1] == first;
    SmallTables(m);
    Pow2Monotone(m + 1, width);
    LowRoundTrip(Pow2(m), m + 1);
    LowRoundTrip(Pow2(m) + 1, width);
  }

  lemma CodingExtend(m: nat, all: seq<bool>, f: Coder, e: Coder, s: Str, rest: seq<nat>, bits: seq<bool>)
    requires Coding(m, all, f, e, s, rest, bits) && rest != [] && Has(e.keys, s + [rest[0]])
    ensures Coding(m, all, f, e, s + [rest[0]], rest[1..], bits)
  {
    hide CodeBits, Pixels, Has, TableOk;
    PixelsSplit(m, rest);
  }

  lemma CodingGrow(m: nat, all: seq<bool>, f: Coder, e: Coder, s: Str, rest: seq<nat>, bits: seq<bool>)
    requires Coding(m, all, f, e, s, rest, bits) && rest != [] && !Has(e.keys, s + [rest[0]])
    ensures Coding(m, all, f, Grow(e, s, rest[0]), [rest[0]], rest[1..], bits + LowBits(CodeOf(e.keys, s), e.width))
  {
    hide LowBits, Pixels, Grow, TableOk, CodeOf, Inherited;
    var c := rest[0];
    PixelsSplit(m, rest);
    TableGrows(m, e, s, c);
    var code, more := Code(CodeOf(e.keys, s), e.width), SourceCodes(Grow(e, s, c), [c], rest[1..]);
    MoreCodes(code, more, []);
    ConcatAssoc(bits, LowBits(code.value, code.width), CodeBits(more));
  }

  lemma CodingEnd(m: nat, all: seq<bool>, f: Coder, e: Coder, s: Str, bits: seq<bool>)
    requires Coding(m, all, f, e, s, [], bits)
    ensures f == e && bits + LowBits(CodeOf(e.keys, s), e.width) == all
  {
    hide LowBits, CodeOf;
    SingleCode(Code(CodeOf(e.keys, s), e.width), []);
  }

  // The zero bits that complete the last byte.
  function Padding(n: nat): (pad: nat)
    ensures pad < 8 && (n + pad) % 8 == 0
  {
    (8 - n % 8) % 8
  }

  // The raster of a non-empty image.  None of the throws on the way ('dup key',
  // 'length over') is reached, whatever the pixels; and the decoder gets every
  // pixel back from it exactly when no inherited name was met.
  method GetLzwRaster(m: nat, data: seq<nat>) returns (raster: seq<nat>)
    requires 2 <= m <= 8 && data != [] && Pixels(m, data)
    ensures ByteBits(raster) == SourceBits(m, data) + FalseBits(Padding(|SourceBits(m, data)|))
    ensures var r := Decode(ByteBits(raster), m, Reset(m));
            (r.Some? && r.value.pixels == data) <==> !MeetsName(m, data)
    ensures m <= 6 ==> !MeetsName(m, data)
  {
    hide *;
    PixelsSplit(m, data);
    StartOk(m, data[0]);
    CodingStart(m, data);
    var table, bitOut := StartRaster(m);
    ghost var all, f := AllCodes(m, data), SourceFinal(Start(m), [data[0]], data[1..]);
    var bitLength: nat := m + 1;
    var dataIndex := 1;
    var s := [data[0]];
    while dataIndex < |data|
      invariant 1 <= dataIndex <= |data| && fresh(table) && fresh(bitOut) && table.Valid() && bitOut.Valid()
      invariant Coding(m, all, f, Coder(table.keys, bitLength), s, data[dataIndex..], bitOut.bits)
    {
      bitLength, s := NextPixel(m, table, bitOut, bitLength, s, data[dataIndex], data[dataIndex..], all, f);
      assert data[dataIndex..][1..] == data[dataIndex + 1..];
      dataIndex := dataIndex + 1;
    }
    assert data[dataIndex..] == [];
    ghost var e := Coder(table.keys, bitLength);
    CodingEnd(m, all, f, e, s, bitOut.bits);
    CodingMeans(m, all, f, e, s, [], bitOut.bits);
    WriteLast(m, table, bitOut, bitLength, s);
    SourceBitsAre(m, data);
    bitOut.Flush();
    raster := bitOut.out;
    PaddingOf(|SourceBits(m, data)|);
    RasterExact(m, data, ByteBits(raster), Padding(|SourceBits(m, data)|));
  }

  // The clear code and the codes of the pixels.
  function AllCodes(m: nat, data: seq<nat>): seq<bool>
    requires data != []
  {
    LowBits(ClearCode(m), m + 1) + CodeBits(SourceCodes(Start(m), [data[0]], data[1..]))
  }

  lemma PaddingOf(n: nat)
    ensures Padding(n) == (8 - n % 8) % 8
  {}

  method StartRaster(m: nat) returns (table: LzwTable, bitOut: BitOutputStream)
    requires 2 <= m <= 8
    ensures fresh(table) && fresh(bitOut) && table.Valid() && bitOut.Valid()
    ensures Coder(table.keys, m + 1) == Start(m) && bitOut.bits == LowBits(ClearCode(m), m + 1)
  {
    hide LowBits, Pow2;
    table := SetupTable(m);
    bitOut := new BitOutputStream();
    EndFits(m, m + 1);
    var ok := bitOut.Write(Pow2(m), m + 1);
    assert ok;
    assert [] + LowBits(Pow2(m), m + 1) == LowBits(Pow2(m), m + 1);
  }

  // One round of the loop.
  method NextPixel(m: nat, table: LzwTable, bitOut: BitOutputStream, bitLength: nat, s: Str, c: nat,
                   ghost rest: seq<nat>, ghost all: seq<bool>, ghost f: Coder)
    returns (bitLength': nat, s': Str)
    requires table.Valid() && bitOut.Valid() && rest != [] && rest[0] == c
    requires Coding(m, all, f, Coder(table.keys, bitLength), s, rest, bitOut.bits)
    modifies table, bitOut
    ensures table.Valid() && bitOut.Valid()
    ensures Coding(m, all, f, Coder(table.keys, bitLength'), s', rest[1..], bitOut.bits)
  {
    hide LowBits, Grow, Coding, Has, CodeOf, TableOk;
    ghost var e := Coder(table.keys, bitLength);
    ContainsIsHas(table, s + [c]);
    if table.Contains(s + [c]) {
      CodingExtend(m, all, f, e, s, rest, bitOut.bits);
      bitLength', s' := bitLength, s + [c];
    } else {
      CodingGrow(m, all, f, e, s, rest, bitOut.bits);
      CodingMeans(m, all, f, e, s, rest, bitOut.bits);
      bitLength' := WriteAndGrow(m, table, bitOut, bitLength, s, c);
      s' := [c];
    }
  }

  lemma CodingStart(m: nat, data: seq<nat>)
    requires 2 <= m <= 8 && data != [] && Pixels(m, data)
    ensures Coding(m, AllCodes(m, data), SourceFinal(Start(m), [data[0]], data[1..]),
                   Start(m), [data[0]], data[1..], LowBits(ClearCode(m), m + 1))
  {
    PixelsSplit(m, data);
    StartOk(m, data[0]);
    hide SourceCodes, SourceFinal, CodeBits, TableOk, Pixels, Inherited, LowBits, ClearCode;
  }

  lemma CodingMeans(m: nat, all: seq<bool>, f: Coder, e: Coder, s: Str, rest: seq<nat>, bits: seq<bool>)
    requires Coding(m, all, f, e, s, rest, bits)
    ensures TableOk(m, e) && Has(e.keys, s)
  {}

  lemma ContainsIsHas(table: LzwTable, key: Str)
    requires table.Valid()
    ensures table.Contains(key) <==> Has(table.keys, key)
  {
    hide Inherited, Distinct;
  }

  lemma SourceBitsAre(m: nat, data: seq<nat>)
    requires data != []
    ensures SourceBits(m, data)
         == AllCodes(m, data) + LowBits(Pow2(m) + 1, SourceFinal(Start(m), [data[0]], data[1..]).width)
  {
    hide LowBits, CodeBits, SourceCodes, SourceFinal, Pow2;
  }

  // Writes the code of s and makes an entry for s + [c]; returns the new width.
  method WriteAndGrow(m: nat, table: LzwTable, bitOut: BitOutputStream, width: nat, s: Str, c: nat)
    returns (bitLength: nat)
    requires table.Valid() && bitOut.Valid()
    requires TableOk(m, Coder(table.keys, width)) && Has(table.keys, s) && !Has(table.keys, s + [c])
    modifies table, bitOut
    ensures table.Valid() && bitOut.Valid()
    ensures Coder(table.keys, bitLength) == Grow(Coder(old(table.keys), width), s, c)
    ensures bitOut.bits == old(bitOut.bits) + LowBits(CodeOf(old(table.keys), s), width)
  {
    hide LowBits, Pow2, Has, CodeOf;
    bitLength := width;
    var index := table.Find(s);
    var ok := bitOut.Write(index, bitLength);
    assert ok;
    if table.size < 0xfff {
      if table.size == Pow2(bitLength) {
        bitLength := bitLength + 1;
      }
      ok := table.Add(s + [c]);
      assert ok;
    }
  }

  // The code of the last string, and the end code at the same width.
  method WriteLast(m: nat, table: LzwTable, bitOut: BitOutputStream, width: nat, s: Str)
    requires table.Valid() && bitOut.Valid()
    requires TableOk(m, Coder(table.keys, width)) && Has(table.keys, s)
    modifies bitOut
    ensures bitOut.Valid()
    ensures bitOut.bits == old(bitOut.bits) + LowBits(CodeOf(table.keys, s), width) + LowBits(Pow2(m) + 1, width)
  {
    hide LowBits, Pow2, Has, CodeOf;
    var index := table.Find(s);
    var ok := bitOut.Write(index, width);
    assert ok;
    EndFits(m, width);
    ok := bitOut.Write(Pow2(m) + 1, width);
    assert ok;
  }

  // ---------- Seven-bit pixels that are lost ----------

  const WORD: Str := [118, 97, 108, 117, 101, 79, 102]

  lemma WordInherited()
    ensures Inherited(WORD)
  {
    assert NAMES[6] == "valueOf";
    assert WORD == CharCodes(NAMES[6]);
  }

  // The table once the prefixes of the word up to length j are keys.
  function Taught(j: nat): seq<Str>
    requires 1 <= j <= 6
  {
    if j == 1 then InitialKeys(130) else Taught(j - 1) + [WORD[..j], [WORD[j - 1], WORD[0]]]
  }

  // The pixels that teach the longer prefixes one by one, and then the word.
  function Lessons(j: nat): seq<nat>
    requires 1 <= j <= 6
    decreases 6 - j
  {
    if j == 6 then WORD[1..] else WORD[1..j] + ([WORD[j], WORD[0]] + Lessons(j + 1))
  }

  lemma {:induction false} TaughtSize(j: nat)
    requires 1 <= j <= 6
    ensures |Taught(j)| == 128 + 2 * j
  {
    if j > 1 { TaughtSize(j - 1); }
  }

  lemma {:induction false} TaughtPrefix(j: nat, i: nat)
    requires 1 <= j <= 6 && 1 <= i <= 7
    ensures WORD[..i] in Taught(j) <==> i <= j
  {
    if j == 1 {
      if i == 1 { assert InitialKeys(130)[118] == WORD[..1]; }
    } else {
      TaughtPrefix(j - 1, i);
      assert |WORD[..i]| == i && (i >= 2 ==> WORD[..i][0] == 118);
      assert WORD[j - 1] != 118;
    }
  }

  lemma {:induction false} TaughtPair(j: nat, i: nat)
    requires 1 <= j <= 6 && j <= i <= 6
    ensures [WORD[i], WORD[0]] !in Taught(j)
  {
    if j > 1 {
      TaughtPair(j - 1, i);
      assert WORD[i] != WORD[j - 1] && WORD[i] != WORD[..j][0];
    }
  }

  lemma ShortSafe(s: Str)
    requires |s| < 7
    ensures !Inherited(s)
  {
    if Inherited(s) { InheritedShape(s); }
  }

  // Known prefixes change nothing.
  lemma {:induction false} PrefixExtends(j: nat, i: nat, rest: seq<nat>)
    requires 1 <= i <= j <= 6
    ensures Meets(Coder(Taught(j), 8), WORD[..i], WORD[i..j] + rest) <==> Meets(Coder(Taught(j), 8), WORD[..j], rest)
    decreases j - i
  {
    hide Taught, Inherited;
    if i == j {
      assert WORD[i..j] + rest == rest;
    } else {
      var data := WORD[i..j] + rest;
      assert data[0] == WORD[i] && data[1..] == WORD[i + 1..j] + rest;
      assert WORD[..i] + [WORD[i]] == WORD[..i + 1];
      TaughtPrefix(j, i + 1);
      PrefixExtends(j, i + 1, rest);
    }
  }

  lemma NoPowerBelow(n: nat)
    requires 130 <= n < 256
    ensures n != Pow2(8)
  {
    TwelveBits();
    assert Pow2(12) == 16 * Pow2(8);
  }

  // Two new entries: a longer prefix, and the pair that leads back to its start.
  lemma LessonTaught(j: nat, rest: seq<nat>)
    requires 1 <= j <= 5
    ensures Meets(Coder(Taught(j), 8), WORD[..j], [WORD[j], WORD[0]] + rest)
       <==> Meets(Coder(Taught(j + 1), 8), WORD[..1], rest)
  {
    hide Inherited, Pow2, Meets;
    var data := [WORD[j], WORD[0]] + rest;
    var e := Coder(Taught(j), 8);
    TaughtSize(j);
    NoPowerBelow(128 + 2 * j);
    NoPowerBelow(129 + 2 * j);
    TaughtPrefix(j, j + 1);
    TaughtPair(j, j);
    var longer, pair := WORD[..j] + [WORD[j]], [WORD[j]] + [WORD[0]];
    assert longer == WORD[..j + 1] && pair == [WORD[j], WORD[0]];
    ShortSafe(longer);
    ShortSafe(pair);
    MeetsNew(e, WORD[..j], data);
    var e1 := Grow(e, WORD[..j], WORD[j]);
    assert e1 == Coder(Taught(j) + [WORD[..j + 1]], 8);
    assert data[1..] == [WORD[0]] + rest;
    assert pair != WORD[..j + 1] by { assert WORD[j] != WORD[0]; }
    MeetsNew(e1, [WORD[j]], data[1..]);
    assert Grow(e1, [WORD[j]], WORD[0]) == Coder(Taught(j) + [WORD[..j + 1]] + [pair], 8);
    assert Taught(j) + [WORD[..j + 1]] + [pair] == Taught(j + 1);
    assert data[1..][1..] == rest && WORD[..1] == [WORD[0]];
  }

  lemma MeetsNew(e: Coder, s: Str, data: seq<nat>)
    requires data != [] && s + [data[0]] !in e.keys && !Inherited(s + [data[0]])
    ensures Meets(e, s, data) <==> Meets(Grow(e, s, data[0]), [data[0]], data[1..])
  {}

  lemma {:induction false} LessonsMeet(j: nat)
    requires 1 <= j <= 6
    ensures Meets(Coder(Taught(j), 8), WORD[..1], Lessons(j))
    decreases 6 - j
  {
    hide Taught, Inherited, Meets;
    if j == 6 {
      assert Lessons(6) == WORD[1..6] + [WORD[6]];
      PrefixExtends(6, 1, [WORD[6]]);
      WordMet();
    } else {
      LessonsMeet(j + 1);
      LessonTaught(j, Lessons(j + 1));
      PrefixExtends(j, 1, [WORD[j], WORD[0]] + Lessons(j + 1));
    }
  }

  lemma WordMet()
    ensures Meets(Coder(Taught(6), 8), WORD[..6], [WORD[6]])
  {
    hide Taught, Inherited;
    TaughtPrefix(6, 7);
    WordInherited();
    assert WORD[..6] + [WORD[6]] == WORD[..7] == WORD;
  }

  lemma {:induction false} LessonPixels(j: nat)
    requires 1 <= j <= 6
    ensures forall i :: 0 <= i < |Lessons(j)| ==> Lessons(j)[i] < 128
    decreases 6 - j
  {
    if j < 6 { LessonPixels(j + 1); }
  }

  // 27 pixels of seven bits that the decoder does not get back: they teach the
  // table all prefixes of a name that every object has, and then spell it.
  lemma NameLost()
    ensures var data := [WORD[0]] + Lessons(1);
            Pixels(7, data) && MeetsName(7, data)
  {
    var data := [WORD[0]] + Lessons(1);
    LessonPixels(1);
    LessonsMeet(1);
    SevenBits();
    hide Lessons, Meets, Pow2;
    assert data[1..] == Lessons(1) && WORD[..1] == [data[0]];
    assert Start(7) == Coder(Taught(1), 8);
  }

  lemma SevenBits()
    ensures Pow2(7) == 128
  {
    assert Pow2(4) == 16;
  }
}
