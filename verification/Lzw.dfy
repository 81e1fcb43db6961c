/** The encoder's LZW coder, as a function over a plain table of strings, and a
    standard decoder for it: Appendix F of the GIF89a specification. */
module Lzw {
  import opened Wrappers
  import opened Bits
  import opened BitStream
  import opened SeqLaws

  type Str = seq<nat>

  const MAX_SIZE := 0xfff

  // ---------- Code tables as lists: entry k is the string of code k ----------

  predicate Distinct(keys: seq<Str>) {
    forall i, j :: 0 <= i < j < |keys| ==> keys[i] != keys[j]
  }

  function IndexOf(keys: seq<Str>, s: Str): (i: nat)
    requires s in keys
    ensures i < |keys| && keys[i] == s
  {
    if keys[|keys| - 1] == s then |keys| - 1 else IndexOf(keys[..|keys| - 1], s)
  }

  lemma IndexUnique(keys: seq<Str>, s: Str, i: nat)
    requires Distinct(keys) && i < |keys| && keys[i] == s
    ensures IndexOf(keys, s) == i
  {
    var j := IndexOf(keys, s);
    assert keys[j] == keys[i];
  }

  // The single-character strings of the pixels, then clear and end.
  function InitialKeys(n: nat): (keys: seq<Str>)
    ensures |keys| == n && forall i :: 0 <= i < n ==> keys[i] == [i]
  {
    seq(n, i => [i])
  }

  function ClearCode(m: nat): nat { Pow2(m) }

  function EndCode(m: nat): nat { Pow2(m) + 1 }

  // ---------- The coder, as a function ----------

  // A table of strings and the current code width.
  datatype Coder = Coder(keys: seq<Str>, width: nat)

  function Start(m: nat): Coder { Coder(InitialKeys(Pow2(m) + 2), m + 1) }

  datatype Code = Code(value: nat, width: nat)

  // What happens to the table after a code was written because s + [c] is new.
  function Grow(e: Coder, s: Str, c: nat): Coder {
    if |e.keys| < MAX_SIZE then
      Coder(e.keys + [s + [c]], if |e.keys| == Pow2(e.width) then e.width + 1 else e.width)
    else e
  }

  // Every string the coder asks the table for is there.
  function Codes(e: Coder, s: Str, data: seq<nat>): seq<Code>
    requires s in e.keys && forall i :: 0 <= i < |data| ==> [data[i]] in e.keys
    decreases |data|
  {
    if data == [] then [Code(IndexOf(e.keys, s), e.width)]
    else
      var c := data[0];
      if s + [c] in e.keys then Codes(e, s + [c], data[1..])
      else [Code(IndexOf(e.keys, s), e.width)] + Codes(Grow(e, s, c), [c], data[1..])
  }

  // The coder after the last pixel.
  function Final(e: Coder, s: Str, data: seq<nat>): Coder
    decreases |data|
  {
    if data == [] then e
    else
      var c := data[0];
      if s + [c] in e.keys then Final(e, s + [c], data[1..]) else Final(Grow(e, s, c), [c], data[1..])
  }

  function CodeBits(codes: seq<Code>): seq<bool> {
    if codes == [] then [] else LowBits(codes[0].value, codes[0].width) + CodeBits(codes[1..])
  }

  predicate Pixels(m: nat, data: seq<nat>) { forall i :: 0 <= i < |data| ==> data[i] < Pow2(m) }

  lemma StartKnows(m: nat, data: seq<nat>)
    requires Pixels(m, data)
    ensures forall i :: 0 <= i < |data| ==> [data[i]] in Start(m).keys
  {
    forall i | 0 <= i < |data| ensures [data[i]] in Start(m).keys {
      assert Start(m).keys[data[i]] == [data[i]];
    }
  }

  // All bits before the final padding: clear, the pixels' codes, end.
  function AllBits(m: nat, data: seq<nat>): seq<bool>
    requires data != [] && Pixels(m, data)
  {
    StartKnows(m, data);
    LowBits(ClearCode(m), m + 1)
    + CodeBits(Codes(Start(m), [data[0]], data[1..]))
    + LowBits(EndCode(m), Final(Start(m), [data[0]], data[1..]).width)
  }

  // ---------- A decoder ----------

  // The decoder's table runs one entry behind the coder's; it may hold up to
  // 4096 entries.  `prev` is the last string read, empty after a clear code.
  datatype Decoder = Decoder(table: seq<Str>, prev: Str, width: nat)

  function Reset(m: nat): Decoder { Decoder(InitialKeys(Pow2(m) + 2), [], m + 1) }

  // The string of a code; a code that is one past the table stands for the
  // entry that is about to be made.
  function Lookup(d: Decoder, code: nat): Option<Str> {
    if code < |d.table| then Some(d.table[code])
    else if code == |d.table| && d.prev != [] then Some(d.prev + [d.prev[0]])
    else None
  }

  function Advance(d: Decoder, s: Str): Decoder
    requires s != []
  {
    if d.prev == [] || |d.table| >= 4096 then d.(prev := s)
    else
      var table := d.table + [d.prev + [s[0]]];
      Decoder(table, s, if |table| == Pow2(d.width) && |table| < 4096 then d.width + 1 else d.width)
  }

  // The pixels read, and whether the end code was reached before the bits ran
  // out; None for a code that stands for nothing.
  datatype Image = Image(pixels: seq<nat>, ended: bool)

  function Decode(bits: seq<bool>, m: nat, d: Decoder): Option<Image>
    decreases |bits|
  {
    if d.width == 0 || |bits| < d.width then Some(Image([], false))
    else
      var code, rest := LowValue(bits[..d.width]), bits[d.width..];
      if code == EndCode(m) then Some(Image([], true))
      else if code == ClearCode(m) then Decode(rest, m, Reset(m))
      else
        var s := Lookup(d, code);
        if s.None? || s.value == [] then None
        else
          var r := Decode(rest, m, Advance(d, s.value));
          if r.None? then None else Some(Image(s.value + r.value.pixels, r.value.ended))
  }

  // ---------- Coder and decoder stay in step ----------

  ghost predicate KeysOk(m: nat, keys: seq<Str>) {
    && Pow2(m) + 2 <= |keys| <= MAX_SIZE && Distinct(keys)
    && (forall i :: 0 <= i < Pow2(m) + 2 ==> keys[i] == [i])
  }

  // The width is the least that holds n codes' largest value, but at least m + 1.
  ghost predicate WidthOk(m: nat, w: nat, n: nat) {
    && m + 1 <= w <= 12 && n < Pow2(w)
    && (w > m + 1 ==> Pow2(w - 1) <= n)
  }

  // The coder is about to extend or write s; the decoder has read everything
  // written so far.
  ghost predicate InStep(m: nat, e: Coder, s: Str, d: Decoder) {
    && 2 <= m <= 8 && KeysOk(m, e.keys)
    && s in e.keys && s != [] && Pixels(m, s)
    && d.width == e.width
    && if d.prev == [] then
         // nothing read since the clear code
         d.table == e.keys && |e.keys| == Pow2(m) + 2 && |s| == 1 && e.width == m + 1
       else if |d.table| < |e.keys| then
         // the entry the coder made last is still to come
         e.keys == d.table + [d.prev + [s[0]]] && WidthOk(m, e.width, |d.table|)
       else
         // the coder's table is full and the decoder has caught up
         |e.keys| == MAX_SIZE && |d.table| <= 4096 && e.keys == d.table[..MAX_SIZE] && e.width == 12
  }

  lemma SmallTables(m: nat)
    requires 2 <= m <= 8
    ensures 4 <= Pow2(m) <= 256 && Pow2(m + 1) == 2 * Pow2(m) && Pow2(11) == 2048 && Pow2(12) == 4096
  {
    Pow2Monotone(2, m);
    Pow2Monotone(m, 8);
    Pow2Eight();
    assert Pow2(11) == 8 * Pow2(8);
    assert Pow2(12) == 2 * Pow2(11);
  }

  // Reading the code of s yields s: it is never clear or end, it fits its width
  // (so 'length over' is not thrown), and the decoder knows it.
  lemma CodeRead(m: nat, e: Coder, s: Str, d: Decoder)
    requires InStep(m, e, s, d)
    ensures var k := IndexOf(e.keys, s);
            k < Pow2(e.width) && k != ClearCode(m) && k != EndCode(m) && Lookup(d, k) == Some(s)
  {
    SmallTables(m);
    var k := IndexOf(e.keys, s);
    assert s[0] < Pow2(m);
    if k == |d.table| {
      assert s == d.prev + [s[0]];
      assert s[0] == d.prev[0];
    }
  }

  lemma GrowDistinct(keys: seq<Str>, s: Str)
    requires Distinct(keys) && s !in keys
    ensures Distinct(keys + [s])
  {}

  lemma WidthStep(m: nat, w: nat, n: nat)
    requires 2 <= m <= 8 && WidthOk(m, w, n) && n + 1 < 4096
    ensures WidthOk(m, if n + 1 == Pow2(w) then w + 1 else w, n + 1)
  {
    SmallTables(m);
    if w < 12 { Pow2Monotone(w + 1, 12); }
  }

  lemma WidthAtLimit(m: nat, w: nat, n: nat)
    requires 2 <= m <= 8 && WidthOk(m, w, n) && n >= 2048
    ensures w == 12
  {
    SmallTables(m);
    if w < 12 { Pow2Monotone(w, 11); }
  }

  lemma GrowOk(m: nat, e: Coder, s: Str, c: nat)
    requires 2 <= m <= 8 && KeysOk(m, e.keys) && c < Pow2(m) && s + [c] !in e.keys
    ensures var keys := Grow(e, s, c).keys;
            KeysOk(m, keys) && [c] in keys && Pixels(m, [c])
  {
    GrowDistinct(e.keys, s + [c]);
    var keys := Grow(e, s, c).keys;
    assert keys[c] == [c];
  }

  // After a code was written and read, coder and decoder are in step again.
  lemma NextInStep(m: nat, e: Coder, s: Str, d: Decoder, c: nat)
    requires InStep(m, e, s, d) && c < Pow2(m) && s + [c] !in e.keys
    ensures InStep(m, Grow(e, s, c), [c], Advance(d, s))
  {
    hide KeysOk, Pixels, Pow2;
    GrowOk(m, e, s, c);
    SmallTables(m);
    if d.prev == [] {
      NextAfterClear(m, e, s, d, c);
    } else if |d.table| < |e.keys| {
      NextBehind(m, e, s, d, c);
    } else {
      assert Advance(d, s).table[..MAX_SIZE] == d.table[..MAX_SIZE];
    }
  }

  lemma NextAfterClear(m: nat, e: Coder, s: Str, d: Decoder, c: nat)
    requires InStep(m, e, s, d) && d.prev == []
    ensures var e', d' := Grow(e, s, c), Advance(d, s);
            && e'.keys == d'.table + [d'.prev + [c]] && WidthOk(m, e'.width, |d'.table|)
            && d'.prev == s && d'.width == e'.width
  {
    SmallTables(m);
  }

  lemma NextBehind(m: nat, e: Coder, s: Str, d: Decoder, c: nat)
    requires InStep(m, e, s, d) && d.prev != [] && |d.table| < |e.keys|
    ensures var e', d' := Grow(e, s, c), Advance(d, s);
            && d'.prev == s && d'.width == e'.width && d'.table == e.keys
            && if |e.keys| < MAX_SIZE
               then e'.keys == d'.table + [d'.prev + [c]] && WidthOk(m, e'.width, |d'.table|)
               else e' == e && e.width == 12
  {
    hide KeysOk, IndexOf, Pixels;
    SmallTables(m);
    assert Advance(d, s).table == e.keys;
    if |e.keys| < MAX_SIZE {
      WidthStep(m, e.width, |d.table|);
    } else {
      WidthAtLimit(m, e.width, |d.table|);
    }
  }

  // ---------- Lossless ----------

  // Where the width the decoder expects for the end code differs from the one
  // the coder uses.
  predicate GrewAtEnd(e: Coder) { |e.keys| == Pow2(e.width) }

  lemma EndRead(m: nat, e: Coder, s: Str, d: Decoder, pad: nat)
    requires InStep(m, e, s, d) && pad < 8
    ensures var tail := LowBits(EndCode(m), e.width) + FalseBits(pad);
            Decode(tail, m, Advance(d, s)) == Some(Image([], !(GrewAtEnd(e) && pad == 0)))
  {
    hide Decode;
    SmallTables(m);
    var d' := Advance(d, s);
    var end, w := EndCode(m), e.width;
    var tail := LowBits(end, w) + FalseBits(pad);
    LastWidth(m, e, s, d);
    EndFits(m, w);
    if d'.width == w {
      assert tail[..w] == LowBits(end, w);
      LowRoundTrip(end, w);
      DecodeEnd(tail, m, d');
    } else if pad > 0 {
      LowBitsPad(end, w, 1);
      assert tail[..w + 1] == LowBits(end, w) + FalseBits(1);
      assert Pow2(w + 1) == 2 * Pow2(w);
      LowRoundTrip(end, w + 1);
      DecodeEnd(tail, m, d');
    } else {
      DecodeShort(tail, m, d');
    }
  }

  lemma DecodeEnd(bits: seq<bool>, m: nat, d: Decoder)
    requires 0 < d.width <= |bits| && LowValue(bits[..d.width]) == EndCode(m)
    ensures Decode(bits, m, d) == Some(Image([], true))
  {}

  lemma DecodeShort(bits: seq<bool>, m: nat, d: Decoder)
    requires |bits| < d.width
    ensures Decode(bits, m, d) == Some(Image([], false))
  {}

  lemma EndFits(m: nat, w: nat)
    requires 2 <= m <= 8 && w >= m + 1
    ensures EndCode(m) < Pow2(w)
  {
    SmallTables(m);
    Pow2Monotone(m + 1, w);
  }

  lemma LastWidth(m: nat, e: Coder, s: Str, d: Decoder)
    requires InStep(m, e, s, d)
    ensures e.width >= m + 1
    ensures Advance(d, s).width == if GrewAtEnd(e) then e.width + 1 else e.width
  {
    SmallTables(m);
    if d.prev != [] && |d.table| < |e.keys| {
      if e.width < 12 { Pow2Monotone(e.width, 11); }
    }
  }

  lemma {:induction false} DecodeCodes(m: nat, e: Coder, s: Str, data: seq<nat>, d: Decoder, pad: nat)
    requires InStep(m, e, s, d) && Pixels(m, data) && pad < 8
    ensures forall i :: 0 <= i < |data| ==> [data[i]] in e.keys
    ensures var f := Final(e, s, data);
            var bits := CodeBits(Codes(e, s, data)) + (LowBits(EndCode(m), f.width) + FalseBits(pad));
            Decode(bits, m, d) == Some(Image(s + data, !(GrewAtEnd(f) && pad == 0)))
    decreases |data|
  {
    hide InStep, Decode, LowBits, IndexOf, Pixels, GrewAtEnd, Grow, Advance;
    KeysKnow(m, e, s, d, data);
    var f := Final(e, s, data);
    var tail := LowBits(EndCode(m), f.width) + FalseBits(pad);
    if data == [] {
      var code := Code(IndexOf(e.keys, s), e.width);
      CodeRead(m, e, s, d);
      EndRead(m, e, s, d, pad);
      SingleCode(code, tail);
      DecodeStep(m, e, s, d, tail);
      assert s + [] == s;
    } else {
      var c := data[0];
      PixelsSplit(m, data);
      if s + [c] in e.keys {
        Extend(m, e, s, d, c);
        DecodeCodes(m, e, s + [c], data[1..], d, pad);
        assert s + [c] + data[1..] == s + data;
      } else {
        NextInStep(m, e, s, d, c);
        DecodeCodes(m, Grow(e, s, c), [c], data[1..], Advance(d, s), pad);
        CodeRead(m, e, s, d);
        KeysKnow(m, Grow(e, s, c), [c], Advance(d, s), data[1..]);
        var more := Codes(Grow(e, s, c), [c], data[1..]);
        MoreCodes(Code(IndexOf(e.keys, s), e.width), more, tail);
        DecodeStep(m, e, s, d, CodeBits(more) + tail);
        assert [c] + data[1..] == data;
      }
    }
  }

  lemma SingleCode(code: Code, tail: seq<bool>)
    ensures CodeBits([code]) + tail == LowBits(code.value, code.width) + tail
  {
    assert [code][1..] == [];
  }

  lemma MoreCodes(code: Code, more: seq<Code>, tail: seq<bool>)
    ensures CodeBits([code] + more) + tail == LowBits(code.value, code.width) + (CodeBits(more) + tail)
  {
    assert ([code] + more)[1..] == more;
    ConcatAssoc(LowBits(code.value, code.width), CodeBits(more), tail);
  }

  lemma PixelsSplit(m: nat, data: seq<nat>)
    requires Pixels(m, data) && data != []
    ensures data[0] < Pow2(m) && Pixels(m, data[1..])
  {}

  lemma KeysKnow(m: nat, e: Coder, s: Str, d: Decoder, data: seq<nat>)
    requires InStep(m, e, s, d) && Pixels(m, data)
    ensures s in e.keys && forall i :: 0 <= i < |data| ==> [data[i]] in e.keys
    ensures s != []
  {
    forall i | 0 <= i < |data| ensures [data[i]] in e.keys {
      assert e.keys[data[i]] == [data[i]];
    }
  }

  lemma Extend(m: nat, e: Coder, s: Str, d: Decoder, c: nat)
    requires InStep(m, e, s, d) && c < Pow2(m) && s + [c] in e.keys
    ensures InStep(m, e, s + [c], d)
  {
    assert (s + [c])[0] == s[0];
    if d.prev == [] {
      NoPairs(m, e.keys, s + [c]);
    }
  }

  lemma NoPairs(m: nat, keys: seq<Str>, s: Str)
    requires KeysOk(m, keys) && |keys| == Pow2(m) + 2 && |s| == 2
    ensures s !in keys
  {}

  // One code off the front.
  lemma DecodeStep(m: nat, e: Coder, s: Str, d: Decoder, rest: seq<bool>)
    requires InStep(m, e, s, d)
    ensures s in e.keys && s != []
    ensures var r := Decode(rest, m, Advance(d, s));
            Decode(LowBits(IndexOf(e.keys, s), e.width) + rest, m, d)
            == if r.None? then None else Some(Image(s + r.value.pixels, r.value.ended))
  {
    CodeRead(m, e, s, d);
    var k, w := IndexOf(e.keys, s), e.width;
    LowRoundTrip(k, w);
    LastWidth(m, e, s, d);
    var bits := LowBits(k, w) + rest;
    assert bits[..w] == LowBits(k, w) && bits[w..] == rest;
  }

  // Whatever the pixels, the decoder recovers all of them; and it also sees the
  // end code, except exactly when the table has just reached a power of two and
  // the bits fill their last byte.
  lemma Lossless(m: nat, data: seq<nat>, bits: seq<bool>, pad: nat)
    requires 2 <= m <= 8 && data != [] && Pixels(m, data) && pad < 8
    requires bits == AllBits(m, data) + FalseBits(pad)
    ensures Decode(bits, m, Reset(m))
         == Some(Image(data, !(GrewAtEnd(Final(Start(m), [data[0]], data[1..])) && pad == 0)))
  {
    hide Decode, Codes, CodeBits, LowBits, Final, GrewAtEnd, InStep;
    StartKnows(m, data);
    StartInStep(m, data[0]);
    PixelsSplit(m, data);
    DecodeCodes(m, Start(m), [data[0]], data[1..], Reset(m), pad);
    var f := Final(Start(m), [data[0]], data[1..]);
    var codes := CodeBits(Codes(Start(m), [data[0]], data[1..]));
    var end, zeros := LowBits(EndCode(m), f.width), FalseBits(pad);
    var clear := LowBits(ClearCode(m), m + 1);
    assert bits == clear + (codes + (end + zeros));
    DecodeClear(m, codes + (end + zeros));
    assert [data[0]] + data[1..] == data;
  }

  lemma StartInStep(m: nat, c: nat)
    requires 2 <= m <= 8 && c < Pow2(m)
    ensures InStep(m, Start(m), [c], Reset(m))
  {
    SmallTables(m);
    assert Start(m).keys[c] == [c];
  }

  lemma DecodeClear(m: nat, rest: seq<bool>)
    requires 2 <= m <= 8
    ensures Decode(LowBits(ClearCode(m), m + 1) + rest, m, Reset(m)) == Decode(rest, m, Reset(m))
  {
    SmallTables(m);
    LowRoundTrip(ClearCode(m), m + 1);
    var bits := LowBits(ClearCode(m), m + 1) + rest;
    assert bits[..m + 1] == LowBits(ClearCode(m), m + 1) && bits[m + 1..] == rest;
  }

  // ---------- An image whose end code is lost ----------

  ghost predicate Known(keys: seq<Str>, s: Str, data: seq<nat>) {
    s != [] && s in keys && forall i :: 0 <= i < |data| ==> [data[i]] in keys
  }

  lemma AllBitsUnfold(m: nat, data: seq<nat>)
    requires data != [] && Pixels(m, data)
    ensures Known(Start(m).keys, [data[0]], data[1..])
    ensures AllBits(m, data) == LowBits(ClearCode(m), m + 1)
      + CodeBits(Codes(Start(m), [data[0]], data[1..]))
      + LowBits(EndCode(m), Final(Start(m), [data[0]], data[1..]).width)
  {
    hide InStep;
    StartKnows(m, data);
  }

  function Zeros(n: nat): (s: Str)
    ensures |s| == n && forall i :: 0 <= i < n ==> s[i] == 0
  {
    seq(n, _ => 0)
  }

  // The table after j codes of an all-zero image: runs of two up to j + 1.
  function RunKeys(j: nat): (keys: seq<Str>)
    ensures |keys| == 6 + j && (forall i :: 0 <= i < 6 ==> keys[i] == [i])
    ensures forall k :: 6 <= k < 6 + j ==> keys[k] == Zeros(k - 4)
  {
    InitialKeys(6) + seq(j, i requires 0 <= i => Zeros(i + 2))
  }

  function RunCoder(j: nat): Coder { Coder(RunKeys(j), if j <= 2 then 3 else 4) }

  lemma RunKnown(j: nat, i: nat)
    ensures 1 <= i <= j + 1 ==> Zeros(i) in RunKeys(j)
    ensures i > j + 1 ==> Zeros(i) !in RunKeys(j)
  {
    if i == 1 {
      assert RunKeys(j)[0] == Zeros(1);
    } else if 2 <= i <= j + 1 {
      assert RunKeys(j)[i + 4] == Zeros(i);
    }
  }

  ghost function CodeLength(e: Coder, s: Str, n: nat): nat
    requires s in e.keys && [0] in e.keys
  {
    |CodeBits(Codes(e, s, Zeros(n)))|
  }

  // Zeros that extend a known run change nothing.
  lemma {:induction false} RunExtends(j: nat, i: nat, n: nat)
    requires 1 <= i <= j + 1 && n >= j + 1 - i
    ensures Zeros(i) in RunKeys(j) && Zeros(j + 1) in RunKeys(j) && [0] in RunKeys(j)
    ensures Final(RunCoder(j), Zeros(i), Zeros(n)) == Final(RunCoder(j), Zeros(j + 1), Zeros(n - (j + 1 - i)))
    ensures CodeLength(RunCoder(j), Zeros(i), n) == CodeLength(RunCoder(j), Zeros(j + 1), n - (j + 1 - i))
    decreases j + 1 - i
  {
    hide RunKeys, CodeBits;
    RunKnown(j, 1);
    RunKnown(j, i);
    RunKnown(j, j + 1);
    assert Zeros(1) == [0];
    if i < j + 1 {
      RunKnown(j, i + 1);
      assert Zeros(i) + [Zeros(n)[0]] == Zeros(i + 1);
      assert Zeros(n)[1..] == Zeros(n - 1);
      RunExtends(j, i + 1, n - 1);
    }
  }

  // The next zero makes a new entry.
  lemma RunGrows(j: nat, n: nat)
    requires j < 10 && n >= j + 1
    ensures [0] in RunKeys(j) && [0] in RunKeys(j + 1)
    ensures Final(RunCoder(j), [0], Zeros(n)) == Final(RunCoder(j + 1), [0], Zeros(n - (j + 1)))
    ensures CodeLength(RunCoder(j), [0], n) == RunCoder(j).width + CodeLength(RunCoder(j + 1), [0], n - (j + 1))
  {
    hide RunKeys, CodeBits, IndexOf, Pow2, LowBits;
    assert Zeros(1) == [0];
    RunExtends(j, 1, n);
    RunKnown(j, j + 2);
    RunKnown(j + 1, 1);
    var e, left := RunCoder(j), Zeros(n - j);
    assert Zeros(j + 1) + [left[0]] == Zeros(j + 2);
    assert left[1..] == Zeros(n - (j + 1));
    RunStep(j);
    var code := Code(IndexOf(e.keys, Zeros(j + 1)), e.width);
    MoreCodes(code, Codes(RunCoder(j + 1), [0], left[1..]), []);
  }

  lemma RunStep(j: nat)
    requires j < 10
    ensures Grow(RunCoder(j), Zeros(j + 1), 0) == RunCoder(j + 1)
  {
    assert Pow2(3) == 8 && Pow2(4) == 16;
    assert Zeros(j + 1) + [0] == Zeros(j + 2);
    assert RunKeys(j + 1) == RunKeys(j) + [Zeros(j + 2)];
  }

  lemma RunTotals()
    ensures [0] in RunKeys(0) && [0] in RunKeys(10)
    ensures Final(RunCoder(0), [0], Zeros(65)) == Final(RunCoder(10), [0], Zeros(10))
    ensures CodeLength(RunCoder(0), [0], 65) == 37 + CodeLength(RunCoder(10), [0], 10)
  {
    hide RunKeys, CodeLength, Final, Zeros;
    FirstRuns();
    RunGrows(5, 50);
    RunGrows(6, 44);
    RunGrows(7, 37);
    RunGrows(8, 29);
    RunGrows(9, 20);
  }

  lemma FirstRuns()
    ensures [0] in RunKeys(0) && [0] in RunKeys(5)
    ensures Final(RunCoder(0), [0], Zeros(65)) == Final(RunCoder(5), [0], Zeros(50))
    ensures CodeLength(RunCoder(0), [0], 65) == 17 + CodeLength(RunCoder(5), [0], 50)
  {
    hide RunKeys, CodeLength, Final, Zeros;
    RunGrows(0, 65);
    RunGrows(1, 64);
    RunGrows(2, 62);
    RunGrows(3, 59);
    RunGrows(4, 55);
  }

  // 66 zero pixels: eleven codes, the table just full at sixteen entries, and
  // 48 bits in all, so that the decoder runs out of bits before the end code.
  lemma EndCodeLost()
    ensures var data := Zeros(66);
            && Pixels(2, data) && |AllBits(2, data)| == 48
            && GrewAtEnd(Final(Start(2), [data[0]], data[1..]))
            && Decode(AllBits(2, data), 2, Reset(2)) == Some(Image(data, false))
  {
    hide Decode, RunKeys, CodeBits, Codes, Final, LowBits, IndexOf;
    var data := Zeros(66);
    SmallTables(2);
    assert Pow2(2) == 4 && Pow2(4) == 16;
    assert data[1..] == Zeros(65);
    StartIsRun();
    RunTotals();
    assert Zeros(1) == [0];
    RunExtends(10, 1, 10);
    RunEnds();
    AllBitsUnfold(2, data);
    assert AllBits(2, data) == AllBits(2, data) + FalseBits(0);
    Lossless(2, data, AllBits(2, data), 0);
  }

  lemma StartIsRun()
    ensures Start(2) == RunCoder(0)
  {
    assert Pow2(2) == 4;
    assert RunKeys(0) == InitialKeys(6);
  }

  lemma RunEnds()
    ensures Zeros(11) in RunKeys(10) && [0] in RunKeys(10)
    ensures Final(RunCoder(10), Zeros(11), Zeros(0)) == RunCoder(10)
    ensures CodeLength(RunCoder(10), Zeros(11), 0) == 4
  {
    RunKnown(10, 11);
    RunKnown(10, 1);
    assert Zeros(1) == [0];
    SingleCode(Code(IndexOf(RunKeys(10), Zeros(11)), 4), []);
  }
}
