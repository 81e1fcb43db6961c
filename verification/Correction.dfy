/** What a reader can correct: wrong bytes of a block, wrong bits of the format
    and version words (sections 7.5, 7.9 and 7.10 of ISO/IEC 18004:2015). */
module Correction {
  import opened Bits
  import opened Coefficients
  import opened Interleave
  import opened Polynomial
  import opened Codewords
  import opened BlockTable
  import opened Distance
  import Bch
  import Symbol

  // ---------- Blocks ----------

  // The check bytes of a block.
  function CheckCount(version: int, level: Level, r: nat): int
    requires 1 <= version <= 40 && r < |RsBlocks(version, level)|
  {
    RsBlocks(version, level)[r].totalCount - RsBlocks(version, level)[r].dataCount
  }

  // The word of a block as it is read back from the codewords of a symbol: its
  // data bytes and its check bytes.
  ghost function Word(version: int, level: Level, buffer: seq<int>, r: nat): (w: seq<bv8>)
    requires 1 <= version <= 40 && r < |RsBlocks(version, level)|
    ensures |w| == RsBlocks(version, level)[r].totalCount <= 255
    ensures 0 <= CheckCount(version, level, r) && IsCodeword(w, CheckCount(version, level, r))
  {
    hide Columns, Eval, RsBlocks, BlockTable.Capacity;
    BlocksOk(version, level);
    var blocks := RsBlocks(version, level);
    CodewordsReadBack(buffer, blocks);
    var data := CodewordSequence(buffer, blocks);
    Values(ReadData(data, blocks)[r]) + Values(ReadCheck(data, blocks)[r])
  }

  // In every version and at every level: from a block received with at most half
  // as many wrong bytes as it has check bytes, its word is the only one that can
  // have been meant.
  lemma BlockCorrectable(version: int, level: Level, buffer: seq<int>, r: nat, received: seq<bv8>, other: seq<bv8>)
    requires 1 <= version <= 40 && r < |RsBlocks(version, level)|
    requires var w, n := Word(version, level, buffer, r), CheckCount(version, level, r);
      && |other| == |received| == |w| && IsCodeword(other, n)
      && 2 * |Differences(w, received)| <= n && 2 * |Differences(other, received)| <= n
    ensures other == Word(version, level, buffer, r)
  {
    hide Word, RsBlocks, Differences, IsCodeword;
    OneNearest(Word(version, level, buffer, r), other, received, CheckCount(version, level, r));
  }

  // ---------- Bits of a product of binary polynomials ----------

  predicate BitAt(n: nat, i: int) { i >= 0 && Shr(n, i) % 2 == 1 }

  lemma {:induction false} XorBit(v: nat, w: nat, i: nat)
    ensures BitAt(Xor(v, w), i) <==> BitAt(v, i) != BitAt(w, i)
  {
    XorStep(v, w);
    if i > 0 { XorBit(v / 2, w / 2, i - 1); }
  }

  // The bit of the product of q, of at most n bits, and g.
  predicate ProductBit(q: nat, g: nat, i: int, n: nat)
    decreases n
  {
    n > 0 && ((q % 2 == 1 && BitAt(g, i)) != ProductBit(q / 2, g, i - 1, n - 1))
  }

  lemma {:induction false} TimesBit(q: nat, g: nat, i: int, n: nat)
    requires q < Pow2(n)
    ensures BitAt(Bch.Times(q, g), i) <==> ProductBit(q, g, i, n)
  {
    hide Shr;
    if i < 0 {
      NoBit(q, g, i, n);
    } else if n > 0 {
      TimesBit(q / 2, g, i - 1, n - 1);
      Bch.TimesUnfold(q, g);
      XorBit(if q % 2 == 1 then g else 0, 2 * Bch.Times(q / 2, g), i);
      DoubledBit(Bch.Times(q / 2, g), i);
      ZeroBit(i);
    } else {
      ZeroBit(i);
    }
  }

  lemma {:induction false} NoBit(q: nat, g: nat, i: int, n: nat)
    requires i < 0
    ensures !ProductBit(q, g, i, n)
    decreases n
  {
    if n > 0 { NoBit(q / 2, g, i - 1, n - 1); }
  }

  lemma DoubledBit(t: nat, i: int)
    requires i >= 0
    ensures BitAt(2 * t, i) <==> BitAt(t, i - 1)
  {}

  lemma {:induction false} ZeroBit(i: nat)
    ensures !BitAt(0, i)
  {
    if i > 0 { ZeroBit(i - 1); }
  }

  // How many of the low bits are set.
  function Weight(x: nat, len: nat): nat { if len == 0 then 0 else Bit(BitAt(x, len - 1)) + Weight(x, len - 1) }

  lemma {:induction false} WeightXor(v: nat, w: nat, len: nat)
    ensures Weight(Xor(v, w), len) <= Weight(v, len) + Weight(w, len)
  {
    if len > 0 {
      WeightXor(v, w, len - 1);
      XorBit(v, w, len - 1);
    }
  }

  // ---------- Format and version words ----------

  lemma BitHalved(n: nat, i: int)
    ensures BitAt(n, i) <==> if i == 0 then n % 2 == 1 else i > 0 && BitAt(n / 2, i - 1)
  {}

  lemma FormatBits(i: int)
    ensures BitAt(Bch.G15, i) <==> i in {0, 1, 2, 4, 5, 8, 10}
  {
    hide BitAt;
    BitHalved(0x537, i); BitHalved(0x29b, i - 1); BitHalved(0x14d, i - 2);
    BitHalved(0xa6, i - 3); BitHalved(0x53, i - 4); BitHalved(0x29, i - 5);
    BitHalved(0x14, i - 6); BitHalved(0xa, i - 7); BitHalved(0x5, i - 8);
    BitHalved(0x2, i - 9); BitHalved(0x1, i - 10);
    ZeroBit(if i < 11 then 0 else i - 11);
  }

  lemma VersionBits(i: int)
    ensures BitAt(Bch.G18, i) <==> i in {0, 2, 5, 8, 9, 10, 11, 12}
  {
    hide BitAt;
    BitHalved(0x1f25, i); BitHalved(0xf92, i - 1); BitHalved(0x7c9, i - 2);
    BitHalved(0x3e4, i - 3); BitHalved(0x1f2, i - 4); BitHalved(0xf9, i - 5);
    BitHalved(0x7c, i - 6); BitHalved(0x3e, i - 7); BitHalved(0x1f, i - 8);
    BitHalved(0xf, i - 9); BitHalved(0x7, i - 10); BitHalved(0x3, i - 11);
    BitHalved(0x1, i - 12);
    ZeroBit(if i < 13 then 0 else i - 13);
  }

  // The bits of q, lowest first.
  predicate Binary(q: nat, a: bool, b: bool, c: bool, d: bool, e: bool, f: bool) {
    && (q % 2 == 1) == a && (q / 2 % 2 == 1) == b && (q / 4 % 2 == 1) == c
    && (q / 8 % 2 == 1) == d && (q / 16 % 2 == 1) == e && (q / 32 % 2 == 1) == f
  }

  lemma SixBits(q: nat, g: nat, i: int, a: bool, b: bool, c: bool, d: bool, e: bool, f: bool)
    requires q < 64 && Binary(q, a, b, c, d, e, f)
    ensures BitAt(Bch.Times(q, g), i) <==>
      ((a && BitAt(g, i)) != ((b && BitAt(g, i - 1)) != ((c && BitAt(g, i - 2)) !=
       ((d && BitAt(g, i - 3)) != ((e && BitAt(g, i - 4)) != (f && BitAt(g, i - 5)))))))
  {
    hide BitAt, Bch.Times;
    assert Pow2(3) == 8;
    assert Pow2(6) == 8 * Pow2(3);
    TimesBit(q, g, i, 6);
    assert q / 2 / 2 == q / 4 && q / 4 / 2 == q / 8 && q / 8 / 2 == q / 16 && q / 16 / 2 == q / 32;
    assert ProductBit(q / 32, g, i - 5, 1) <==> f && BitAt(g, i - 5);
    assert ProductBit(q / 8, g, i - 3, 3) <==>
      ((d && BitAt(g, i - 3)) != ((e && BitAt(g, i - 4)) != (f && BitAt(g, i - 5))));
  }

  lemma Weight3(x: nat, len: nat)
    ensures Weight(x, len + 3) == Weight(x, len) + Bit(BitAt(x, len)) + Bit(BitAt(x, len + 1)) + Bit(BitAt(x, len + 2))
  {
    hide BitAt, Bit;
    assert Weight(x, len + 3) == Bit(BitAt(x, len + 2)) + Weight(x, len + 2);
    assert Weight(x, len + 2) == Bit(BitAt(x, len + 1)) + Weight(x, len + 1);
  }

  lemma NoWeight(x: nat)
    ensures Weight(x, 0) == 0
  {}

  // The bits of a multiple of the generator, from those of the other factor; unless
  // these are all zero, at least seven are set.
  lemma FormatSum(a: bool, b: bool, c: bool, d: bool, e: bool)
    requires a || b || c || d || e
    ensures 7 <=
      Bit(a) + Bit(a != b) + Bit(a != (b != c)) +
      Bit(b != (c != d)) + Bit(a != (c != (d != e))) + Bit(a != (b != (d != e))) +
      Bit(b != (c != e)) + Bit(c != d) + Bit(a != (d != e)) +
      Bit(b != e) + Bit(a != c) + Bit(b != d) +
      Bit(c != e) + Bit(d) + Bit(e)
  {}

  lemma FormatPart0(q: nat, a: bool, b: bool, c: bool, d: bool, e: bool)
    requires q < 32 && Binary(q, a, b, c, d, e, false)
    ensures var x := Bch.Times(q, Bch.G15);
            Weight(x, 3) == Weight(x, 0) + Bit(a) + Bit(a != b) + Bit(a != (b != c))
  {
    hide BitAt, Weight, Bch.Times, Binary;
    Weight3(Bch.Times(q, Bch.G15), 0);
    SixBits(q, Bch.G15, 0, a, b, c, d, e, false);
    SixBits(q, Bch.G15, 1, a, b, c, d, e, false);
    SixBits(q, Bch.G15, 2, a, b, c, d, e, false);
    FormatBits(-5); FormatBits(-4); FormatBits(-3); FormatBits(-2);
    FormatBits(-1); FormatBits(0); FormatBits(1); FormatBits(2);
  }

  lemma FormatPart1(q: nat, a: bool, b: bool, c: bool, d: bool, e: bool)
    requires q < 32 && Binary(q, a, b, c, d, e, false)
    ensures var x := Bch.Times(q, Bch.G15);
            Weight(x, 6) == Weight(x, 3) + Bit(b != (c != d)) + Bit(a != (c != (d != e))) + Bit(a != (b != (d != e)))
  {
    hide BitAt, Weight, Bch.Times, Binary;
    Weight3(Bch.Times(q, Bch.G15), 3);
    SixBits(q, Bch.G15, 3, a, b, c, d, e, false);
    SixBits(q, Bch.G15, 4, a, b, c, d, e, false);
    SixBits(q, Bch.G15, 5, a, b, c, d, e, false);
    FormatBits(-2); FormatBits(-1); FormatBits(0); FormatBits(1);
    FormatBits(2); FormatBits(3); FormatBits(4); FormatBits(5);
  }

  lemma FormatPart2(q: nat, a: bool, b: bool, c: bool, d: bool, e: bool)
    requires q < 32 && Binary(q, a, b, c, d, e, false)
    ensures var x := Bch.Times(q, Bch.G15);
            Weight(x, 9) == Weight(x, 6) + Bit(b != (c != e)) + Bit(c != d) + Bit(a != (d != e))
  {
    hide BitAt, Weight, Bch.Times, Binary;
    Weight3(Bch.Times(q, Bch.G15), 6);
    SixBits(q, Bch.G15, 6, a, b, c, d, e, false);
    SixBits(q, Bch.G15, 7, a, b, c, d, e, false);
    SixBits(q, Bch.G15, 8, a, b, c, d, e, false);
    FormatBits(1); FormatBits(2); FormatBits(3); FormatBits(4);
    FormatBits(5); FormatBits(6); FormatBits(7); FormatBits(8);
  }

  lemma FormatPart3(q: nat, a: bool, b: bool, c: bool, d: bool, e: bool)
    requires q < 32 && Binary(q, a, b, c, d, e, false)
    ensures var x := Bch.Times(q, Bch.G15);
            Weight(x, 12) == Weight(x, 9) + Bit(b != e) + Bit(a != c) + Bit(b != d)
  {
    hide BitAt, Weight, Bch.Times, Binary;
    Weight3(Bch.Times(q, Bch.G15), 9);
    SixBits(q, Bch.G15, 9, a, b, c, d, e, false);
    SixBits(q, Bch.G15, 10, a, b, c, d, e, false);
    SixBits(q, Bch.G15, 11, a, b, c, d, e, false);
    FormatBits(4); FormatBits(5); FormatBits(6); FormatBits(7);
    FormatBits(8); FormatBits(9); FormatBits(10); FormatBits(11);
  }

  lemma FormatPart4(q: nat, a: bool, b: bool, c: bool, d: bool, e: bool)
    requires q < 32 && Binary(q, a, b, c, d, e, false)
    ensures var x := Bch.Times(q, Bch.G15);
            Weight(x, 15) == Weight(x, 12) + Bit(c != e) + Bit(d) + Bit(e)
  {
    hide BitAt, Weight, Bch.Times, Binary;
    Weight3(Bch.Times(q, Bch.G15), 12);
    SixBits(q, Bch.G15, 12, a, b, c, d, e, false);
    SixBits(q, Bch.G15, 13, a, b, c, d, e, false);
    SixBits(q, Bch.G15, 14, a, b, c, d, e, false);
    FormatBits(7); FormatBits(8); FormatBits(9); FormatBits(10);
    FormatBits(11); FormatBits(12); FormatBits(13); FormatBits(14);
  }

  lemma FormatWeight(q: nat, a: bool, b: bool, c: bool, d: bool, e: bool)
    requires q < 32 && Binary(q, a, b, c, d, e, false) && (a || b || c || d || e)
    ensures Weight(Bch.Times(q, Bch.G15), 15) >= 7
  {
    hide Weight, Bch.Times, Binary, Bit;
    NoWeight(Bch.Times(q, Bch.G15));
    FormatPart0(q, a, b, c, d, e);
    FormatPart1(q, a, b, c, d, e);
    FormatPart2(q, a, b, c, d, e);
    FormatPart3(q, a, b, c, d, e);
    FormatPart4(q, a, b, c, d, e);
    FormatSum(a, b, c, d, e);
  }

  // The bits of a multiple of the generator, from those of the other factor; unless
  // these are all zero, at least eight are set.
  lemma VersionSum(a: bool, b: bool, c: bool, d: bool, e: bool, f: bool)
    requires a || b || c || d || e || f
    ensures 8 <=
      Bit(a) + Bit(b) + Bit(a != c) +
      Bit(b != d) + Bit(c != e) + Bit(a != (d != f)) +
      Bit(b != e) + Bit(c != f) + Bit(a != d) +
      Bit(a != (b != e)) + Bit(a != (b != (c != f))) + Bit(a != (b != (c != d))) +
      Bit(a != (b != (c != (d != e)))) + Bit(b != (c != (d != (e != f)))) + Bit(c != (d != (e != f))) +
      Bit(d != (e != f)) + Bit(e != f) + Bit(f)
  {}

  lemma VersionPart0(q: nat, a: bool, b: bool, c: bool, d: bool, e: bool, f: bool)
    requires q < 64 && Binary(q, a, b, c, d, e, f)
    ensures var x := Bch.Times(q, Bch.G18);
            Weight(x, 3) == Weight(x, 0) + Bit(a) + Bit(b) + Bit(a != c)
  {
    hide BitAt, Weight, Bch.Times, Binary;
    Weight3(Bch.Times(q, Bch.G18), 0);
    SixBits(q, Bch.G18, 0, a, b, c, d, e, f);
    SixBits(q, Bch.G18, 1, a, b, c, d, e, f);
    SixBits(q, Bch.G18, 2, a, b, c, d, e, f);
    VersionBits(-5); VersionBits(-4); VersionBits(-3); VersionBits(-2);
    VersionBits(-1); VersionBits(0); VersionBits(1); VersionBits(2);
  }

  lemma VersionPart1(q: nat, a: bool, b: bool, c: bool, d: bool, e: bool, f: bool)
    requires q < 64 && Binary(q, a, b, c, d, e, f)
    ensures var x := Bch.Times(q, Bch.G18);
            Weight(x, 6) == Weight(x, 3) + Bit(b != d) + Bit(c != e) + Bit(a != (d != f))
  {
    hide BitAt, Weight, Bch.Times, Binary;
    Weight3(Bch.Times(q, Bch.G18), 3);
    SixBits(q, Bch.G18, 3, a, b, c, d, e, f);
    SixBits(q, Bch.G18, 4, a, b, c, d, e, f);
    SixBits(q, Bch.G18, 5, a, b, c, d, e, f);
    VersionBits(-2); VersionBits(-1); VersionBits(0); VersionBits(1);
    VersionBits(2); VersionBits(3); VersionBits(4); VersionBits(5);
  }

  lemma VersionPart2(q: nat, a: bool, b: bool, c: bool, d: bool, e: bool, f: bool)
    requires q < 64 && Binary(q, a, b, c, d, e, f)
    ensures var x := Bch.Times(q, Bch.G18);
            Weight(x, 9) == Weight(x, 6) + Bit(b != e) + Bit(c != f) + Bit(a != d)
  {
    hide BitAt, Weight, Bch.Times, Binary;
    Weight3(Bch.Times(q, Bch.G18), 6);
    SixBits(q, Bch.G18, 6, a, b, c, d, e, f);
    SixBits(q, Bch.G18, 7, a, b, c, d, e, f);
    SixBits(q, Bch.G18, 8, a, b, c, d, e, f);
    VersionBits(1); VersionBits(2); VersionBits(3); VersionBits(4);
    VersionBits(5); VersionBits(6); VersionBits(7); VersionBits(8);
  }

  lemma VersionPart3(q: nat, a: bool, b: bool, c: bool, d: bool, e: bool, f: bool)
    requires q < 64 && Binary(q, a, b, c, d, e, f)
    ensures var x := Bch.Times(q, Bch.G18);
            Weight(x, 12) == Weight(x, 9) + Bit(a != (b != e)) + Bit(a != (b != (c != f))) + Bit(a != (b != (c != d)))
  {
    hide BitAt, Weight, Bch.Times, Binary;
    Weight3(Bch.Times(q, Bch.G18), 9);
    SixBits(q, Bch.G18, 9, a, b, c, d, e, f);
    SixBits(q, Bch.G18, 10, a, b, c, d, e, f);
    SixBits(q, Bch.G18, 11, a, b, c, d, e, f);
    VersionBits(4); VersionBits(5); VersionBits(6); VersionBits(7);
    VersionBits(8); VersionBits(9); VersionBits(10); VersionBits(11);
  }

  lemma VersionPart4(q: nat, a: bool, b: bool, c: bool, d: bool, e: bool, f: bool)
    requires q < 64 && Binary(q, a, b, c, d, e, f)
    ensures var x := Bch.Times(q, Bch.G18);
            Weight(x, 15) == Weight(x, 12) + Bit(a != (b != (c != (d != e)))) +
                             Bit(b != (c != (d != (e != f)))) + Bit(c != (d != (e != f)))
  {
    hide BitAt, Weight, Bch.Times, Binary;
    Weight3(Bch.Times(q, Bch.G18), 12);
    SixBits(q, Bch.G18, 12, a, b, c, d, e, f);
    SixBits(q, Bch.G18, 13, a, b, c, d, e, f);
    SixBits(q, Bch.G18, 14, a, b, c, d, e, f);
    VersionBits(7); VersionBits(8); VersionBits(9); VersionBits(10);
    VersionBits(11); VersionBits(12); VersionBits(13); VersionBits(14);
  }

  lemma VersionPart5(q: nat, a: bool, b: bool, c: bool, d: bool, e: bool, f: bool)
    requires q < 64 && Binary(q, a, b, c, d, e, f)
    ensures var x := Bch.Times(q, Bch.G18);
            Weight(x, 18) == Weight(x, 15) + Bit(d != (e != f)) + Bit(e != f) + Bit(f)
  {
    hide BitAt, Weight, Bch.Times, Binary;
    Weight3(Bch.Times(q, Bch.G18), 15);
    SixBits(q, Bch.G18, 15, a, b, c, d, e, f);
    SixBits(q, Bch.G18, 16, a, b, c, d, e, f);
    SixBits(q, Bch.G18, 17, a, b, c, d, e, f);
    VersionBits(10); VersionBits(11); VersionBits(12); VersionBits(13);
    VersionBits(14); VersionBits(15); VersionBits(16); VersionBits(17);
  }

  lemma VersionWeight(q: nat, a: bool, b: bool, c: bool, d: bool, e: bool, f: bool)
    requires q < 64 && Binary(q, a, b, c, d, e, f) && (a || b || c || d || e || f)
    ensures Weight(Bch.Times(q, Bch.G18), 18) >= 8
  {
    hide Weight, Bch.Times, Binary, Bit;
    NoWeight(Bch.Times(q, Bch.G18));
    VersionPart0(q, a, b, c, d, e, f);
    VersionPart1(q, a, b, c, d, e, f);
    VersionPart2(q, a, b, c, d, e, f);
    VersionPart3(q, a, b, c, d, e, f);
    VersionPart4(q, a, b, c, d, e, f);
    VersionPart5(q, a, b, c, d, e, f);
    VersionSum(a, b, c, d, e, f);
  }

  // The bits are those of a number that is not zero.
  lemma SomeBit(q: nat)
    requires 0 < q < 64
    ensures q % 2 == 1 || q / 2 % 2 == 1 || q / 4 % 2 == 1 || q / 8 % 2 == 1 || q / 16 % 2 == 1 || q / 32 % 2 == 1
    ensures q < 32 ==> q / 32 % 2 == 0
  {}

  lemma FormatWeightOf(q: nat)
    requires 0 < q < 32
    ensures Weight(Bch.Times(q, Bch.G15), 15) >= 7
  {
    hide Weight, Bch.Times;
    SomeBit(q);
    FormatWeight(q, q % 2 == 1, q / 2 % 2 == 1, q / 4 % 2 == 1, q / 8 % 2 == 1, q / 16 % 2 == 1);
  }

  lemma VersionWeightOf(q: nat)
    requires 0 < q < 64
    ensures Weight(Bch.Times(q, Bch.G18), 18) >= 8
  {
    hide Weight, Bch.Times;
    SomeBit(q);
    VersionWeight(q, q % 2 == 1, q / 2 % 2 == 1, q / 4 % 2 == 1, q / 8 % 2 == 1, q / 16 % 2 == 1, q / 32 % 2 == 1);
  }

  // ---------- Telling words apart ----------

  lemma SmallQuotient(x: nat, g: nat, len: nat, n: nat) returns (q: nat)
    requires Bch.IsMultiple(x, g) && x < Pow2(len) && g > 0 && Digits(g) + n == len + 1
    ensures x == Bch.Times(q, g) && q < Pow2(n)
  {
    hide Pow2, Digits, Bch.Times;
    q :| x == Bch.Times(q, g);
    DigitsBound(x, len);
    DigitsBound(q, n);
    if q > 0 {
      Bch.TimesDigits(q, g);
    } else {
      NoDigits();
    }
  }

  lemma NoDigits()
    ensures Digits(0) == 0
  {}

  lemma TimesZero(g: nat)
    ensures Bch.Times(0, g) == 0
  {}

  // Two different format words differ in at least seven bits.
  lemma FormatsApart(v: nat, w: nat)
    requires v < 0x8000 && w < 0x8000 && v != w
    requires Bch.IsMultiple(Xor(v, Bch.G15_MASK), Bch.G15) && Bch.IsMultiple(Xor(w, Bch.G15_MASK), Bch.G15)
    ensures Weight(Xor(v, w), 15) >= 7
  {
    assert Pow2(5) == 32;
    assert Pow2(10) == 32 * Pow2(5);
    assert Pow2(15) == 32 * Pow2(10);
    hide Xor, Weight, Pow2, Bch.Times, Bch.IsMultiple, Digits;
    var m := Bch.G15_MASK;
    Bch.MultipleXor(Xor(v, m), Xor(w, m), Bch.G15);
    XorSwap(v, m, w, m);
    XorSelf(m);
    XorComm(Xor(v, w), 0);
    XorOfZero(Xor(v, w));
    XorBound(v, w, 15);
    Bch.GeneratorDigits();
    var q := SmallQuotient(Xor(v, w), Bch.G15, 15, 5);
    if q == 0 {
      TimesZero(Bch.G15);
      Bch.XorZeroMeansEqual(v, w);
    } else {
      FormatWeightOf(q);
    }
  }

  lemma XorOfZero(x: nat)
    ensures Xor(0, x) == x
  {}

  // Two different version words differ in at least eight bits.
  lemma VersionsApart(v: nat, w: nat)
    requires v < 0x4_0000 && w < 0x4_0000 && v != w && Bch.IsMultiple(v, Bch.G18) && Bch.IsMultiple(w, Bch.G18)
    ensures Weight(Xor(v, w), 18) >= 8
  {
    assert Pow2(6) == 64;
    assert Pow2(12) == 64 * Pow2(6);
    assert Pow2(18) == 64 * Pow2(12);
    hide Xor, Weight, Pow2, Bch.Times, Bch.IsMultiple, Digits;
    Bch.MultipleXor(v, w, Bch.G18);
    XorBound(v, w, 18);
    Bch.GeneratorDigits();
    var q := SmallQuotient(Xor(v, w), Bch.G18, 18, 6);
    if q == 0 {
      TimesZero(Bch.G18);
      Bch.XorZeroMeansEqual(v, w);
    } else {
      VersionWeightOf(q);
    }
  }

  lemma Triangle(v: nat, w: nat, x: nat, len: nat)
    ensures Weight(Xor(v, w), len) <= Weight(Xor(v, x), len) + Weight(Xor(w, x), len)
  {
    hide Xor, Weight;
    XorSwap(v, x, w, x);
    XorSelf(x);
    XorComm(Xor(v, w), 0);
    XorOfZero(Xor(v, w));
    WeightXor(Xor(v, x), Xor(w, x), len);
  }

  // From a format word read with at most three wrong bits, level and mask are
  // determined.
  lemma FormatCorrectable(read: nat, v: nat, w: nat, level: Level, pattern: int, level': Level, pattern': int)
    requires 0 <= pattern < 8 && 0 <= pattern' < 8
    requires Symbol.IsFormat(v, level, pattern) && Symbol.IsFormat(w, level', pattern')
    requires Weight(Xor(v, read), 15) <= 3 && Weight(Xor(w, read), 15) <= 3
    ensures v == w && level == level' && pattern == pattern'
  {
    hide Xor, Weight, Shr, Bch.IsMultiple;
    Triangle(v, w, read, 15);
    if v != w {
      FormatsApart(v, w);
    }
  }

  // From a version word read with at most three wrong bits, the version is.
  lemma VersionCorrectable(read: nat, v: nat, w: nat, version: int, version': int)
    requires Symbol.IsVersion(v, version) && Symbol.IsVersion(w, version')
    requires Weight(Xor(v, read), 18) <= 3 && Weight(Xor(w, read), 18) <= 3
    ensures v == w && version == version'
  {
    hide Xor, Weight, Shr, Bch.IsMultiple;
    Triangle(v, w, read, 18);
    if v != w {
      VersionsApart(v, w);
    }
  }
}
