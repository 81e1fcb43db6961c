/** Words that the standard prints, against the words of the symbol (tables C.1 and
    D.1 of ISO/IEC 18004:2015), and where their bits stand. */
module PublishedWords {
  import opened Bits
  import opened ZigZag
  import opened Patterns
  import opened Codewords
  import opened BlockTable
  import opened Symbol
  import Bch

  function Published(level: Level): nat {
    match level
    case L => 0x77c4
    case M => 0x5412
    case Q => 0x355f
    case H => 0x1689
  }

  // The word without its mask.
  function Unmasked(level: Level): nat {
    match level
    case L => 0x23d6
    case M => 0
    case Q => 0x614d
    case H => 0x429b
  }

  lemma SumL()
    ensures Xor(0xa6e, 0x29b8) == 0x23d6
  {
    assert Xor(0, 2) == 2;
    assert Xor(2, 10) == 8;
    assert Xor(10, 41) == 35;
    assert Xor(41, 166) == 143;
    assert Xor(166, 667) == 573;
    assert Xor(667, 2670) == 2293;
  }

  lemma SumH1()
    ensures Xor(0x537, 0x14dc) == 0x11eb
  {
    assert Xor(0, 1) == 1;
    assert Xor(1, 5) == 4;
    assert Xor(5, 20) == 17;
    assert Xor(20, 83) == 71;
    assert Xor(83, 333) == 286;
    assert Xor(333, 1335) == 1146;
  }

  lemma SumH2()
    ensures Xor(0x11eb, 0x5370) == 0x429b
  {
    assert Xor(0, 1) == 1;
    assert Xor(1, 5) == 4;
    assert Xor(4, 20) == 16;
    assert Xor(17, 83) == 66;
    assert Xor(71, 333) == 266;
    assert Xor(286, 1335) == 1065;
    assert Xor(1146, 5340) == 4262;
  }

  lemma SumQ()
    ensures Xor(0x23d6, 0x429b) == 0x614d
  {
    assert Xor(0, 1) == 1;
    assert Xor(2, 4) == 6;
    assert Xor(8, 16) == 24;
    assert Xor(35, 66) == 97;
    assert Xor(143, 266) == 389;
    assert Xor(573, 1065) == 1556;
    assert Xor(2293, 4262) == 6227;
  }

  lemma MaskL()
    ensures Xor(0x77c4, 0x5412) == 0x23d6
  {
    assert Xor(1, 1) == 0;
    assert Xor(7, 5) == 2;
    assert Xor(29, 21) == 8;
    assert Xor(119, 84) == 35;
    assert Xor(479, 336) == 143;
    assert Xor(1916, 1345) == 573;
    assert Xor(7665, 5380) == 2293;
  }

  lemma MaskQ()
    ensures Xor(0x355f, 0x5412) == 0x614d
  {
    assert Xor(0, 1) == 1;
    assert Xor(3, 5) == 6;
    assert Xor(13, 21) == 24;
    assert Xor(53, 84) == 97;
    assert Xor(213, 336) == 389;
    assert Xor(853, 1345) == 1556;
    assert Xor(3415, 5380) == 6227;
  }

  lemma MaskH()
    ensures Xor(0x1689, 0x5412) == 0x429b
  {
    assert Xor(0, 1) == 1;
    assert Xor(1, 5) == 4;
    assert Xor(5, 21) == 16;
    assert Xor(22, 84) == 66;
    assert Xor(90, 336) == 266;
    assert Xor(360, 1345) == 1065;
    assert Xor(1442, 5380) == 4262;
  }

  lemma Masked(level: Level)
    ensures Xor(Published(level), Bch.G15_MASK) == Unmasked(level)
  {
    hide Xor;
    match level
    case L => MaskL();
    case M => XorSelf(0x5412);
    case Q => MaskQ();
    case H => MaskH();
  }

  lemma Shifted()
    ensures Bch.IsMultiple(0x537, Bch.G15) && Bch.IsMultiple(0xa6e, Bch.G15) && Bch.IsMultiple(0x14dc, Bch.G15)
    ensures Bch.IsMultiple(0x29b8, Bch.G15) && Bch.IsMultiple(0x5370, Bch.G15)
  {
    hide Bch.IsMultiple;
    var g := Bch.G15;
    Bch.ShiftedIsMultiple(g, 0);
    Bch.ShiftedIsMultiple(g, 1);
    Bch.ShiftedIsMultiple(g, 2);
    Bch.ShiftedIsMultiple(g, 3);
    Bch.ShiftedIsMultiple(g, 4);
    assert Shl(g, 1) == 0xa6e;
    assert Shl(g, 3) == 0x29b8;
  }

  lemma MultipleL()
    ensures Bch.IsMultiple(0x23d6, Bch.G15)
  {
    hide Xor, Bch.IsMultiple;
    Shifted();
    SumL();
    Bch.MultipleXor(0xa6e, 0x29b8, Bch.G15);
  }

  lemma MultipleH()
    ensures Bch.IsMultiple(0x429b, Bch.G15)
  {
    hide Xor, Bch.IsMultiple;
    Shifted();
    SumH1();
    SumH2();
    Bch.MultipleXor(0x537, 0x14dc, Bch.G15);
    Bch.MultipleXor(0x11eb, 0x5370, Bch.G15);
  }

  lemma UnmaskedIsMultiple(level: Level)
    ensures Bch.IsMultiple(Unmasked(level), Bch.G15)
  {
    hide Xor, Bch.IsMultiple;
    MultipleL();
    MultipleH();
    SumQ();
    Bch.MultipleXor(0x23d6, 0x429b, Bch.G15);
    NoMultiple();
  }

  lemma NoMultiple()
    ensures Bch.IsMultiple(0, Bch.G15)
  {
    assert Bch.Times(0, Bch.G15) == 0;
  }

  lemma UnmaskedData(level: Level)
    ensures Shr(Unmasked(level), 10) == match level case L => 8 case M => 0 case Q => 24 case H => 16
  {
    ShrTen(Unmasked(level));
  }

  lemma ShrTwo(w: nat, k: nat)
    ensures Shr(w, k + 2) == Shr(w / 4, k)
  {
    assert Shr(w, k + 2) == Shr(w / 2, k + 1);
  }

  lemma ShrTen(w: nat)
    ensures Shr(w, 10) == w / 1024
  {
    hide Shr;
    ShrTwo(w, 8);
    ShrTwo(w / 4, 6);
    ShrTwo(w / 16, 4);
    ShrTwo(w / 64, 2);
    ShrTwo(w / 256, 0);
    ShrNone(w / 1024);
  }

  lemma ShrNone(w: nat)
    ensures Shr(w, 0) == w
  {}

  // The format words of mask 0 are the printed ones.
  lemma FormatPublished(info: nat, level: Level)
    requires IsFormat(info, level, 0)
    ensures info == Published(level)
  {
    hide Xor, Shr, Bch.IsMultiple;
    var m, p := Bch.G15_MASK, Published(level);
    Masked(level);
    UnmaskedIsMultiple(level);
    UnmaskedData(level);
    Bch.GeneratorDigits();
    Bch.CheckBitsUnique(Xor(info, m), Xor(p, m), Bch.G15);
    XorSwap(info, m, p, m);
    XorSelf(m);
    XorSelf(Unmasked(level));
    XorComm(Xor(info, p), 0);
    XorNothing(Xor(info, p));
    Bch.XorZeroMeansEqual(info, p);
  }

  lemma XorNothing(x: nat)
    ensures Xor(0, x) == x
  {}

  // And so is the version word of version 7.
  lemma VersionPublished(number: nat)
    requires IsVersion(number, 7)
    ensures number == 0x7c94
  {
    hide Xor, Bch.IsMultiple;
    Bch.ShiftedIsMultiple(Bch.G18, 2);
    assert Shl(Bch.G18, 2) == 0x7c94;
    ShrTen(0x7c94);
    ShrTwo(0x7c94, 10);
    ShrTen(0x1f25);
    hide Shr;
    Bch.GeneratorDigits();
    Bch.CheckBitsUnique(number, 0x7c94, Bch.G18);
  }

  // ---------- Where the bits stand ----------

  // Down column 8 the bits of the format word ascend, in these rows and no other.
  lemma FormatDown(n: int, x: int, y: int)
    requires Side(n) && 0 <= x < y < n
    ensures VerticalBit(n, x) >= 0 <==> x in {0, 1, 2, 3, 4, 5, 7, 8} || x >= n - 7
    ensures VerticalBit(n, x) >= 0 && VerticalBit(n, y) >= 0 ==> 0 <= VerticalBit(n, x) < VerticalBit(n, y) < 15
  {}

  // Along row 8 they descend.
  lemma FormatAlong(n: int, x: int, y: int)
    requires Side(n) && 0 <= x < y < n
    ensures HorizontalBit(n, x) >= 0 <==> x in {0, 1, 2, 3, 4, 5, 7} || x >= n - 8
    ensures HorizontalBit(n, x) >= 0 && HorizontalBit(n, y) >= 0 ==> 0 <= HorizontalBit(n, y) < HorizontalBit(n, x) < 15
  {}

  // The bits of the version word stand in six rows of three beside the upper right
  // finder pattern, ascending row by row, and mirrored at the diagonal.
  lemma VersionRows(n: int, x: int, y: int)
    requires Side(n) && n >= 45 && 0 <= x < n && 0 <= y < n
    ensures NumberBit(n, x, y) == NumberBit(n, y, x)
    ensures x < y ==> (NumberBit(n, x, y) >= 0 <==> x < 6 && n - 11 <= y <= n - 9)
    ensures x < y && NumberBit(n, x, y) >= 0 ==> NumberBit(n, x, y) == 3 * x + (y + 11 - n)
  {}
}
