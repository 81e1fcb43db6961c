/** What the patterns and the masks look like, drawn rather than computed (sections
    6.3 and 7.8.2 of ISO/IEC 18004:2015). */
module Pictures {
  import opened NumberLaws
  import opened ZigZag
  import opened Patterns

  function Abs(x: int): nat { if x < 0 then -x else x }

  function Ring(r: int, c: int): nat { if Abs(r) < Abs(c) then Abs(c) else Abs(r) }

  // The finder pattern with its separator: dark squares of side 7 and 3 around the
  // same centre, a light ring between and a light ring around them.
  lemma FinderSquares(r: int, c: int)
    requires -1 <= r <= 7 && -1 <= c <= 7
    ensures ProbeDark(r, c) <==> Ring(r - 3, c - 3) != 2 && Ring(r - 3, c - 3) != 4
    ensures ProbeDark(r, c) == ProbeDark(c, r) == ProbeDark(6 - r, c)
  {}

  // The alignment pattern: a dark square of side 5, a light ring, a dark centre.
  lemma AlignmentSquares(r: int, c: int)
    requires -2 <= r <= 2 && -2 <= c <= 2
    ensures AdjustDark(r, c) <==> Ring(r, c) != 1
    ensures AdjustDark(r, c) == AdjustDark(c, r) == AdjustDark(-r, c)
  {}

  // The timing patterns alternate between the finder patterns, dark at both ends.
  lemma TimingAlternates(n: int, k: int)
    requires Side(n) && 8 <= k < n - 8
    ensures Timed(n, k, 6, Unset).Module? && Timed(n, 6, k, Unset) == Timed(n, k, 6, Unset)
    ensures k == 8 || k == n - 9 ==> Timed(n, k, 6, Unset) == Module(true)
    ensures k + 1 < n - 8 ==> Timed(n, k + 1, 6, Unset) != Timed(n, k, 6, Unset)
  {}

  // Six columns of each mask, and as many rows as it takes until they repeat.
  function Tile(pattern: int): (rows: seq<string>)
    requires 0 <= pattern < 8
    ensures |rows| > 0 && forall i :: 0 <= i < |rows| ==> |rows[i]| == 6
  {
    match pattern
    case 0 => ["#.#.#.",
               ".#.#.#"]
    case 1 => ["######",
               "......"]
    case 2 => ["#..#.."]
    case 3 => ["#..#..",
               "..#..#",
               ".#..#."]
    case 4 => ["###...",
               "###...",
               "...###",
               "...###"]
    case 5 => ["######",
               "#.....",
               "#..#..",
               "#.#.#.",
               "#..#..",
               "#....."]
    case 6 => ["######",
               "###...",
               "##.##.",
               "#.#.#.",
               "#.##.#",
               "#...##"]
    case _ => ["#.#.#.",
               "...###",
               "#...##",
               ".#.#.#",
               "###...",
               ".###.."]
  }

  lemma Sum2(i: nat, j: nat)
    ensures (i + j) % 2 == (i % 2 + j % 6) % 2
  {
    MultipleDropped(i / 2 + 3 * (j / 6), i % 2 + j % 6, 2);
  }

  lemma Sum3(i: nat, j: nat)
    ensures (i + j) % 3 == (i % 3 + j % 6) % 3 && j % 3 == j % 6 % 3
  {
    MultipleDropped(i / 3 + 2 * (j / 6), i % 3 + j % 6, 3);
    MultipleDropped(2 * (j / 6), j % 6, 3);
  }

  lemma Blocks(i: nat, j: nat)
    ensures (i / 2 + j / 3) % 2 == (i % 4 / 2 + j % 6 / 3) % 2
  {
    assert i / 2 == 2 * (i / 4) + i % 4 / 2;
    assert j / 3 == 2 * (j / 6) + j % 6 / 3;
  }

  // A mask of the first five looks at sums and quotients only.
  lemma SimpleMask(pattern: int, i: nat, j: nat)
    requires 0 <= pattern < 5
    ensures Mask(pattern, i, j) <==> Tile(pattern)[i % |Tile(pattern)|][j % 6] == '#'
  {
    var a, b := i % |Tile(pattern)|, j % 6;
    assert Mask(pattern, i, j) == Mask(pattern, a, b) by {
      Sum2(i, j);
      Sum3(i, j);
      Blocks(i, j);
      hide Tile;
      TileHeight(pattern);
    }
    FirstRows(pattern, a, b);
  }

  lemma TileHeight(pattern: int)
    requires 0 <= pattern < 5
    ensures |Tile(pattern)| == if pattern < 2 then 2 else if pattern == 2 then 1 else pattern
  {}

  lemma FirstRows(pattern: int, a: nat, b: nat)
    requires 0 <= pattern < 5 && a < |Tile(pattern)| && b < 6
    ensures Mask(pattern, a, b) <==> Tile(pattern)[a][b] == '#'
  {
    if pattern == 0 { First0(a, b); }
    else if pattern == 1 { First1(a, b); }
    else if pattern == 2 { First2(a, b); }
    else if pattern == 3 { First3(a, b); }
    else { First4(a, b); }
  }

  lemma First0(a: nat, b: nat)
    requires a < 2 && b < 6
    ensures Mask(0, a, b) <==> Tile(0)[a][b] == '#'
  {}

  lemma First1(a: nat, b: nat)
    requires a < 2 && b < 6
    ensures Mask(1, a, b) <==> Tile(1)[a][b] == '#'
  {}

  lemma First2(a: nat, b: nat)
    requires a < 1 && b < 6
    ensures Mask(2, a, b) <==> Tile(2)[a][b] == '#'
  {}

  lemma First3(a: nat, b: nat)
    requires a < 3 && b < 6
    ensures Mask(3, a, b) <==> Tile(3)[a][b] == '#'
  {}

  lemma First4(a: nat, b: nat)
    requires a < 4 && b < 6
    ensures Mask(4, a, b) <==> Tile(4)[a][b] == '#'
  {}

  lemma ProductLeft(i: nat, j: nat)
    ensures (i * j) % 6 == (i % 6 * (j % 6)) % 6
  {
    var q, a, p, b := i / 6, i % 6, j / 6, j % 6;
    assert i * j == (6 * q + a) * j == 6 * (q * j) + a * j;
    assert a * j == a * (6 * p + b) == 6 * (a * p) + a * b;
    assert i * j == (q * j + a * p) * 6 + a * b;
    MultipleDropped(q * j + a * p, a * b, 6);
  }

  // The other three look at the product, and whether row and column add up to an
  // even number.
  predicate ProductDark(pattern: int, product: nat, even: bool)
    requires 5 <= pattern < 8
  {
    match pattern
    case 5 => product % 6 == 0
    case 6 => product % 6 < 3
    case _ => (product % 3 == 1) != even
  }

  lemma ProductMask(pattern: int, i: nat, j: nat)
    requires 5 <= pattern < 8
    ensures Mask(pattern, i, j) <==> ProductDark(pattern, i * j, (i + j) % 2 == 0)
  {
    var m := i * j;
    var r := m % 6;
    assert m == 6 * (m / 6) + r && m % 2 == r % 2 && m % 3 == r % 3;
  }

  lemma SmallTile(pattern: int, a: nat, b: nat)
    requires 5 <= pattern < 8 && a < 6 && b < 6
    ensures ProductDark(pattern, a * b, (a + b) % 2 == 0) <==> Tile(pattern)[a][b] == '#'
  {
    if a == 0 { SmallRow(pattern, a, b, 0); }
    else if a == 1 { SmallRow(pattern, a, b, b); }
    else if a == 2 { SmallRow(pattern, a, b, 2 * b); }
    else if a == 3 { SmallRow(pattern, a, b, 3 * b); }
    else if a == 4 { SmallRow(pattern, a, b, 4 * b); }
    else { SmallRow(pattern, a, b, 5 * b); }
  }

  predicate Times(a: nat, b: nat, product: nat) {
    product == if a == 0 then 0 else if a == 1 then b else if a == 2 then 2 * b
               else if a == 3 then 3 * b else if a == 4 then 4 * b else 5 * b
  }

  lemma SmallRow(pattern: int, a: nat, b: nat, product: nat)
    requires 5 <= pattern < 8 && a < 6 && b < 6 && Times(a, b, product)
    ensures ProductDark(pattern, product, (a + b) % 2 == 0) <==> Tile(pattern)[a][b] == '#'
  {
    if pattern == 5 { Row5(a, b, product); }
    else if pattern == 6 { Row6(a, b, product); }
    else { Row7(a, b, product); }
  }

  lemma Row5(a: nat, b: nat, product: nat)
    requires a < 6 && b < 6 && Times(a, b, product)
    ensures ProductDark(5, product, (a + b) % 2 == 0) <==> Tile(5)[a][b] == '#'
  {}

  lemma Row6(a: nat, b: nat, product: nat)
    requires a < 6 && b < 6 && Times(a, b, product)
    ensures ProductDark(6, product, (a + b) % 2 == 0) <==> Tile(6)[a][b] == '#'
  {}

  lemma Row7(a: nat, b: nat, product: nat)
    requires a < 6 && b < 6 && Times(a, b, product)
    ensures ProductDark(7, product, (a + b) % 2 == 0) <==> Tile(7)[a][b] == '#'
  {}

  lemma SameProduct(pattern: int, m: nat, r: nat, i: nat, j: nat)
    requires 5 <= pattern < 8 && m % 6 == r % 6
    ensures ProductDark(pattern, m, (i + j) % 2 == 0) == ProductDark(pattern, r, (i % 6 + j % 6) % 2 == 0)
  {
    RestOfThird(m);
    RestOfThird(r);
    SameParity(i, j);
  }

  lemma RestOfThird(m: nat)
    ensures m % 3 == m % 6 % 3
  {
    MultipleDropped(2 * (m / 6), m % 6, 3);
  }

  lemma SameParity(i: nat, j: nat)
    ensures (i + j) % 2 == (i % 6 + j % 6) % 2
  {
    MultipleDropped(3 * (i / 6) + 3 * (j / 6), i % 6 + j % 6, 2);
  }

  // The masks are these tiles, side by side and one below the other.
  lemma MaskDrawn(pattern: int, i: nat, j: nat)
    requires 0 <= pattern < 8
    ensures Mask(pattern, i, j) <==> Tile(pattern)[i % |Tile(pattern)|][j % 6] == '#'
  {
    if pattern < 5 {
      SimpleMask(pattern, i, j);
    } else {
      var a, b := i % 6, j % 6;
      ProductMask(pattern, i, j);
      ProductLeft(i, j);
      SameProduct(pattern, i * j, a * b, i, j);
      SmallTile(pattern, a, b);
    }
  }
}
