/** The encoder's growing bit buffer: bits packed into bytes from the high end. */
module BitBuffer {
  import opened Bits
  import opened SeqLaws

  // ---------- Numbers as bit strings, high bit first ----------

  function ToBits(n: nat, len: nat): (b: seq<bool>)
    ensures |b| == len
  {
    if len == 0 then [] else ToBits(n / 2, len - 1) + [n % 2 == 1]
  }

  function FromBits(b: seq<bool>): nat {
    if b == [] then 0 else 2 * FromBits(b[..|b| - 1]) + Bit(b[|b| - 1])
  }

  lemma {:induction false} FromToBits(n: nat, len: nat)
    requires n < Pow2(len)
    ensures FromBits(ToBits(n, len)) == n
  {
    if len > 0 {
      FromToBits(n / 2, len - 1);
      assert ToBits(n, len)[..len - 1] == ToBits(n / 2, len - 1);
    }
  }

  lemma {:induction false} ToFromBits(b: seq<bool>)
    ensures FromBits(b) < Pow2(|b|) && ToBits(FromBits(b), |b|) == b
  {
    if b != [] {
      ToFromBits(b[..|b| - 1]);
    }
  }

  lemma FromBitsSnoc(b: seq<bool>, x: bool)
    ensures FromBits(b + [x]) == 2 * FromBits(b) + Bit(x)
  {
    assert (b + [x])[..|b|] == b;
  }

  // Bit i of a number written in len bits.
  lemma {:induction false} ToBitsAt(n: nat, len: nat, i: nat)
    requires i < len
    ensures ToBits(n, len)[i] == (Shr(n, len - i - 1) % 2 == 1)
  {
    if i < len - 1 {
      ToBitsAt(n / 2, len - 1, i);
    }
  }

  // A byte whose high bits are b and whose other bits are zero.
  function Pack(b: seq<bool>): nat
    requires |b| <= 8
  {
    Shl(FromBits(b), 8 - |b|)
  }

  lemma PackSnoc(b: seq<bool>, x: bool)
    requires |b| < 8
    ensures Pack(b + [x]) == if x then Or(Pack(b), Shr(0x80, |b|)) else Pack(b)
  {
    hide FromBits, Or, Xor, Shr, Shl;
    var f, s := FromBits(b), 7 - |b|;
    FromBitsSnoc(b, x);
    ShlDouble(f, s);
    ShlStep(f, s);
    HighBit(|b|);
    if x {
      OrShifted(f, Pow2(s), s + 1);
      ShlAddOne(2 * f, s);
    }
  }

  lemma ShlStep(a: nat, s: nat)
    ensures Shl(a, s + 1) == 2 * Shl(a, s)
  {}

  lemma HighBit(j: nat)
    requires j < 8
    ensures Shr(0x80, j) == Pow2(7 - j)
  {
    assert Shr(0x80, 0) == 0x80 && Shr(0x40, 0) == 0x40;
    ShrPow2(7, j);
    assert Pow2(7) == 8 * Pow2(4) && Pow2(4) == 16;
  }

  lemma {:induction false} ShrPow2(n: nat, j: nat)
    requires j <= n
    ensures Shr(Pow2(n), j) == Pow2(n - j)
  {
    if j > 0 {
      ShrPow2(n - 1, j - 1);
    }
  }

  lemma {:induction false} ShlAddOne(a: nat, s: nat)
    ensures Shl(a + 1, s) == Shl(a, s) + Pow2(s)
  {
    if s > 0 {
      ShlAddOne(a, s - 1);
    }
  }

  // ---------- Bit strings as bytes ----------

  function ByteCount(n: nat): nat { (n + 7) / 8 }

  // The bits that fall into byte i.
  function Chunk(bits: seq<bool>, i: nat): (c: seq<bool>)
    requires 8 * i <= |bits|
    ensures |c| <= 8
  {
    if 8 * i + 8 <= |bits| then bits[8 * i..8 * i + 8] else bits[8 * i..]
  }

  function Packed(bits: seq<bool>): (bytes: seq<nat>)
    ensures |bytes| == ByteCount(|bits|)
    ensures forall i :: 0 <= i < |bytes| ==> bytes[i] == Pack(Chunk(bits, i))
  {
    seq(ByteCount(|bits|), i requires 0 <= i < ByteCount(|bits|) => Pack(Chunk(bits, i)))
  }

  // The bits of whole bytes, in order.
  function Unpacked(bytes: seq<nat>): (bits: seq<bool>)
    ensures |bits| == 8 * |bytes|
  {
    if bytes == [] then [] else Unpacked(bytes[..|bytes| - 1]) + ToBits(bytes[|bytes| - 1], 8)
  }

  lemma {:induction false} UnpackedAt(bytes: seq<nat>, k: nat)
    requires k < 8 * |bytes|
    ensures Unpacked(bytes)[k] == (Shr(bytes[k / 8], 7 - k % 8) % 2 == 1)
  {
    hide ToBits, Shr;
    var n := |bytes| - 1;
    if k < 8 * n {
      UnpackedAt(bytes[..n], k);
    } else {
      ToBitsAt(bytes[n], 8, k - 8 * n);
    }
  }

  lemma {:induction false} UnpackedPacked(bits: seq<bool>)
    requires |bits| % 8 == 0
    ensures Unpacked(Packed(bits)) == bits
  {
    hide Packed, Pack, Chunk, ToBits;
    var n := |bits| / 8;
    if n > 0 {
      var front := bits[..|bits| - 8];
      UnpackedPacked(front);
      PackedFront(bits);
      var last := Chunk(bits, n - 1);
      PackWhole(last);
    }
  }

  lemma {:induction false} PackedUnpacked(bytes: seq<nat>)
    requires forall i :: 0 <= i < |bytes| ==> bytes[i] < 256
    ensures Packed(Unpacked(bytes)) == bytes
  {
    hide Packed, Pack, Chunk, ToBits, FromBits, Pow2;
    if bytes != [] {
      var n := |bytes| - 1;
      var bits := Unpacked(bytes);
      PackedUnpacked(bytes[..n]);
      PackedFront(bits);
      assert bits[..|bits| - 8] == Unpacked(bytes[..n]);
      assert Chunk(bits, n) == ToBits(bytes[n], 8) by { ChunkLast(bits, n); }
      BytePacked(bytes[n]);
      assert Packed(bits) == Packed(bits)[..n] + [Packed(bits)[n]];
    }
  }

  lemma ChunkLast(bits: seq<bool>, n: nat)
    requires |bits| == 8 * n + 8
    ensures Chunk(bits, n) == bits[8 * n..]
  {}

  lemma BytePacked(b: nat)
    requires b < 256
    ensures Pack(ToBits(b, 8)) == b
  {
    assert Pow2(8) == 16 * Pow2(4) && Pow2(4) == 16;
    FromToBits(b, 8);
  }

  lemma PackWhole(c: seq<bool>)
    requires |c| == 8
    ensures ToBits(Pack(c), 8) == c
  {
    ToFromBits(c);
  }

  lemma PackedFront(bits: seq<bool>)
    requires |bits| % 8 == 0 && |bits| > 0
    ensures var n := |bits| / 8;
            && Packed(bits)[..n - 1] == Packed(bits[..|bits| - 8])
            && bits == bits[..|bits| - 8] + Chunk(bits, n - 1)
  {
    hide Pack;
    var n := |bits| / 8;
    var front := bits[..|bits| - 8];
    forall i | 0 <= i < n - 1 ensures Chunk(bits, i) == Chunk(front, i) {}
  }

  lemma PackedByteBound(bits: seq<bool>, i: nat)
    requires i < ByteCount(|bits|)
    ensures Packed(bits)[i] < 256
  {
    var c := Chunk(bits, i);
    ToFromBits(c);
    ShlBound(FromBits(c), |c|, 8 - |c|);
    assert Pow2(8) == 16 * Pow2(4) && Pow2(4) == 16;
  }

  lemma {:induction false} ShlBound(a: nat, n: nat, s: nat)
    requires a < Pow2(n)
    ensures Shl(a, s) < Pow2(n + s)
  {
    if s > 0 {
      ShlBound(a, n, s - 1);
    }
  }

  // Appending a bit touches only the last byte, or starts a new one.
  lemma PackedSnoc(bits: seq<bool>, x: bool)
    ensures var n := |bits| / 8;
            var base := if |bits| % 8 == 0 then Packed(bits) + [0] else Packed(bits);
            && |base| == n + 1
            && Packed(bits + [x]) == base[n := if x then Or(base[n], Shr(0x80, |bits| % 8)) else base[n]]
  {
    hide Pack, Packed, Or, Shr;
    var n := |bits| / 8;
    var base := if |bits| % 8 == 0 then Packed(bits) + [0] else Packed(bits);
    var c := bits[8 * n..];
    assert base[n] == Pack(c) by {
      if |bits| % 8 == 0 { PackEmpty(); assert c == []; }
    }
    PackSnoc(c, x);
    assert Chunk(bits + [x], n) == c + [x];
    forall i | 0 <= i < n ensures Chunk(bits + [x], i) == Chunk(bits, i) {}
  }

  lemma PackEmpty()
    ensures Pack([]) == 0
  {
    ShlZero(8);
  }

  lemma {:induction false} ShlZero(s: nat)
    ensures Shl(0, s) == 0
  {
    if s > 0 {
      ShlZero(s - 1);
    }
  }

  // ---------- The buffer ----------

  class Buffer {
    var bytes: seq<nat>
    var length: nat
    ghost var bits: seq<bool>

    ghost predicate Valid()
      reads this
    {
      length == |bits| && bytes == Packed(bits)
    }

    constructor ()
      ensures Valid() && bits == []
    {
      bytes := [];
      length := 0;
      bits := [];
    }

    method PutBit(bit: bool)
      requires Valid()
      modifies this
      ensures Valid() && bits == old(bits) + [bit]
    {
      PackedSnoc(bits, bit);
      var bufIndex := length / 8;
      if |bytes| <= bufIndex {
        bytes := bytes + [0];
      }
      if bit {
        bytes := bytes[bufIndex := Or(bytes[bufIndex], Shr(0x80, length % 8))];
      }
      length := length + 1;
      bits := bits + [bit];
    }

    method Put(num: nat, len: nat)
      requires Valid()
      modifies this
      ensures Valid() && bits == old(bits) + ToBits(num, len)
    {
      for i := 0 to len
        invariant Valid() && bits == old(bits) + ToBits(num, len)[..i]
      {
        ToBitsAt(num, len, i);
        TakeSnoc(ToBits(num, len), i);
        PutBit(Shr(num, len - i - 1) % 2 == 1);
      }
    }

    method GetAt(index: nat) returns (bit: bool)
      requires Valid() && index < length
      ensures bit == bits[index]
    {
      var bufIndex := index / 8;
      PackedAt(bits, index);
      bit := Shr(bytes[bufIndex], 7 - index % 8) % 2 == 1;
    }
  }

  lemma PackedAt(bits: seq<bool>, index: nat)
    requires index < |bits|
    ensures bits[index] == (Shr(Packed(bits)[index / 8], 7 - index % 8) % 2 == 1)
  {
    hide Packed, FromBits, ToBits, Shl, Shr;
    var c := Chunk(bits, index / 8);
    var j := index % 8;
    assert c[j] == bits[index];
    ToFromBits(c);
    ToBitsAt(FromBits(c), |c|, j);
    ShrShl(FromBits(c), 8 - |c|, 7 - j);
  }

  lemma {:induction false} ShrShl(a: nat, s: nat, t: nat)
    requires s <= t
    ensures Shr(Shl(a, s), t) == Shr(a, t - s)
  {
    if s > 0 {
      ShrShl(a, s - 1, t - 1);
    }
  }
}
