/** The encoder's bit output stream: bits packed into bytes from the low end. */
module BitStream {
  import opened Bits
  import opened SeqLaws

  // ---------- Numbers as bit strings, low bit first ----------

  function LowBits(n: nat, len: nat): (b: seq<bool>)
    ensures |b| == len
  {
    if len == 0 then [] else [n % 2 == 1] + LowBits(n / 2, len - 1)
  }

  function LowValue(b: seq<bool>): nat {
    if b == [] then 0 else Bit(b[0]) + 2 * LowValue(b[1..])
  }

  function FalseBits(n: nat): (b: seq<bool>)
    ensures |b| == n && forall i :: 0 <= i < n ==> !b[i]
  {
    seq(n, _ => false)
  }

  lemma {:induction false} LowRoundTrip(n: nat, len: nat)
    requires n < Pow2(len)
    ensures LowValue(LowBits(n, len)) == n
  {
    if len > 0 {
      LowRoundTrip(n / 2, len - 1);
    }
  }

  // The bits of a number above a shifted buffer: the buffer's bits come first.
  lemma {:induction false} LowBitsShifted(data: nat, buf: nat, s: nat, len: nat)
    requires buf < Pow2(s)
    ensures LowBits(Shl(data, s) + buf, s + len) == LowBits(buf, s) + LowBits(data, len)
  {
    if s > 0 {
      LowBitsShifted(data, buf / 2, s - 1, len);
      assert (Shl(data, s) + buf) / 2 == Shl(data, s - 1) + buf / 2;
      assert (Shl(data, s) + buf) % 2 == buf % 2;
    }
  }

  lemma {:induction false} LowBitsSplit(n: nat, s: nat, len: nat)
    ensures LowBits(n, s + len) == LowBits(n, s) + LowBits(Shr(n, s), len)
  {
    if s > 0 {
      LowBitsSplit(n / 2, s - 1, len);
    }
  }

  lemma LowByte(n: nat)
    ensures LowBits(n % 256, 8) == LowBits(n, 8)
  {
    hide LowBits;
    Pow2Eight();
    var q := n / 256;
    ShlEight(q);
    LowBitsShifted(q, n % 256, 8, 0);
    assert LowBits(q, 0) == [];
  }

  lemma ShlEight(q: nat)
    ensures Shl(q, 8) == 256 * q
  {
    var q1, q2, q4 := Shl(q, 1), Shl(q, 2), Shl(q, 4);
    assert Shl(q, 0) == q;
    assert q1 == 2 * q && q2 == 2 * q1;
    var q3 := Shl(q, 3);
    assert q3 == 2 * q2 && q4 == 2 * q3;
    var q5, q6 := Shl(q, 5), Shl(q, 6);
    assert q5 == 2 * q4 && q6 == 2 * q5;
    var q7 := Shl(q, 7);
    assert q7 == 2 * q6 && Shl(q, 8) == 2 * q7;
  }

  lemma {:induction false} LowBitsZero(len: nat)
    ensures LowBits(0, len) == FalseBits(len)
  {
    if len > 0 {
      LowBitsZero(len - 1);
    }
  }

  lemma {:induction false} LowBitsPad(n: nat, len: nat, extra: nat)
    requires n < Pow2(len)
    ensures LowBits(n, len + extra) == LowBits(n, len) + FalseBits(extra)
  {
    if len == 0 {
      LowBitsZero(extra);
    } else {
      LowBitsPad(n / 2, len - 1, extra);
    }
  }

  // The bits of whole bytes.
  function ByteBits(bytes: seq<nat>): (b: seq<bool>)
    ensures |b| == 8 * |bytes|
  {
    if bytes == [] then [] else ByteBits(bytes[..|bytes| - 1]) + LowBits(bytes[|bytes| - 1], 8)
  }

  lemma ByteBitsSnoc(bytes: seq<nat>, x: nat)
    ensures ByteBits(bytes + [x]) == ByteBits(bytes) + LowBits(x, 8)
  {
    assert (bytes + [x])[..|bytes|] == bytes;
  }

  lemma {:induction false} ShrFits(n: nat, s: nat, len: nat)
    requires n < Pow2(s + len)
    ensures Shr(n, s) < Pow2(len)
  {
    if s > 0 {
      ShrFits(n / 2, s - 1, len);
    }
  }

  lemma {:induction false} ShrZero(n: nat, len: nat)
    ensures Shr(n, len) == 0 <==> n < Pow2(len)
  {
    if len > 0 {
      ShrZero(n / 2, len - 1);
    }
  }

  lemma Pow2Eight()
    ensures Pow2(8) == 256
  {
    assert Pow2(8) == 16 * Pow2(4) && Pow2(4) == 16;
  }

  class BitOutputStream {
    var out: seq<nat>
    var bitLength: nat
    var bitBuffer: nat
    ghost var bits: seq<bool>

    ghost predicate Valid()
      reads this
    {
      && bitLength < 8 && bitBuffer < Pow2(bitLength)
      && ByteBits(out) + LowBits(bitBuffer, bitLength) == bits
    }

    constructor ()
      ensures Valid() && bits == []
    {
      out := [];
      bitLength := 0;
      bitBuffer := 0;
      bits := [];
    }

    // Fails, where the source throws 'length over', exactly when the number
    // needs more than the given number of bits.
    method Write(number: nat, width: nat) returns (ok: bool)
      requires Valid()
      modifies this
      ensures Valid()
      ensures ok <==> number < Pow2(width)
      ensures ok ==> bits == old(bits) + LowBits(number, width)
      ensures !ok ==> bits == old(bits)
    {
      hide LowBits, ByteBits, Or, Shr, Shl;
      ShrZero(number, width);
      if Shr(number, width) != 0 {
        return false;
      }
      var data: nat, length: nat := number, width;
      bits := bits + LowBits(number, width);
      while bitLength + length >= 8
        invariant bitLength < 8 && bitBuffer < Pow2(bitLength) && data < Pow2(length)
        invariant bits == old(bits) + LowBits(number, width)
        invariant ByteBits(out) + LowBits(bitBuffer, bitLength) + LowBits(data, length) == bits
        decreases length + bitLength
      {
        ByteOut(out, bitBuffer, bitLength, data, length);
        WriteByte(Or(Shl(data, bitLength), bitBuffer) % 256);
        length := length - (8 - bitLength);
        ShrFits(data, 8 - bitLength, length);
        data := Shr(data, 8 - bitLength);
        bitBuffer := 0;
        bitLength := 0;
      }
      Merge(data, length, bitBuffer, bitLength);
      bitBuffer := Or(Shl(data, bitLength), bitBuffer);
      bitLength := bitLength + length;
      ok := true;
    }

    method WriteByte(b: nat)
      modifies this`out
      ensures out == old(out) + [b]
    {
      out := out + [b];
    }

    lemma BitsLength()
      requires Valid()
      ensures |bits| % 8 == bitLength
    {}

    // Pads the last byte with zero bits.
    method Flush()
      requires Valid()
      modifies this`out
      ensures ByteBits(out) == bits + FalseBits((8 - |bits| % 8) % 8)
    {
      hide LowBits, ByteBits, FalseBits;
      BitsLength();
      if bitLength > 0 {
        LowBitsPad(bitBuffer, bitLength, 8 - bitLength);
        ByteBitsSnoc(out, bitBuffer);
        ConcatAssoc(ByteBits(out), LowBits(bitBuffer, bitLength), FalseBits(8 - bitLength));
        WriteByte(bitBuffer);
      }
    }
  }

  // One full byte leaves the stream.
  lemma ByteOut(out: seq<nat>, buf: nat, s: nat, data: nat, length: nat)
    requires s < 8 && buf < Pow2(s) && s + length >= 8
    ensures var b, rest := Or(Shl(data, s), buf) % 256, length - (8 - s);
            ByteBits(out) + LowBits(buf, s) + LowBits(data, length)
            == ByteBits(out + [b]) + LowBits(0, 0) + LowBits(Shr(data, 8 - s), rest)
  {
    hide LowBits, ByteBits, Or, Shr, Shl;
    var v, rest := Shl(data, s) + buf, length - (8 - s);
    OrShifted(data, buf, s);
    Pow2Eight();
    LowByte(v);
    LowBitsShifted(data, buf, s, 8 - s);
    LowBitsSplit(data, 8 - s, rest);
    ByteBitsSnoc(out, v % 256);
    var a, b, c := ByteBits(out), LowBits(buf, s), LowBits(data, 8 - s);
    var t := LowBits(Shr(data, 8 - s), rest);
    assert a + b + (c + t) == a + (b + c) + t;
    assert LowBits(0, 0) == [];
  }

  // What remains goes into the buffer.
  lemma Merge(data: nat, length: nat, buf: nat, s: nat)
    requires buf < Pow2(s) && data < Pow2(length)
    ensures Or(Shl(data, s), buf) < Pow2(s + length)
    ensures LowBits(Or(Shl(data, s), buf), s + length) == LowBits(buf, s) + LowBits(data, length)
  {
    hide Or, LowBits;
    OrShifted(data, buf, s);
    LowBitsShifted(data, buf, s, length);
    ShiftedBound(data, buf, s, length);
  }

  lemma {:induction false} ShiftedBound(data: nat, buf: nat, s: nat, length: nat)
    requires buf < Pow2(s) && data < Pow2(length)
    ensures Shl(data, s) + buf < Pow2(s + length)
  {
    if s > 0 {
      ShiftedBound(data, buf / 2, s - 1, length);
    }
  }
}
