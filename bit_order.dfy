/**
 * The order in which the transmitter puts the bits of a pixel buffer on the
 * wire: bytes in buffer order, each byte most-significant bit first. A cursor
 * `mask` starts at 0x80 and is shifted right once per bit.
 */
module BitOrder {

  /** The value of `mask` while bit `j` of a byte is sent (j = 0 is the MSB). */
  function Mask(j: nat): bv8
    requires j < 8
  {
    0x80 >> j
  }

  /** `mask >>= 1` moves to the next bit, and yields 0 after the last one. */
  lemma MaskShift(j: nat)
    requires j < 8
    ensures Mask(j) >> 1 == if j == 7 then 0 else Mask(j + 1)
    ensures Mask(j) != 0
  {
  }

  /** `(pixel & mask) != 0` while bit `j` is sent. */
  predicate BitAt(b: bv8, j: nat)
    requires j < 8
  {
    b & Mask(j) != 0
  }

  /** While `mask` is at bit `j`, `(pixel & mask) != 0` tests bit `j` of `pixel`. */
  lemma MaskSelectsBit(pixel: bv8, mask: bv8, j: nat)
    requires j < 8 && mask == Mask(j)
    ensures (pixel & mask != 0) == BitAt(pixel, j)
  {
  }

  /** The eight bits of a byte in the order they are sent. */
  function ByteBits(b: bv8): (bits: seq<bool>)
    ensures |bits| == 8
  {
    seq(8, j requires 0 <= j < 8 => BitAt(b, j))
  }

  function BitValue(bit: bool): nat
  {
    if bit then 1 else 0
  }

  /** The number a bit sequence denotes when read most-significant bit first. */
  function MsbFirstValue(bits: seq<bool>): nat
  {
    if bits == [] then 0
    else 2 * MsbFirstValue(bits[..|bits| - 1]) + BitValue(bits[|bits| - 1])
  }

  /** Reading one more bit doubles the value read so far and adds the bit. */
  lemma MsbFirstValuePrefix(bits: seq<bool>, i: nat)
    requires i < |bits|
    ensures MsbFirstValue(bits[..i + 1]) == 2 * MsbFirstValue(bits[..i]) + BitValue(bits[i])
  {
    assert bits[..i + 1][..i] == bits[..i];
  }

  /** Eight bits read most-significant first, as a weighted sum. */
  lemma OctetValue(bits: seq<bool>)
    requires |bits| == 8
    ensures MsbFirstValue(bits) ==
      128 * BitValue(bits[0]) + 64 * BitValue(bits[1]) + 32 * BitValue(bits[2]) +
      16 * BitValue(bits[3]) + 8 * BitValue(bits[4]) + 4 * BitValue(bits[5]) +
      2 * BitValue(bits[6]) + BitValue(bits[7])
  {
    var v := seq(9, i requires 0 <= i <= 8 => MsbFirstValue(bits[..i]));
    assert v[0] == 0 by { assert bits[..0] == []; }
    forall i | 0 <= i < 8
      ensures v[i + 1] == 2 * v[i] + BitValue(bits[i])
    {
      MsbFirstValuePrefix(bits, i);
    }
    assert v[8] == MsbFirstValue(bits) by { assert bits[..8] == bits; }
  }

  /** The eight values `mask` takes, from the MSB down. */
  lemma MaskValues()
    ensures Mask(0) == 0x80 && Mask(1) == 0x40 && Mask(2) == 0x20 && Mask(3) == 0x10
    ensures Mask(4) == 0x08 && Mask(5) == 0x04 && Mask(6) == 0x02 && Mask(7) == 0x01
  {
  }

  /** A byte is the sum of its binary digits times their weights. */
  lemma ByteDigits(b: bv8)
    ensures b as int ==
      128 * BitValue(b & 0x80 != 0) + 64 * BitValue(b & 0x40 != 0) + 32 * BitValue(b & 0x20 != 0) +
      16 * BitValue(b & 0x10 != 0) + 8 * BitValue(b & 0x08 != 0) + 4 * BitValue(b & 0x04 != 0) +
      2 * BitValue(b & 0x02 != 0) + BitValue(b & 0x01 != 0)
  {
  }

  /**
   * The bits of a byte, in the order they are sent, are its binary digits
   * from the most significant to the least significant.
   */
  lemma ByteBitsAreMsbFirst(b: bv8)
    ensures MsbFirstValue(ByteBits(b)) == b as int
  {
    var bits := ByteBits(b);
    OctetValue(bits);
    MaskValues();
    assert bits[0] == (b & 0x80 != 0) && bits[1] == (b & 0x40 != 0);
    assert bits[2] == (b & 0x20 != 0) && bits[3] == (b & 0x10 != 0);
    assert bits[4] == (b & 0x08 != 0) && bits[5] == (b & 0x04 != 0);
    assert bits[6] == (b & 0x02 != 0) && bits[7] == (b & 0x01 != 0);
    ByteDigits(b);
  }

  /** 2 to the power `n`, as an integer. */
  function Pow2(n: nat): (p: nat)
    ensures p >= 1
  {
    if n == 0 then 1 else 2 * Pow2(n - 1)
  }

  /** The weights of the eight binary digits of a byte. */
  lemma Pow2Values()
    ensures Pow2(0) == 1 && Pow2(1) == 2 && Pow2(2) == 4 && Pow2(3) == 8
    ensures Pow2(4) == 16 && Pow2(5) == 32 && Pow2(6) == 64 && Pow2(7) == 128
  {
  }

  /** The parity of `2 * hi + d` is `d`. */
  lemma Parity(q: int, hi: int, d: int)
    requires q == 2 * hi + d && 0 <= d <= 1
    ensures q % 2 == d
  {
  }

  /** In a sum of eight binary digits weighted 128 down to 1, each digit is the parity of the quotient by its weight. */
  lemma WeightedDigits(n: int, d0: int, d1: int, d2: int, d3: int, d4: int, d5: int, d6: int, d7: int)
    requires 0 <= d0 <= 1 && 0 <= d1 <= 1 && 0 <= d2 <= 1 && 0 <= d3 <= 1
    requires 0 <= d4 <= 1 && 0 <= d5 <= 1 && 0 <= d6 <= 1 && 0 <= d7 <= 1
    requires n == 128 * d0 + 64 * d1 + 32 * d2 + 16 * d3 + 8 * d4 + 4 * d5 + 2 * d6 + d7
    ensures n / 128 % 2 == d0 && n / 64 % 2 == d1 && n / 32 % 2 == d2 && n / 16 % 2 == d3
    ensures n / 8 % 2 == d4 && n / 4 % 2 == d5 && n / 2 % 2 == d6 && n / 1 % 2 == d7
  {
    assert n / 128 == d0 by {
      assert n == 128 * (d0) + 64 * d1 + 32 * d2 + 16 * d3 + 8 * d4 + 4 * d5 + 2 * d6 + d7;
    }
    Parity(n / 128, 0, d0);
    assert n / 64 == 2 * d0 + d1 by {
      assert n == 64 * (2 * d0 + d1) + 32 * d2 + 16 * d3 + 8 * d4 + 4 * d5 + 2 * d6 + d7;
    }
    Parity(n / 64, d0, d1);
    assert n / 32 == 4 * d0 + 2 * d1 + d2 by {
      assert n == 32 * (4 * d0 + 2 * d1 + d2) + 16 * d3 + 8 * d4 + 4 * d5 + 2 * d6 + d7;
    }
    Parity(n / 32, 2 * d0 + d1, d2);
    assert n / 16 == 8 * d0 + 4 * d1 + 2 * d2 + d3 by {
      assert n == 16 * (8 * d0 + 4 * d1 + 2 * d2 + d3) + 8 * d4 + 4 * d5 + 2 * d6 + d7;
    }
    Parity(n / 16, 4 * d0 + 2 * d1 + d2, d3);
    assert n / 8 == 16 * d0 + 8 * d1 + 4 * d2 + 2 * d3 + d4 by {
      assert n == 8 * (16 * d0 + 8 * d1 + 4 * d2 + 2 * d3 + d4) + 4 * d5 + 2 * d6 + d7;
    }
    Parity(n / 8, 8 * d0 + 4 * d1 + 2 * d2 + d3, d4);
    assert n / 4 == 32 * d0 + 16 * d1 + 8 * d2 + 4 * d3 + 2 * d4 + d5 by {
      assert n == 4 * (32 * d0 + 16 * d1 + 8 * d2 + 4 * d3 + 2 * d4 + d5) + 2 * d6 + d7;
    }
    Parity(n / 4, 16 * d0 + 8 * d1 + 4 * d2 + 2 * d3 + d4, d5);
    assert n / 2 == 64 * d0 + 32 * d1 + 16 * d2 + 8 * d3 + 4 * d4 + 2 * d5 + d6 by {
      assert n == 2 * (64 * d0 + 32 * d1 + 16 * d2 + 8 * d3 + 4 * d4 + 2 * d5 + d6) + d7;
    }
    Parity(n / 2, 32 * d0 + 16 * d1 + 8 * d2 + 4 * d3 + 2 * d4 + d5, d6);
    assert n / 1 == 128 * d0 + 64 * d1 + 32 * d2 + 16 * d3 + 8 * d4 + 4 * d5 + 2 * d6 + d7 by {
      assert n == 1 * (128 * d0 + 64 * d1 + 32 * d2 + 16 * d3 + 8 * d4 + 4 * d5 + 2 * d6 + d7) + 0;
    }
    Parity(n / 1, 64 * d0 + 32 * d1 + 16 * d2 + 8 * d3 + 4 * d4 + 2 * d5 + d6, d7);
  }

  /** Bit `j` of an octet read most-significant first is binary digit `7 - j` of its value. */
  lemma OctetDigit(bits: seq<bool>, j: nat)
    requires |bits| == 8 && j < 8
    ensures MsbFirstValue(bits) / Pow2(7 - j) % 2 == BitValue(bits[j])
  {
    OctetValue(bits);
    Pow2Values();
    var n, weight := MsbFirstValue(bits), Pow2(7 - j);
    WeightedDigits(n,
      BitValue(bits[0]), BitValue(bits[1]), BitValue(bits[2]), BitValue(bits[3]),
      BitValue(bits[4]), BitValue(bits[5]), BitValue(bits[6]), BitValue(bits[7]));
    if j == 0 {
      assert weight == 128;
    } else if j == 1 {
      assert weight == 64;
    } else if j == 2 {
      assert weight == 32;
    } else if j == 3 {
      assert weight == 16;
    } else if j == 4 {
      assert weight == 8;
    } else if j == 5 {
      assert weight == 4;
    } else if j == 6 {
      assert weight == 2;
    } else {
      assert weight == 1;
    }
  }

  /**
   * The bit the cursor tests at position `j` is binary digit `7 - j` of the
   * byte: its quotient by 2^(7-j) is odd.
   */
  lemma BitAtIsBinaryDigit(b: bv8, j: nat)
    requires j < 8
    ensures BitAt(b, j) == ((b as int / Pow2(7 - j)) % 2 == 1)
  {
    ByteBitsAreMsbFirst(b);
    OctetDigit(ByteBits(b), j);
  }

  /** The bits of a byte sequence in the order they are sent. */
  function BitStream(bytes: seq<bv8>): (bits: seq<bool>)
    ensures |bits| == 8 * |bytes|
  {
    if bytes == [] then [] else ByteBits(bytes[0]) + BitStream(bytes[1..])
  }

  /** Bit 8k+j of the stream is bit j (from the MSB) of byte k. */
  lemma {:induction false} BitStreamAt(bytes: seq<bv8>, k: nat, j: nat)
    requires k < |bytes| && j < 8
    ensures BitStream(bytes)[8 * k + j] == BitAt(bytes[k], j)
  {
    if k > 0 {
      BitStreamAt(bytes[1..], k - 1, j);
      assert BitStream(bytes)[8 * k + j] == BitStream(bytes[1..])[8 * (k - 1) + j];
    }
  }

  /** The byte whose bits, most significant first, are b0 .. b7. */
  function PackBools(b0: bool, b1: bool, b2: bool, b3: bool,
                     b4: bool, b5: bool, b6: bool, b7: bool): bv8
  {
    (if b0 then 0x80 else 0) | (if b1 then 0x40 else 0) |
    (if b2 then 0x20 else 0) | (if b3 then 0x10 else 0) |
    (if b4 then 0x08 else 0) | (if b5 then 0x04 else 0) |
    (if b6 then 0x02 else 0) | (if b7 then 0x01 else 0)
  }

  /** `PackBools` puts its i-th argument at bit i, counted from the MSB. */
  lemma PackBoolsBits(b0: bool, b1: bool, b2: bool, b3: bool,
                      b4: bool, b5: bool, b6: bool, b7: bool)
    ensures var b := PackBools(b0, b1, b2, b3, b4, b5, b6, b7);
      BitAt(b, 0) == b0 && BitAt(b, 1) == b1 && BitAt(b, 2) == b2 && BitAt(b, 3) == b3 &&
      BitAt(b, 4) == b4 && BitAt(b, 5) == b5 && BitAt(b, 6) == b6 && BitAt(b, 7) == b7
  {
    MaskValues();
  }

  /** Reassembles a byte from eight bits received most-significant first. */
  function PackByte(bits: seq<bool>): bv8
    requires |bits| == 8
  {
    PackBools(bits[0], bits[1], bits[2], bits[3], bits[4], bits[5], bits[6], bits[7])
  }

  /** A byte whose eight bits, MSB first, are `bits` is sent as `bits`. */
  lemma ByteBitsFrom(b: bv8, bits: seq<bool>)
    requires |bits| == 8
    requires BitAt(b, 0) == bits[0] && BitAt(b, 1) == bits[1] && BitAt(b, 2) == bits[2] && BitAt(b, 3) == bits[3]
    requires BitAt(b, 4) == bits[4] && BitAt(b, 5) == bits[5] && BitAt(b, 6) == bits[6] && BitAt(b, 7) == bits[7]
    ensures ByteBits(b) == bits
  {
    forall j | 0 <= j < 8
      ensures ByteBits(b)[j] == bits[j]
    {
      if j == 0 {} else if j == 1 {} else if j == 2 {} else if j == 3 {}
      else if j == 4 {} else if j == 5 {} else if j == 6 {} else {}
    }
  }

  /** Packing eight bits and sending the byte sends those eight bits. */
  lemma PackByteBits(bits: seq<bool>)
    requires |bits| == 8
    ensures ByteBits(PackByte(bits)) == bits
  {
    PackBoolsBits(bits[0], bits[1], bits[2], bits[3], bits[4], bits[5], bits[6], bits[7]);
    ByteBitsFrom(PackByte(bits), bits);
  }

  /** Sending a byte and packing the eight bits gives back the byte. */
  lemma BytePacks(b: bv8)
    ensures PackByte(ByteBits(b)) == b
  {
  }

  /** Reassembles a byte sequence from a received bit stream. */
  function Unpack(bits: seq<bool>): (bytes: seq<bv8>)
    requires |bits| % 8 == 0
    ensures 8 * |bytes| == |bits|
  {
    if bits == [] then [] else [PackByte(bits[..8])] + Unpack(bits[8..])
  }

  /** Unpacking the stream of a buffer gives back the buffer. */
  lemma {:induction false} UnpackBitStream(bytes: seq<bv8>)
    ensures Unpack(BitStream(bytes)) == bytes
  {
    if bytes != [] {
      var bits := BitStream(bytes);
      assert bits[..8] == ByteBits(bytes[0]);
      assert bits[8..] == BitStream(bytes[1..]);
      BytePacks(bytes[0]);
      UnpackBitStream(bytes[1..]);
    }
  }

  /** Every bit stream of whole bytes is the stream of its unpacked bytes. */
  lemma {:induction false} BitStreamUnpack(bits: seq<bool>)
    requires |bits| % 8 == 0
    ensures BitStream(Unpack(bits)) == bits
  {
    if bits != [] {
      BitStreamUnpack(bits[8..]);
      PackByteBits(bits[..8]);
      assert bits == bits[..8] + bits[8..];
    }
  }
}
