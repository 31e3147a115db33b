module Bits {
  type Byte = bv8
  type Bit = b: bv8 | b <= 1

  function BitAt(b: Byte, j: nat): Bit
    requires j < 8
  {
    (b >> (7 - j)) & 1
  }

  function BitOr(bits: seq<Bit>, k: nat): Byte
  {
    if k < |bits| then bits[k] as Byte else 0
  }

  function PackByte(bits: seq<Bit>, start: nat): Byte
  {
    (BitOr(bits, start) << 7) | (BitOr(bits, start + 1) << 6) | (BitOr(bits, start + 2) << 5) | (BitOr(bits, start + 3) << 4)
    | (BitOr(bits, start + 4) << 3) | (BitOr(bits, start + 5) << 2) | (BitOr(bits, start + 6) << 1) | BitOr(bits, start + 7)
  }

  function Unpack(data: seq<Byte>): (bits: seq<Bit>)
  {
    seq(8 * |data|, k requires 0 <= k < 8 * |data| => BitAt(data[k / 8], k % 8))
  }

  function Pack(bits: seq<Bit>): (data: seq<Byte>)
  {
    seq((|bits| + 7) / 8, i requires 0 <= i < (|bits| + 7) / 8 => PackByte(bits, 8 * i))
  }

  lemma ByteBits(b: Byte)
    ensures (BitAt(b, 0) << 7) | (BitAt(b, 1) << 6) | (BitAt(b, 2) << 5) | (BitAt(b, 3) << 4)
      | (BitAt(b, 4) << 3) | (BitAt(b, 5) << 2) | (BitAt(b, 6) << 1) | BitAt(b, 7) == b
  { }

  lemma BitsByte(x0: Bit, x1: Bit, x2: Bit, x3: Bit, x4: Bit, x5: Bit, x6: Bit, x7: Bit)
    ensures var b := (x0 << 7) | (x1 << 6) | (x2 << 5) | (x3 << 4) | (x4 << 3) | (x5 << 2) | (x6 << 1) | x7;
      BitAt(b, 0) == x0 && BitAt(b, 1) == x1 && BitAt(b, 2) == x2 && BitAt(b, 3) == x3 &&
      BitAt(b, 4) == x4 && BitAt(b, 5) == x5 && BitAt(b, 6) == x6 && BitAt(b, 7) == x7
  { }

  lemma PackUnpack(data: seq<Byte>)
    ensures Pack(Unpack(data)) == data
  {
    var bits := Unpack(data);
    forall i | 0 <= i < |data| ensures Pack(bits)[i] == data[i] {
      UnpackedByte(data, i);
    }
  }

  /** The i-th byte packed from the unpacked bits is the i-th byte. */
  lemma UnpackedByte(data: seq<Byte>, i: nat)
    requires i < |data|
    ensures PackByte(Unpack(data), 8 * i) == data[i]
  {
    UnpackedBit(data, i, 0);
    UnpackedBit(data, i, 1);
    UnpackedBit(data, i, 2);
    UnpackedBit(data, i, 3);
    UnpackedBit(data, i, 4);
    UnpackedBit(data, i, 5);
    UnpackedBit(data, i, 6);
    UnpackedBit(data, i, 7);
    ByteBits(data[i]);
  }

  /** Bit 8i + j of the unpacked bits is bit j of byte i. */
  lemma UnpackedBit(data: seq<Byte>, i: nat, j: nat)
    requires i < |data| && j < 8
    ensures BitOr(Unpack(data), 8 * i + j) == BitAt(data[i], j)
  {
    var k := 8 * i + j;
    assert k / 8 == i && k % 8 == j;
  }

  lemma UnpackPack(bits: seq<Bit>)
    requires |bits| % 8 == 0
    ensures Unpack(Pack(bits)) == bits
  {
    var data := Pack(bits);
    forall k | 0 <= k < |bits| ensures Unpack(data)[k] == bits[k] {
      var i, j := k / 8, k % 8;
      assert k == 8 * i + j && 8 * i + 8 <= |bits|;
      PackedBit(bits, i, j);
    }
  }

  /** Bit j of the i-th packed byte is the bit it was packed from. */
  lemma PackedBit(bits: seq<Bit>, i: nat, j: nat)
    requires 8 * i + 8 <= |bits| && j < 8
    ensures BitAt(PackByte(bits, 8 * i), j) == bits[8 * i + j]
  {
    var s := 8 * i;
    assert BitOr(bits, s) == bits[s] && BitOr(bits, s + 1) == bits[s + 1] && BitOr(bits, s + 2) == bits[s + 2]
      && BitOr(bits, s + 3) == bits[s + 3] && BitOr(bits, s + 4) == bits[s + 4] && BitOr(bits, s + 5) == bits[s + 5]
      && BitOr(bits, s + 6) == bits[s + 6] && BitOr(bits, s + 7) == bits[s + 7];
    BitsByte(bits[s], bits[s + 1], bits[s + 2], bits[s + 3], bits[s + 4], bits[s + 5], bits[s + 6], bits[s + 7]);
  }
}
