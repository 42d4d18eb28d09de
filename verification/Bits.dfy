/** Bytes as bit sequences, most significant bit first. */
module Bits {

  function Bit(b: bv8, k: nat): bool
    requires k < 8
  {
    (b >> k) & 1 == 1
  }

  function ByteBits(b: bv8): (bits: seq<bool>)
    ensures |bits| == 8
  {
    [Bit(b, 7), Bit(b, 6), Bit(b, 5), Bit(b, 4), Bit(b, 3), Bit(b, 2), Bit(b, 1), Bit(b, 0)]
  }

  function JoinByte(bits: seq<bool>): bv8
    requires |bits| == 8
  {
    (if bits[0] then 0x80 else 0) | (if bits[1] then 0x40 else 0) | (if bits[2] then 0x20 else 0) |
    (if bits[3] then 0x10 else 0) | (if bits[4] then 0x08 else 0) | (if bits[5] then 0x04 else 0) |
    (if bits[6] then 0x02 else 0) | (if bits[7] then 0x01 else 0)
  }

  lemma JoinByteBits(b: bv8)
    ensures JoinByte(ByteBits(b)) == b
  {
  }

  lemma BitsJoined(bits: seq<bool>)
    requires |bits| == 8
    ensures ByteBits(JoinByte(bits)) == bits
  {
  }

  lemma ByteBitsAt(b: bv8, k: nat)
    requires k < 8
    ensures ByteBits(b)[7 - k] == Bit(b, k)
  {
  }

  /** Bit k of a byte sequence; false past the end. */
  function BitAt(data: seq<bv8>, k: nat): bool {
    k / 8 < |data| && ByteBits(data[k / 8])[k % 8]
  }

  function BitsOf(data: seq<bv8>): nat -> bool {
    (k: nat) => BitAt(data, k)
  }

  /** Byte j of a bit sequence. */
  function ByteAt(bits: seq<bool>, j: nat): bv8
    requires 8 * j + 8 <= |bits|
  {
    JoinByte(bits[8 * j..8 * j + 8])
  }

  lemma ByteOfBits(data: seq<bv8>, bits: seq<bool>, j: nat)
    requires 8 * j + 8 <= |bits| && j < |data|
    requires forall k :: 0 <= k < |bits| ==> bits[k] == BitAt(data, k)
    ensures ByteAt(bits, j) == data[j]
  {
    BitsOfByte(data, bits, j);
    JoinByteBits(data[j]);
  }

  lemma BitsOfByte(data: seq<bv8>, bits: seq<bool>, j: nat)
    requires 8 * j + 8 <= |bits| && j < |data|
    requires forall k :: 0 <= k < |bits| ==> bits[k] == BitAt(data, k)
    ensures bits[8 * j..8 * j + 8] == ByteBits(data[j])
  {
    forall i | 0 <= i < 8 ensures bits[8 * j..8 * j + 8][i] == ByteBits(data[j])[i] {
      assert bits[8 * j..8 * j + 8][i] == bits[8 * j + i];
      assert (8 * j + i) / 8 == j && (8 * j + i) % 8 == i;
    }
  }
}
