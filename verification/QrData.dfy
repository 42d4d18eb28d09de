/**
  The data bit stream (section 7.4 of ISO/IEC 18004:2015): qrBitBuffer, the byte-mode segments,
  createData's terminator and padding, the version make picks, and the reader of the stream.
*/
module QrData {
  import opened NumberBits
  import opened Basics

  // ---- the bit buffer

  /** `b | 1 << k` */
  function SetBit(b: nat, k: nat): nat {
    if k == 0 then (if b % 2 == 1 then b else b + 1)
    else 2 * SetBit(b / 2, k - 1) + b % 2
  }

  lemma {:induction false} SetBitBits(b: nat, k: nat, length: nat)
    requires k < length
    ensures NumBits(SetBit(b, k), length) == NumBits(b, length)[length - 1 - k := true]
  {
    var half, front := SetBit(b, k) / 2, NumBits(b / 2, length - 1);
    if k > 0 {
      SetBitBits(b / 2, k - 1, length - 1);
      assert half == SetBit(b / 2, k - 1) && SetBit(b, k) % 2 == b % 2;
      hide SetBit;
      assert NumBits(SetBit(b, k), length) == front[length - 1 - k := true] + [b % 2 == 1];
    } else {
      assert half == b / 2;
    }
  }

  lemma {:induction false} SetBitBound(b: nat, k: nat, length: nat)
    requires k < length && b < Pow2(length)
    ensures SetBit(b, k) < Pow2(length)
  {
    if k > 0 {
      var q, r := b / 2, b % 2;
      assert b == 2 * q + r && Pow2(length) == 2 * Pow2(length - 1);
      SetBitBound(q, k - 1, length - 1);
      assert SetBit(b, k) == 2 * SetBit(q, k - 1) + r;
    }
  }

  lemma {:induction false} ZeroBits(length: nat)
    ensures AllFalse(NumBits(0, length))
  {
    if length > 0 {
      ZeroBits(length - 1);
    }
  }

  ghost predicate AllFalse(bits: seq<bool>) {
    forall k :: 0 <= k < |bits| ==> !bits[k]
  }

  /** A fresh zero byte keeps the bits put so far. */
  lemma Grown(buffer: seq<Octet>, bits: seq<bool>)
    requires OctetBits(buffer) == bits + FalseBits(0)
    ensures OctetBits(buffer + [0]) == bits + FalseBits(8)
  {
    ZeroBits(8);
    OctetBitsSnoc(buffer, 0);
    assert NumBits(0, 8) == FalseBits(8);
  }

  /** Setting the bit at `length`, in the last byte, changes that bit alone. */
  lemma BitSet(buffer: seq<Octet>, length: nat)
    requires length / 8 == |buffer| - 1
    ensures SetBit(buffer[length / 8], 7 - length % 8) < 256
    ensures OctetBits(buffer[length / 8 := SetBit(buffer[length / 8], 7 - length % 8)]) ==
            OctetBits(buffer)[length := true]
  {
    hide SetBit, NumBits, Pow2, OctetBits;
    Pow2Octet();
    var front, last := buffer[..|buffer| - 1], buffer[|buffer| - 1];
    var k := 7 - length % 8;
    SetBitBound(last, k, 8);
    SetBitBits(last, k, 8);
    OctetBitsSnoc(front, SetBit(last, k));
    OctetBitsSnoc(front, last);
    assert buffer == front + [last];
    assert buffer[length / 8 := SetBit(last, k)] == front + [SetBit(last, k)];
    assert |OctetBits(front)| + (8 - 1 - k) == length;
    SetInTail(OctetBits(front), NumBits(last, 8), 8 - 1 - k);
  }

  lemma SetInTail(left: seq<bool>, right: seq<bool>, i: nat)
    requires i < |right|
    ensures left + right[i := true] == (left + right)[|left| + i := true]
  {
  }

  lemma Extended(bits: seq<bool>, n: nat, bit: bool)
    requires n > 0
    ensures (bits + [bit]) + FalseBits(n - 1) ==
            if bit then (bits + FalseBits(n))[|bits| := true] else bits + FalseBits(n)
  {
  }

  /** The bytes hold these bits, and only false ones behind them. */
  ghost predicate Holds(buffer: seq<Octet>, bits: seq<bool>) {
    && |buffer| == (|bits| + 7) / 8
    && OctetBits(buffer) == bits + FalseBits(8 * |buffer| - |bits|)
  }

  /** The bytes after one more bit. */
  method WithBit(buffer: seq<Octet>, length: nat, bit: bool, ghost bits: seq<bool>) returns (r: seq<Octet>)
    requires length == |bits| && Holds(buffer, bits)
    ensures Holds(r, bits + [bit])
  {
    hide SetBit, NumBits, OctetBits;
    var bufIndex := length / 8;
    var grown := buffer;
    if |buffer| <= bufIndex {
      Grown(buffer, bits);
      grown := buffer + [0];
    }
    r := grown;
    if bit {
      BitSet(grown, length);
      r := grown[bufIndex := SetBit(grown[bufIndex], 7 - length % 8)];
    }
    Extended(bits, 8 * |grown| - length, bit);
  }

  class BitBuffer {
    var buffer: seq<Octet>
    var length: nat
    /** The bits put so far. */
    ghost var Contents: seq<bool>

    ghost predicate Valid()
      reads this
    {
      && length == |Contents|
      && Holds(buffer, Contents)
    }

    constructor ()
      ensures Valid() && Contents == []
    {
      buffer, length, Contents := [], 0, [];
    }

    method PutBit(bit: bool)
      requires Valid()
      modifies this
      ensures Valid() && Contents == old(Contents) + [bit]
    {
      buffer := WithBit(buffer, length, bit, Contents);
      length := length + 1;
      Contents := Contents + [bit];
    }

    method Put(num: nat, count: nat)
      requires Valid() && count <= 32
      modifies this
      ensures Valid() && Contents == old(Contents) + NumBits(num, count)
    {
      for i := 0 to count
        invariant Valid() && Contents == old(Contents) + NumBits(num, count)[..i]
      {
        NumBitsAt(num, count, i);
        PutBit(NumBit(num, count - i - 1));
      }
    }
  }

  // ---- segments

  const MODE_8BIT_BYTE: nat := 4

  /** The width of the length field of a byte segment. */
  function LengthInBits(typeNumber: nat): nat {
    if 1 <= typeNumber < 10 then 8 else 16
  }

  function SegmentBits(bytes: seq<Octet>, width: nat): (bits: seq<bool>)
    ensures |bits| == 4 + width + 8 * |bytes|
  {
    NumBits(MODE_8BIT_BYTE, 4) + NumBits(|bytes|, width) + OctetBits(bytes)
  }

  function PayloadBits(dataList: seq<seq<Octet>>, width: nat): seq<bool> {
    if dataList == [] then [] else SegmentBits(dataList[0], width) + PayloadBits(dataList[1..], width)
  }

  lemma EmptyPayload(width: nat)
    ensures PayloadBits([], width) == []
  {
  }

  lemma {:induction false} PayloadSnoc(dataList: seq<seq<Octet>>, last: seq<Octet>, width: nat)
    ensures PayloadBits(dataList + [last], width) == PayloadBits(dataList, width) + SegmentBits(last, width)
  {
    hide SegmentBits;
    if dataList == [] {
      assert ([last])[1..] == [];
    } else {
      PayloadSnoc(dataList[1..], last, width);
      assert (dataList + [last])[1..] == dataList[1..] + [last];
    }
  }

  // ---- the reader

  function ReadOctet(bits: seq<bool>): (b: Octet)
    requires |bits| == 8
    ensures b == ReadNum(bits)
  {
    assert Pow2(8) == 256;
    ReadNum(bits)
  }

  function ReadOctets(bits: seq<bool>, n: nat): seq<Octet>
    requires 8 * n <= |bits|
  {
    if n == 0 then [] else ReadOctets(bits, n - 1) + [ReadOctet(bits[8 * n - 8..8 * n])]
  }

  /** Segments up to the terminator, or to the point where no further mode indicator fits. */
  function ReadSegments(bits: seq<bool>, width: nat): seq<seq<Octet>>
    decreases |bits|
  {
    if |bits| < 4 + width || ReadNum(bits[..4]) != MODE_8BIT_BYTE then []
    else
      var n := ReadNum(bits[4..4 + width]);
      var rest := bits[4 + width..];
      if |rest| < 8 * n then [] else [ReadOctets(rest, n)] + ReadSegments(rest[8 * n..], width)
  }

  lemma Regroup(a: seq<bool>, b: seq<bool>, c: seq<bool>)
    ensures a + b + c == a + (b + c)
    ensures (a + b + c)[|a|..|a| + |b|] == b
  {
  }

  lemma {:induction false} ReadOctetBits(bytes: seq<Octet>, rest: seq<bool>)
    ensures ReadOctets(OctetBits(bytes) + rest, |bytes|) == bytes
  {
    hide NumBits, ReadNum, ReadOctet;
    if bytes != [] {
      var front, last := bytes[..|bytes| - 1], bytes[|bytes| - 1];
      var bits := OctetBits(bytes) + rest;
      Regroup(OctetBits(front), NumBits(last, 8), rest);
      ReadOctetBits(front, NumBits(last, 8) + rest);
      OctetRoundTrip(last);
      assert ReadOctets(bits, |bytes|) == ReadOctets(bits, |front|) + [ReadOctet(bits[8 * |bytes| - 8..8 * |bytes|])];
    }
  }

  lemma OctetRoundTrip(b: Octet)
    ensures ReadOctet(NumBits(b, 8)) == b
  {
    Pow2Octet();
    ReadNumBits(b, 8);
  }

  lemma Slices(a: seq<bool>, b: seq<bool>, c: seq<bool>, d: seq<bool>)
    ensures var bits := a + b + c + d;
            && bits[..|a|] == a
            && bits[|a|..|a| + |b|] == b
            && bits[|a| + |b|..] == c + d
            && bits[|a| + |b|..][|c|..] == d
  {
  }

  lemma ReadSegment(bytes: seq<Octet>, width: nat, rest: seq<bool>)
    requires |bytes| < Pow2(width)
    ensures ReadSegments(SegmentBits(bytes, width) + rest, width) == [bytes] + ReadSegments(rest, width)
  {
    assert MODE_8BIT_BYTE < Pow2(4);
    hide NumBits, ReadNum, Pow2, ReadOctets, OctetBits;
    ReadNumBits(MODE_8BIT_BYTE, 4);
    ReadNumBits(|bytes|, width);
    ReadOctetBits(bytes, rest);
    Slices(NumBits(MODE_8BIT_BYTE, 4), NumBits(|bytes|, width), OctetBits(bytes), rest);
  }

  lemma {:induction false} FalseReadsZero(bits: seq<bool>)
    requires AllFalse(bits)
    ensures ReadNum(bits) == 0
  {
    if bits != [] {
      FalseReadsZero(bits[..|bits| - 1]);
    }
  }

  /** What may follow the payload: less than a mode indicator, or the terminator. */
  predicate EndsStream(tail: seq<bool>) {
    |tail| < 4 || tail[..4] == [false, false, false, false]
  }

  /** The reader stops at the terminator. */
  lemma ReadTail(tail: seq<bool>, width: nat)
    requires EndsStream(tail)
    ensures ReadSegments(tail, width) == []
  {
    FalseReadsZero([false, false, false, false]);
  }

  /** The reader gets all segments back. */
  lemma {:induction false} ReadPayload(dataList: seq<seq<Octet>>, width: nat, tail: seq<bool>)
    requires forall i :: 0 <= i < |dataList| ==> |dataList[i]| < Pow2(width)
    requires EndsStream(tail)
    ensures ReadSegments(PayloadBits(dataList, width) + tail, width) == dataList
  {
    hide Pow2, SegmentBits, ReadSegments, EndsStream;
    if dataList == [] {
      assert PayloadBits(dataList, width) + tail == tail;
      ReadTail(tail, width);
    } else {
      var rest := PayloadBits(dataList[1..], width) + tail;
      ReadPayload(dataList[1..], width, tail);
      ReadSegment(dataList[0], width, rest);
      Regroup(SegmentBits(dataList[0], width), PayloadBits(dataList[1..], width), tail);
    }
  }

  // ---- terminator and padding

  const PAD0: Octet := 0xEC
  const PAD1: Octet := 0x11

  /** n padding bytes, alternating. */
  function PadBytes(n: nat, pad0: Octet, pad1: Octet): (bits: seq<bool>)
    ensures |bits| == 8 * n
  {
    if n == 0 then [] else PadBytes(n - 1, pad0, pad1) + NumBits(if n % 2 == 1 then pad0 else pad1, 8)
  }

  /** The next byte boundary. */
  function AlignUp(n: nat): (m: nat)
    ensures n <= m
  {
    8 * ((n + 7) / 8)
  }

  /** The stream position after the terminator, when it fits, and the zero bits up to a byte boundary. */
  function AlignedEnd(used: nat, total: nat): (end: nat)
    requires used <= 8 * total
    ensures used <= end <= 8 * total && end % 8 == 0
  {
    AlignUp(if used + 4 <= 8 * total then used + 4 else used)
  }

  /** Everything after `used` payload bits in a stream of `total` bytes. */
  function Padding(used: nat, total: nat): (tail: seq<bool>)
    requires used <= 8 * total
    ensures |tail| == 8 * total - used
  {
    var end := AlignedEnd(used, total);
    FalseBits(end - used) + PadBytes(total - end / 8, PAD0, PAD1)
  }

  lemma PaddingEndsStream(used: nat, total: nat)
    requires used <= 8 * total
    ensures EndsStream(Padding(used, total))
  {
  }

  // ---- createData and make

  lemma NoOctets()
    ensures OctetBits([]) == []
  {
  }

  method WriteOctets(buffer: BitBuffer, bytes: seq<Octet>)
    requires buffer.Valid()
    modifies buffer
    ensures buffer.Valid() && buffer.Contents == old(buffer.Contents) + OctetBits(bytes)
  {
    hide OctetBits, NumBits;
    NoOctets();
    for i := 0 to |bytes|
      invariant buffer.Valid() && buffer.Contents == old(buffer.Contents) + OctetBits(bytes[..i])
    {
      buffer.Put(bytes[i], 8);
      OctetBitsSnoc(bytes[..i], bytes[i]);
      assert bytes[..i + 1] == bytes[..i] + [bytes[i]];
    }
    assert bytes[..|bytes|] == bytes;
  }

  method WriteSegment(buffer: BitBuffer, bytes: seq<Octet>, width: nat)
    requires buffer.Valid() && width <= 32
    modifies buffer
    ensures buffer.Valid() && buffer.Contents == old(buffer.Contents) + SegmentBits(bytes, width)
  {
    hide NumBits, OctetBits;
    buffer.Put(MODE_8BIT_BYTE, 4);
    buffer.Put(|bytes|, width);
    WriteOctets(buffer, bytes);
  }

  method WriteSegments(dataList: seq<seq<Octet>>, typeNumber: nat) returns (buffer: BitBuffer)
    ensures fresh(buffer) && buffer.Valid()
    ensures buffer.Contents == PayloadBits(dataList, LengthInBits(typeNumber))
  {
    hide SegmentBits, PayloadBits, OctetBits;
    buffer := new BitBuffer();
    EmptyPayload(LengthInBits(typeNumber));
    for i := 0 to |dataList|
      invariant fresh(buffer) && buffer.Valid()
      invariant buffer.Contents == PayloadBits(dataList[..i], LengthInBits(typeNumber))
    {
      var bytes := dataList[i];
      WriteSegment(buffer, bytes, LengthInBits(typeNumber));
      PayloadSnoc(dataList[..i], bytes, LengthInBits(typeNumber));
      assert dataList[..i + 1] == dataList[..i] + [bytes];
    }
    assert dataList[..|dataList|] == dataList;
  }

  lemma FalseSnoc(base: seq<bool>, n: nat)
    ensures base + FalseBits(0) == base
    ensures base + FalseBits(n) + [false] == base + FalseBits(n + 1)
  {
  }

  lemma FalseAppend(base: seq<bool>, n: nat, m: nat)
    ensures base + FalseBits(n) + FalseBits(m) == base + FalseBits(n + m)
  {
  }

  method AlignToByte(buffer: BitBuffer)
    requires buffer.Valid()
    modifies buffer
    ensures buffer.Valid() && buffer.length == AlignUp(old(buffer.length))
    ensures buffer.Contents == old(buffer.Contents) + FalseBits(buffer.length - old(buffer.length))
  {
    hide NumBits, OctetBits, FalseBits, AlignUp, Holds;
    ghost var base, start := buffer.Contents, buffer.length;
    FalseSnoc(base, 0);
    while buffer.length % 8 != 0
      invariant buffer.Valid() && start <= buffer.length <= AlignUp(start)
      invariant buffer.Contents == base + FalseBits(buffer.length - start)
      decreases AlignUp(start) - buffer.length
    {
      AtBoundary(start, buffer.length);
      FalseSnoc(base, buffer.length - start);
      buffer.PutBit(false);
    }
    AtBoundary(start, buffer.length);
  }

  lemma AtBoundary(n: nat, m: nat)
    requires n <= m <= AlignUp(n)
    ensures m % 8 == 0 ==> m == AlignUp(n)
    ensures m % 8 != 0 ==> m < AlignUp(n)
  {
  }

  method EndAndAlign(buffer: BitBuffer, totalDataCount: nat)
    requires buffer.Valid() && buffer.length <= totalDataCount * 8
    modifies buffer
    ensures buffer.Valid() && buffer.length == AlignedEnd(old(buffer.length), totalDataCount)
    ensures buffer.Contents == old(buffer.Contents) + FalseBits(buffer.length - old(buffer.length))
  {
    hide NumBits, OctetBits, FalseBits, AlignUp;
    ghost var base, used := buffer.Contents, buffer.length;
    FalseSnoc(base, 0);
    if buffer.length + 4 <= totalDataCount * 8 {
      buffer.Put(0, 4);
      ZeroNumBits(4);
    }
    FalseAppend(base, buffer.length - used, AlignUp(buffer.length) - buffer.length);
    AlignToByte(buffer);
  }

  method Pad(buffer: BitBuffer, totalDataCount: nat, pad0: Octet, pad1: Octet)
    requires buffer.Valid() && buffer.length % 8 == 0 && buffer.length <= totalDataCount * 8
    modifies buffer
    ensures buffer.Valid() && buffer.length == totalDataCount * 8
    ensures buffer.Contents == old(buffer.Contents) + PadBytes(totalDataCount - old(buffer.length) / 8, pad0, pad1)
  {
    hide NumBits, OctetBits, Holds, PadBytes, Parity;
    ghost var base, start, n := buffer.Contents, buffer.length / 8, 0;
    ghost var even := true;
    PadNone(base, pad0, pad1);
    while true
      invariant buffer.Valid() && even && Parity(n, even)
      invariant buffer.length == 8 * (start + n) && start + n <= totalDataCount
      invariant buffer.Contents == base + PadBytes(n, pad0, pad1)
      decreases totalDataCount - n
    {
      if buffer.length >= totalDataCount * 8 {
        break;
      }
      buffer.Put(pad0, 8);
      PadStep(base, n, even, pad0, pad1);
      n, even := n + 1, false;
      if buffer.length >= totalDataCount * 8 {
        break;
      }
      buffer.Put(pad1, 8);
      PadStep(base, n, even, pad0, pad1);
      n, even := n + 1, true;
    }
    assert n == totalDataCount - start;
  }

  predicate Parity(n: nat, even: bool) {
    (n % 2 == 0) == even
  }

  lemma PadNone(base: seq<bool>, pad0: Octet, pad1: Octet)
    ensures base + PadBytes(0, pad0, pad1) == base && Parity(0, true)
  {
  }

  lemma PadStep(base: seq<bool>, n: nat, even: bool, pad0: Octet, pad1: Octet)
    requires Parity(n, even)
    ensures Parity(n + 1, !even)
    ensures (base + PadBytes(n, pad0, pad1)) + NumBits(if even then pad0 else pad1, 8) ==
            base + PadBytes(n + 1, pad0, pad1)
  {
  }

  lemma PaddedContents(payload: seq<bool>, aligned: seq<bool>, all: seq<bool>, total: nat)
    requires |payload| <= 8 * total
    requires aligned == payload + FalseBits(AlignedEnd(|payload|, total) - |payload|)
    requires all == aligned + PadBytes(total - AlignedEnd(|payload|, total) / 8, PAD0, PAD1)
    ensures all == payload + Padding(|payload|, total)
  {
    hide PadBytes;
  }

  lemma FilledUp(buffer: seq<Octet>, bits: seq<bool>, total: nat)
    requires Holds(buffer, bits) && |bits| == 8 * total
    ensures |buffer| == total && OctetBits(buffer) == bits
  {
    assert bits + FalseBits(0) == bits;
  }

  /**
    createData up to createBytes: the padded stream, exactly 8 * totalDataCount bits, or None where
    createData throws because the payload is too long.
  */
  method BuildStream(dataList: seq<seq<Octet>>, typeNumber: nat, totalDataCount: nat)
    returns (r: Option<seq<Octet>>)
    ensures var payload := PayloadBits(dataList, LengthInBits(typeNumber));
            if |payload| > 8 * totalDataCount then r == None
            else r.Some? && |r.value| == totalDataCount &&
                 OctetBits(r.value) == payload + Padding(|payload|, totalDataCount)
  {
    hide PayloadBits, NumBits, PadBytes, OctetBits;
    var buffer := WriteSegments(dataList, typeNumber);
    if buffer.length > totalDataCount * 8 {
      return None;
    }
    ghost var payload := buffer.Contents;
    EndAndAlign(buffer, totalDataCount);
    ghost var aligned := buffer.Contents;
    Pad(buffer, totalDataCount, PAD0, PAD1);
    PaddedContents(payload, aligned, buffer.Contents, totalDataCount);
    FilledUp(buffer.buffer, buffer.Contents, totalDataCount);
    r := Some(buffer.buffer);
  }

  /** A stream that is not refused reads back as the segments that went in. */
  lemma StreamReadsBack(dataList: seq<seq<Octet>>, width: nat, total: nat)
    requires forall i :: 0 <= i < |dataList| ==> |dataList[i]| < Pow2(width)
    requires |PayloadBits(dataList, width)| <= 8 * total
    ensures ReadSegments(PayloadBits(dataList, width) + Padding(|PayloadBits(dataList, width)|, total), width) ==
            dataList
  {
    PaddingEndsStream(|PayloadBits(dataList, width)|, total);
    ReadPayload(dataList, width, Padding(|PayloadBits(dataList, width)|, total));
  }

  /** Whether the payload fits the data bytes of a version. */
  ghost predicate Fits(dataList: seq<seq<Octet>>, dataCounts: seq<nat>, typeNumber: nat)
    requires 1 <= typeNumber <= |dataCounts|
  {
    |PayloadBits(dataList, LengthInBits(typeNumber))| <= 8 * dataCounts[typeNumber - 1]
  }

  /** The version make settles on: the least that fits among 1..39, and 40 when none of them does. */
  method ChooseTypeNumber(dataList: seq<seq<Octet>>, dataCounts: seq<nat>) returns (typeNumber: nat)
    requires |dataCounts| == 40
    ensures 1 <= typeNumber <= 40
    ensures forall t :: 1 <= t < typeNumber ==> !Fits(dataList, dataCounts, t)
    ensures typeNumber < 40 ==> Fits(dataList, dataCounts, typeNumber)
  {
    hide PayloadBits, OctetBits, NumBits;
    typeNumber := 1;
    while typeNumber < 40
      invariant 1 <= typeNumber <= 40
      invariant forall t :: 1 <= t < typeNumber ==> !Fits(dataList, dataCounts, t)
    {
      var buffer := WriteSegments(dataList, typeNumber);
      if buffer.length <= dataCounts[typeNumber - 1] * 8 {
        break;
      }
      typeNumber := typeNumber + 1;
    }
  }
}
