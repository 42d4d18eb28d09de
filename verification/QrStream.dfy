/**
  The data bytes of one byte segment, as section 7.4 of ISO/IEC 18004:2015 has them in hexadecimal digits: the mode 4,
  the length in two or four digits, the bytes, the terminator 0, and then the padding bytes EC and 11 in turn.
*/
module QrStream {
  import opened Basics
  import opened NumberBits
  import opened QrData

  type Digit = d: nat | d < 16

  function DigitsOf(bytes: seq<Octet>): (digits: seq<Digit>)
    ensures |digits| == 2 * |bytes|
  {
    if bytes == [] then []
    else
      var last := bytes[|bytes| - 1];
      DigitsOf(bytes[..|bytes| - 1]) + [last / 16, last % 16]
  }

  /** Two digits up to version 9, four from version 10 on. */
  function LengthDigits(n: nat, typeNumber: nat): seq<Digit> {
    if typeNumber < 10 then [n / 16 % 16, n % 16]
    else [n / 4096 % 16, n / 256 % 16, n / 16 % 16, n % 16]
  }

  function StreamDigits(bytes: seq<Octet>, typeNumber: nat): (digits: seq<Digit>)
    ensures |digits| % 2 == 0
  {
    [4] + LengthDigits(|bytes|, typeNumber) + DigitsOf(bytes) + [0]
  }

  function Joined(high: Digit, low: Digit): Octet {
    var h: nat, l: nat := high, low;
    16 * h + l
  }

  function StandardByte(bytes: seq<Octet>, typeNumber: nat, k: nat): Octet {
    var digits := StreamDigits(bytes, typeNumber);
    if 2 * k < |digits| then Joined(digits[2 * k], digits[2 * k + 1])
    else if (k - |digits| / 2) % 2 == 0 then 0xEC
    else 0x11
  }

  function StandardBytes(bytes: seq<Octet>, typeNumber: nat, total: nat): seq<Octet> {
    seq(total, k requires 0 <= k < total => StandardByte(bytes, typeNumber, k))
  }

  // ---- digits as bits

  function DigitBits(digits: seq<Digit>): seq<bool> {
    if digits == [] then [] else DigitBits(digits[..|digits| - 1]) + NumBits(digits[|digits| - 1], 4)
  }

  lemma {:induction false} DigitBitsAppend(a: seq<Digit>, b: seq<Digit>)
    ensures DigitBits(a + b) == DigitBits(a) + DigitBits(b)
  {
    hide NumBits;
    if b == [] {
      assert a + b == a;
    } else {
      assert (a + b)[..|a + b| - 1] == a + b[..|b| - 1];
      DigitBitsAppend(a, b[..|b| - 1]);
    }
  }

  lemma OneDigit(d: Digit)
    ensures DigitBits([d]) == NumBits(d, 4)
  {
    assert [d][..0] == [];
  }

  /** A number in n + 4 bits is its quotient by 16 in n bits and its last digit. */
  lemma LastDigit(v: nat, n: nat)
    ensures NumBits(v, n + 4) == NumBits(v / 16, n) + NumBits(v % 16, 4)
  {
    hide NumBits, Pow2;
    Pow2Small();
    NumBitsSplit(v, 4, n, 16, v / 16, v % 16);
  }

  lemma OctetDigits(b: Octet)
    ensures NumBits(b, 8) == DigitBits([b / 16, b % 16])
  {
    LastDigit(b, 4);
    hide NumBits;
    DigitBitsAppend([b / 16], [b % 16]);
    OneDigit(b / 16);
    OneDigit(b % 16);
    assert [b / 16] + [b % 16] == [b / 16, b % 16];
  }

  lemma {:induction false} OctetsAreDigits(bytes: seq<Octet>)
    ensures OctetBits(bytes) == DigitBits(DigitsOf(bytes))
  {
    hide NumBits, DigitBits;
    if bytes == [] {
      NoDigits();
    } else {
      var front, last := bytes[..|bytes| - 1], bytes[|bytes| - 1];
      OctetsAreDigits(front);
      OctetDigits(last);
      DigitBitsAppend(DigitsOf(front), [last / 16, last % 16]);
    }
  }

  lemma NoDigits()
    ensures DigitBits([]) == []
  {
  }

  /** The first m bytes, each of two digits. */
  function Pairs(digits: seq<Digit>, m: nat): seq<Octet>
    requires 2 * m <= |digits|
  {
    seq(m, k requires 0 <= k < m => Joined(digits[2 * k], digits[2 * k + 1]))
  }

  lemma JoinedDigits(h: Digit, l: Digit)
    ensures NumBits(Joined(h, l), 8) == DigitBits([h, l])
  {
    hide NumBits, DigitBits;
    OctetDigits(Joined(h, l));
  }

  lemma {:induction false} PairBits(digits: seq<Digit>, m: nat)
    requires 2 * m <= |digits|
    ensures OctetBits(Pairs(digits, m)) == DigitBits(digits[..2 * m])
  {
    hide NumBits, DigitBits, Joined, OctetBits;
    if m == 0 {
      NoDigits();
      NoOctets();
      assert Pairs(digits, 0) == [];
    } else {
      var h, l := digits[2 * m - 2], digits[2 * m - 1];
      PairBits(digits, m - 1);
      assert Pairs(digits, m) == Pairs(digits, m - 1) + [Joined(h, l)];
      OctetBitsSnoc(Pairs(digits, m - 1), Joined(h, l));
      JoinedDigits(h, l);
      DigitBitsAppend(digits[..2 * m - 2], [h, l]);
      assert digits[..2 * m - 2] + [h, l] == digits[..2 * m];
    }
  }

  function Pads(m: nat): seq<Octet> {
    seq(m, k requires 0 <= k < m => if k % 2 == 0 then 0xEC else 0x11)
  }

  lemma PadsSnoc(m: nat)
    requires m > 0
    ensures Pads(m) == Pads(m - 1) + [if m % 2 == 1 then 0xEC else 0x11]
    ensures PadBytes(m, PAD0, PAD1) == PadBytes(m - 1, PAD0, PAD1) + NumBits(if m % 2 == 1 then 0xEC else 0x11, 8)
  {
    hide NumBits;
  }

  lemma NoPads()
    ensures OctetBits(Pads(0)) == PadBytes(0, PAD0, PAD1)
  {
  }

  lemma {:induction false} PadBits(m: nat)
    ensures OctetBits(Pads(m)) == PadBytes(m, PAD0, PAD1)
  {
    hide NumBits, Pads, PadBytes, OctetBits;
    if m == 0 {
      NoPads();
    } else {
      PadBits(m - 1);
      PadsSnoc(m);
      OctetBitsSnoc(Pads(m - 1), if m % 2 == 1 then 0xEC else 0x11);
    }
  }

  lemma SameOctets(a: seq<Octet>, b: seq<Octet>)
    requires |a| == |b| && OctetBits(a) == OctetBits(b)
    ensures a == b
  {
    hide OctetBits, ReadOctets;
    ReadOctetBits(a, []);
    ReadOctetBits(b, []);
  }

  // ---- the stream

  /** The length as the width of its field has it. */
  lemma LengthBits(n: nat, typeNumber: nat)
    requires typeNumber >= 1
    ensures NumBits(n, LengthInBits(typeNumber)) == DigitBits(LengthDigits(n, typeNumber))
  {
    hide NumBits, DigitBits;
    LastDigit(n, 4);
    DigitBitsAppend([n / 16 % 16], [n % 16]);
    OneDigit(n / 16 % 16);
    OneDigit(n % 16);
    LowestDigit(n / 16);
    assert [n / 16 % 16] + [n % 16] == [n / 16 % 16, n % 16];
    if typeNumber >= 10 {
      LastDigit(n, 12);
      LastDigit(n / 16, 8);
      LastDigit(n / 16 / 16, 4);
      LowestDigit(n / 16 / 16 / 16);
      var a, b: seq<Digit> := [n / 4096 % 16, n / 256 % 16], [n / 16 % 16, n % 16];
      assert n / 16 / 16 == n / 256 && n / 16 / 16 / 16 == n / 4096;
      DigitBitsAppend([n / 4096 % 16], [n / 256 % 16]);
      OneDigit(n / 4096 % 16);
      OneDigit(n / 256 % 16);
      assert [n / 4096 % 16] + [n / 256 % 16] == a;
      DigitBitsAppend(a, b);
      assert a + b == LengthDigits(n, typeNumber);
    }
  }

  lemma LowestDigit(v: nat)
    ensures NumBits(v, 4) == NumBits(v % 16, 4)
  {
    hide Pow2, NumBits, Low;
    Pow2Small();
    LowBits(v, 4, 4);
    PartsAre(v, 4, 16, v / 16, v % 16);
  }

  /** The segment with its terminator, in digits. */
  lemma SegmentDigits(bytes: seq<Octet>, typeNumber: nat)
    requires typeNumber >= 1
    ensures SegmentBits(bytes, LengthInBits(typeNumber)) + FalseBits(4) == DigitBits(StreamDigits(bytes, typeNumber))
  {
    hide NumBits, DigitBits, FalseBits, LengthDigits, LengthInBits;
    var length, rest := LengthDigits(|bytes|, typeNumber), DigitsOf(bytes);
    OneDigit(4);
    LengthBits(|bytes|, typeNumber);
    OctetsAreDigits(bytes);
    OneDigit(0);
    ZeroNumBits(4);
    DigitBitsAppend([4], length);
    DigitBitsAppend([4] + length, rest);
    DigitBitsAppend([4] + length + rest, [0]);
  }

  lemma AlignedAt(used: nat, total: nat, k: nat)
    requires used + 4 == 8 * k && used <= 8 * total
    ensures AlignedEnd(used, total) == 8 * k && k <= total
  {
    assert (8 * k + 7) / 8 == k;
  }

  lemma StreamSize(bytes: seq<Octet>, typeNumber: nat, total: nat)
    requires typeNumber >= 1 && |SegmentBits(bytes, LengthInBits(typeNumber))| <= 8 * total
    ensures var used, m := |SegmentBits(bytes, LengthInBits(typeNumber))|, |StreamDigits(bytes, typeNumber)| / 2;
            && used + 4 == AlignedEnd(used, total) == 8 * m && m <= total
            && |StreamDigits(bytes, typeNumber)| == 2 * m
  {
    hide AlignedEnd, NumBits, OctetBits, DigitsOf;
    var used := |SegmentBits(bytes, LengthInBits(typeNumber))|;
    AlignedAt(used, total, if typeNumber < 10 then |bytes| + 2 else |bytes| + 3);
  }

  lemma StandardSplits(bytes: seq<Octet>, typeNumber: nat, total: nat, m: nat)
    requires 2 * m == |StreamDigits(bytes, typeNumber)| && m <= total
    ensures StandardBytes(bytes, typeNumber, total) == Pairs(StreamDigits(bytes, typeNumber), m) + Pads(total - m)
  {
    hide StreamDigits, Joined;
    var a, b := StandardBytes(bytes, typeNumber, total), Pairs(StreamDigits(bytes, typeNumber), m) + Pads(total - m);
    forall k | 0 <= k < total ensures a[k] == b[k] {
    }
  }

  /**
    The padded stream of one segment is, byte for byte, that of the standard: 4, the length, the bytes and 0 in
    hexadecimal digits, then EC and 11 in turn.
  */
  lemma StreamIsStandard(bytes: seq<Octet>, typeNumber: nat, total: nat, stream: seq<Octet>)
    requires typeNumber >= 1 && |PayloadBits([bytes], LengthInBits(typeNumber))| <= 8 * total
    requires |stream| == total
    requires var payload := PayloadBits([bytes], LengthInBits(typeNumber));
             OctetBits(stream) == payload + Padding(|payload|, total)
    ensures stream == StandardBytes(bytes, typeNumber, total)
  {
    hide LengthInBits, SegmentBits, StreamDigits, PayloadBits, Padding, FalseBits, PadBytes, OctetBits, DigitBits,
         Pairs, Pads, StandardBytes, AlignedEnd;
    var segment, digits := SegmentBits(bytes, LengthInBits(typeNumber)), StreamDigits(bytes, typeNumber);
    var m := |digits| / 2;
    PayloadOfOne(bytes, LengthInBits(typeNumber));
    StreamSize(bytes, typeNumber, total);
    PaddingOf(|segment|, total, m);
    SegmentDigits(bytes, typeNumber);
    PairBits(digits, m);
    PadBits(total - m);
    OctetBitsAppend(Pairs(digits, m), Pads(total - m));
    StandardSplits(bytes, typeNumber, total, m);
    assert digits[..2 * m] == digits;
    Regroup(segment, FalseBits(4), PadBytes(total - m, PAD0, PAD1));
    SameOctets(stream, StandardBytes(bytes, typeNumber, total));
  }

  lemma PayloadOfOne(bytes: seq<Octet>, width: nat)
    ensures PayloadBits([bytes], width) == SegmentBits(bytes, width)
  {
    assert PayloadBits([bytes], width) == SegmentBits(bytes, width) + PayloadBits([], width);
  }

  lemma PaddingOf(used: nat, total: nat, m: nat)
    requires used <= 8 * total && used + 4 == AlignedEnd(used, total) == 8 * m && m <= total
    ensures Padding(used, total) == FalseBits(4) + PadBytes(total - m, PAD0, PAD1)
  {
    hide FalseBits, PadBytes, AlignedEnd;
  }
}
