/** The encoded characters bit by bit, as the table in section 3 of RFC 3629 shows them. */
module Utf8Bits {
  import opened Basics
  import opened NumberBits
  import Utf8

  lemma Powers()
    ensures Pow2(3) == 8 && Pow2(4) == 16 && Pow2(5) == 32 && Pow2(6) == 64
  {
  }

  lemma Marks()
    ensures NumBits(2, 2) == [true, false]
    ensures NumBits(6, 3) == [true, true, false]
    ensures NumBits(14, 4) == [true, true, true, false]
    ensures NumBits(30, 5) == [true, true, true, true, false]
  {
    assert NumBits(1, 1) == [true] && NumBits(3, 2) == [true, true] && NumBits(7, 3) == [true, true, true];
    assert NumBits(15, 4) == [true, true, true, true];
  }

  /** Lead and continuation bytes: their mark, and the bits they carry. */
  lemma Marked(x: nat)
    ensures x < 64 ==> NumBits(0x80 + x, 8) == [true, false] + NumBits(x, 6)
    ensures x < 32 ==> NumBits(0xc0 + x, 8) == [true, true, false] + NumBits(x, 5)
    ensures x < 16 ==> NumBits(0xe0 + x, 8) == [true, true, true, false] + NumBits(x, 4)
    ensures x < 8 ==> NumBits(0xf0 + x, 8) == [true, true, true, true, false] + NumBits(x, 3)
  {
    hide NumBits, Pow2;
    Powers();
    Marks();
    if x < 64 {
      NumBitsSplit(0x80 + x, 6, 2, 64, 2, x);
    }
    if x < 32 {
      NumBitsSplit(0xc0 + x, 5, 3, 32, 6, x);
    }
    if x < 16 {
      NumBitsSplit(0xe0 + x, 4, 4, 16, 14, x);
    }
    if x < 8 {
      NumBitsSplit(0xf0 + x, 3, 5, 8, 30, x);
    }
  }

  lemma OctetsOf(bytes: seq<Octet>)
    ensures |bytes| == 1 ==> OctetBits(bytes) == NumBits(bytes[0], 8)
    ensures |bytes| > 1 ==> OctetBits(bytes) == OctetBits(bytes[..|bytes| - 1]) + NumBits(bytes[|bytes| - 1], 8)
  {
    hide NumBits;
    if |bytes| == 1 {
      assert bytes[..0] == [];
    }
  }

  lemma OneOctet(u: Utf8.Unit)
    requires u < 0x80
    ensures OctetBits(Utf8.EncodeUnit(u, 0)) == [false] + NumBits(u, 7)
  {
    hide NumBits, Pow2;
    OctetsOf([u]);
    SevenBits(u);
  }

  lemma SevenBits(u: nat)
    requires u < 0x80
    ensures NumBits(u, 8) == [false] + NumBits(u, 7)
  {
    hide NumBits;
    assert Pow2(7) == 128;
    NumBitsSplit(u, 7, 1, 128, 0, u);
    ZeroNumBits(1);
  }

  lemma TwoOctets(u: Utf8.Unit)
    requires 0x80 <= u < 0x800
    ensures var bits := NumBits(u, 11);
            OctetBits(Utf8.EncodeUnit(u, 0)) == [true, true, false] + bits[..5] + ([true, false] + bits[5..])
  {
    hide NumBits, Pow2, OctetBits;
    Powers();
    NumBitsSplit(u, 6, 5, 64, u / 64, u % 64);
    Marked(u / 64);
    Marked(u % 64);
    OctetsOf([0xc0 + u / 64]);
    OctetsOf([0xc0 + u / 64, 0x80 + u % 64]);
    assert [0xc0 + u / 64, 0x80 + u % 64][..1] == [0xc0 + u / 64];
  }

  lemma OctetsOfThree(a: Octet, b: Octet, c: Octet)
    ensures OctetBits([a, b, c]) == NumBits(a, 8) + NumBits(b, 8) + NumBits(c, 8)
  {
    hide NumBits, OctetBits;
    OctetsOf([a]);
    OctetsOf([a, b]);
    OctetsOf([a, b, c]);
    assert [a, b][..1] == [a] && [a, b, c][..2] == [a, b];
  }

  lemma ThreeOctets(u: Utf8.Unit)
    requires 0x800 <= u < 0xd800 || 0xe000 <= u
    ensures var bits := NumBits(u, 16);
            OctetBits(Utf8.EncodeUnit(u, 0))
            == [true, true, true, false] + bits[..4] + ([true, false] + bits[4..10]) + ([true, false] + bits[10..])
  {
    hide NumBits, Pow2, OctetBits;
    var x, y, z := u / 4096, u / 64 % 64, u % 64;
    Powers();
    NumBitsSplit(u, 6, 10, 64, u / 64, u % 64);
    NumBitsSplit(u / 64, 6, 4, 64, u / 64 / 64, u / 64 % 64);
    assert u / 64 / 64 == x;
    Marked(x);
    Marked(y);
    Marked(z);
    OctetsOfThree(0xe0 + x, 0x80 + y, 0x80 + z);
    Pieces(NumBits(x, 4), NumBits(y, 6), NumBits(z, 6));
  }

  lemma Pieces(a: seq<bool>, b: seq<bool>, c: seq<bool>)
    requires |b| == |c| == 6
    ensures var bits := a + b + c;
            bits[..|a|] == a && bits[|a|..|a| + 6] == b && bits[|a| + 6..] == c
  {
  }

  lemma FourPieces(a: seq<bool>, b: seq<bool>, c: seq<bool>, d: seq<bool>)
    requires |a| == 3 && |b| == |c| == |d| == 6
    ensures var bits := a + b + c + d;
            bits[..3] == a && bits[3..9] == b && bits[9..15] == c && bits[15..] == d
  {
  }

  lemma TwentyOneBits(c: nat)
    ensures NumBits(c, 21) == NumBits(c / 262144, 3) + NumBits(c / 4096 % 64, 6) + NumBits(c / 64 % 64, 6)
                              + NumBits(c % 64, 6)
  {
    hide NumBits, Pow2;
    Powers();
    NumBitsSplit(c, 6, 15, 64, c / 64, c % 64);
    NumBitsSplit(c / 64, 6, 9, 64, c / 64 / 64, c / 64 % 64);
    NumBitsSplit(c / 64 / 64, 6, 3, 64, c / 64 / 64 / 64, c / 64 / 64 % 64);
    assert c / 64 / 64 == c / 4096 && c / 4096 / 64 == c / 262144;
  }

  lemma OctetsOfFour(a: Octet, b: Octet, c: Octet, d: Octet)
    ensures OctetBits([a, b, c, d]) == NumBits(a, 8) + NumBits(b, 8) + NumBits(c, 8) + NumBits(d, 8)
  {
    hide NumBits, OctetBits;
    OctetsOfThree(a, b, c);
    OctetsOf([a, b, c, d]);
    assert [a, b, c, d][..3] == [a, b, c];
  }

  lemma FourMarked(c: nat)
    requires c < 0x200000
    ensures var bits := NumBits(c, 21);
            OctetBits([0xf0 + c / 262144, 0x80 + c / 4096 % 64, 0x80 + c / 64 % 64, 0x80 + c % 64])
            == [true, true, true, true, false] + bits[..3] + ([true, false] + bits[3..9])
               + ([true, false] + bits[9..15]) + ([true, false] + bits[15..])
  {
    hide NumBits, OctetBits;
    var w, x, y, z := c / 262144, c / 4096 % 64, c / 64 % 64, c % 64;
    TwentyOneBits(c);
    Marked(w);
    Marked(x);
    Marked(y);
    Marked(z);
    OctetsOfFour(0xf0 + w, 0x80 + x, 0x80 + y, 0x80 + z);
    FourPieces(NumBits(w, 3), NumBits(x, 6), NumBits(y, 6), NumBits(z, 6));
  }

  lemma LowTenBits(high: nat, low: nat)
    requires 0xd800 <= high < 0xdc00 <= low < 0xe000
    ensures high % 0x400 == high - 0xd800 && low % 0x400 == low - 0xdc00
  {
  }

  lemma PairIs(high: Utf8.Unit, low: Utf8.Unit)
    requires 0xd800 <= high < 0xdc00 <= low < 0xe000
    ensures Utf8.CodePoint(high, low) == 0x10000 + (high - 0xd800) * 0x400 + (low - 0xdc00)
  {
    LowTenBits(high, low);
  }

  lemma PairBytes(high: Utf8.Unit, low: Utf8.Unit)
    requires 0xd800 <= high < 0xe000
    ensures var c := Utf8.CodePoint(high, low);
            Utf8.EncodeUnit(high, low)
            == [0xf0 + c / 262144, 0x80 + c / 4096 % 64, 0x80 + c / 64 % 64, 0x80 + c % 64]
  {
    hide Utf8.CodePoint;
  }

  /** A high and a low surrogate stand for one character beyond the sixteen bits. */
  lemma FourOctets(high: Utf8.Unit, low: Utf8.Unit)
    requires 0xd800 <= high < 0xdc00 <= low < 0xe000
    ensures var bits := NumBits(0x10000 + (high - 0xd800) * 0x400 + (low - 0xdc00), 21);
            OctetBits(Utf8.EncodeUnit(high, low))
            == [true, true, true, true, false] + bits[..3] + ([true, false] + bits[3..9])
               + ([true, false] + bits[9..15]) + ([true, false] + bits[15..])
  {
    hide NumBits, OctetBits, Utf8.EncodeUnit, Utf8.CodePoint;
    PairIs(high, low);
    PairBytes(high, low);
    FourMarked(Utf8.CodePoint(high, low));
  }

  /** The text is encoded unit by unit, but for surrogates, which go in pairs. */
  lemma UnitByUnit(u: Utf8.Unit, next: Utf8.Unit, rest: seq<Utf8.Unit>)
    ensures u < 0xd800 || 0xe000 <= u ==> Utf8.Encode([u] + rest) == Utf8.EncodeUnit(u, 0) + Utf8.Encode(rest)
    ensures 0xd800 <= u < 0xe000 ==> Utf8.Encode([u, next] + rest) == Utf8.EncodeUnit(u, next) + Utf8.Encode(rest)
    ensures 0xd800 <= u < 0xe000 ==> Utf8.Encode([u]) == Utf8.EncodeUnit(u, 0)
    ensures Utf8.Encode([]) == []
  {
    hide Utf8.EncodeUnit;
    assert ([u] + rest)[1..] == rest && ([u, next] + rest)[2..] == rest;
  }

  /** Section 7 of RFC 3629: A, not identical to, Alpha, full stop. */
  lemma KnownEncoding()
    ensures Utf8.Encode([0x0041, 0x2262, 0x0391, 0x002e]) == [0x41, 0xe2, 0x89, 0xa2, 0xce, 0x91, 0x2e]
  {
    assert [0x0041, 0x2262, 0x0391, 0x002e][1..] == [0x2262, 0x0391, 0x002e];
    assert [0x2262, 0x0391, 0x002e][1..] == [0x0391, 0x002e] && [0x0391, 0x002e][1..] == [0x002e];
    assert Utf8.Encode([0x002e]) == [0x2e] && Utf8.Encode([0x0391, 0x002e]) == [0xce, 0x91, 0x2e];
  }
}
