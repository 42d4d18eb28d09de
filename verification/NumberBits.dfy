/** Numbers as bit sequences, most significant bit first, and the JavaScript shifts on them. */
module NumberBits {
  import opened Basics

  function Pow2(n: nat): (p: nat)
    ensures p >= 1
  {
    if n == 0 then 1 else 2 * Pow2(n - 1)
  }

  lemma Pow2Octet()
    ensures Pow2(8) == 256
  {
  }

  function NumBits(num: nat, length: nat): (bits: seq<bool>)
    ensures |bits| == length
  {
    if length == 0 then [] else NumBits(num / 2, length - 1) + [num % 2 == 1]
  }

  function ReadNum(bits: seq<bool>): (num: nat)
    ensures num < Pow2(|bits|)
  {
    if bits == [] then 0 else 2 * ReadNum(bits[..|bits| - 1]) + if bits[|bits| - 1] then 1 else 0
  }

  lemma {:induction false} ReadNumBits(num: nat, length: nat)
    requires num < Pow2(length)
    ensures ReadNum(NumBits(num, length)) == num
  {
    if length > 0 {
      ReadNumBits(num / 2, length - 1);
      assert NumBits(num, length)[..length - 1] == NumBits(num / 2, length - 1);
    }
  }

  /** `num >>> k & 1`. */
  function NumBit(num: nat, k: nat): bool {
    if k == 0 then num % 2 == 1 else NumBit(num / 2, k - 1)
  }

  lemma {:induction false} NumBitsAt(num: nat, length: nat, i: nat)
    requires i < length
    ensures NumBits(num, length)[i] == NumBit(num, length - i - 1)
  {
    if i < length - 1 {
      NumBitsAt(num / 2, length - 1, i);
    }
  }

  function FalseBits(n: nat): seq<bool> {
    seq(n, _ => false)
  }

  function OctetBits(bytes: seq<Octet>): (bits: seq<bool>)
    ensures |bits| == 8 * |bytes|
  {
    if bytes == [] then [] else OctetBits(bytes[..|bytes| - 1]) + NumBits(bytes[|bytes| - 1], 8)
  }

  lemma OctetBitsSnoc(bytes: seq<Octet>, b: Octet)
    ensures OctetBits(bytes + [b]) == OctetBits(bytes) + NumBits(b, 8)
  {
    assert (bytes + [b])[..|bytes|] == bytes;
  }

  // ---- shifts

  /** `v >>> k` */
  function Shr(v: nat, k: nat): nat {
    if k == 0 then v else Shr(v / 2, k - 1)
  }

  /** The low k bits of v: `v & 0xff` for k == 8, the unsigned 32-bit value of v for k == 32. */
  function Low(v: nat, k: nat): (r: nat)
    ensures r < Pow2(k)
  {
    if k == 0 then 0 else 2 * Low(v / 2, k - 1) + v % 2
  }

  /** `(v << k) | low`, taking the low k bits of the second number. */
  function Push(v: nat, k: nat, low: nat): nat {
    if k == 0 then v else 2 * Push(v, k - 1, low / 2) + low % 2
  }

  lemma {:induction false} LowBits(v: nat, k: nat, n: nat)
    requires n <= k
    ensures NumBits(Low(v, k), n) == NumBits(v, n)
  {
    if n > 0 {
      LowBits(v / 2, k - 1, n - 1);
    }
  }

  lemma {:induction false} PushBits(v: nat, k: nat, low: nat, n: nat)
    ensures NumBits(Push(v, k, low), n + k) == NumBits(v, n) + NumBits(low, k)
  {
    if k > 0 {
      PushBits(v, k - 1, low / 2, n);
    }
  }

  lemma {:induction false} ShrBits(v: nat, k: nat, n: nat)
    ensures NumBits(v, n + k) == NumBits(Shr(v, k), n) + NumBits(v, k)
  {
    if k > 0 {
      ShrBits(v / 2, k - 1, n);
    }
  }

  lemma {:induction false} SameBits(a: nat, b: nat, n: nat)
    requires a < Pow2(n) && b < Pow2(n) && NumBits(a, n) == NumBits(b, n)
    ensures a == b
  {
    ReadNumBits(a, n);
    ReadNumBits(b, n);
  }

  lemma {:induction false} ZeroNumBits(n: nat)
    ensures NumBits(0, n) == FalseBits(n)
  {
    if n > 0 {
      ZeroNumBits(n - 1);
    }
  }

  // ---- shifts as division

  lemma DoubledParts(v: nat, s: nat, p: nat, l: nat)
    requires v / 2 == s * p + l
    ensures v == s * (2 * p) + (2 * l + v % 2)
  {
    assert s * (2 * p) == 2 * (s * p);
  }

  lemma OneShift(v: nat, k: nat)
    requires k > 0
    ensures Shr(v, k) == Shr(v / 2, k - 1) && Low(v, k) == 2 * Low(v / 2, k - 1) + v % 2 && Pow2(k) == 2 * Pow2(k - 1)
    ensures Shr(v, 0) == v && Low(v, 0) == 0 && Pow2(0) == 1
  {
  }

  lemma {:induction false} ShiftedParts(v: nat, k: nat)
    ensures v == Shr(v, k) * Pow2(k) + Low(v, k)
  {
    hide Shr, Low, Pow2;
    if k == 0 {
      OneShift(v, 1);
    } else {
      OneShift(v, k);
      ShiftedParts(v / 2, k - 1);
      DoubledParts(v, Shr(v / 2, k - 1), Pow2(k - 1), Low(v / 2, k - 1));
    }
  }

  lemma SmallMultiple(d: int, m: int)
    requires m > 0
    ensures -m < d * m < m ==> d == 0
  {
    if d >= 1 {
      assert (d - 1) * m >= 0;
    } else if d <= -1 {
      assert (-1 - d) * m >= 0;
    }
  }

  lemma Difference(a: int, b: int, m: int)
    ensures (a - b) * m == a * m - b * m
  {
  }

  lemma SamePart(p: nat, s: nat, q: nat, r: nat, m: nat)
    requires p * m + s == q * m + r && s < m && r < m
    ensures p == q && s == r
  {
    Difference(p, q, m);
    SmallMultiple(p - q, m);
  }

  /** The parts of a number at bit k, given as quotient and remainder by 2 to the k. */
  lemma PartsAre(v: nat, k: nat, m: nat, q: nat, r: nat)
    requires m == Pow2(k) && v == q * m + r && r < m
    ensures Shr(v, k) == q && Low(v, k) == r
  {
    hide Shr, Low, Pow2;
    ShiftedParts(v, k);
    SamePart(Shr(v, k), Low(v, k), q, r, m);
  }

  /** A number in n + k bits is its quotient in n, and its remainder in k. */
  lemma NumBitsSplit(v: nat, k: nat, n: nat, m: nat, q: nat, r: nat)
    requires m == Pow2(k) && v == q * m + r && r < m
    ensures NumBits(v, n + k) == NumBits(q, n) + NumBits(r, k)
  {
    hide NumBits, Shr, Low, Pow2;
    ShrBits(v, k, n);
    LowBits(v, k, k);
    PartsAre(v, k, m, q, r);
  }

  lemma {:induction false} OctetBitsAppend(a: seq<Octet>, b: seq<Octet>)
    ensures OctetBits(a + b) == OctetBits(a) + OctetBits(b)
  {
    hide NumBits;
    if b == [] {
      assert a + b == a;
    } else {
      assert (a + b)[..|a + b| - 1] == a + b[..|b| - 1];
      OctetBitsAppend(a, b[..|b| - 1]);
    }
  }

  lemma Pow2Small()
    ensures Pow2(2) == 4 && Pow2(4) == 16 && Pow2(6) == 64
  {
  }
}
