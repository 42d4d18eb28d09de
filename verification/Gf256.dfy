/**
  The field GF(256) behind the Reed-Solomon coder (section 7.5 of ISO/IEC 18004:2015), with
  reduction polynomial x^8 + x^4 + x^3 + x^2 + 1 and generator alpha = x, and the table-driven
  arithmetic of the encoder.

  `Double` is multiplication by alpha. The rest is built from it: `Shift(n, a)` is a * alpha^n,
  `Alpha(n)` is alpha^n, and `Mul` is the shift-and-add product of two field elements.
*/
module Gf256 {

  /** Field addition. */
  function Add(a: bv8, b: bv8): bv8 {
    a ^ b
  }

  function Double(a: bv8): bv8 {
    (a << 1) ^ (0x1d * (a >> 7))
  }

  /** a * alpha^n */
  function Shift(n: nat, a: bv8): bv8 {
    if n == 0 then a else Double(Shift(n - 1, a))
  }

  function Alpha(n: nat): bv8 {
    Shift(n, 1)
  }

  /** a when the mask bit of b is set. */
  function Term(a: bv8, b: bv8, mask: bv8): bv8 {
    if b & mask != 0 then a else 0
  }

  /** Shift-and-add multiplication: the sum of a * alpha^k over the bits k set in b. */
  function Mul(a: bv8, b: bv8): bv8 {
    var a1 := Double(a);
    var a2 := Double(a1);
    var a3 := Double(a2);
    var a4 := Double(a3);
    var a5 := Double(a4);
    var a6 := Double(a5);
    var a7 := Double(a6);
    Add(Term(a, b, 0x01), Add(Term(a1, b, 0x02), Add(Term(a2, b, 0x04), Add(Term(a3, b, 0x08),
    Add(Term(a4, b, 0x10), Add(Term(a5, b, 0x20), Add(Term(a6, b, 0x40), Term(a7, b, 0x80))))))))
  }

  // ---- Double and Shift are linear and invertible

  lemma DoubleLinear(a: bv8, b: bv8)
    ensures Double(Add(a, b)) == Add(Double(a), Double(b))
  {
  }

  lemma DoubleInjective(a: bv8, b: bv8)
    requires Double(a) == Double(b)
    ensures a == b
  {
  }

  lemma {:induction false} ShiftLinear(n: nat, a: bv8, b: bv8)
    ensures Shift(n, Add(a, b)) == Add(Shift(n, a), Shift(n, b))
  {
    if n > 0 {
      ShiftLinear(n - 1, a, b);
      DoubleLinear(Shift(n - 1, a), Shift(n - 1, b));
    }
  }

  lemma {:induction false} ShiftInjective(n: nat, a: bv8, b: bv8)
    requires Shift(n, a) == Shift(n, b)
    ensures a == b
  {
    if n > 0 {
      DoubleInjective(Shift(n - 1, a), Shift(n - 1, b));
      ShiftInjective(n - 1, a, b);
    }
  }

  lemma {:induction false} ShiftOfZero(n: nat)
    ensures Shift(n, 0) == 0
  {
    if n > 0 {
      ShiftOfZero(n - 1);
    }
  }

  lemma ShiftZero(n: nat, a: bv8)
    ensures Shift(n, a) == 0 <==> a == 0
  {
    ShiftOfZero(n);
    if Shift(n, a) == 0 {
      ShiftInjective(n, a, 0);
    }
  }

  lemma {:induction false} ShiftAdd(m: nat, n: nat, a: bv8)
    ensures Shift(m, Shift(n, a)) == Shift(m + n, a)
  {
    if m > 0 {
      ShiftAdd(m - 1, n, a);
    }
  }

  // ---- Mul is the field product on powers of alpha

  lemma DoubleTerm(a: bv8, b: bv8, mask: bv8, rest: bv8)
    ensures Double(Add(Term(a, b, mask), rest)) == Add(Term(Double(a), b, mask), Double(rest))
  {
    DoubleLinear(Term(a, b, mask), rest);
  }

  lemma DoubleLast(a: bv8, b: bv8, mask: bv8)
    ensures Double(Term(a, b, mask)) == Term(Double(a), b, mask)
  {
  }

  lemma MulDouble(a: bv8, b: bv8)
    ensures Mul(Double(a), b) == Double(Mul(a, b))
  {
    hide Double, Term, Add;
    var a4 := Double(Double(Double(Double(a))));
    var t7 := Term(Double(Double(Double(a4))), b, 0x80);
    var t6 := Add(Term(Double(Double(a4)), b, 0x40), t7);
    var t5 := Add(Term(Double(a4), b, 0x20), t6);
    var t4 := Add(Term(a4, b, 0x10), t5);
    var t3 := Add(Term(Double(Double(Double(a))), b, 0x08), t4);
    var t2 := Add(Term(Double(Double(a)), b, 0x04), t3);
    var t1 := Add(Term(Double(a), b, 0x02), t2);
    DoubleTerm(a, b, 0x01, t1);
    DoubleTerm(Double(a), b, 0x02, t2);
    DoubleTerm(Double(Double(a)), b, 0x04, t3);
    DoubleTerm(Double(Double(Double(a))), b, 0x08, t4);
    DoubleTerm(a4, b, 0x10, t5);
    DoubleTerm(Double(a4), b, 0x20, t6);
    DoubleTerm(Double(Double(a4)), b, 0x40, t7);
    DoubleLast(Double(Double(Double(a4))), b, 0x80);
  }

  lemma MulOne(b: bv8)
    ensures Mul(1, b) == b
  {
  }

  lemma {:induction false} MulAlpha(n: nat, b: bv8)
    ensures Mul(Alpha(n), b) == Shift(n, b)
  {
    if n == 0 {
      MulOne(b);
    } else {
      MulAlpha(n - 1, b);
      MulDouble(Alpha(n - 1), b);
    }
  }

  /** Exponents add: alpha^i * alpha^j == alpha^(i+j). */
  lemma AlphaMul(i: nat, j: nat)
    ensures Mul(Alpha(i), Alpha(j)) == Alpha(i + j)
  {
    MulAlpha(i, Alpha(j));
    ShiftAdd(i, j, 1);
  }

  // ---- The recurrence the exponent table is filled with

  lemma EighthPower(a: bv8, a2: bv8, a3: bv8, a4: bv8, a8: bv8)
    requires a2 == Double(Double(a)) && a3 == Double(a2) && a4 == Double(a3)
    requires a8 == Double(Double(Double(Double(a4))))
    ensures a8 == Add(Add(Add(a4, a3), a2), a)
  {
  }

  lemma Recurrence(n: nat)
    requires n >= 8
    ensures Alpha(n) == Add(Add(Add(Alpha(n - 4), Alpha(n - 5)), Alpha(n - 6)), Alpha(n - 8))
  {
    assert Alpha(n - 6) == Double(Alpha(n - 7)) && Alpha(n - 7) == Double(Alpha(n - 8));
    assert Alpha(n) == Double(Alpha(n - 1)) && Alpha(n - 1) == Double(Alpha(n - 2));
    assert Alpha(n - 2) == Double(Alpha(n - 3)) && Alpha(n - 3) == Double(Alpha(n - 4));
    EighthPower(Alpha(n - 8), Alpha(n - 6), Alpha(n - 5), Alpha(n - 4), Alpha(n));
  }

  lemma FirstPowers(n: nat)
    requires n < 8
    ensures Alpha(n) == 1 << n
  {
    assert Alpha(3) == 8 && Alpha(7) == 0x80;
  }

  // ---- alpha has order 255

  lemma Powers()
    ensures Alpha(255) == 1 && Alpha(85) != 1 && Alpha(51) != 1 && Alpha(15) != 1
  {
    AlphaMul(4, 4);
    assert Alpha(8) == 0x1d;
    AlphaMul(8, 7);
    assert Alpha(15) == 0x26;
    AlphaMul(15, 2);
    assert Alpha(17) == 0x98;
    AlphaMul(17, 17);
    assert Alpha(34) == 0x4e;
    AlphaMul(34, 17);
    assert Alpha(51) == 0x0a;
    AlphaMul(51, 34);
    assert Alpha(85) == 0xd6;
    AlphaMul(85, 85);
    assert Alpha(170) == 0xd7;
    AlphaMul(170, 85);
  }

  lemma {:induction false} PowerOfUnit(d: nat, k: nat)
    requires Alpha(d) == 1
    ensures Alpha(d * k) == 1
  {
    if k > 0 {
      PowerOfUnit(d, k - 1);
      AlphaMul(d, d * (k - 1));
      MulOne(1);
      assert d + d * (k - 1) == d * k;
    }
  }

  lemma Product(d: nat, q: nat)
    ensures d >= 16 && q >= 16 ==> d * q >= 256
  {
  }

  lemma Factor(k: nat, m: nat)
    requires k <= 15 && k * m == 255
    ensures (k == 1 && m == 255) || (k == 3 && m == 85) || (k == 5 && m == 51) || (k == 15 && m == 17)
  {
  }

  lemma ProperDivisor(d: nat, q: nat)
    requires d * q == 255 && d < 255
    ensures (q % 3 == 0 && d * (q / 3) == 85) || (q % 5 == 0 && d * (q / 5) == 51)
            || (q % 17 == 0 && d * (q / 17) == 15)
  {
    Product(d, q);
    if d <= 15 {
      Factor(d, q);
    } else {
      Factor(q, d);
    }
  }

  lemma NoDividingPeriod(d: nat, q: nat)
    requires d * q == 255 && d < 255
    ensures Alpha(d) != 1
  {
    if Alpha(d) == 1 {
      Powers();
      ProperDivisor(d, q);
      PowerOfUnit(d, q / 3);
      PowerOfUnit(d, q / 5);
      PowerOfUnit(d, q / 17);
    }
  }

  /** alpha^d is 1 for no positive d below 255: a least period would divide 255. */
  lemma {:induction false} NoShortPeriod(d: nat)
    requires 0 < d < 255
    ensures Alpha(d) != 1
    decreases d
  {
    var q, r := 255 / d, 255 % d;
    assert d * q + r == 255;
    if r == 0 {
      NoDividingPeriod(d, q);
    } else if Alpha(d) == 1 {
      NoShortPeriod(r);
      PowerOfUnit(d, q);
      PeriodRemainder(d * q, r);
    }
  }

  lemma PeriodRemainder(m: nat, r: nat)
    requires Alpha(m) == 1 && m + r == 255
    ensures Alpha(r) == 1
  {
    Powers();
    ShiftAdd(r, m, 1);
  }

  /** The 255 powers of alpha are pairwise different. */
  lemma AlphaInjective(i: nat, j: nat)
    requires i < j < 255
    ensures Alpha(i) != Alpha(j)
  {
    NoShortPeriod(j - i);
    ShiftAdd(i, j - i, 1);
    if Alpha(i) == Alpha(j) {
      ShiftInjective(i, 1, Alpha(j - i));
    }
  }

  lemma AlphaNonZero(n: nat)
    ensures Alpha(n) != 0
  {
    ShiftZero(n, 1);
  }

  // ---- every nonzero element is a power of alpha, by counting

  function PowersBelow(n: nat): set<bv8> {
    if n == 0 then {} else PowersBelow(n - 1) + {Alpha(n - 1)}
  }

  lemma {:induction false} Logarithm(n: nat, a: bv8) returns (i: nat)
    requires a in PowersBelow(n)
    ensures i < n && Alpha(i) == a
  {
    if a == Alpha(n - 1) {
      i := n - 1;
    } else {
      i := Logarithm(n - 1, a);
    }
  }

  lemma {:induction false} PowersCount(n: nat)
    requires n <= 255
    ensures |PowersBelow(n)| == n && 0 !in PowersBelow(n)
  {
    if n > 0 {
      PowersCount(n - 1);
      AlphaNonZero(n - 1);
      if Alpha(n - 1) in PowersBelow(n - 1) {
        var i := Logarithm(n - 1, Alpha(n - 1));
        AlphaInjective(i, n - 1);
      }
    }
  }

  function NonZeroUpTo(n: nat): (s: set<bv8>)
    requires n <= 255
    ensures |s| <= n
  {
    if n == 0 then {} else NonZeroUpTo(n - 1) + {n as bv8}
  }

  lemma {:induction false} IsNonZeroUpTo(n: nat, k: nat)
    requires 1 <= k <= n <= 255
    ensures k as bv8 in NonZeroUpTo(n)
  {
    if k < n {
      IsNonZeroUpTo(n - 1, k);
    }
  }

  lemma NonZeroIsCounted(a: bv8)
    requires a != 0
    ensures a in NonZeroUpTo(255)
  {
    IsNonZeroUpTo(255, a as int);
  }

  lemma EqualByCount(a: set<bv8>, b: set<bv8>)
    requires a <= b && |a| >= |b|
    ensures a == b
  {
    assert b == a + (b - a);
  }

  lemma NonZeroArePowers()
    ensures PowersBelow(255) == NonZeroUpTo(255)
  {
    hide PowersBelow, NonZeroUpTo;
    PowersCount(255);
    forall b | b in PowersBelow(255) ensures b in NonZeroUpTo(255) { NonZeroIsCounted(b); }
    EqualByCount(PowersBelow(255), NonZeroUpTo(255));
  }

  /** Every nonzero element has a logarithm below 255. */
  lemma LogExists(a: bv8) returns (i: nat)
    requires a != 0
    ensures i < 255 && Alpha(i) == a
  {
    NonZeroArePowers();
    NonZeroIsCounted(a);
    i := Logarithm(255, a);
  }

  lemma FullTurn(a: bv8)
    ensures Shift(255, a) == a
  {
    Powers();
    MulAlpha(255, a);
    MulOne(a);
  }

  /** The other side of MulAlpha: the second factor may be the power. */
  lemma MulByAlpha(a: bv8, n: nat)
    ensures Mul(a, Alpha(n)) == Shift(n, a)
  {
    if a == 0 {
      MulZero(Alpha(n));
      ShiftOfZero(n);
    } else {
      var i := LogExists(a);
      AlphaMul(i, n);
      ShiftAdd(n, i, 1);
    }
  }

  lemma MulZero(b: bv8)
    ensures Mul(0, b) == 0
  {
  }

  lemma {:induction false} ShiftPeriod(n: nat, a: bv8)
    ensures Shift(n % 255, a) == Shift(n, a)
    decreases n
  {
    if n >= 255 {
      ShiftPeriod(n - 255, a);
      FullTurn(a);
      ShiftAdd(n - 255, 255, a);
    }
  }

  // ---- the tables of the encoder

  /** A field element as an index into the logarithm table. */
  function Index(a: bv8): (i: nat)
    ensures i < 256
  {
    a as int
  }

  /** QRMath: the exponent and logarithm tables, filled once. */
  class QrMath {
    const expTable: array<bv8>
    const logTable: array<nat>

    ghost predicate Valid()
      reads expTable, logTable
    {
      && expTable.Length == logTable.Length == 256
      && (forall i :: 0 <= i < 256 ==> expTable[i] == Alpha(i))
      && (forall i: nat :: i < 255 ==> logTable[Index(Alpha(i))] == i)
    }

    constructor ()
      ensures Valid() && fresh(expTable) && fresh(logTable)
    {
      var exp := new bv8[256];
      var log := new nat[256];
      expTable, logTable := exp, log;
      new;
      FillExp(exp);
      FillLog(exp, log);
    }

    static method FillExp(exp: array<bv8>)
      requires exp.Length == 256
      modifies exp
      ensures forall k :: 0 <= k < 256 ==> exp[k] == Alpha(k)
    {
      for i := 0 to 8
        invariant forall k :: 0 <= k < i ==> exp[k] == Alpha(k)
      {
        FirstPowers(i);
        exp[i] := 1 << i;
      }
      for i := 8 to 256
        invariant forall k :: 0 <= k < i ==> exp[k] == Alpha(k)
      {
        Recurrence(i);
        exp[i] := Add(Add(Add(exp[i - 4], exp[i - 5]), exp[i - 6]), exp[i - 8]);
      }
    }

    static method FillLog(exp: array<bv8>, log: array<nat>)
      requires exp.Length == log.Length == 256 && exp as object != log
      requires forall k :: 0 <= k < 256 ==> exp[k] == Alpha(k)
      modifies log
      ensures forall k: nat :: k < 255 ==> log[Index(Alpha(k))] == k
    {
      for i := 0 to 255
        invariant forall k: nat :: k < i ==> log[Index(Alpha(k))] == k
      {
        forall k: nat | k < i ensures Index(Alpha(k)) != Index(Alpha(i)) { AlphaInjective(k, i); }
        log[Index(exp[i])] := i;
      }
    }

    /** glog, which throws on zero: zero is no power of alpha. */
    method Glog(n: bv8) returns (i: nat)
      requires Valid() && n != 0
      ensures i < 255 && Alpha(i) == n
    {
      ghost var k := LogExists(n);
      i := logTable[Index(n)];
    }

    /** gexp reduces any exponent, negative ones included, modulo 255. */
    method Gexp(exponent: int) returns (a: bv8)
      requires Valid()
      ensures a == Alpha(exponent % 255)
    {
      var n := exponent;
      while n < 0
        invariant n % 255 == exponent % 255
        invariant n < 255 || n <= exponent
      {
        n := n + 255;
      }
      while n >= 256
        invariant 0 <= n && n % 255 == exponent % 255
      {
        n := n - 255;
      }
      ShiftPeriod(n, 1);
      a := expTable[n];
    }

    /** Multiplication through the tables is field multiplication. */
    method Product(a: bv8, b: bv8) returns (c: bv8)
      requires Valid() && a != 0 && b != 0
      ensures c == Mul(a, b)
    {
      var i := Glog(a);
      var j := Glog(b);
      c := Gexp(i + j);
      AlphaMul(i, j);
      ShiftPeriod(i + j, 1);
    }
  }
}
