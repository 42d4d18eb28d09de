/**
  Error correction of the QR encoder: polynomials over GF(256), highest coefficient first, the
  generator polynomial, the remainder, and what the computed bytes mean to a reader. A reader
  accepts a block when the codeword evaluates to zero at alpha^0 .. alpha^(n-1).
*/
module ReedSolomon {
  import opened Gf256

  // ---- polynomials and their values

  function Zeros(n: nat): seq<bv8> {
    seq(n, _ => 0)
  }

  function AddPoly(p: seq<bv8>, q: seq<bv8>): seq<bv8>
    requires |p| == |q|
  {
    seq(|p|, k requires 0 <= k < |p| => Add(p[k], q[k]))
  }

  function Scale(n: nat, p: seq<bv8>): seq<bv8> {
    seq(|p|, k requires 0 <= k < |p| => Shift(n, p[k]))
  }

  predicate AllNonZero(p: seq<bv8>) {
    forall k :: 0 <= k < |p| ==> p[k] != 0
  }

  /** The value of p at alpha^i. */
  function Eval(p: seq<bv8>, i: nat): bv8 {
    if p == [] then 0 else Add(Shift(i, Eval(p[..|p| - 1], i)), p[|p| - 1])
  }

  /** All n syndromes of the block c vanish. */
  ghost predicate IsCodeword(c: seq<bv8>, n: nat) {
    forall i: nat :: i < n ==> Eval(c, i) == 0
  }

  function Strip(p: seq<bv8>): (r: seq<bv8>)
    ensures |r| <= |p| && (r != [] ==> r[0] != 0)
    ensures p != [] && p[0] == 0 ==> |r| < |p|
  {
    if p != [] && p[0] == 0 then Strip(p[1..]) else p
  }

  lemma AddAssoc(a: bv8, b: bv8, c: bv8)
    ensures Add(Add(a, b), c) == Add(a, Add(b, c)) && Add(b, c) == Add(c, b)
  {
  }

  lemma Exchange(a: bv8, b: bv8, c: bv8, d: bv8)
    ensures Add(Add(a, b), Add(c, d)) == Add(Add(a, c), Add(b, d))
  {
    AddAssoc(a, b, Add(c, d));
    AddAssoc(b, c, d);
    AddAssoc(c, b, d);
    AddAssoc(a, c, Add(b, d));
  }

  lemma AddProperties(a: bv8, b: bv8)
    ensures Add(a, 0) == a == Add(0, a) && Add(a, a) == 0 && (Add(a, b) == 0 <==> a == b)
  {
  }

  lemma {:induction false} EvalAdd(p: seq<bv8>, q: seq<bv8>, i: nat)
    requires |p| == |q|
    ensures Eval(AddPoly(p, q), i) == Add(Eval(p, i), Eval(q, i))
  {
    if p == [] {
      AddProperties(0, 0);
    } else {
      var p', q' := p[..|p| - 1], q[..|p| - 1];
      EvalAdd(p', q', i);
      assert AddPoly(p, q)[..|p| - 1] == AddPoly(p', q');
      ShiftLinear(i, Eval(p', i), Eval(q', i));
      Exchange(Shift(i, Eval(p', i)), Shift(i, Eval(q', i)), p[|p| - 1], q[|p| - 1]);
    }
  }

  lemma {:induction false} EvalScale(n: nat, p: seq<bv8>, i: nat)
    ensures Eval(Scale(n, p), i) == Shift(n, Eval(p, i))
  {
    if p == [] {
      ShiftOfZero(n);
    } else {
      var p' := p[..|p| - 1];
      EvalScale(n, p', i);
      assert Scale(n, p)[..|p| - 1] == Scale(n, p');
      ShiftLinear(n, Shift(i, Eval(p', i)), p[|p| - 1]);
      ShiftAdd(n, i, Eval(p', i));
      ShiftAdd(i, n, Eval(p', i));
    }
  }

  lemma EvalAppendZero(p: seq<bv8>, i: nat)
    ensures Eval(p + [0], i) == Shift(i, Eval(p, i))
  {
    assert (p + [0])[..|p|] == p;
    AddProperties(Shift(i, Eval(p, i)), 0);
  }

  lemma {:induction false} EvalPrependZero(p: seq<bv8>, i: nat)
    ensures Eval([0] + p, i) == Eval(p, i)
  {
    if p == [] {
      ShiftOfZero(i);
      AddProperties(0, 0);
      assert ([0] + p)[..0] == [];
    } else {
      EvalPrependZero(p[..|p| - 1], i);
      assert ([0] + p)[..|p|] == [0] + p[..|p| - 1];
    }
  }

  lemma {:induction false} EvalPadded(k: nat, p: seq<bv8>, i: nat)
    ensures Eval(Zeros(k) + p, i) == Eval(p, i)
  {
    if k == 0 {
      assert Zeros(0) + p == p;
    } else {
      EvalPadded(k - 1, p, i);
      assert Zeros(k) + p == [0] + (Zeros(k - 1) + p);
      EvalPrependZero(Zeros(k - 1) + p, i);
    }
  }

  lemma {:induction false} StripShape(p: seq<bv8>)
    ensures p == Zeros(|p| - |Strip(p)|) + Strip(p)
  {
    if p != [] && p[0] == 0 {
      StripShape(p[1..]);
      assert p == [0] + p[1..];
    }
  }

  lemma EvalStrip(p: seq<bv8>, i: nat)
    ensures Eval(Strip(p), i) == Eval(p, i)
  {
    StripShape(p);
    EvalPadded(|p| - |Strip(p)|, Strip(p), i);
  }

  /** Appending zeros multiplies by a power of x, so it keeps a zero value zero. */
  lemma {:induction false} EvalAppendZeros(p: seq<bv8>, q: seq<bv8>, k: nat, i: nat)
    requires Eval(p, i) == Eval(q, i)
    ensures Eval(p + Zeros(k), i) == Eval(q + Zeros(k), i)
  {
    hide Eval, Shift;
    if k == 0 {
      assert p + Zeros(0) == p && q + Zeros(0) == q;
    } else {
      EvalAppendZeros(p, q, k - 1, i);
      assert p + Zeros(k) == (p + Zeros(k - 1)) + [0] && q + Zeros(k) == (q + Zeros(k - 1)) + [0];
      EvalAppendZero(p + Zeros(k - 1), i);
      EvalAppendZero(q + Zeros(k - 1), i);
    }
  }

  // ---- the generator polynomial

  /** p * (x + alpha^n) */
  function Times(p: seq<bv8>, n: nat): seq<bv8> {
    AddPoly(p + [0], [0] + Scale(n, p))
  }

  /** The product of x + alpha^i for i below n. */
  function Generator(n: nat): (g: seq<bv8>)
    ensures |g| == n + 1
  {
    if n == 0 then [1] else Times(Generator(n - 1), n - 1)
  }

  lemma EvalTimes(p: seq<bv8>, n: nat, i: nat)
    ensures Eval(Times(p, n), i) == Add(Shift(i, Eval(p, i)), Shift(n, Eval(p, i)))
  {
    EvalAdd(p + [0], [0] + Scale(n, p), i);
    EvalAppendZero(p, i);
    EvalPrependZero(Scale(n, p), i);
    EvalScale(n, p, i);
  }

  lemma TimesRoot(p: seq<bv8>, n: nat, i: nat)
    requires i == n || Eval(p, i) == 0
    ensures Eval(Times(p, n), i) == 0
  {
    EvalTimes(p, n, i);
    ShiftOfZero(i);
    ShiftOfZero(n);
    AddProperties(Shift(i, Eval(p, i)), 0);
  }

  lemma {:induction false} GeneratorRoots(n: nat, i: nat)
    requires i < n
    ensures Eval(Generator(n), i) == 0
  {
    var g := Generator(n - 1);
    if i < n - 1 {
      GeneratorRoots(n - 1, i);
    }
    TimesRoot(g, n - 1, i);
    assert Generator(n) == Times(g, n - 1);
  }

  /** Coefficient k of the generator, zero outside 0..n. */
  function Coef(n: nat, k: int): bv8 {
    if n == 0 then (if k == 0 then 1 else 0)
    else Add(Coef(n - 1, k), Shift(n - 1, Coef(n - 1, k - 1)))
  }

  lemma {:induction false} CoefOutside(n: nat, k: int)
    requires k < 0 || k > n
    ensures Coef(n, k) == 0
  {
    if n > 0 {
      CoefOutside(n - 1, k);
      CoefOutside(n - 1, k - 1);
      ShiftOfZero(n - 1);
      AddProperties(0, 0);
    }
  }

  function At(p: seq<bv8>, k: int): bv8 {
    if 0 <= k < |p| then p[k] else 0
  }

  lemma TimesAt(p: seq<bv8>, n: nat, k: int)
    ensures At(Times(p, n), k) == Add(At(p, k), Shift(n, At(p, k - 1)))
  {
    ShiftOfZero(n);
    AddProperties(0, 0);
  }

  lemma {:induction false} GeneratorCoef(n: nat, k: int)
    ensures At(Generator(n), k) == Coef(n, k)
  {
    if n > 0 {
      var g := Generator(n - 1);
      GeneratorCoef(n - 1, k);
      GeneratorCoef(n - 1, k - 1);
      TimesAt(g, n - 1, k);
      assert Generator(n) == Times(g, n - 1);
    }
  }

  /**
    Neighbouring coefficients are proportional:
    (alpha + alpha^(k+1)) * c(n,k) == (alpha^k + alpha^(n+1)) * c(n,k-1).
  */
  lemma {:induction false} CoefRatio(n: nat, k: nat)
    ensures Add(Shift(1, Coef(n, k)), Shift(k + 1, Coef(n, k)))
            == Add(Shift(k, Coef(n, k - 1)), Shift(n + 1, Coef(n, k - 1)))
  {
    if k == 0 {
      CoefOutside(n, -1);
      ShiftOfZero(0);
      ShiftOfZero(n + 1);
      AddProperties(Shift(1, Coef(n, 0)), 0);
      AddProperties(0, 0);
    } else if n == 0 {
      ShiftOfZero(1);
      ShiftOfZero(k + 1);
      ShiftOfZero(k);
      AddProperties(Shift(1, Coef(0, 0)), 0);
      AddProperties(0, 0);
    } else {
      CoefRatio(n - 1, k);
      CoefRatio(n - 1, k - 1);
      RatioStep(n - 1, k, Coef(n - 1, k), Coef(n - 1, k - 1), Coef(n - 1, k - 2), Coef(n, k), Coef(n, k - 1));
    }
  }

  lemma RatioStep(n: nat, k: nat, c0: bv8, c1: bv8, c2: bv8, d0: bv8, d1: bv8)
    requires k >= 1
    requires Add(Shift(1, c0), Shift(k + 1, c0)) == Add(Shift(k, c1), Shift(n + 1, c1))
    requires Add(Shift(1, c1), Shift(k, c1)) == Add(Shift(k - 1, c2), Shift(n + 1, c2))
    requires d0 == Add(c0, Shift(n, c1)) && d1 == Add(c1, Shift(n, c2))
    ensures Add(Shift(1, d0), Shift(k + 1, d0)) == Add(Shift(k, d1), Shift(n + 2, d1))
  {
    ShiftLinear(1, c0, Shift(n, c1)); ShiftAdd(1, n, c1);
    ShiftLinear(k + 1, c0, Shift(n, c1)); ShiftAdd(k + 1, n, c1);
    ShiftLinear(k, c1, Shift(n, c2)); ShiftAdd(k, n, c2);
    ShiftLinear(n + 2, c1, Shift(n, c2)); ShiftAdd(n + 2, n, c2);
    ShiftLinear(n + 1, Shift(1, c1), Shift(k, c1)); ShiftAdd(n + 1, 1, c1); ShiftAdd(n + 1, k, c1);
    ShiftLinear(n + 1, Shift(k - 1, c2), Shift(n + 1, c2)); ShiftAdd(n + 1, k - 1, c2); ShiftAdd(n + 1, n + 1, c2);
    RatioAlgebra(Shift(1, c0), Shift(n + 1, c1), Shift(k + 1, c0), Shift(n + k + 1, c1), Shift(k, c1),
                 Shift(n + k, c2), Shift(n + 2, c1), Shift(2 * n + 2, c2));
  }

  lemma RatioAlgebra(a: bv8, b: bv8, c: bv8, d: bv8, e: bv8, f: bv8, g: bv8, h: bv8)
    requires Add(a, c) == Add(e, b)
    requires Add(g, d) == Add(f, h)
    ensures Add(Add(a, b), Add(c, d)) == Add(Add(e, f), Add(g, h))
  {
  }

  lemma {:induction false} CoefNonZero(n: nat, k: nat)
    requires k <= n < 255
    ensures Coef(n, k) != 0
    decreases k
  {
    if k == 0 {
      LeadingCoef(n);
    } else {
      var c := Coef(n, k - 1);
      CoefNonZero(n, k - 1);
      CoefRatio(n, k);
      if Coef(n, k) == 0 {
        ShiftOfZero(1);
        ShiftOfZero(k + 1);
        AddProperties(0, 0);
        AddProperties(Shift(k, c), Shift(n + 1, c));
        ShiftAdd(k, n + 1 - k, c);
        ShiftInjective(k, c, Shift(n + 1 - k, c));
        NoFixedPoint(n + 1 - k, c);
      }
    }
  }

  lemma {:induction false} LeadingCoef(n: nat)
    ensures Coef(n, 0) == 1
  {
    if n > 0 {
      LeadingCoef(n - 1);
      CoefOutside(n - 1, -1);
      ShiftOfZero(n - 1);
      AddProperties(1, 0);
    }
  }

  lemma NoFixedPoint(d: nat, a: bv8)
    requires 0 < d < 255 && a != 0
    ensures Shift(d, a) != a
  {
    var i := LogExists(a);
    ShiftAdd(d, i, 1);
    ShiftAdd(i, d, 1);
    NoShortPeriod(d);
    if Shift(d, a) == a {
      ShiftInjective(i, Alpha(d), 1);
    }
  }

  /** No generator below degree 255 has a zero coefficient, so glog never throws on one. */
  lemma GeneratorNonZero(n: nat)
    requires n < 255
    ensures AllNonZero(Generator(n)) && Generator(n)[0] == 1
  {
    var g := Generator(n);
    forall k | 0 <= k <= n ensures g[k] != 0 {
      GeneratorCoef(n, k);
      CoefNonZero(n, k);
    }
    GeneratorCoef(n, 0);
    LeadingCoef(n);
  }

  // ---- qrPolynomial

  /** qrPolynomial: leading zeros are dropped and `shift` zero coefficients appended. */
  method NewPolynomial(num: seq<bv8>, shift: nat) returns (p: seq<bv8>)
    ensures p == Strip(num) + Zeros(shift)
  {
    var offset := 0;
    while offset < |num| && num[offset] == 0
      invariant 0 <= offset <= |num|
      invariant Strip(num[offset..]) == Strip(num)
    {
      offset := offset + 1;
    }
    p := num[offset..] + Zeros(shift);
  }

  /** Coefficient t of the product of the first m coefficients of a with e. */
  function ProductCoef(a: seq<bv8>, e: seq<bv8>, m: nat, t: int): bv8
    requires m <= |a|
  {
    if m == 0 then 0
    else Add(ProductCoef(a, e, m - 1, t), if 0 <= t - (m - 1) < |e| then Mul(a[m - 1], e[t - (m - 1)]) else 0)
  }

  method Multiply(math: QrMath, a: seq<bv8>, e: seq<bv8>) returns (p: seq<bv8>)
    requires math.Valid() && a != [] && e != [] && AllNonZero(a) && AllNonZero(e)
    ensures p == Strip(seq(|a| + |e| - 1, t => ProductCoef(a, e, |a|, t)))
  {
    hide Shift, Alpha, Mul;
    var num := seq(|a| + |e| - 1, _ => 0 as bv8);
    for i := 0 to |a|
      invariant |num| == |a| + |e| - 1
      invariant forall t :: 0 <= t < |num| ==> num[t] == ProductCoef(a, e, i, t)
    {
      ghost var before := num;
      for j := 0 to |e|
        invariant |num| == |before|
        invariant forall t :: 0 <= t < i + j ==> num[t] == ProductCoef(a, e, i + 1, t)
        invariant forall t :: i + j <= t < |num| ==> num[t] == before[t]
      {
        var c := math.Product(a[i], e[j]);
        num := num[i + j := Add(num[i + j], c)];
      }
    }
    assert num == seq(|a| + |e| - 1, t => ProductCoef(a, e, |a|, t));
    p := NewPolynomial(num, 0);
    assert Strip(num) + Zeros(0) == Strip(num);
  }

  lemma ProductStep(x: bv8, n: nat, d: int) returns (c: bv8)
    ensures c == if 0 <= d < 2 then Mul(x, [1, Alpha(n)][d]) else 0
    ensures c == if d == 0 then x else if d == 1 then Shift(n, x) else 0
  {
    MulByAlpha(x, 0);
    MulByAlpha(x, n);
    c := if d == 0 then x else if d == 1 then Shift(n, x) else 0;
  }

  lemma {:induction false} ProductWithLinear(a: seq<bv8>, n: nat, m: nat, t: int)
    requires m <= |a|
    ensures ProductCoef(a, [1, Alpha(n)], m, t)
            == Add(if 0 <= t < m then a[t] else 0, if 0 <= t - 1 < m then Shift(n, a[t - 1]) else 0)
  {
    if m == 0 {
      AddProperties(0, 0);
    } else {
      ProductWithLinear(a, n, m - 1, t);
      var c := ProductStep(a[m - 1], n, t - (m - 1));
      LinearAlgebra(if 0 <= t < m - 1 then a[t] else 0, if 0 <= t - 1 < m - 1 then Shift(n, a[t - 1]) else 0, c);
    }
  }

  lemma LinearAlgebra(u: bv8, v: bv8, c: bv8)
    ensures Add(Add(u, v), 0) == Add(u, v)
    ensures u == 0 ==> Add(Add(u, v), c) == Add(c, v)
    ensures v == 0 ==> Add(Add(u, v), c) == Add(u, c)
  {
  }

  lemma LinearFactor(a: seq<bv8>, n: nat)
    requires a != []
    ensures seq(|a| + 1, t => ProductCoef(a, [1, Alpha(n)], |a|, t)) == Times(a, n)
  {
    ShiftOfZero(n);
    forall t | 0 <= t <= |a| ensures ProductCoef(a, [1, Alpha(n)], |a|, t) == Times(a, n)[t] {
      ProductWithLinear(a, n, |a|, t);
      TimesAt(a, n, t);
    }
  }

  method GetErrorCorrectPolynomial(math: QrMath, errorCorrectLength: nat) returns (a: seq<bv8>)
    requires math.Valid() && errorCorrectLength < 255
    ensures a == Generator(errorCorrectLength)
  {
    hide Alpha, Shift, Times, ProductCoef;
    a := NewPolynomial([1], 0);
    assert a == [1];
    for i := 0 to errorCorrectLength
      invariant a == Generator(i)
    {
      var power := math.Gexp(i);
      assert power == Alpha(i);
      AlphaNonZero(i);
      GeneratorNonZero(i);
      GeneratorNonZero(i + 1);
      var factor := NewPolynomial([1, power], 0);
      assert factor == [1, Alpha(i)];
      LinearFactor(a, i);
      a := Multiply(math, a, factor);
    }
  }

  /** Subtracting a multiple of e does not change the value where e vanishes. */
  lemma SubtractMultiple(p: seq<bv8>, e: seq<bv8>, c: nat, i: nat)
    requires |e| <= |p| && Eval(e, i) == 0
    ensures Eval(AddPoly(p, Scale(c, e) + Zeros(|p| - |e|)), i) == Eval(p, i)
  {
    var k := |p| - |e|;
    EvalScale(c, e, i);
    ShiftOfZero(c);
    EvalPadded(k, [], i);
    EvalPadded(|e|, [], i);
    assert Zeros(|e|) + [] == Zeros(|e|) && Zeros(k + |e|) + [] == Zeros(|e|) + Zeros(k);
    EvalPadded(k + |e|, [], i);
    EvalAppendZeros(Scale(c, e), Zeros(|e|), k, i);
    EvalAdd(p, Scale(c, e) + Zeros(k), i);
    AddProperties(Eval(p, i), 0);
  }

  /** gexp(glog(a) + ratio) is a * alpha^ratio, for a negative ratio as well. */
  lemma ScaledByRatio(log: nat, ratio: int)
    ensures Alpha((log + ratio) % 255) == Shift(ratio % 255, Alpha(log))
  {
    ShiftAdd(ratio % 255, log, 1);
    ShiftPeriod(ratio % 255 + log, 1);
    assert (ratio % 255 + log) % 255 == (log + ratio) % 255;
  }

  /** One division step: p minus the multiple of e that cancels the leading coefficient. */
  method CancelLeading(math: QrMath, p: seq<bv8>, e: seq<bv8>) returns (num: seq<bv8>, ghost c: nat)
    requires math.Valid() && e != [] && AllNonZero(e)
    requires |p| >= |e| && p[0] != 0
    ensures num == AddPoly(p, Scale(c, e) + Zeros(|p| - |e|)) && num[0] == 0
  {
    hide Alpha, Shift, Strip;
    var dividend: int := math.Glog(p[0]);
    var divisor: int := math.Glog(e[0]);
    var ratio := dividend - divisor;
    c := ratio % 255;
    num := p;
    for i := 0 to |e|
      invariant |num| == |p|
      invariant forall k :: 0 <= k < i ==> num[k] == Add(p[k], Shift(c, e[k]))
      invariant forall k :: i <= k < |p| ==> num[k] == p[k]
    {
      var log := math.Glog(e[i]);
      var scaled := math.Gexp(log + ratio);
      ScaledByRatio(log, ratio);
      num := num[i := Add(num[i], scaled)];
    }
    SubtractedMultiple(p, e, c, num);
    ScaledByRatio(divisor, ratio);
    AddProperties(p[0], p[0]);
  }

  lemma SubtractedMultiple(p: seq<bv8>, e: seq<bv8>, c: nat, num: seq<bv8>)
    requires |num| == |p| >= |e|
    requires forall k :: 0 <= k < |e| ==> num[k] == Add(p[k], Shift(c, e[k]))
    requires forall k :: |e| <= k < |p| ==> num[k] == p[k]
    ensures num == AddPoly(p, Scale(c, e) + Zeros(|p| - |e|))
  {
    forall k | |e| <= k < |p| ensures num[k] == Add(p[k], 0) {
      AddProperties(p[k], 0);
    }
  }

  method Mod(math: QrMath, p: seq<bv8>, e: seq<bv8>) returns (r: seq<bv8>)
    requires math.Valid() && e != [] && AllNonZero(e)
    requires |p| >= |e| ==> p[0] != 0
    ensures |r| < |e|
    ensures forall i: nat :: Eval(e, i) == 0 ==> Eval(r, i) == Eval(p, i)
    decreases |p|
  {
    if |p| - |e| < 0 {
      return p;
    }
    var num, c := CancelLeading(math, p, e);
    var next := NewPolynomial(num, 0);
    assert next == Strip(num);
    forall i: nat | Eval(e, i) == 0 ensures Eval(next, i) == Eval(p, i) {
      SubtractMultiple(p, e, c, i);
      EvalStrip(num, i);
    }
    r := Mod(math, next, e);
  }

  // ---- the bytes appended to a block

  /** The error correction bytes of one block, as createBytes computes them. */
  method ErrorCorrection(math: QrMath, data: seq<bv8>, ecCount: nat) returns (ec: seq<bv8>)
    requires math.Valid() && ecCount < 255
    ensures |ec| == ecCount
    ensures IsCodeword(data + ec, ecCount)
  {
    var rsPoly := GetErrorCorrectPolynomial(math, ecCount);
    GeneratorNonZero(ecCount);
    var rawPoly := NewPolynomial(data, |rsPoly| - 1);
    var modPoly := Mod(math, rawPoly, rsPoly);
    ec := Zeros(ecCount);
    for i := 0 to ecCount
      invariant |ec| == ecCount
      invariant forall k :: 0 <= k < i ==> ec[k] == At(modPoly, k + |modPoly| - ecCount)
    {
      var modIndex := i + |modPoly| - ecCount;
      ec := ec[i := if modIndex >= 0 then modPoly[modIndex] else 0];
    }
    assert ec == Zeros(ecCount - |modPoly|) + modPoly;
    forall i: nat | i < ecCount ensures Eval(data + ec, i) == 0 {
      GeneratorRoots(ecCount, i);
      EvalPadded(ecCount - |modPoly|, modPoly, i);
      EvalStrip(data, i);
      EvalAppendZeros(Strip(data), data, ecCount, i);
      EvalTail(data, ec, i);
    }
  }

  /** A block is worth its data part, shifted, plus its tail. */
  lemma EvalTail(data: seq<bv8>, tail: seq<bv8>, i: nat)
    ensures Eval(data + tail, i) == Add(Eval(data + Zeros(|tail|), i), Eval(tail, i))
    ensures Eval(data + Zeros(|tail|), i) == Eval(tail, i) ==> Eval(data + tail, i) == 0
  {
    hide Eval;
    EvalPadded(|data|, tail, i);
    EvalAdd(data + Zeros(|tail|), Zeros(|data|) + tail, i);
    DataPlusTail(data, tail);
    AddProperties(Eval(tail, i), Eval(tail, i));
  }

  lemma DataPlusTail(data: seq<bv8>, tail: seq<bv8>)
    ensures data + tail == AddPoly(data + Zeros(|tail|), Zeros(|data|) + tail)
  {
    forall k | 0 <= k < |data| + |tail|
      ensures (data + tail)[k] == Add((data + Zeros(|tail|))[k], (Zeros(|data|) + tail)[k])
    {
      AddProperties((data + tail)[k], 0);
    }
  }

  // ---- no other tail would do

  /** Dividing out a root: the Horner partial values are the quotient by x + alpha^i. */
  function Quotient(p: seq<bv8>, i: nat): (q: seq<bv8>)
    requires p != []
    ensures |q| == |p| - 1
  {
    seq(|p| - 1, t requires 0 <= t < |p| - 1 => Eval(p[..t + 1], i))
  }

  lemma DivideRoot(p: seq<bv8>, i: nat)
    requires p != [] && Eval(p, i) == 0
    ensures p == Times(Quotient(p, i), i)
  {
    hide Eval, Shift;
    var q := Quotient(p, i);
    assert p[..|p|] == p;
    forall t | 0 <= t < |p| ensures p[t] == Times(q, i)[t] {
      TimesAt(q, i, t);
      ShiftOfZero(i);
      var before := Shift(i, if t == 0 then 0 else Eval(p[..t], i));
      EvalUpTo(p, i, t);
      CancelAlgebra(before, p[t]);
    }
  }

  lemma EvalUpTo(p: seq<bv8>, i: nat, t: nat)
    requires t < |p|
    ensures Eval(p[..t + 1], i) == Add(Shift(i, if t == 0 then 0 else Eval(p[..t], i)), p[t])
  {
    hide Shift;
    assert p[..t + 1][..t] == p[..t];
  }

  lemma CancelAlgebra(a: bv8, b: bv8)
    ensures Add(Add(a, b), a) == b && (Add(a, b) == 0 ==> Add(0, a) == b)
  {
  }

  lemma {:induction false} OnlyZeroVanishes(p: seq<bv8>)
    requires |p| < 255 && IsCodeword(p, |p|)
    ensures p == Zeros(|p|)
    decreases |p|
  {
    if p != [] {
      var n := |p| - 1;
      var q := Quotient(p, n);
      DivideRoot(p, n);
      forall i: nat | i < n ensures Eval(q, i) == 0 {
        EvalTimes(q, n, i);
        AddProperties(Shift(i, Eval(q, i)), Shift(n, Eval(q, i)));
        if Eval(q, i) != 0 {
          ShiftAdd(i, n - i, Eval(q, i));
          ShiftInjective(i, Eval(q, i), Shift(n - i, Eval(q, i)));
          NoFixedPoint(n - i, Eval(q, i));
        }
      }
      OnlyZeroVanishes(q);
      forall t | 0 <= t < |p| ensures p[t] == 0 {
        TimesAt(q, n, t);
        ShiftOfZero(n);
        AddProperties(0, 0);
      }
    }
  }

  /** The error correction bytes are determined by the data: no other tail passes the reader's test. */
  lemma TailIsUnique(data: seq<bv8>, s: seq<bv8>, t: seq<bv8>)
    requires |s| == |t| < 255
    requires IsCodeword(data + s, |s|) && IsCodeword(data + t, |t|)
    ensures s == t
  {
    var d := AddPoly(s, t);
    forall i: nat | i < |s| ensures Eval(d, i) == 0 {
      EvalTail(data, s, i);
      EvalTail(data, t, i);
      EvalAdd(s, t, i);
      AddProperties(Eval(data + Zeros(|s|), i), Eval(s, i));
      AddProperties(Eval(data + Zeros(|s|), i), Eval(t, i));
      AddProperties(Eval(s, i), Eval(t, i));
    }
    OnlyZeroVanishes(d);
    forall k | 0 <= k < |s| ensures s[k] == t[k] {
      AddProperties(s[k], t[k]);
      assert d[k] == 0;
    }
  }
}
