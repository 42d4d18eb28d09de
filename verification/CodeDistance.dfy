/**
  How much the error correction bytes of a block can repair: two blocks that pass the reader's test differ in
  more places than there are error correction bytes.
*/
module CodeDistance {
  import opened Gf256
  import opened ReedSolomon

  // ---- weights and distances

  /** How many coefficients are not zero. */
  function Weight(p: seq<bv8>): nat {
    if p == [] then 0 else Weight(p[..|p| - 1]) + if p[|p| - 1] != 0 then 1 else 0
  }

  /** In how many places two words of one length differ. */
  function Distance(a: seq<bv8>, b: seq<bv8>): nat
    requires |a| == |b|
  {
    if a == [] then 0
    else Distance(a[..|a| - 1], b[..|b| - 1]) + if a[|a| - 1] != b[|b| - 1] then 1 else 0
  }

  lemma {:induction false} DistanceIsWeight(a: seq<bv8>, b: seq<bv8>)
    requires |a| == |b|
    ensures Distance(a, b) == Weight(AddPoly(a, b))
  {
    if a != [] {
      var n := |a| - 1;
      DistanceIsWeight(a[..n], b[..n]);
      assert AddPoly(a, b)[..n] == AddPoly(a[..n], b[..n]);
      AddProperties(a[n], b[n]);
    }
  }

  lemma {:induction false} DistanceTriangle(a: seq<bv8>, b: seq<bv8>, c: seq<bv8>)
    requires |a| == |b| == |c|
    ensures Distance(a, c) <= Distance(b, a) + Distance(b, c)
  {
    if a != [] {
      var n := |a| - 1;
      DistanceTriangle(a[..n], b[..n], c[..n]);
    }
  }

  lemma {:induction false} WeightPositive(p: seq<bv8>, k: nat)
    requires k < |p| && p[k] != 0
    ensures Weight(p) > 0
  {
    if k < |p| - 1 {
      WeightPositive(p[..|p| - 1], k);
    }
  }

  lemma {:induction false} NonZeroPlace(p: seq<bv8>) returns (k: nat)
    requires Weight(p) > 0
    ensures k < |p| && p[k] != 0
  {
    if p[|p| - 1] != 0 {
      k := |p| - 1;
    } else {
      k := NonZeroPlace(p[..|p| - 1]);
    }
  }

  /** The same places are not zero. */
  lemma {:induction false} SameWeight(p: seq<bv8>, q: seq<bv8>)
    requires |p| == |q| && forall k :: 0 <= k < |p| ==> (p[k] != 0 <==> q[k] != 0)
    ensures Weight(p) == Weight(q)
  {
    if p != [] {
      SameWeight(p[..|p| - 1], q[..|q| - 1]);
    }
  }

  /** The same places but for one. */
  lemma {:induction false} OneFewer(p: seq<bv8>, q: seq<bv8>, at: nat)
    requires |p| == |q| && at < |p| && p[at] != 0 && q[at] == 0
    requires forall k :: 0 <= k < |p| && k != at ==> (p[k] != 0 <==> q[k] != 0)
    ensures Weight(p) == Weight(q) + 1
  {
    if at < |p| - 1 {
      OneFewer(p[..|p| - 1], q[..|q| - 1], at);
    } else {
      SameWeight(p[..|p| - 1], q[..|q| - 1]);
    }
  }

  // ---- taking one place out

  /** Each coefficient times its own power of alpha: its value at alpha^i is that of p at alpha^(i+1). */
  function Stretched(p: seq<bv8>): (q: seq<bv8>)
    ensures |q| == |p|
  {
    seq(|p|, t requires 0 <= t < |p| => Shift(|p| - 1 - t, p[t]))
  }

  lemma {:induction false} EvalStretched(p: seq<bv8>, i: nat)
    ensures Eval(Stretched(p), i) == Eval(p, i + 1)
  {
    if p != [] {
      var front, q := p[..|p| - 1], Stretched(p);
      EvalStretched(front, i);
      StretchedFront(p);
      EvalScale(1, Stretched(front), i);
      ShiftAdd(i, 1, Eval(front, i + 1));
    }
  }

  lemma StretchedFront(p: seq<bv8>)
    requires p != []
    ensures Stretched(p)[..|p| - 1] == Scale(1, Stretched(p[..|p| - 1])) && Stretched(p)[|p| - 1] == p[|p| - 1]
  {
    forall t | 0 <= t < |p| - 1 ensures Stretched(p)[t] == Scale(1, Stretched(p[..|p| - 1]))[t] {
      ShiftAdd(1, |p| - 2 - t, p[t]);
    }
  }

  /** Zero at the place whose power is q, and nowhere else where p is not. */
  function Twisted(p: seq<bv8>, q: nat): (r: seq<bv8>)
    ensures |r| == |p|
  {
    AddPoly(Stretched(p), Scale(q, p))
  }

  lemma TwistedVanishes(p: seq<bv8>, q: nat, i: nat)
    requires Eval(p, i) == 0 && Eval(p, i + 1) == 0
    ensures Eval(Twisted(p, q), i) == 0
  {
    EvalStretched(p, i);
    EvalScale(q, p, i);
    EvalAdd(Stretched(p), Scale(q, p), i);
    ShiftOfZero(q);
    AddProperties(0, 0);
  }

  lemma PowersDiffer(m: nat, n: nat, a: bv8)
    requires m < 255 && n < 255 && m != n && a != 0
    ensures Shift(m, a) != Shift(n, a)
  {
    var low, high := if m < n then m else n, if m < n then n else m;
    NoFixedPoint(high - low, a);
    ShiftAdd(low, high - low, a);
    if Shift(m, a) == Shift(n, a) {
      ShiftInjective(low, a, Shift(high - low, a));
    }
  }

  lemma TwistedWeight(p: seq<bv8>, at: nat)
    requires |p| <= 255 && at < |p| && p[at] != 0
    ensures Weight(p) == Weight(Twisted(p, |p| - 1 - at)) + 1
  {
    var q := |p| - 1 - at;
    var r := Twisted(p, q);
    forall t | 0 <= t < |p| ensures r[t] == 0 <==> p[t] == 0 || t == at {
      AddProperties(Shift(|p| - 1 - t, p[t]), Shift(q, p[t]));
      ShiftOfZero(q);
      ShiftOfZero(|p| - 1 - t);
      if p[t] != 0 && t != at {
        PowersDiffer(|p| - 1 - t, q, p[t]);
      }
    }
    OneFewer(p, r, at);
  }

  // ---- the distance

  /** A single coefficient is the value at 1. */
  lemma {:induction false} OnePlace(p: seq<bv8>)
    requires Weight(p) == 1
    ensures Eval(p, 0) != 0
  {
    var front := p[..|p| - 1];
    if p[|p| - 1] != 0 {
      NoPlace(front);
      AddProperties(p[|p| - 1], 0);
    } else {
      OnePlace(front);
      AddProperties(Eval(front, 0), 0);
    }
  }

  lemma {:induction false} NoPlace(p: seq<bv8>)
    requires Weight(p) == 0
    ensures Eval(p, 0) == 0
  {
    if p != [] {
      NoPlace(p[..|p| - 1]);
      AddProperties(0, 0);
    }
  }

  /** A word that is not zero and has n vanishing syndromes has more than n places that are not zero. */
  lemma {:induction false} WeightExceeds(p: seq<bv8>, n: nat)
    requires |p| <= 255 && Weight(p) > 0 && IsCodeword(p, n)
    ensures Weight(p) > n
    decreases n
  {
    if n > 0 {
      var at := NonZeroPlace(p);
      var r := Twisted(p, |p| - 1 - at);
      TwistedWeight(p, at);
      if Weight(p) == 1 {
        OnePlace(p);
      } else {
        forall i: nat | i < n - 1 ensures Eval(r, i) == 0 {
          TwistedVanishes(p, |p| - 1 - at, i);
        }
        WeightExceeds(r, n - 1);
      }
    }
  }

  /** Two different blocks that pass the reader's test with n syndromes differ in more than n places. */
  lemma CodewordsApart(a: seq<bv8>, b: seq<bv8>, n: nat)
    requires |a| == |b| <= 255 && IsCodeword(a, n) && IsCodeword(b, n) && a != b
    ensures Distance(a, b) > n
  {
    hide Eval;
    var d := AddPoly(a, b);
    forall i: nat | i < n ensures Eval(d, i) == 0 {
      EvalAdd(a, b, i);
      AddProperties(0, 0);
    }
    var k :| 0 <= k < |a| && a[k] != b[k];
    AddProperties(a[k], b[k]);
    WeightPositive(d, k);
    WeightExceeds(d, n);
    DistanceIsWeight(a, b);
  }

  /** Whatever was read, at most one block is within half as many byte errors as there are correction bytes. */
  lemma HalfTheTailIsRepaired(seen: seq<bv8>, a: seq<bv8>, b: seq<bv8>, n: nat)
    requires |a| == |b| == |seen| <= 255 && IsCodeword(a, n) && IsCodeword(b, n)
    requires 2 * Distance(seen, a) <= n && 2 * Distance(seen, b) <= n
    ensures a == b
  {
    if a != b {
      CodewordsApart(a, b, n);
      DistanceTriangle(a, seen, b);
    }
  }
}
