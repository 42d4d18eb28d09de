/**
  The client address pool: Validate and NextFree over IPv4 prefixes. An address is its 32-bit value;
  parsing is not part of this model, so the text that does not parse is the value None.
*/
module Ipam {
  import opened Basics
  import opened NumberBits

  const ADDRESS_SPACE: nat := 0x1_0000_0000

  datatype Verdict = Usable | NotAnAddress | OutsideRange | NetworkAddress | BroadcastAddress | AlreadyAssigned

  /** A masked IPv4 prefix: the network address and the prefix length. */
  datatype Pool = Pool(network: nat, bits: nat) {

    ghost predicate Valid() {
      bits <= 32 && network % Size() == 0 && network + Size() <= ADDRESS_SPACE
    }

    /** Number of addresses of the prefix. */
    function Size(): (n: nat)
      ensures n >= 1
    {
      Pow2(if bits <= 32 then 32 - bits else 0)
    }

    predicate Contains(a: nat) {
      a / Size() == network / Size()
    }

    /** The last address of the prefix; None for a /31 or a /32. */
    function Broadcast(): Option<nat> {
      if bits >= 31 then None else Some(network + (Size() - 1))
    }

    /** The addresses a client may be given, by range. */
    predicate Assignable(a: nat) {
      network < a < network + Size() && Broadcast() != Some(a)
    }

    function ValidateAmong(addr: Option<nat>, used: seq<nat>): Verdict {
      if addr.None? then NotAnAddress
      else if !Contains(addr.value) then OutsideRange
      else if addr.value == network then NetworkAddress
      else if Broadcast() == addr then BroadcastAddress
      else if addr.value in used then AlreadyAssigned
      else Usable
    }

    /** Lowest and highest assignable address, as a half-open range. */
    function Low(): nat {
      network + 1
    }

    function High(): nat {
      if bits >= 31 then network + Size() else network + Size() - 1
    }
  }

  lemma Factor(a: int, n: int)
    requires n >= 0
    ensures a >= 1 ==> a * n >= n
    ensures a <= -1 ==> a * n <= -n
  {
    if a >= 1 {
      assert (a - 1) * n >= 0;
    } else if a <= -1 {
      assert (-1 - a) * n >= 0;
    }
  }

  lemma SameQuotient(start: nat, n: nat, a: nat)
    requires n >= 1 && start % n == 0
    ensures a / n == start / n <==> start <= a < start + n
  {
    var q, k := a / n, start / n;
    assert start == k * n && a == q * n + a % n;
    assert q * n - k * n == (q - k) * n;
    Factor(q - k, n);
  }

  lemma InRange(p: Pool, a: nat)
    requires p.Valid()
    ensures p.Contains(a) <==> p.network <= a < p.network + p.Size()
  {
    SameQuotient(p.network, p.Size(), a);
  }

  /** Validate accepts exactly the assignable addresses that are not in use. */
  lemma UsableIff(p: Pool, a: nat, used: seq<nat>)
    requires p.Valid()
    ensures p.ValidateAmong(Some(a), used) == Usable <==> p.Low() <= a < p.High() && a !in used
    ensures p.Assignable(a) <==> p.Low() <= a < p.High()
  {
    InRange(p, a);
  }

  /** Each verdict, as the place of the address in the prefix: before or behind it, first, last, or within. */
  lemma VerdictIs(p: Pool, a: nat, used: seq<nat>)
    requires p.Valid()
    ensures var end := p.network + Pow2(32 - p.bits);
            p.ValidateAmong(Some(a), used) ==
              if a < p.network || a >= end then OutsideRange
              else if a == p.network then NetworkAddress
              else if p.bits <= 30 && a + 1 == end then BroadcastAddress
              else if a in used then AlreadyAssigned
              else Usable
    ensures p.ValidateAmong(None, used) == NotAnAddress
  {
    InRange(p, a);
  }

  method Validate(p: Pool, addr: Option<nat>, used: seq<nat>) returns (v: Verdict)
    ensures v == p.ValidateAmong(addr, used)
  {
    if addr.None? {
      return NotAnAddress;
    }
    if !p.Contains(addr.value) {
      return OutsideRange;
    }
    if addr.value == p.network {
      return NetworkAddress;
    }
    if p.Broadcast() == addr {
      return BroadcastAddress;
    }
    for i := 0 to |used|
      invariant addr.value !in used[..i]
    {
      if used[i] == addr.value {
        return AlreadyAssigned;
      }
    }
    assert used[..|used|] == used;
    v := Usable;
  }

  /** Pigeonhole: a run of addresses that are all in use is no longer than the list of used ones. */
  lemma {:induction false} RunOfUsed(lo: nat, hi: nat, used: seq<nat>)
    requires lo <= hi && forall a :: lo <= a < hi ==> a in used
    ensures hi - lo <= |used|
    decreases hi - lo
  {
    if lo < hi {
      assert hi - 1 in used;
      var i :| 0 <= i < |used| && used[i] == hi - 1;
      var rest := used[..i] + used[i + 1..];
      forall a | lo <= a < hi - 1 ensures a in rest {
        assert a in used;
        var j :| 0 <= j < |used| && used[j] == a;
        assert rest[if j < i then j else j - 1] == a;
      }
      RunOfUsed(lo, hi - 1, rest);
    }
  }

  /**
    The lowest address Validate accepts, or None exactly when it accepts none. At most one address
    more than there are used ones is inspected, so fewer used addresses than assignable ones suffice.
  */
  method NextFree(p: Pool, used: seq<nat>) returns (r: Option<nat>, inspected: nat)
    requires p.Valid()
    ensures r.Some? ==> p.ValidateAmong(r, used) == Usable
    ensures r.Some? ==> forall a: nat :: a < r.value ==> p.ValidateAmong(Some(a), used) != Usable
    ensures r.None? ==> forall a: nat :: p.ValidateAmong(Some(a), used) != Usable
    ensures inspected <= |used| + 1
    ensures |used| < p.High() - p.Low() ==> r.Some?
  {
    var taken: set<nat> := {};
    for i := 0 to |used|
      invariant taken == set u | u in used[..i]
    {
      assert used[..i + 1] == used[..i] + [used[i]];
      taken := taken + {used[i]};
    }
    assert used[..|used|] == used;
    assert forall a :: a in taken <==> a in used;
    var bc := p.Broadcast();
    inspected := 0;
    var a := p.network + 1;
    InRange(p, a);
    while p.Contains(a)
      invariant p.Low() <= a && p.Contains(a) == (a < p.network + p.Size())
      invariant a <= p.network + p.Size()
      invariant forall b :: p.Low() <= b < a ==> b in used && Some(b) != bc
      invariant inspected == a - p.Low() <= |used|
      decreases p.network + p.Size() - a
    {
      if bc == Some(a) {
        break;
      }
      inspected := inspected + 1;
      if a !in taken {
        Lowest(p, used, a);
        return Some(a), inspected;
      }
      RunOfUsed(p.Low(), a + 1, used);
      a := a + 1;
      InRange(p, a);
    }
    NoneFree(p, used, a);
    RunOfUsed(p.Low(), a, used);
    r := None;
  }

  lemma Lowest(p: Pool, used: seq<nat>, a: nat)
    requires p.Valid() && p.Low() <= a && p.Contains(a) && a !in used && p.Broadcast() != Some(a)
    requires forall b :: p.Low() <= b < a ==> b in used
    ensures p.ValidateAmong(Some(a), used) == Usable
    ensures forall b: nat :: b < a ==> p.ValidateAmong(Some(b), used) != Usable
  {
    forall b: nat | b < a ensures p.ValidateAmong(Some(b), used) != Usable {
      UsableIff(p, b, used);
    }
  }

  lemma NoneFree(p: Pool, used: seq<nat>, a: nat)
    requires p.Valid() && p.High() <= a
    requires forall b :: p.Low() <= b < a ==> b in used
    ensures forall b: nat :: p.ValidateAmong(Some(b), used) != Usable
  {
    forall b: nat ensures p.ValidateAmong(Some(b), used) != Usable {
      UsableIff(p, b, used);
    }
  }
}
