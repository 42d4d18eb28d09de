/**
  AllowedIPs lists: parsing from the split parts on, the overlap test, and what the client config
  prints. An address is a family and a number; the text of addresses and prefixes is not part of this
  model.
*/
module Routes {
  import opened Basics
  import opened NumberBits

  datatype Address = Address(v6: bool, value: nat)

  datatype Prefix = Prefix(v6: bool, addr: nat, bits: nat) {
    ghost predicate Valid() {
      bits <= Width(v6) && addr < Pow2(Width(v6))
    }
  }

  function Width(v6: bool): nat {
    if v6 then 128 else 32
  }

  /** The number with its low h bits cleared. */
  function Mask(value: nat, h: nat): nat {
    Push(Shr(value, h), h, 0)
  }

  function Masked(p: Prefix): Prefix
    requires p.bits <= Width(p.v6)
  {
    p.(addr := Mask(p.addr, Width(p.v6) - p.bits))
  }

  /** The prefix covers the address: they agree on the first `bits` bits. */
  predicate Covers(p: Prefix, a: Address)
    requires p.bits <= Width(p.v6)
  {
    p.v6 == a.v6 && Shr(p.addr, Width(p.v6) - p.bits) == Shr(a.value, Width(p.v6) - p.bits)
  }

  /** netip's Overlaps. */
  predicate Overlaps(p: Prefix, q: Prefix)
    requires p.bits <= Width(p.v6) && q.bits <= Width(q.v6)
  {
    if p == q then true
    else if p.v6 != q.v6 then false
    else
      var minBits := Min(p.bits, q.bits);
      minBits == 0 || Mask(p.addr, Width(p.v6) - minBits) == Mask(q.addr, Width(p.v6) - minBits)
  }

  // ---- shifts

  lemma {:induction false} ShrPush(v: nat, h: nat)
    ensures Shr(Push(v, h, 0), h) == v
  {
    if h > 0 {
      ShrPush(v, h - 1);
    }
  }

  lemma {:induction false} ShrShr(v: nat, i: nat, j: nat)
    ensures Shr(v, i + j) == Shr(Shr(v, i), j)
  {
    if i > 0 {
      ShrShr(v / 2, i - 1, j);
    }
  }

  lemma {:induction false} ShrAll(v: nat, n: nat)
    requires v < Pow2(n)
    ensures Shr(v, n) == 0
  {
    if n > 0 {
      ShrAll(v / 2, n - 1);
    }
  }

  lemma SameMask(a: nat, b: nat, h: nat)
    ensures Mask(a, h) == Mask(b, h) <==> Shr(a, h) == Shr(b, h)
  {
    ShrPush(Shr(a, h), h);
    ShrPush(Shr(b, h), h);
  }

  lemma MaskedCovers(p: Prefix, a: Address)
    requires p.bits <= Width(p.v6)
    ensures Covers(Masked(p), a) == Covers(p, a)
  {
    ShrPush(Shr(p.addr, Width(p.v6) - p.bits), Width(p.v6) - p.bits);
  }

  lemma {:induction false} MaskBelow(v: nat, h: nat)
    ensures Mask(v, h) <= v
  {
    if h > 0 {
      MaskBelow(v / 2, h - 1);
      PushZero(Shr(v / 2, h - 1), h - 1);
    }
  }

  lemma {:induction false} PushZero(v: nat, h: nat)
    ensures Push(v, h + 1, 0) == 2 * Push(v, h, 0)
  {
  }

  // ---- prefix overlap is set intersection

  ghost predicate ValidAddress(a: Address) {
    a.value < Pow2(Width(a.v6))
  }

  lemma ShorterContains(p: Prefix, q: Prefix, a: Address)
    requires p.Valid() && q.Valid() && p.v6 == q.v6 && p.bits <= q.bits
    ensures Covers(q, a) ==> Covers(p, a) == (Shr(p.addr, Width(p.v6) - p.bits) == Shr(q.addr, Width(p.v6) - p.bits))
  {
    ShrShr(q.addr, Width(p.v6) - q.bits, q.bits - p.bits);
    ShrShr(a.value, Width(p.v6) - q.bits, q.bits - p.bits);
  }

  ghost predicate ShareAddress(p: Prefix, q: Prefix)
    requires p.Valid() && q.Valid()
  {
    exists a: Address :: ValidAddress(a) && Covers(p, a) && Covers(q, a)
  }

  lemma OverlapsNested(p: Prefix, q: Prefix)
    requires p.Valid() && q.Valid() && p.bits <= q.bits
    ensures Overlaps(p, q) <==> ShareAddress(p, q)
  {
    var a := Address(q.v6, q.addr);
    if p.v6 == q.v6 {
      var h := Width(p.v6) - p.bits;
      SameMask(p.addr, q.addr, h);
      if p.bits == 0 {
        ShrAll(p.addr, h);
        ShrAll(q.addr, h);
      }
      ShorterContains(p, q, a);
      assert Overlaps(p, q) ==> Covers(p, a) && Covers(q, a) && ValidAddress(a);
      forall b: Address | ValidAddress(b) && Covers(p, b) && Covers(q, b) ensures Overlaps(p, q) {
        ShorterContains(p, q, b);
      }
    }
  }

  /** Two prefixes overlap exactly when some address lies in both. */
  lemma OverlapsIffShared(p: Prefix, q: Prefix)
    requires p.Valid() && q.Valid()
    ensures Overlaps(p, q) <==> ShareAddress(p, q)
  {
    if p.bits <= q.bits {
      OverlapsNested(p, q);
    } else {
      OverlapsNested(q, p);
      assert Overlaps(p, q) == Overlaps(q, p);
      assert ShareAddress(p, q) == ShareAddress(q, p);
    }
  }

  // ---- lists

  /** One comma-separated part, trimmed: blank, with a slash, or without one. */
  datatype Part = Blank | Network(prefix: Prefix) | Host(address: Address) | Malformed {
    ghost predicate Valid() {
      match this
      case Network(p) => p.Valid()
      case Host(a) => ValidAddress(a)
      case _ => true
    }
  }

  /** A list as its parts; the text that is blank altogether has one blank part. */
  type Parts = seq<Part>

  const DEFAULT_ALLOWED_IPS: Parts := [Network(Prefix(false, 0, 0))]

  ghost predicate ValidParts(parts: Parts) {
    forall i :: 0 <= i < |parts| ==> parts[i].Valid()
  }

  function Parsed(parts: Parts): Option<seq<Prefix>>
    requires forall i :: 0 <= i < |parts| ==> parts[i].Network? ==> parts[i].prefix.bits <= Width(parts[i].prefix.v6)
  {
    if parts == [] then Some([])
    else
      match Parsed(parts[..|parts| - 1])
      case None => None
      case Some(out) =>
        match parts[|parts| - 1]
        case Blank => Some(out)
        case Network(p) => Some(out + [Masked(p)])
        case Host(a) => Some(out + [Prefix(a.v6, a.value, Width(a.v6))])
        case Malformed => None
  }

  /** A bare address is the prefix of all its bits. */
  lemma HostIsWhole(a: Address)
    ensures Parsed([Host(a)]) == Some([Prefix(a.v6, a.value, if a.v6 then 128 else 32)])
  {
    assert [Host(a)][..0] == [];
    assert Parsed([]) == Some([]) && [] + [Prefix(a.v6, a.value, Width(a.v6))] == [Prefix(a.v6, a.value, Width(a.v6))];
  }

  method ParseAllowedIPs(parts: Parts) returns (r: Option<seq<Prefix>>)
    requires ValidParts(parts)
    ensures r == Parsed(parts)
  {
    var out := [];
    for i := 0 to |parts|
      invariant Parsed(parts[..i]) == Some(out)
    {
      assert parts[..i + 1][..i] == parts[..i];
      match parts[i] {
        case Blank =>
        case Network(p) => out := out + [Masked(p)];
        case Host(a) => out := out + [Prefix(a.v6, a.value, Width(a.v6))];
        case Malformed =>
          MalformedFails(parts, i);
          return None;
      }
    }
    assert parts[..|parts|] == parts;
    r := Some(out);
  }

  lemma {:induction false} MalformedFails(parts: Parts, i: nat)
    requires ValidParts(parts) && i < |parts| && parts[i] == Malformed
    ensures Parsed(parts) == None
  {
    if i < |parts| - 1 {
      MalformedFails(parts[..|parts| - 1], i);
    }
  }

  function OrDefault(parts: Parts): Parts {
    if parts == [Blank] then DEFAULT_ALLOWED_IPS else parts
  }

  ghost predicate ValidList(prefixes: seq<Prefix>) {
    forall i :: 0 <= i < |prefixes| ==> prefixes[i].Valid()
  }

  /** Some prefix of the list covers the address. */
  ghost predicate InList(prefixes: seq<Prefix>, a: Address)
    requires ValidList(prefixes)
  {
    exists i :: 0 <= i < |prefixes| && Covers(prefixes[i], a)
  }

  /** The address is in some part as it was written, host bits and all. */
  ghost predicate Written(parts: Parts, a: Address)
    requires ValidParts(parts)
  {
    exists i :: 0 <= i < |parts| && match parts[i]
                                    case Network(p) => Covers(p, a)
                                    case Host(h) => h == a
                                    case _ => false
  }

  lemma PartCovers(part: Part, a: Address)
    requires part.Valid() && ValidAddress(a)
    ensures part.Network? ==> Masked(part.prefix).Valid() && Covers(Masked(part.prefix), a) == Covers(part.prefix, a)
    ensures part.Host? ==>
              var p := Prefix(part.address.v6, part.address.value, Width(part.address.v6));
              p.Valid() && (Covers(p, a) <==> part.address == a)
  {
    if part.Network? {
      MaskedCovers(part.prefix, a);
      MaskBelow(part.prefix.addr, Width(part.prefix.v6) - part.prefix.bits);
    }
  }

  lemma InListSnoc(out: seq<Prefix>, p: Prefix, a: Address)
    requires ValidList(out) && p.Valid()
    ensures InList(out + [p], a) <==> InList(out, a) || Covers(p, a)
  {
    var longer := out + [p];
    assert longer[|out|] == p && forall i :: 0 <= i < |out| ==> longer[i] == out[i];
    if InList(out, a) {
      var i :| 0 <= i < |out| && Covers(out[i], a);
      assert Covers(longer[i], a);
    }
  }

  /** Masking host bits off changes no coverage: the parsed list covers what was written. */
  lemma {:induction false} ParsedCovers(parts: Parts, a: Address)
    requires ValidParts(parts) && ValidAddress(a)
    ensures Parsed(parts).Some? ==> ValidList(Parsed(parts).value)
    ensures Parsed(parts).Some? ==> (InList(Parsed(parts).value, a) <==> Written(parts, a))
  {
    if parts != [] {
      var front, last := parts[..|parts| - 1], parts[|parts| - 1];
      ParsedCovers(front, a);
      PartCovers(last, a);
      if Parsed(parts).Some? {
        var out := Parsed(front).value;
        WrittenSnoc(front, last, a);
        assert parts == front + [last];
        match last {
          case Blank =>
          case Network(p) => InListSnoc(out, Masked(p), a);
          case Host(h) => InListSnoc(out, Prefix(h.v6, h.value, Width(h.v6)), a);
          case Malformed => assert false;
        }
      }
    }
  }

  lemma WrittenSnoc(front: Parts, last: Part, a: Address)
    requires ValidParts(front) && last.Valid()
    ensures ValidParts(front + [last])
    ensures Written(front + [last], a) <==>
            Written(front, a) || match last
                                 case Network(p) => Covers(p, a)
                                 case Host(h) => h == a
                                 case _ => false
  {
    var parts := front + [last];
    assert parts[|front|] == last && forall i :: 0 <= i < |front| ==> parts[i] == front[i];
  }

  // ---- two lists

  ghost predicate ListsMeet(a: seq<Prefix>, b: seq<Prefix>)
    requires ValidList(a) && ValidList(b)
  {
    exists x: Address :: ValidAddress(x) && InList(a, x) && InList(b, x)
  }

  /** The first pair that shares an address; there is one exactly when the lists do. */
  method Overlap(a: seq<Prefix>, b: seq<Prefix>) returns (pair: Option<(Prefix, Prefix)>)
    requires ValidList(a) && ValidList(b)
    ensures pair.Some? <==> ListsMeet(a, b)
    ensures pair.Some? ==> pair.value.0 in a && pair.value.1 in b && Overlaps(pair.value.0, pair.value.1)
  {
    for i := 0 to |a|
      invariant forall k, l :: 0 <= k < i && 0 <= l < |b| ==> !Overlaps(a[k], b[l])
    {
      for j := 0 to |b|
        invariant forall l :: 0 <= l < j ==> !Overlaps(a[i], b[l])
      {
        if Overlaps(a[i], b[j]) {
          FoundOverlap(a, b, i, j);
          return Some((a[i], b[j]));
        }
      }
    }
    NoOverlap(a, b);
    pair := None;
  }

  lemma FoundOverlap(a: seq<Prefix>, b: seq<Prefix>, i: nat, j: nat)
    requires ValidList(a) && ValidList(b) && i < |a| && j < |b| && Overlaps(a[i], b[j])
    ensures ListsMeet(a, b)
  {
    OverlapsIffShared(a[i], b[j]);
    var x :| ValidAddress(x) && Covers(a[i], x) && Covers(b[j], x);
    assert InList(a, x) && InList(b, x);
  }

  lemma NoOverlap(a: seq<Prefix>, b: seq<Prefix>)
    requires ValidList(a) && ValidList(b)
    requires forall k, l :: 0 <= k < |a| && 0 <= l < |b| ==> !Overlaps(a[k], b[l])
    ensures !ListsMeet(a, b)
  {
    forall x: Address | ValidAddress(x) && InList(a, x) ensures !InList(b, x) {
      var k :| 0 <= k < |a| && Covers(a[k], x);
      forall l | 0 <= l < |b| ensures !Covers(b[l], x) {
        OverlapsIffShared(a[k], b[l]);
      }
    }
  }
}
