/**
  The UTF-8 encoder the portal installs for its QR codes (section 3 of RFC 3629), over UTF-16 code
  units, and a strict decoder for it.
*/
module Utf8 {
  import opened Basics

  /** A UTF-16 code unit. */
  type Unit = u: nat | u < 0x10000

  predicate Surrogate(u: nat) {
    0xd800 <= u < 0xe000
  }

  predicate High(u: nat) {
    0xd800 <= u < 0xdc00
  }

  predicate Low(u: nat) {
    0xdc00 <= u < 0xe000
  }

  /** Surrogates come in pairs, high before low. */
  predicate WellFormed(s: seq<Unit>) {
    if s == [] then true
    else if Surrogate(s[0]) then High(s[0]) && |s| >= 2 && Low(s[1]) && WellFormed(s[2..])
    else WellFormed(s[1..])
  }

  // ---- the encoder

  /** The bytes of one unit outside the surrogate range, or of a surrogate and the unit after it. */
  function EncodeUnit(u: Unit, next: Unit): (bytes: seq<Octet>) {
    if u < 0x80 then [u]
    else if u < 0x800 then [0xc0 + u / 64, 0x80 + u % 64]
    else if !Surrogate(u) then [0xe0 + u / 4096, 0x80 + u / 64 % 64, 0x80 + u % 64]
    else
      var c := CodePoint(u, next);
      [0xf0 + c / 262144, 0x80 + c / 4096 % 64, 0x80 + c / 64 % 64, 0x80 + c % 64]
  }

  function CodePoint(u: Unit, next: Unit): (c: nat)
    ensures 0x10000 <= c < 0x110000
  {
    0x10000 + u % 0x400 * 0x400 + next % 0x400
  }

  function Encode(s: seq<Unit>): seq<Octet>
    decreases |s|
  {
    if s == [] then []
    else if Surrogate(s[0]) then
      EncodeUnit(s[0], if |s| >= 2 then s[1] else 0) + Encode(if |s| >= 2 then s[2..] else [])
    else EncodeUnit(s[0], 0) + Encode(s[1..])
  }

  /** What is left from unit i on; a lone surrogate at the end leaves nothing. */
  function From(s: seq<Unit>, i: nat): seq<Unit> {
    if i < |s| then s[i..] else []
  }

  lemma EncodeStep(s: seq<Unit>, i: nat)
    requires i < |s|
    ensures Surrogate(s[i]) ==>
              Encode(From(s, i)) == EncodeUnit(s[i], if i + 1 < |s| then s[i + 1] else 0) + Encode(From(s, i + 2))
    ensures !Surrogate(s[i]) ==> Encode(From(s, i)) == EncodeUnit(s[i], 0) + Encode(From(s, i + 1))
  {
    assert |s[i..]| >= 2 ==> s[i..][2..] == From(s, i + 2);
    assert s[i..][1..] == From(s, i + 1);
  }

  /** One round of the loop: the bytes pushed, and the index moved on. */
  method NextBytes(s: seq<Unit>, i: nat) returns (bytes: seq<Octet>, next: nat)
    requires i < |s|
    ensures i < next && Encode(From(s, i)) == bytes + Encode(From(s, next))
  {
    EncodeStep(s, i);
    if Surrogate(s[i]) {
      bytes := EncodeUnit(s[i], if i + 1 < |s| then s[i + 1] else 0);
      next := i + 2;
    } else {
      bytes := EncodeUnit(s[i], 0);
      next := i + 1;
    }
  }

  lemma Regroup(a: seq<Octet>, b: seq<Octet>, c: seq<Octet>)
    ensures a + (b + c) == (a + b) + c
  {
  }

  method ToUtf8Array(s: seq<Unit>) returns (utf8: seq<Octet>)
    ensures utf8 == Encode(s)
  {
    utf8 := [];
    var i := 0;
    assert From(s, 0) == s;
    while i < |s|
      invariant Encode(s) == utf8 + Encode(From(s, i))
      decreases |s| - i
    {
      var bytes, next := NextBytes(s, i);
      Regroup(utf8, bytes, Encode(From(s, next)));
      utf8, i := utf8 + bytes, next;
    }
  }

  // ---- the decoder

  predicate Continuation(b: nat) {
    0x80 <= b < 0xc0
  }

  /** The payload of a lead or continuation byte. */
  function Payload(b: int, marker: int): int {
    b - marker
  }

  /** The units of the first character and the number of bytes it takes; None for an invalid start. */
  function DecodeFirst(b: seq<Octet>): (r: Option<(seq<Unit>, nat)>)
    ensures r.Some? ==> 1 <= r.value.1 <= |b|
  {
    if |b| >= 1 && b[0] < 0x80 then Some(([Payload(b[0], 0)], 1))
    else if |b| >= 2 && 0xc2 <= b[0] < 0xe0 && Continuation(b[1]) then
      Some(([Payload(b[0], 0xc0) * 64 + Payload(b[1], 0x80)], 2))
    else if |b| >= 3 && 0xe0 <= b[0] < 0xf0 && Continuation(b[1]) && Continuation(b[2]) then
      var c := Payload(b[0], 0xe0) * 4096 + Payload(b[1], 0x80) * 64 + Payload(b[2], 0x80);
      if c < 0x800 || Surrogate(c) then None else Some(([c], 3))
    else if |b| >= 4 && 0xf0 <= b[0] < 0xf8 && Continuation(b[1]) && Continuation(b[2]) && Continuation(b[3]) then
      var c := Payload(b[0], 0xf0) * 262144 + Payload(b[1], 0x80) * 4096 + Payload(b[2], 0x80) * 64
               + Payload(b[3], 0x80);
      if c < 0x10000 || c >= 0x110000 then None
      else Some(([0xd800 + (c - 0x10000) / 0x400, 0xdc00 + (c - 0x10000) % 0x400], 4))
    else None
  }

  function Decode(b: seq<Octet>): Option<seq<Unit>>
    decreases |b|
  {
    if b == [] then Some([])
    else
      match DecodeFirst(b)
      case None => None
      case Some((units, used)) =>
        match Decode(b[used..])
        case None => None
        case Some(rest) => Some(units + rest)
  }

  // ---- round trip

  lemma ThreeBytes(c: nat)
    ensures c == c / 4096 * 4096 + c / 64 % 64 * 64 + c % 64
  {
    assert c / 4096 == c / 64 / 64;
  }

  lemma DecodeOneUnit(u: Unit, rest: seq<Octet>)
    requires !Surrogate(u)
    ensures DecodeFirst(EncodeUnit(u, 0) + rest) == Some(([u], |EncodeUnit(u, 0)|))
  {
    var b := EncodeUnit(u, 0) + rest;
    if u < 0x80 {
      assert b[0] == u;
    } else if u < 0x800 {
      assert b[0] == 0xc0 + u / 64 && b[1] == 0x80 + u % 64;
    } else {
      ThreeBytes(u);
      assert b[0] == 0xe0 + u / 4096 && b[1] == 0x80 + u / 64 % 64 && b[2] == 0x80 + u % 64;
    }
  }

  lemma Digits(c: nat)
    ensures c == c / 262144 * 262144 + c / 4096 % 64 * 4096 + c / 64 % 64 * 64 + c % 64
  {
    assert c / 4096 == c / 64 / 64 && c / 262144 == c / 4096 / 64;
  }

  /** The four bytes of a code point beyond the basic plane. */
  lemma DecodeFour(c: nat, b: seq<Octet>)
    requires 0x10000 <= c < 0x110000 && |b| >= 4
    requires b[0] == 0xf0 + c / 262144 && b[1] == 0x80 + c / 4096 % 64
    requires b[2] == 0x80 + c / 64 % 64 && b[3] == 0x80 + c % 64
    ensures DecodeFirst(b) == Some(([0xd800 + (c - 0x10000) / 0x400, 0xdc00 + (c - 0x10000) % 0x400], 4))
  {
    Digits(c);
  }

  lemma DecodePair(u: Unit, next: Unit, rest: seq<Octet>)
    requires High(u) && Low(next)
    ensures |EncodeUnit(u, next)| == 4
    ensures DecodeFirst(EncodeUnit(u, next) + rest) == Some(([u, next], 4))
  {
    hide DecodeFirst;
    var c := CodePoint(u, next);
    DecodeFour(c, EncodeUnit(u, next) + rest);
    assert (c - 0x10000) / 0x400 == u % 0x400 && (c - 0x10000) % 0x400 == next % 0x400;
  }

  /** Decoding undoes encoding on well-formed text. */
  lemma {:induction false} DecodeEncode(s: seq<Unit>)
    requires WellFormed(s)
    ensures Decode(Encode(s)) == Some(s)
    decreases |s|
  {
    hide EncodeUnit, DecodeFirst;
    if s != [] {
      if Surrogate(s[0]) {
        DecodeEncode(s[2..]);
        DecodePair(s[0], s[1], Encode(s[2..]));
        assert Encode(s) == EncodeUnit(s[0], s[1]) + Encode(s[2..]);
        assert Encode(s)[4..] == Encode(s[2..]);
        assert [s[0], s[1]] + s[2..] == s;
      } else {
        var bytes := EncodeUnit(s[0], 0);
        DecodeEncode(s[1..]);
        DecodeOneUnit(s[0], Encode(s[1..]));
        assert Encode(s)[|bytes|..] == Encode(s[1..]);
        assert [s[0]] + s[1..] == s;
      }
    }
  }

  lemma {:induction false} DecodedIsWellFormed(b: seq<Octet>)
    ensures Decode(b).Some? ==> WellFormed(Decode(b).value)
    decreases |b|
  {
    if b != [] && DecodeFirst(b).Some? {
      var (units, used) := DecodeFirst(b).value;
      DecodedIsWellFormed(b[used..]);
      if Decode(b[used..]).Some? {
        var rest := Decode(b[used..]).value;
        assert (units + rest)[|units|..] == rest;
      }
    }
  }

  /** The exact condition: text survives the round trip if and only if its surrogates are paired. */
  lemma RoundTripIffWellFormed(s: seq<Unit>)
    ensures Decode(Encode(s)) == Some(s) <==> WellFormed(s)
  {
    if WellFormed(s) {
      DecodeEncode(s);
    } else {
      DecodedIsWellFormed(Encode(s));
    }
  }
}
