/**
  The BCH words of format and version (sections 7.9 and 7.10 of ISO/IEC 18004:2015): the low bits of a word are
  the coefficients of a polynomial over two elements, and a word is its data followed by the remainder of the
  data modulo a generator.
*/
module BchCodes {
  import opened NumberBits

  const G15: bv32 := (1 << 10) | (1 << 8) | (1 << 5) | (1 << 4) | (1 << 2) | (1 << 1) | 1
  const G18: bv32 := (1 << 12) | (1 << 11) | (1 << 10) | (1 << 9) | (1 << 8) | (1 << 5) | (1 << 2) | 1
  const G15_MASK: bv32 := (1 << 14) | (1 << 12) | (1 << 10) | (1 << 4) | (1 << 1)

  // ---- polynomials

  /** Addition of polynomials. */
  function Plus(a: bv32, b: bv32): bv32 {
    a ^ b
  }

  predicate HasBit(d: bv32, bit: bv32) {
    d & bit != 0
  }

  /** The data as the high coefficients of a word. */
  function Raise10(data: bv32): bv32 {
    data << 10
  }

  function Raise12(data: bv32): bv32 {
    data << 12
  }

  function When(on: bool, w: bv32): bv32 {
    if on then w else 0
  }

  function Double(x: bv32): bv32 {
    x << 1
  }

  function Half(x: bv32): (h: bv32)
    ensures x != 0 ==> h < x
  {
    x >> 1
  }

  function ShiftLeft(x: bv32, m: nat): bv32 {
    if m == 0 then x else Double(ShiftLeft(x, m - 1))
  }

  // ---- digits

  function Digits(data: bv32): nat
    decreases data
  {
    if data == 0 then 0 else 1 + Digits(Half(data))
  }

  /** 2 to the k, for words of up to eighteen bits. */
  function Bit(k: nat): bv32 {
    match k
    case 0 => 0x1
    case 1 => 0x2
    case 2 => 0x4
    case 3 => 0x8
    case 4 => 0x10
    case 5 => 0x20
    case 6 => 0x40
    case 7 => 0x80
    case 8 => 0x100
    case 9 => 0x200
    case 10 => 0x400
    case 11 => 0x800
    case 12 => 0x1000
    case 13 => 0x2000
    case 14 => 0x4000
    case 15 => 0x8000
    case 16 => 0x10000
    case 17 => 0x20000
    case _ => 0x40000
  }

  predicate Less(a: bv32, b: bv32) {
    a < b
  }

  predicate Below(d: bv32, k: nat) {
    Less(d, Bit(k))
  }

  lemma BitDoubles(k: nat)
    requires 0 < k <= 18
    ensures Bit(k) == Bit(k - 1) << 1 && Bit(k - 1) <= 0x20000
  {
  }

  lemma HalfLess(d: bv32, b: bv32)
    requires b <= 0x20000
    ensures Less(d >> 1, b) <==> Less(d, b << 1)
  {
  }

  lemma HalfIsShift(d: bv32)
    ensures Half(d) == d >> 1
  {
  }

  lemma HalfBelow(d: bv32, k: nat)
    requires 0 < k <= 18
    ensures Below(Half(d), k - 1) <==> Below(d, k)
  {
    hide Bit, Half, Less;
    BitDoubles(k);
    HalfIsShift(d);
    HalfLess(d, Bit(k - 1));
  }

  lemma ZeroBelow(d: bv32, k: nat)
    requires k <= 18
    ensures Below(0, k) && (Below(d, 0) <==> d == 0)
  {
  }

  lemma {:induction false} DigitsBelow(d: bv32, k: nat)
    requires k <= 18
    ensures Digits(d) <= k <==> Below(d, k)
    decreases k
  {
    hide Below;
    ZeroBelow(d, k);
    if k > 0 && d != 0 {
      DigitsBelow(Half(d), k - 1);
      HalfBelow(d, k);
    }
  }

  method GetBchDigit(data: bv32) returns (digit: nat)
    ensures digit == Digits(data)
  {
    var data := data;
    digit := 0;
    ghost var all := Digits(data);
    while data != 0
      invariant digit + Digits(data) == all
      decreases data
    {
      digit := digit + 1;
      data := Half(data);
    }
  }

  // ---- division

  /** One step of long division. */
  function Clear(d: bv32, bit: bv32, g: bv32): bv32 {
    Plus(d, When(HasBit(d, bit), g))
  }

  /** The remainder of a word of 15 bits. */
  function Remainder15(d: bv32): bv32 {
    var d14 := Clear(d, 0x4000, G15 << 4);
    var d13 := Clear(d14, 0x2000, G15 << 3);
    var d12 := Clear(d13, 0x1000, G15 << 2);
    var d11 := Clear(d12, 0x800, G15 << 1);
    Clear(d11, 0x400, G15)
  }

  /** The remainder of a word of 18 bits. */
  function Remainder18(d: bv32): bv32 {
    var d17 := Clear(d, 0x20000, G18 << 5);
    var d16 := Clear(d17, 0x10000, G18 << 4);
    var d15 := Clear(d16, 0x8000, G18 << 3);
    var d14 := Clear(d15, 0x4000, G18 << 2);
    var d13 := Clear(d14, 0x2000, G18 << 1);
    Clear(d13, 0x1000, G18)
  }

  /** Five bits of data and the remainder that completes them. */
  function Word15(data: bv32): bv32 {
    Plus(Raise10(data), Remainder15(Raise10(data)))
  }

  function Word18(data: bv32): bv32 {
    Plus(Raise12(data), Remainder18(Raise12(data)))
  }

  function Ones(x: bv32, bit: bv32): nat {
    if HasBit(x, bit) then 1 else 0
  }

  // ---- words add like their data

  lemma PlusIsXor(a: bv32, b: bv32)
    ensures Plus(a, b) == a ^ b
  {
  }

  lemma XorBit(a: bv32, b: bv32, bit: bv32)
    requires bit & (bit - 1) == 0
    ensures HasBit(a ^ b, bit) == (HasBit(a, bit) != HasBit(b, bit))
  {
  }

  lemma OneBit(a: bv32, b: bv32, bit: bv32)
    requires bit & (bit - 1) == 0
    ensures HasBit(Plus(a, b), bit) == (HasBit(a, bit) != HasBit(b, bit))
  {
    hide Plus, HasBit;
    PlusIsXor(a, b);
    XorBit(a, b, bit);
  }

  lemma PlusItself(w: bv32)
    ensures Plus(w, w) == 0 && Plus(w, 0) == w && Plus(0, w) == w
  {
  }

  lemma WhenLinear(x: bool, y: bool, w: bv32)
    ensures Plus(When(x, w), When(y, w)) == When(x != y, w)
  {
    hide Plus;
    PlusItself(w);
    PlusItself(0);
  }

  lemma RegroupXor(p: bv32, q: bv32, r: bv32, s: bv32)
    ensures Plus(p ^ q, r ^ s) == Plus(p ^ r, q ^ s)
  {
  }

  lemma Regroup(p: bv32, q: bv32, r: bv32, s: bv32)
    ensures Plus(Plus(p, q), Plus(r, s)) == Plus(Plus(p, r), Plus(q, s))
  {
    hide Plus;
    RegroupXor(p, q, r, s);
    PlusIsXor(p, q);
    PlusIsXor(r, s);
    PlusIsXor(p, r);
    PlusIsXor(q, s);
  }

  lemma ClearLinear(a: bv32, b: bv32, bit: bv32, g: bv32)
    requires bit & (bit - 1) == 0
    ensures Plus(Clear(a, bit, g), Clear(b, bit, g)) == Clear(Plus(a, b), bit, g)
  {
    hide Plus, When, HasBit;
    OneBit(a, b, bit);
    WhenLinear(HasBit(a, bit), HasBit(b, bit), g);
    Regroup(a, When(HasBit(a, bit), g), b, When(HasBit(b, bit), g));
  }

  lemma Remainder15Linear(a: bv32, b: bv32)
    ensures Plus(Remainder15(a), Remainder15(b)) == Remainder15(Plus(a, b))
  {
    hide Clear, Plus;
    ClearLinear(a, b, 0x4000, G15 << 4);
    var a14, b14 := Clear(a, 0x4000, G15 << 4), Clear(b, 0x4000, G15 << 4);
    ClearLinear(a14, b14, 0x2000, G15 << 3);
    var a13, b13 := Clear(a14, 0x2000, G15 << 3), Clear(b14, 0x2000, G15 << 3);
    ClearLinear(a13, b13, 0x1000, G15 << 2);
    var a12, b12 := Clear(a13, 0x1000, G15 << 2), Clear(b13, 0x1000, G15 << 2);
    ClearLinear(a12, b12, 0x800, G15 << 1);
    var a11, b11 := Clear(a12, 0x800, G15 << 1), Clear(b12, 0x800, G15 << 1);
    ClearLinear(a11, b11, 0x400, G15);
  }

  lemma Remainder18Linear(a: bv32, b: bv32)
    ensures Plus(Remainder18(a), Remainder18(b)) == Remainder18(Plus(a, b))
  {
    hide Clear, Plus;
    ClearLinear(a, b, 0x20000, G18 << 5);
    var a17, b17 := Clear(a, 0x20000, G18 << 5), Clear(b, 0x20000, G18 << 5);
    ClearLinear(a17, b17, 0x10000, G18 << 4);
    var a16, b16 := Clear(a17, 0x10000, G18 << 4), Clear(b17, 0x10000, G18 << 4);
    ClearLinear(a16, b16, 0x8000, G18 << 3);
    var a15, b15 := Clear(a16, 0x8000, G18 << 3), Clear(b16, 0x8000, G18 << 3);
    ClearLinear(a15, b15, 0x4000, G18 << 2);
    var a14, b14 := Clear(a15, 0x4000, G18 << 2), Clear(b15, 0x4000, G18 << 2);
    ClearLinear(a14, b14, 0x2000, G18 << 1);
    var a13, b13 := Clear(a14, 0x2000, G18 << 1), Clear(b14, 0x2000, G18 << 1);
    ClearLinear(a13, b13, 0x1000, G18);
  }

  lemma RaiseXor(a: bv32, b: bv32)
    ensures Raise10(a ^ b) == Plus(Raise10(a), Raise10(b)) && Raise12(a ^ b) == Plus(Raise12(a), Raise12(b))
  {
  }

  lemma RaiseLinear(a: bv32, b: bv32)
    ensures Raise10(Plus(a, b)) == Plus(Raise10(a), Raise10(b))
    ensures Raise12(Plus(a, b)) == Plus(Raise12(a), Raise12(b))
  {
    hide Plus, Raise10, Raise12;
    PlusIsXor(a, b);
    RaiseXor(a, b);
  }

  lemma Word15Linear(a: bv32, b: bv32)
    ensures Plus(Word15(a), Word15(b)) == Word15(Plus(a, b))
  {
    hide Remainder15, Plus, Raise10;
    RaiseLinear(a, b);
    Remainder15Linear(Raise10(a), Raise10(b));
    Regroup(Raise10(a), Remainder15(Raise10(a)), Raise10(b), Remainder15(Raise10(b)));
  }

  lemma Word18Linear(a: bv32, b: bv32)
    ensures Plus(Word18(a), Word18(b)) == Word18(Plus(a, b))
  {
    hide Remainder18, Plus, Raise12;
    RaiseLinear(a, b);
    Remainder18Linear(Raise12(a), Raise12(b));
    Regroup(Raise12(a), Remainder18(Raise12(a)), Raise12(b), Remainder18(Raise12(b)));
  }

  // ---- the loops

  lemma Doubles(x: bv32)
    ensures Double(x) == x << 1 && Double(x << 1) == x << 2 && Double(x << 2) == x << 3
    ensures Double(x << 3) == x << 4 && Double(x << 4) == x << 5
  {
  }

  lemma ShiftsAre(x: bv32)
    ensures ShiftLeft(x, 0) == x && ShiftLeft(x, 1) == x << 1 && ShiftLeft(x, 2) == x << 2
    ensures ShiftLeft(x, 3) == x << 3 && ShiftLeft(x, 4) == x << 4 && ShiftLeft(x, 5) == x << 5
  {
    hide Double;
    Doubles(x);
    assert ShiftLeft(x, 1) == Double(ShiftLeft(x, 0));
    assert ShiftLeft(x, 2) == Double(ShiftLeft(x, 1));
    assert ShiftLeft(x, 3) == Double(ShiftLeft(x, 2));
    assert ShiftLeft(x, 4) == Double(ShiftLeft(x, 3));
    assert ShiftLeft(x, 5) == Double(ShiftLeft(x, 4));
  }

  lemma Multiples15()
    ensures Remainder15(G15) == 0 && Remainder15(G15 << 1) == 0 && Remainder15(G15 << 2) == 0
    ensures Remainder15(G15 << 3) == 0 && Remainder15(G15 << 4) == 0
  {
  }

  lemma Shifted15(m: nat)
    requires m <= 4
    ensures Remainder15(ShiftLeft(G15, m)) == 0 && !Below(ShiftLeft(G15, m), 10 + m) && Below(ShiftLeft(G15, m), 11 + m)
  {
    hide Remainder15, ShiftLeft;
    ShiftsAre(G15);
    Multiples15();
  }

  lemma XorLess(d: bv32, g: bv32, low: bv32)
    requires low & (low - 1) == 0 && 0 < low <= 0x20000 && low <= d < low << 1 && low <= g < low << 1
    ensures d ^ g < low
  {
  }

  lemma BitIsBit(k: nat)
    requires k <= 17
    ensures Bit(k) & (Bit(k) - 1) == 0 && 0 < Bit(k) <= 0x20000 && Bit(k + 1) == Bit(k) << 1
  {
  }

  lemma XorBelow(d: bv32, g: bv32, k: nat)
    requires k <= 17 && !Below(d, k) && Below(d, k + 1) && !Below(g, k) && Below(g, k + 1)
    ensures Below(d ^ g, k)
  {
    hide Bit;
    BitIsBit(k);
    XorLess(d, g, Bit(k));
  }

  /** Words with the same highest bit. */
  lemma TopCancels(d: bv32, g: bv32, k: nat)
    requires k <= 17 && !Below(d, k) && Below(d, k + 1) && !Below(g, k) && Below(g, k + 1)
    ensures Below(Plus(d, g), k)
  {
    hide Below, Plus;
    XorBelow(d, g, k);
    PlusIsXor(d, g);
  }

  lemma Multiples18()
    ensures Remainder18(G18) == 0 && Remainder18(G18 << 1) == 0 && Remainder18(G18 << 2) == 0
    ensures Remainder18(G18 << 3) == 0 && Remainder18(G18 << 4) == 0 && Remainder18(G18 << 5) == 0
  {
  }

  lemma Shifted18(m: nat)
    requires m <= 5
    ensures Remainder18(ShiftLeft(G18, m)) == 0 && !Below(ShiftLeft(G18, m), 12 + m) && Below(ShiftLeft(G18, m), 13 + m)
  {
    hide Remainder18, ShiftLeft;
    ShiftsAre(G18);
    Multiples18();
  }

  /** One turn of either loop: the highest bit goes, the remainder stays. */
  lemma Turn15(d: bv32, m: nat)
    requires m <= 4 && Digits(d) == 11 + m
    ensures Digits(Plus(d, ShiftLeft(G15, m))) < Digits(d)
    ensures Remainder15(Plus(d, ShiftLeft(G15, m))) == Remainder15(d)
  {
    hide Remainder15, ShiftLeft, Below, Digits, Plus;
    var g := ShiftLeft(G15, m);
    Shifted15(m);
    DigitsBelow(d, 10 + m);
    DigitsBelow(d, 11 + m);
    DigitsBelow(Plus(d, g), 10 + m);
    TopCancels(d, g, 10 + m);
    Remainder15Linear(d, g);
    PlusItself(Remainder15(d));
  }

  lemma Turn18(d: bv32, m: nat)
    requires m <= 5 && Digits(d) == 13 + m
    ensures Digits(Plus(d, ShiftLeft(G18, m))) < Digits(d)
    ensures Remainder18(Plus(d, ShiftLeft(G18, m))) == Remainder18(d)
  {
    hide Remainder18, ShiftLeft, Below, Digits, Plus;
    var g := ShiftLeft(G18, m);
    Shifted18(m);
    DigitsBelow(d, 12 + m);
    DigitsBelow(d, 13 + m);
    DigitsBelow(Plus(d, g), 12 + m);
    TopCancels(d, g, 12 + m);
    Remainder18Linear(d, g);
    PlusItself(Remainder18(d));
  }

  lemma FormatStarts(data: bv32)
    requires Below(data, 5)
    ensures Below(Raise10(data), 15)
  {
  }

  lemma VersionStarts(data: bv32)
    requires Below(data, 6)
    ensures Below(Raise12(data), 18)
  {
  }

  lemma Reduced15(d: bv32)
    requires Below(d, 10)
    ensures Remainder15(d) == d
  {
  }

  lemma Reduced18(d: bv32)
    requires Below(d, 12)
    ensures Remainder18(d) == d
  {
  }

  lemma GeneratorDigits()
    ensures Digits(G15) == 11 && Digits(G18) == 13
  {
    hide Digits;
    DigitsBelow(G15, 10);
    DigitsBelow(G15, 11);
    DigitsBelow(G18, 12);
    DigitsBelow(G18, 13);
  }

  /** The format word, under the mask that keeps it from being all light. */
  function TypeInfo(data: bv32): bv32 {
    Plus(Word15(data), G15_MASK)
  }

  lemma Joins15(data: bv32, d: bv32)
    requires Below(data, 5) && Below(d, 10)
    ensures (data << 10) | d == Plus(Raise10(data), d)
  {
  }

  lemma Joins18(data: bv32, d: bv32)
    requires Below(data, 6) && Below(d, 12)
    ensures (data << 12) | d == Plus(Raise12(data), d)
  {
  }

  method GetBchTypeInfo(data: bv32) returns (r: bv32)
    requires Below(data, 5)
    ensures r == TypeInfo(data)
  {
    hide Remainder15, ShiftLeft, Below, Digits, Plus, Raise10;
    var d := Raise10(data);
    FormatStarts(data);
    DigitsBelow(d, 15);
    GeneratorDigits();
    var digits := GetBchDigit(d);
    var own := GetBchDigit(G15);
    while digits >= own
      invariant own == 11 && digits == Digits(d) <= 15
      invariant Remainder15(d) == Remainder15(Raise10(data))
      decreases digits
    {
      Turn15(d, digits - own);
      d := Plus(d, ShiftLeft(G15, digits - own));
      digits := GetBchDigit(d);
    }
    DigitsBelow(d, 10);
    Reduced15(d);
    Joins15(data, d);
    r := Plus((data << 10) | d, G15_MASK);
  }

  method GetBchTypeNumber(data: bv32) returns (r: bv32)
    requires Below(data, 6)
    ensures r == Word18(data)
  {
    hide Remainder18, ShiftLeft, Below, Digits, Plus, Raise12;
    var d := Raise12(data);
    VersionStarts(data);
    DigitsBelow(d, 18);
    GeneratorDigits();
    var digits := GetBchDigit(d);
    var own := GetBchDigit(G18);
    while digits >= own
      invariant own == 13 && digits == Digits(d) <= 18
      invariant Remainder18(d) == Remainder18(Raise12(data))
      decreases digits
    {
      Turn18(d, digits - own);
      d := Plus(d, ShiftLeft(G18, digits - own));
      digits := GetBchDigit(d);
    }
    DigitsBelow(d, 12);
    Reduced18(d);
    Joins18(data, d);
    r := (data << 12) | d;
  }

  // ---- remainders are short

  lemma HighestBit(d: bv32, low: bv32)
    requires low & (low - 1) == 0 && 0 < low <= 0x20000 && d < low << 1
    ensures HasBit(d, low) <==> !Less(d, low)
  {
  }

  lemma HasHighestBit(d: bv32, k: nat)
    requires k <= 17 && Below(d, k + 1)
    ensures HasBit(d, Bit(k)) <==> !Below(d, k)
  {
    hide Bit, HasBit;
    BitIsBit(k);
    HighestBit(d, Bit(k));
  }

  lemma ClearLowers(d: bv32, k: nat, g: bv32)
    requires k <= 17 && Below(d, k + 1) && !Below(g, k) && Below(g, k + 1)
    ensures Below(Clear(d, Bit(k), g), k)
  {
    hide Below, Plus, HasBit, Bit;
    HasHighestBit(d, k);
    PlusItself(d);
    if !Below(d, k) {
      TopCancels(d, g, k);
    }
  }

  /** Ten bits are left of fifteen. */
  lemma RemainderIsShort(d: bv32)
    requires Below(d, 15)
    ensures Below(Remainder15(d), 10)
  {
    hide Below, Clear, ShiftLeft;
    ShiftsAre(G15);
    Shifted15(0);
    Shifted15(1);
    Shifted15(2);
    Shifted15(3);
    Shifted15(4);
    var d14 := Clear(d, Bit(14), G15 << 4);
    ClearLowers(d, 14, G15 << 4);
    var d13 := Clear(d14, Bit(13), G15 << 3);
    ClearLowers(d14, 13, G15 << 3);
    var d12 := Clear(d13, Bit(12), G15 << 2);
    ClearLowers(d13, 12, G15 << 2);
    var d11 := Clear(d12, Bit(11), G15 << 1);
    ClearLowers(d12, 11, G15 << 1);
    ClearLowers(d11, 10, G15);
  }

  lemma RemainderIsShort18(d: bv32)
    requires Below(d, 18)
    ensures Below(Remainder18(d), 12)
  {
    hide Below, Clear, ShiftLeft;
    ShiftsAre(G18);
    Shifted18(0);
    Shifted18(1);
    Shifted18(2);
    Shifted18(3);
    Shifted18(4);
    Shifted18(5);
    var d17 := Clear(d, Bit(17), G18 << 5);
    ClearLowers(d, 17, G18 << 5);
    var d16 := Clear(d17, Bit(16), G18 << 4);
    ClearLowers(d17, 16, G18 << 4);
    var d15 := Clear(d16, Bit(15), G18 << 3);
    ClearLowers(d16, 15, G18 << 3);
    var d14 := Clear(d15, Bit(14), G18 << 2);
    ClearLowers(d15, 14, G18 << 2);
    var d13 := Clear(d14, Bit(13), G18 << 1);
    ClearLowers(d14, 13, G18 << 1);
    ClearLowers(d13, 12, G18);
  }

  // ---- what a word is

  lemma OnlyEqualsCancel(a: bv32, b: bv32)
    ensures Plus(a, b) == 0 <==> a == b
  {
    hide Plus;
    Regroup(a, b, 0, b);
    PlusItself(a);
    PlusItself(b);
  }

  lemma SameEnd(front: bv32, a: bv32, b: bv32)
    ensures Plus(front, a) == Plus(front, b) <==> a == b
  {
    hide Plus;
    Regroup(front, a, front, b);
    PlusItself(front);
    PlusItself(Plus(a, b));
    OnlyEqualsCancel(a, b);
    OnlyEqualsCancel(Plus(front, a), Plus(front, b));
  }

  /** Behind given data exactly one remainder makes the word a multiple of the generator. */
  lemma FormatWordIsMultiple(data: bv32, d: bv32)
    requires Below(data, 5) && Below(d, 10)
    ensures Remainder15(Plus(Raise10(data), d)) == 0 <==> Plus(Raise10(data), d) == Word15(data)
  {
    hide Plus, Below, Remainder15, Raise10;
    var r := Remainder15(Raise10(data));
    Remainder15Linear(Raise10(data), d);
    Reduced15(d);
    OnlyEqualsCancel(r, d);
    SameEnd(Raise10(data), d, r);
  }

  lemma VersionWordIsMultiple(data: bv32, d: bv32)
    requires Below(data, 6) && Below(d, 12)
    ensures Remainder18(Plus(Raise12(data), d)) == 0 <==> Plus(Raise12(data), d) == Word18(data)
  {
    hide Plus, Below, Remainder18, Raise12;
    var r := Remainder18(Raise12(data));
    Remainder18Linear(Raise12(data), d);
    Reduced18(d);
    OnlyEqualsCancel(r, d);
    SameEnd(Raise12(data), d, r);
  }

  // ---- distance

  /** How many of the low eighteen bits are set. */
  function Weight(x: bv32): nat {
    Ones(x, 0x1) + Ones(x, 0x2) + Ones(x, 0x4) + Ones(x, 0x8) + Ones(x, 0x10) + Ones(x, 0x20)
    + Ones(x, 0x40) + Ones(x, 0x80) + Ones(x, 0x100) + Ones(x, 0x200) + Ones(x, 0x400) + Ones(x, 0x800)
    + Ones(x, 0x1000) + Ones(x, 0x2000) + Ones(x, 0x4000) + Ones(x, 0x8000) + Ones(x, 0x10000) + Ones(x, 0x20000)
  }

  lemma Weight15From0(a: bv32)
    requires 1 <= a < 16
    ensures Weight(Word15(a)) >= 7
  {
  }

  lemma Weight15From16(a: bv32)
    requires 16 <= a < 32
    ensures Weight(Word15(a)) >= 7
  {
  }

  lemma Weight15(a: bv32)
    requires a != 0 && Below(a, 5)
    ensures Weight(Word15(a)) >= 7
  {
    hide Weight, Word15;
    if a < 16 {
      Weight15From0(a);
    } else {
      Weight15From16(a);
    }
  }

  lemma Weight18From0(a: bv32)
    requires 1 <= a < 16
    ensures Weight(Word18(a)) >= 8
  {
  }

  lemma Weight18From16(a: bv32)
    requires 16 <= a < 32
    ensures Weight(Word18(a)) >= 8
  {
  }

  lemma Weight18From32(a: bv32)
    requires 32 <= a < 48
    ensures Weight(Word18(a)) >= 8
  {
  }

  lemma Weight18From48(a: bv32)
    requires 48 <= a < 64
    ensures Weight(Word18(a)) >= 8
  {
  }

  lemma Weight18(a: bv32)
    requires a != 0 && Below(a, 6)
    ensures Weight(Word18(a)) >= 8
  {
    hide Weight, Word18;
    if a < 16 {
      Weight18From0(a);
    } else if a < 32 {
      Weight18From16(a);
    } else if a < 48 {
      Weight18From32(a);
    } else {
      Weight18From48(a);
    }
  }

  lemma XorStaysBelow(a: bv32, b: bv32, k: nat)
    requires k == 5 || k == 6
    requires Below(a, k) && Below(b, k)
    ensures Below(a ^ b, k)
  {
  }

  lemma DifferentData(a: bv32, b: bv32, k: nat)
    requires k == 5 || k == 6
    requires Below(a, k) && Below(b, k) && a != b
    ensures Plus(a, b) != 0 && Below(Plus(a, b), k)
  {
    hide Plus, Below;
    XorStaysBelow(a, b, k);
    PlusIsXor(a, b);
    Regroup(a, b, 0, b);
    PlusItself(a);
    PlusItself(b);
  }

  lemma MaskCancels(x: bv32, y: bv32)
    ensures Plus(Plus(x, G15_MASK), Plus(y, G15_MASK)) == Plus(x, y)
  {
    hide Plus;
    Regroup(x, G15_MASK, y, G15_MASK);
    PlusItself(G15_MASK);
    PlusItself(Plus(x, y));
  }

  /** Different format words differ in at least seven modules. */
  lemma FormatWordsApart(a: bv32, b: bv32)
    requires a != b && Below(a, 5) && Below(b, 5)
    ensures Weight(Plus(TypeInfo(a), TypeInfo(b))) >= 7
  {
    hide Plus, Word15, Weight, Below;
    DifferentData(a, b, 5);
    MaskCancels(Word15(a), Word15(b));
    Word15Linear(a, b);
    Weight15(Plus(a, b));
  }

  /** Different version words differ in at least eight. */
  lemma VersionWordsApart(a: bv32, b: bv32)
    requires a != b && Below(a, 6) && Below(b, 6)
    ensures Weight(Plus(Word18(a), Word18(b))) >= 8
  {
    hide Plus, Word18, Weight, Below;
    DifferentData(a, b, 6);
    Word18Linear(a, b);
    Weight18(Plus(a, b));
  }

  lemma OnesTriangle(x: bv32, y: bv32, bit: bv32)
    requires bit & (bit - 1) == 0
    ensures Ones(Plus(x, y), bit) <= Ones(x, bit) + Ones(y, bit)
  {
    hide Plus, HasBit;
    OneBit(x, y, bit);
  }

  lemma WeightTriangle(x: bv32, y: bv32)
    ensures Weight(Plus(x, y)) <= Weight(x) + Weight(y)
  {
    hide Ones;
    OnesTriangle(x, y, 0x1);
    OnesTriangle(x, y, 0x2);
    OnesTriangle(x, y, 0x4);
    OnesTriangle(x, y, 0x8);
    OnesTriangle(x, y, 0x10);
    OnesTriangle(x, y, 0x20);
    OnesTriangle(x, y, 0x40);
    OnesTriangle(x, y, 0x80);
    OnesTriangle(x, y, 0x100);
    OnesTriangle(x, y, 0x200);
    OnesTriangle(x, y, 0x400);
    OnesTriangle(x, y, 0x800);
    OnesTriangle(x, y, 0x1000);
    OnesTriangle(x, y, 0x2000);
    OnesTriangle(x, y, 0x4000);
    OnesTriangle(x, y, 0x8000);
    OnesTriangle(x, y, 0x10000);
    OnesTriangle(x, y, 0x20000);
  }

  lemma Between(seen: bv32, x: bv32, y: bv32)
    ensures Weight(Plus(x, y)) <= Weight(Plus(seen, x)) + Weight(Plus(seen, y))
  {
    hide Plus, Weight;
    Regroup(seen, x, seen, y);
    PlusItself(seen);
    PlusItself(Plus(x, y));
    WeightTriangle(Plus(seen, x), Plus(seen, y));
  }

  /** However the modules are seen, at most one format is within three of them. */
  lemma ThreeErrorsAreTold(seen: bv32, a: bv32, b: bv32)
    requires Below(a, 5) && Below(b, 5)
    requires Weight(Plus(seen, TypeInfo(a))) <= 3 && Weight(Plus(seen, TypeInfo(b))) <= 3
    ensures a == b
  {
    hide Plus, TypeInfo, Weight, Below;
    if a != b {
      FormatWordsApart(a, b);
      Between(seen, TypeInfo(a), TypeInfo(b));
    }
  }

  lemma ThreeVersionErrorsAreTold(seen: bv32, a: bv32, b: bv32)
    requires Below(a, 6) && Below(b, 6)
    requires Weight(Plus(seen, Word18(a))) <= 3 && Weight(Plus(seen, Word18(b))) <= 3
    ensures a == b
  {
    hide Plus, Word18, Weight, Below;
    if a != b {
      VersionWordsApart(a, b);
      Between(seen, Word18(a), Word18(b));
    }
  }

  // ---- words as the modules show them

  /** The low n bits, least significant first. */
  function WordBits(w: bv32, n: nat): (bits: seq<bool>)
    ensures |bits| == n
  {
    if n == 0 then [] else [HasBit(w, 1)] + WordBits(Half(w), n - 1)
  }

  function JoinWord(bits: seq<bool>): bv32 {
    if bits == [] then 0 else Plus(When(bits[0], 1), Double(JoinWord(bits[1..])))
  }

  lemma LowestBit(w: bv32)
    ensures Plus(When(HasBit(w, 1), 1), Double(Half(w))) == w
  {
  }

  lemma {:induction false} WordRoundTrip(w: bv32, n: nat)
    requires n <= 18 && Below(w, n)
    ensures JoinWord(WordBits(w, n)) == w
    decreases n
  {
    hide Below, Plus, When, HasBit, Double, Half;
    if n == 0 {
      ZeroBelow(w, 0);
    } else {
      HalfBelow(w, n);
      WordRoundTrip(Half(w), n - 1);
      LowestBit(w);
      assert WordBits(w, n)[1..] == WordBits(Half(w), n - 1);
    }
  }

  /** A number of n bits as a word, and back. */
  function Binary(num: nat, n: nat): bv32 {
    if n == 0 then 0 else Plus(When(num % 2 == 1, 1), Double(Binary(num / 2, n - 1)))
  }

  function Number(w: bv32, n: nat): nat {
    if n == 0 then 0 else (if HasBit(w, 1) then 1 else 0) + 2 * Number(Half(w), n - 1)
  }

  lemma Appended(on: bool, w: bv32)
    requires w <= 0x3ffff
    ensures var x := Plus(When(on, 1), Double(w));
            (HasBit(x, 1) <==> on) && Half(x) == w
  {
  }

  lemma BelowSmall(w: bv32, n: nat)
    requires n <= 17 && Below(w, n)
    ensures w <= 0x3ffff
  {
  }

  lemma {:induction false} NumberRoundTrip(num: nat, n: nat)
    requires n <= 17 && num < Pow2(n)
    ensures Below(Binary(num, n), n) && Number(Binary(num, n), n) == num
  {
    hide Below, Plus, When, HasBit, Double, Half;
    if n == 0 {
      ZeroBelow(0, 0);
    } else {
      var rest := Binary(num / 2, n - 1);
      NumberRoundTrip(num / 2, n - 1);
      BelowSmall(rest, n - 1);
      Appended(num % 2 == 1, rest);
      HalfBelow(Binary(num, n), n);
    }
  }
}
