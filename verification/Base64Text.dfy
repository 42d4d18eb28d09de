/**
  The text of the base64 stream character by character, as section 4 of RFC 4648 has it: groups of four letters for
  three bytes, the alphabet, and the padding; and the white space a reader passes over.
*/
module Base64Text {
  import opened Basics
  import opened NumberBits
  import opened Base64

  const CAPITALS := "ABCDEFGHIJKLMNOPQRSTUVWXYZ"
  const SMALL := "abcdefghijklmnopqrstuvwxyz"
  const OTHERS := "0123456789+/"

  /** Letter n of the alphabet. */
  function Letter(n: nat): char
    requires n < 64
  {
    if n < 26 then CAPITALS[n] else if n < 52 then SMALL[n - 26] else OTHERS[n - 52]
  }

  lemma LetterIs(n: nat)
    requires n < 64
    ensures EncodeSextet(n) == Letter(n)
  {
  }

  /** The data characters: two, three or four letters for one, two or three bytes. */
  function StandardData(bytes: seq<Octet>): string {
    if bytes == [] then ""
    else if |bytes| == 1 then [Letter(bytes[0] / 4), Letter(bytes[0] % 4 * 16)]
    else if |bytes| == 2 then
      [Letter(bytes[0] / 4), Letter(bytes[0] % 4 * 16 + bytes[1] / 16), Letter(bytes[1] % 16 * 4)]
    else
      [Letter(bytes[0] / 4), Letter(bytes[0] % 4 * 16 + bytes[1] / 16), Letter(bytes[1] % 16 * 4 + bytes[2] / 64),
       Letter(bytes[2] % 64)] + StandardData(bytes[3..])
  }

  function StandardText(bytes: seq<Octet>): string {
    StandardData(bytes) + if |bytes| % 3 == 1 then "==" else if |bytes| % 3 == 2 then "=" else ""
  }

  // ---- the groups as bits

  /** A byte cut in two, and a letter put together from two cuts. */
  lemma Cut(b: Octet)
    ensures NumBits(b, 8) == NumBits(b / 4, 6) + NumBits(b % 4, 2)
    ensures NumBits(b, 8) == NumBits(b / 16, 4) + NumBits(b % 16, 4)
    ensures NumBits(b, 8) == NumBits(b / 64, 2) + NumBits(b % 64, 6)
  {
    hide NumBits, Pow2;
    Pow2Small();
    NumBitsSplit(b, 2, 6, 4, b / 4, b % 4);
    NumBitsSplit(b, 4, 4, 16, b / 16, b % 16);
    NumBitsSplit(b, 6, 2, 64, b / 64, b % 64);
  }

  lemma Sewn(high: nat, low: nat)
    ensures low < 16 ==> NumBits(high * 16 + low, 6) == NumBits(high, 2) + NumBits(low, 4)
    ensures low < 4 ==> NumBits(high * 4 + low, 6) == NumBits(high, 4) + NumBits(low, 2)
  {
    hide NumBits, Pow2;
    Pow2Small();
    if low < 16 {
      NumBitsSplit(high * 16 + low, 4, 2, 16, high, low);
    }
    if low < 4 {
      NumBitsSplit(high * 4 + low, 2, 4, 4, high, low);
    }
  }

  lemma Regrouped(a: seq<bool>, b: seq<bool>, c: seq<bool>, d: seq<bool>, e: seq<bool>, f: seq<bool>)
    ensures a + (b + c) + (d + e) + f == (a + b) + (c + d) + (e + f)
  {
  }

  lemma ThreeBytes(a: Octet, b: Octet, c: Octet)
    ensures NumBits(a / 4, 6) + NumBits(a % 4 * 16 + b / 16, 6) + NumBits(b % 16 * 4 + c / 64, 6) + NumBits(c % 64, 6)
            == NumBits(a, 8) + NumBits(b, 8) + NumBits(c, 8)
  {
    hide NumBits;
    Cut(a);
    Cut(b);
    Cut(c);
    Sewn(a % 4, b / 16);
    Sewn(b % 16, c / 64);
    Regrouped(NumBits(a / 4, 6), NumBits(a % 4, 2), NumBits(b / 16, 4), NumBits(b % 16, 4), NumBits(c / 64, 2),
              NumBits(c % 64, 6));
  }

  lemma TwoBytes(a: Octet, b: Octet)
    ensures NumBits(a / 4, 6) + NumBits(a % 4 * 16 + b / 16, 6) + NumBits(b % 16 * 4, 6)
            == NumBits(a, 8) + NumBits(b, 8) + FalseBits(2)
  {
    hide NumBits;
    Cut(a);
    Cut(b);
    Sewn(a % 4, b / 16);
    Sewn(b % 16, 0);
    ZeroNumBits(2);
    Regrouped(NumBits(a / 4, 6), NumBits(a % 4, 2), NumBits(b / 16, 4), NumBits(b % 16, 4), FalseBits(2), []);
    assert FalseBits(2) + [] == FalseBits(2);
  }

  lemma OneByte(a: Octet)
    ensures NumBits(a / 4, 6) + NumBits(a % 4 * 16, 6) == NumBits(a, 8) + FalseBits(4)
  {
    hide NumBits;
    Cut(a);
    Sewn(a % 4, 0);
    ZeroNumBits(4);
  }

  // ---- the letters as bits

  lemma DataParts(a: string, b: string)
    ensures IsData(a + b) <==> IsData(a) && IsData(b)
  {
    hide DecodeChar;
    assert forall i :: 0 <= i < |a| ==> a[i] == (a + b)[i];
    assert forall i :: 0 <= i < |b| ==> b[i] == (a + b)[|a| + i];
  }

  lemma {:induction false} CharBitsAppend(a: string, b: string)
    requires IsData(a) && IsData(b)
    ensures IsData(a + b) && CharBits(a + b) == CharBits(a) + CharBits(b)
  {
    hide NumBits, DecodeChar, CharBits;
    DataParts(a, b);
    if b == "" {
      NothingHeld();
      assert a + b == a;
    } else {
      var front, last := b[..|b| - 1], b[|b| - 1];
      assert b == front + [last] && a + b == a + front + [last];
      DataParts(a, front);
      CharBitsAppend(a, front);
      CharBitsSnoc(a + front, last);
      CharBitsSnoc(front, last);
    }
  }

  lemma LetterBits(n: nat)
    requires n < 64
    ensures IsData([Letter(n)]) && CharBits([Letter(n)]) == NumBits(n, 6)
  {
    hide NumBits, DecodeChar, EncodeSextet;
    LetterIs(n);
    AlphabetRoundTrip(n);
    assert [Letter(n)][..0] == "";
  }

  lemma TwoLetters(m: nat, n: nat)
    requires m < 64 && n < 64
    ensures IsData([Letter(m), Letter(n)]) && CharBits([Letter(m), Letter(n)]) == NumBits(m, 6) + NumBits(n, 6)
  {
    hide NumBits, CharBits, IsData, Letter;
    LetterBits(m);
    LetterBits(n);
    CharBitsAppend([Letter(m)], [Letter(n)]);
    assert [Letter(m)] + [Letter(n)] == [Letter(m), Letter(n)];
  }

  lemma ThreeLetters(m: nat, n: nat, o: nat)
    requires m < 64 && n < 64 && o < 64
    ensures var s := [Letter(m), Letter(n), Letter(o)];
            IsData(s) && CharBits(s) == NumBits(m, 6) + NumBits(n, 6) + NumBits(o, 6)
  {
    hide NumBits, CharBits, IsData, Letter;
    TwoLetters(m, n);
    LetterBits(o);
    CharBitsAppend([Letter(m), Letter(n)], [Letter(o)]);
    assert [Letter(m), Letter(n)] + [Letter(o)] == [Letter(m), Letter(n), Letter(o)];
  }

  lemma FourLetters(m: nat, n: nat, o: nat, p: nat)
    requires m < 64 && n < 64 && o < 64 && p < 64
    ensures var s := [Letter(m), Letter(n), Letter(o), Letter(p)];
            IsData(s) && CharBits(s) == NumBits(m, 6) + NumBits(n, 6) + NumBits(o, 6) + NumBits(p, 6)
  {
    hide NumBits, CharBits, IsData, Letter;
    ThreeLetters(m, n, o);
    LetterBits(p);
    CharBitsAppend([Letter(m), Letter(n), Letter(o)], [Letter(p)]);
    assert [Letter(m), Letter(n), Letter(o)] + [Letter(p)] == [Letter(m), Letter(n), Letter(o), Letter(p)];
  }

  lemma OctetsOf(bytes: seq<Octet>)
    ensures |bytes| == 1 ==> OctetBits(bytes) == NumBits(bytes[0], 8)
    ensures |bytes| == 2 ==> OctetBits(bytes) == NumBits(bytes[0], 8) + NumBits(bytes[1], 8)
    ensures |bytes| == 3 ==> OctetBits(bytes) == NumBits(bytes[0], 8) + NumBits(bytes[1], 8) + NumBits(bytes[2], 8)
  {
    hide NumBits;
    if |bytes| == 1 {
      assert bytes[..0] == [];
    } else if |bytes| == 2 {
      assert bytes[..1][..0] == [] && OctetBits(bytes[..1]) == NumBits(bytes[0], 8);
    } else if |bytes| == 3 {
      assert bytes[..2][..1][..0] == [] && OctetBits(bytes[..2][..1]) == NumBits(bytes[0], 8);
      assert OctetBits(bytes[..2]) == OctetBits(bytes[..2][..1]) + NumBits(bytes[1], 8);
    }
  }

  /** Zero bits behind the last byte, in a group that is not whole. */
  function ZeroBits(n: nat): nat {
    if n % 3 == 1 then 4 else if n % 3 == 2 then 2 else 0
  }

  lemma LengthOf(n: nat)
    ensures DataLength(n) == 4 * (n / 3) + (if n % 3 == 0 then 0 else n % 3 + 1)
    ensures 6 * DataLength(n) - 8 * n == ZeroBits(n)
  {
    var q := n / 3;
    if n % 3 == 0 {
      SixFold(4 * q, 5);
    } else if n % 3 == 1 {
      SixFold(4 * q + 2, 1);
    } else {
      SixFold(4 * q + 3, 3);
    }
  }

  lemma DataOfThree(bytes: seq<Octet>)
    requires |bytes| >= 3
    ensures var a, b, c := bytes[0], bytes[1], bytes[2];
            StandardData(bytes) == [Letter(a / 4), Letter(a % 4 * 16 + b / 16), Letter(b % 16 * 4 + c / 64),
                                    Letter(c % 64)] + StandardData(bytes[3..])
  {
    hide Letter;
  }

  lemma {:induction false} StandardHolds(bytes: seq<Octet>)
    ensures IsData(StandardData(bytes)) && |StandardData(bytes)| == DataLength(|bytes|)
    ensures CharBits(StandardData(bytes)) == OctetBits(bytes) + FalseBits(ZeroBits(|bytes|))
    decreases |bytes|
  {
    hide NumBits, CharBits, OctetBits, IsData, Letter, FalseBits, DataLength, StandardData;
    LengthOf(|bytes|);
    if |bytes| == 0 {
      NothingHeld();
    } else if |bytes| < 3 {
      RestHolds(bytes);
    } else {
      StandardHolds(bytes[3..]);
      LengthOf(|bytes[3..]|);
      ThreeMoreHold(bytes);
    }
  }

  /** One or two bytes at the end. */
  lemma RestHolds(bytes: seq<Octet>)
    requires 1 <= |bytes| <= 2
    ensures IsData(StandardData(bytes)) && |StandardData(bytes)| == |bytes| + 1
    ensures CharBits(StandardData(bytes)) == OctetBits(bytes) + FalseBits(ZeroBits(|bytes|))
  {
    hide NumBits, CharBits, OctetBits, IsData, Letter, FalseBits;
    OctetsOf(bytes);
    if |bytes| == 1 {
      TwoLetters(bytes[0] / 4, bytes[0] % 4 * 16);
      OneByte(bytes[0]);
    } else {
      ThreeLetters(bytes[0] / 4, bytes[0] % 4 * 16 + bytes[1] / 16, bytes[1] % 16 * 4);
      TwoBytes(bytes[0], bytes[1]);
    }
  }

  /** Three bytes before the others. */
  lemma ThreeMoreHold(bytes: seq<Octet>)
    requires |bytes| >= 3 && IsData(StandardData(bytes[3..]))
    requires CharBits(StandardData(bytes[3..])) == OctetBits(bytes[3..]) + FalseBits(ZeroBits(|bytes[3..]|))
    ensures IsData(StandardData(bytes)) && |StandardData(bytes)| == 4 + |StandardData(bytes[3..])|
    ensures CharBits(StandardData(bytes)) == OctetBits(bytes) + FalseBits(ZeroBits(|bytes|))
  {
    hide NumBits, CharBits, OctetBits, IsData, Letter, FalseBits, StandardData;
    var a, b, c, rest := bytes[0], bytes[1], bytes[2], bytes[3..];
    var four := [Letter(a / 4), Letter(a % 4 * 16 + b / 16), Letter(b % 16 * 4 + c / 64), Letter(c % 64)];
    FourLetters(a / 4, a % 4 * 16 + b / 16, b % 16 * 4 + c / 64, c % 64);
    ThreeBytes(a, b, c);
    OctetsOf(bytes[..3]);
    DataOfThree(bytes);
    CharBitsAppend(four, StandardData(rest));
    OctetBitsAppend(bytes[..3], rest);
    assert bytes[..3] + rest == bytes;
    assert ZeroBits(|rest|) == ZeroBits(|bytes|);
    Base64.Regroup(OctetBits(bytes[..3]), OctetBits(rest), FalseBits(ZeroBits(|bytes|)));
  }

  lemma NothingHeld()
    ensures StandardData([]) == "" && IsData("") && CharBits("") == OctetBits([]) + FalseBits(0)
  {
  }

  // ---- no other text

  lemma SameLetter(a: char, b: char)
    requires DecodeChar(a).Some? && DecodeChar(a) == DecodeChar(b)
    ensures a == b
  {
  }

  lemma {:induction false} SameChars(a: string, b: string)
    requires IsData(a) && IsData(b) && |a| == |b| && CharBits(a) == CharBits(b)
    ensures a == b
  {
    hide NumBits, DecodeChar, Pow2;
    if a != "" {
      var m, n := DecodeChar(a[|a| - 1]).value, DecodeChar(b[|b| - 1]).value;
      var front, back := CharBits(a[..|a| - 1]), CharBits(b[..|b| - 1]);
      TailsEqual(front, NumBits(m, 6), back, NumBits(n, 6));
      SameChars(a[..|a| - 1], b[..|b| - 1]);
      DataChar(a[|a| - 1]);
      DataChar(b[|b| - 1]);
      Pow2Small();
      SameBits(m, n, 6);
      SameLetter(a[|a| - 1], b[|b| - 1]);
      assert a == a[..|a| - 1] + [a[|a| - 1]] && b == b[..|b| - 1] + [b[|b| - 1]];
    }
  }

  lemma TailsEqual(a: seq<bool>, x: seq<bool>, b: seq<bool>, y: seq<bool>)
    requires |x| == |y| && a + x == b + y
    ensures a == b && x == y
  {
    assert (a + x)[..|a|] == a && (b + y)[..|b|] == b;
    assert (a + x)[|a|..] == x && (b + y)[|b|..] == y;
  }

  lemma EqualsAre()
    ensures Equals(0) == "" && Equals(1) == "=" && Equals(2) == "=="
  {
  }

  /** The text that encodes the bytes is that of the standard, and no other. */
  lemma EncodedIsStandard(text: string, bytes: seq<Octet>)
    ensures IsEncoded(text, bytes) <==> text == StandardText(bytes)
  {
    hide NumBits, CharBits, OctetBits, IsData, StandardData, DataLength, FalseBits;
    var n, data, pad := DataLength(|bytes|), StandardData(bytes), Equals(PadLength(|bytes|));
    StandardHolds(bytes);
    LengthOf(|bytes|);
    EqualsAre();
    assert StandardText(bytes) == data + pad && |pad| == PadLength(|bytes|);
    if IsEncoded(text, bytes) {
      SameChars(text[..n], data);
      assert text == text[..n] + text[n..];
    }
    if text == StandardText(bytes) {
      assert text[..n] == data && text[n..] == pad;
    }
  }

  // ---- white space

  /** One text is the other with one more character at `at`; both readers stand at the same data character. */
  ghost predicate Alike(st: DecodeState, longer: DecodeState, at: nat) {
    && at <= |st.str| && |longer.str| == |st.str| + 1
    && longer.str[..at] == st.str[..at] && longer.str[at + 1..] == st.str[at..]
    && longer.buffer == st.buffer && longer.buflen == st.buflen < 32
    && if st.pos < at then longer.pos == st.pos
       else longer.pos == st.pos + 1 || (st.pos == at && longer.pos == at)
  }

  lemma AlikeFacts(st: DecodeState, longer: DecodeState, at: nat)
    requires Alike(st, longer, at)
    ensures longer.buffer == st.buffer && longer.buflen == st.buflen < 32 && at < |longer.str|
    ensures longer.pos == at ==> Alike(st, longer.(pos := at + 1), at)
    ensures longer.pos != at ==> (st.pos < |st.str| <==> longer.pos < |longer.str|)
    ensures forall buflen: nat :: buflen < 32 ==> Alike(st.(buflen := buflen), longer.(buflen := buflen), at)
  {
  }

  /** Both take the same character. */
  lemma AlikeNext(st: DecodeState, longer: DecodeState, at: nat, buffer: nat, buflen: nat)
    requires Alike(st, longer, at) && longer.pos != at && st.pos < |st.str| && buflen < 32
    ensures longer.pos < |longer.str| && longer.str[longer.pos] == st.str[st.pos]
    ensures Alike(st.(pos := st.pos + 1, buffer := buffer, buflen := buflen),
                  longer.(pos := longer.pos + 1, buffer := buffer, buflen := buflen), at)
  {
    SameCharacter(st, longer, at);
  }

  /** One call, or the first step of one. */
  lemma ReadStep(st: DecodeState)
    requires st.buflen < 8
    ensures st.pos >= |st.str| ==> Read(st) == (if st.buflen == 0 then Eof else Error, st)
    ensures st.pos < |st.str| ==>
              var c, next := st.str[st.pos], st.(pos := st.pos + 1);
              Read(st) == if c == '=' then (Eof, next.(buflen := 0))
                          else if Whitespace(c) then Read(next)
                          else if DecodeChar(c).None? then (Error, next)
                          else Read(Taken(st, c))
  {
    hide Append, Low, Shr, Pow2, DecodeChar, Whitespace;
  }

  lemma ByteAlike(st: DecodeState, longer: DecodeState, at: nat)
    requires Alike(st, longer, at) && st.buflen >= 8
    ensures Read(longer).0 == Read(st).0 && Alike(Read(st).1, Read(longer).1, at)
  {
    hide Low, Shr, Pow2;
  }

  lemma TakenAlike(st: DecodeState, longer: DecodeState, at: nat)
    requires Alike(st, longer, at) && longer.pos != at && st.pos < |st.str| && st.buflen < 8
    ensures longer.pos < |longer.str| && longer.str[longer.pos] == st.str[st.pos]
    ensures var c := st.str[st.pos]; DecodeChar(c).Some? ==> Alike(Taken(st, c), Taken(longer, c), at)
  {
    hide Append, DecodeChar, Alike;
    AlikeFacts(st, longer, at);
    AlikeNext(st, longer, at, st.buffer, st.buflen);
    if DecodeChar(st.str[st.pos]).Some? {
      AlikeNext(st, longer, at, Append(st.buffer, DecodeChar(st.str[st.pos]).value, 6), st.buflen + 6);
    }
  }

  lemma {:induction false} ReadAlike(st: DecodeState, longer: DecodeState, at: nat)
    requires Alike(st, longer, at) && at < |longer.str| && Whitespace(longer.str[at]) && longer.str[at] != '='
    ensures Read(longer).0 == Read(st).0 && Alike(Read(st).1, Read(longer).1, at)
    decreases |longer.str| - longer.pos
  {
    hide Read, DecodeChar, Whitespace, Alike;
    AlikeFacts(st, longer, at);
    if st.buflen >= 8 {
      ByteAlike(st, longer, at);
    } else {
      ReadStep(st);
      ReadStep(longer);
      if longer.pos == at {
        ReadAlike(st, longer.(pos := at + 1), at);
      } else if st.pos < |st.str| {
        var c := st.str[st.pos];
        AlikeNext(st, longer, at, st.buffer, 0);
        AlikeNext(st, longer, at, st.buffer, st.buflen);
        TakenAlike(st, longer, at);
        if c != '=' && Whitespace(c) {
          ReadAlike(st.(pos := st.pos + 1), longer.(pos := longer.pos + 1), at);
        } else if c != '=' && DecodeChar(c).Some? {
          ReadAlike(Taken(st, c), Taken(longer, c), at);
        }
      }
    }
  }

  lemma {:induction false} ReadKeepsText(st: DecodeState)
    requires st.buflen < 32
    ensures Read(st).1.str == st.str
    decreases |st.str| - st.pos
  {
    hide Append, Low, Shr, Pow2, DecodeChar, Whitespace;
    if st.buflen < 8 && st.pos < |st.str| {
      var c := st.str[st.pos];
      if c != '=' && Whitespace(c) {
        ReadKeepsText(st.(pos := st.pos + 1));
      } else if c != '=' && DecodeChar(c).Some? {
        ReadKeepsText(st.(pos := st.pos + 1, buffer := Append(st.buffer, DecodeChar(c).value, 6),
                          buflen := st.buflen + 6));
      }
    }
  }

  lemma SameCharacter(st: DecodeState, longer: DecodeState, at: nat)
    requires Alike(st, longer, at) && longer.pos != at && st.pos < |st.str|
    ensures longer.pos < |longer.str| && longer.str[longer.pos] == st.str[st.pos]
  {
    if st.pos < at {
      assert longer.str[..at][st.pos] == st.str[..at][st.pos];
    } else {
      assert longer.str[at + 1..][st.pos - at] == st.str[at..][st.pos - at];
    }
  }

  /** A space, tab or line end anywhere in a text, encoded or not, changes nothing that is read. */
  lemma {:induction false} SpaceIsPassedOver(front: string, space: char, back: string, i: nat)
    requires space in {' ', '\t', '\n', '\r'}
    ensures Read(ReadTimes(front + [space] + back, i)).0 == Read(ReadTimes(front + back, i)).0
    ensures Alike(ReadTimes(front + back, i), ReadTimes(front + [space] + back, i), |front|)
    ensures ReadTimes(front + [space] + back, i).str == front + [space] + back
  {
    hide Read, Whitespace, Alike;
    SpacesAre(space);
    StartAlike(front, space, back);
    if i > 0 {
      SpaceIsPassedOver(front, space, back, i - 1);
      ReadAlike(ReadTimes(front + back, i - 1), ReadTimes(front + [space] + back, i - 1), |front|);
      ReadKeepsText(ReadTimes(front + [space] + back, i - 1));
    }
    ReadAlike(ReadTimes(front + back, i), ReadTimes(front + [space] + back, i), |front|);
  }

  lemma SpacesAre(space: char)
    requires space in {' ', '\t', '\n', '\r'}
    ensures Whitespace(space) && space != '='
  {
  }

  lemma StartAlike(front: string, space: char, back: string)
    ensures Alike(ReadTimes(front + back, 0), ReadTimes(front + [space] + back, 0), |front|)
    ensures (front + [space] + back)[|front|] == space
  {
    assert (front + [space] + back)[|front| + 1..] == back && (front + back)[|front|..] == back;
  }
}
