/**
  The base64 streams of the QR file (section 4 of RFC 4648). Both keep a 32-bit `_buffer` whose high
  bits are never cleared: only its low `_buflen` bits mean anything.
*/
module Base64 {
  import opened Basics
  import opened NumberBits

  // ---- the alphabet

  function EncodeSextet(n: nat): char
    requires n < 64
  {
    if n < 26 then (0x41 + n) as char
    else if n < 52 then (0x61 + (n - 26)) as char
    else if n < 62 then (0x30 + (n - 52)) as char
    else if n == 62 then '+'
    else '/'
  }

  /** None for a character outside the alphabet, where the library throws. */
  function DecodeChar(ch: char): Option<nat> {
    var c := ch as int;
    if 0x41 <= c <= 0x5a then Some(c - 0x41)
    else if 0x61 <= c <= 0x7a then Some(c - 0x61 + 26)
    else if 0x30 <= c <= 0x39 then Some(c - 0x30 + 52)
    else if c == 0x2b then Some(62)
    else if c == 0x2f then Some(63)
    else None
  }

  /** The characters the decoder skips. */
  predicate Whitespace(ch: char) {
    var c := ch as int;
    || 0x09 <= c <= 0x0d || c == 0x20 || c == 0xa0 || c == 0x1680 || 0x2000 <= c <= 0x200a
    || c == 0x2028 || c == 0x2029 || c == 0x202f || c == 0x205f || c == 0x3000 || c == 0xfeff
  }

  lemma AlphabetRoundTrip(n: nat)
    requires n < 64
    ensures DecodeChar(EncodeSextet(n)) == Some(n)
    ensures EncodeSextet(n) != '=' && !Whitespace(EncodeSextet(n))
  {
  }

  // ---- the text as bits

  predicate IsData(s: string) {
    forall i :: 0 <= i < |s| ==> DecodeChar(s[i]).Some?
  }

  /** Six bits a character. */
  function CharBits(s: string): (bits: seq<bool>)
    requires IsData(s)
    ensures |bits| == 6 * |s|
  {
    if s == [] then []
    else CharBits(s[..|s| - 1]) + NumBits(DecodeChar(s[|s| - 1]).value, 6)
  }

  lemma CharBitsSnoc(s: string, ch: char)
    requires IsData(s) && DecodeChar(ch).Some?
    ensures IsData(s + [ch]) && CharBits(s + [ch]) == CharBits(s) + NumBits(DecodeChar(ch).value, 6)
  {
    assert (s + [ch])[..|s|] == s;
  }

  function Equals(n: nat): string {
    seq(n, _ => '=')
  }

  /** Data characters for n bytes, and '=' characters behind them. */
  function DataLength(n: nat): nat {
    (8 * n + 5) / 6
  }

  function PadLength(n: nat): nat {
    if n % 3 == 0 then 0 else 3 - n % 3
  }

  /** The text begins with the data characters of these bytes, zero bits behind the bytes. */
  ghost predicate HoldsBytes(text: string, bytes: seq<Octet>) {
    var n := DataLength(|bytes|);
    && n <= |text| && IsData(text[..n])
    && CharBits(text[..n]) == OctetBits(bytes) + FalseBits(6 * n - 8 * |bytes|)
  }

  /** The text holds exactly these bytes: data characters, and '=' padding. */
  ghost predicate IsEncoded(text: string, bytes: seq<Octet>) {
    var n := DataLength(|bytes|);
    && |text| == n + PadLength(|bytes|)
    && text[n..] == Equals(PadLength(|bytes|))
    && HoldsBytes(text, bytes)
  }

  lemma QuantaOf(q: nat, r: nat)
    requires r < 3
    ensures (DataLength(3 * q + r) + PadLength(3 * q + r)) % 4 == 0
  {
    hide PadLength;
    Padded(q, r);
    if r == 0 {
      SixFold(4 * q, 5);
    } else if r == 1 {
      SixFold(4 * q + 2, 1);
    } else {
      SixFold(4 * q + 3, 3);
    }
  }

  lemma Padded(q: nat, r: nat)
    requires r < 3
    ensures PadLength(3 * q + r) == if r == 0 then 0 else 3 - r
  {
    assert (3 * q + r) % 3 == r;
  }

  lemma WholeQuanta(n: nat)
    ensures (DataLength(n) + PadLength(n)) % 4 == 0
  {
    hide DataLength, PadLength;
    var q, r := n / 3, n % 3;
    assert n == 3 * q + r;
    QuantaOf(q, r);
  }

  // ---- the encoder

  /** The characters so far and the pending bits make up the bytes written. */
  ghost predicate Pending(base64: string, buffer: nat, buflen: nat, bits: seq<bool>) {
    IsData(base64) && CharBits(base64) + NumBits(buffer, buflen) == bits
  }

  /** `encode((buffer >>> shift) & 0x3f)` */
  function SextetOf(buffer: nat, shift: nat): char {
    EncodeSextet(SixBits(buffer, shift))
  }

  function SixBits(buffer: nat, shift: nat): (n: nat)
    ensures n < 64
  {
    assert Pow2(6) == 64;
    Low(Shr(buffer, shift), 6)
  }

  lemma SextetPut(base64: string, buffer: nat, buflen: nat, bits: seq<bool>)
    requires Pending(base64, buffer, buflen, bits) && buflen >= 6
    ensures Pending(base64 + [SextetOf(buffer, buflen - 6)], buffer, buflen - 6, bits)
  {
    var m := buflen - 6;
    var n := SixBits(buffer, m);
    AlphabetRoundTrip(n);
    CharBitsSnoc(base64, EncodeSextet(n));
    LowBits(Shr(buffer, m), 6, 6);
    ShrBits(buffer, m, 6);
    Regroup(CharBits(base64), NumBits(n, 6), NumBits(buffer, m));
  }

  lemma Regroup(a: seq<bool>, b: seq<bool>, c: seq<bool>)
    ensures a + (b + c) == (a + b) + c
  {
  }

  /** `(buffer << 8) | (n & 0xff)` in 32 bits. */
  function Append(buffer: nat, n: nat, k: nat): nat {
    Low(Push(buffer, k, n), 32)
  }

  lemma Appended(buffer: nat, buflen: nat, n: nat, k: nat)
    requires buflen + k <= 32
    ensures NumBits(Append(buffer, n, k), buflen + k) == NumBits(buffer, buflen) + NumBits(n, k)
  {
    LowBits(Push(buffer, k, n), 32, buflen + k);
    PushBits(buffer, k, n, buflen);
  }

  class EncodeOutputStream {
    var buffer: nat
    var buflen: nat
    var length: nat
    var base64: string
    ghost var Written: seq<Octet>

    ghost predicate Valid()
      reads this
    {
      length == |Written| && buflen < 6 && Pending(base64, buffer, buflen, OctetBits(Written))
    }

    constructor ()
      ensures Valid() && Written == []
    {
      buffer, buflen, length, base64, Written := 0, 0, 0, [], [];
    }

    method WriteByte(n: Octet)
      requires Valid()
      modifies this
      ensures Valid() && Written == old(Written) + [n]
    {
      hide Pending, Append, OctetBits, SextetOf;
      ByteAppended(base64, buffer, buflen, Written, n);
      buffer := Append(buffer, n, 8);
      buflen := buflen + 8;
      length := length + 1;
      Written := Written + [n];
      while buflen >= 6
        invariant buflen <= 13 && length == |Written| && Written == old(Written) + [n]
        invariant Pending(base64, buffer, buflen, OctetBits(Written))
      {
        SextetPut(base64, buffer, buflen, OctetBits(Written));
        base64 := base64 + [SextetOf(buffer, buflen - 6)];
        buflen := buflen - 6;
      }
    }

    method Flush()
      requires Valid()
      modifies this
      ensures Written == old(Written) && IsEncoded(base64, Written)
      ensures |base64| % 4 == 0
    {
      base64 := Flushed(base64, buffer, buflen, length, Written);
      WholeQuanta(length);
      if buflen > 0 {
        buffer := 0;
        buflen := 0;
      }
    }
  }

  lemma ByteAppended(base64: string, buffer: nat, buflen: nat, written: seq<Octet>, n: Octet)
    requires Pending(base64, buffer, buflen, OctetBits(written)) && buflen < 6
    ensures Pending(base64, Append(buffer, n, 8), buflen + 8, OctetBits(written + [n]))
  {
    hide NumBits, CharBits, IsData, Append;
    Appended(buffer, buflen, n, 8);
    OctetBitsSnoc(written, n);
    Regroup(CharBits(base64), NumBits(buffer, buflen), NumBits(n, 8));
  }

  /** The last sextet, filled up with zero bits, and the padding. */
  method Flushed(base64: string, buffer: nat, buflen: nat, length: nat, ghost bytes: seq<Octet>) returns (text: string)
    requires length == |bytes| && buflen < 6 && Pending(base64, buffer, buflen, OctetBits(bytes))
    ensures IsEncoded(text, bytes)
  {
    text := base64;
    if buflen > 0 {
      FlushSextet(base64, buffer, buflen, OctetBits(bytes));
      text := text + [SextetOf(Push(buffer, 6 - buflen, 0), 0)];
    }
    ghost var data := text;
    assert CharBits(data) == OctetBits(bytes) + FalseBits(if buflen > 0 then 6 - buflen else 0);
    if length % 3 != 0 {
      var padlen := 3 - length % 3;
      for i := 0 to padlen
        invariant text == data + Equals(i)
      {
        text := text + ['='];
      }
    }
    Encoded(data, text, bytes);
  }

  lemma FlushSextet(base64: string, buffer: nat, buflen: nat, bits: seq<bool>)
    requires Pending(base64, buffer, buflen, bits) && 0 < buflen < 6
    ensures var text := base64 + [SextetOf(Push(buffer, 6 - buflen, 0), 0)];
            IsData(text) && CharBits(text) == bits + FalseBits(6 - buflen)
  {
    hide NumBits, CharBits, FalseBits, Push, EncodeSextet, DecodeChar, IsData;
    var shifted := Push(buffer, 6 - buflen, 0);
    var n := SixBits(shifted, 0);
    AlphabetRoundTrip(n);
    CharBitsSnoc(base64, EncodeSextet(n));
    LowBits(shifted, 6, 6);
    PushBits(buffer, 6 - buflen, 0, buflen);
    ZeroNumBits(6 - buflen);
    Regroup(CharBits(base64), NumBits(buffer, buflen), FalseBits(6 - buflen));
  }

  lemma Encoded(data: string, text: string, bytes: seq<Octet>)
    requires IsData(data) && text == data + Equals(PadLength(|bytes|))
    requires 8 * |bytes| <= 6 * |data| < 8 * |bytes| + 6
    requires CharBits(data) == OctetBits(bytes) + FalseBits(6 * |data| - 8 * |bytes|)
    ensures IsEncoded(text, bytes)
  {
    assert |data| == DataLength(|bytes|);
    assert text[..|data|] == data && text[|data|..] == Equals(PadLength(|bytes|));
  }

  // ---- the decoder

  /** What a call of read gives: a byte, -1, or an exception. */
  datatype ReadResult = Byte(n: Octet) | Eof | Error

  datatype DecodeState = DecodeState(str: string, pos: nat, buffer: nat, buflen: nat)

  /** One call of read, with the state it leaves. */
  function Read(st: DecodeState): (r: (ReadResult, DecodeState))
    requires st.buflen < 32
    ensures r.1.buflen < 32
    decreases |st.str| - st.pos
  {
    if st.buflen >= 8 then
      assert Pow2(8) == 256;
      (Byte(Low(Shr(st.buffer, st.buflen - 8), 8)), st.(buflen := st.buflen - 8))
    else if st.pos >= |st.str| then
      (if st.buflen == 0 then Eof else Error, st)
    else
      var c := st.str[st.pos];
      var next := st.(pos := st.pos + 1);
      if c == '=' then (Eof, next.(buflen := 0))
      else if Whitespace(c) then Read(next)
      else if DecodeChar(c).None? then (Error, next)
      else Read(next.(buffer := Append(st.buffer, DecodeChar(c).value, 6), buflen := st.buflen + 6))
  }

  class DecodeInputStream {
    var state: DecodeState

    constructor (str: string)
      ensures state == DecodeState(str, 0, 0, 0)
    {
      state := DecodeState(str, 0, 0, 0);
    }

    method ReadByte() returns (r: ReadResult)
      requires state.buflen < 32
      modifies this
      ensures (r, state) == Read(old(state))
    {
      ghost var start := state;
      while state.buflen < 8
        invariant state.buflen < 32 && Read(state) == Read(start)
        decreases |state.str| - state.pos
      {
        if state.pos >= |state.str| {
          return if state.buflen == 0 then Eof else Error;
        }
        var c := state.str[state.pos];
        state := state.(pos := state.pos + 1);
        if c == '=' {
          state := state.(buflen := 0);
          return Eof;
        } else if Whitespace(c) {
          continue;
        }
        match DecodeChar(c) {
          case None => return Error;
          case Some(v) => state := state.(buffer := Append(state.buffer, v, 6), buflen := state.buflen + 6);
        }
      }
      assert Pow2(8) == 256;
      var n := Low(Shr(state.buffer, state.buflen - 8), 8);
      state := state.(buflen := state.buflen - 8);
      r := Byte(n);
    }
  }

  // ---- round trip

  /** After i bytes have been read: what was consumed is those bytes and the pending bits. */
  ghost predicate Reading(st: DecodeState, text: string, bytes: seq<Octet>, i: nat) {
    && HoldsBytes(text, bytes) && st.str == text && i <= |bytes|
    && st.pos <= DataLength(|bytes|) && IsData(text[..st.pos])
    && st.buflen < 14
    && CharBits(text[..st.pos]) == OctetBits(bytes[..i]) + NumBits(st.buffer, st.buflen)
  }

  lemma {:induction false} CharBitsPrefix(s: string, n: nat)
    requires IsData(s) && n <= |s|
    ensures IsData(s[..n]) && CharBits(s)[..6 * n] == CharBits(s[..n])
    decreases |s|
  {
    if n == |s| {
      assert s[..n] == s;
    } else {
      CharBitsPrefix(s[..|s| - 1], n);
      assert s[..|s| - 1][..n] == s[..n];
    }
  }

  lemma {:induction false} OctetBitsAt(bytes: seq<Octet>, i: nat)
    requires i < |bytes|
    ensures OctetBits(bytes)[..8 * i] == OctetBits(bytes[..i])
    ensures OctetBits(bytes)[8 * i..8 * i + 8] == NumBits(bytes[i], 8)
  {
    var front := bytes[..|bytes| - 1];
    if i < |front| {
      OctetBitsAt(front, i);
      assert front[..i] == bytes[..i];
    } else {
      assert front == bytes[..i];
    }
  }

  lemma DataChar(ch: char)
    requires DecodeChar(ch).Some?
    ensures ch != '=' && !Whitespace(ch) && DecodeChar(ch).value < 64
  {
  }

  /** A data character moves six bits into the buffer. */
  lemma TakeChar(st: DecodeState, text: string, bytes: seq<Octet>, i: nat, ch: char)
    requires Reading(st, text, bytes, i) && st.pos < DataLength(|bytes|) && st.buflen < 8
    requires ch == text[st.pos]
    ensures DecodeChar(ch).Some?
    ensures Reading(Taken(st, ch), text, bytes, i)
  {
    hide CharBits, OctetBits, NumBits, DecodeChar, Append, DataLength;
    assert text[..DataLength(|bytes|)][st.pos] == ch;
    assert text[..st.pos + 1] == text[..st.pos] + [ch];
    TakenBits(text[..st.pos], ch, OctetBits(bytes[..i]), st);
  }

  lemma TakenBits(before: string, ch: char, done: seq<bool>, st: DecodeState)
    requires IsData(before) && DecodeChar(ch).Some? && st.buflen < 8
    requires CharBits(before) == done + NumBits(st.buffer, st.buflen)
    ensures IsData(before + [ch])
    ensures CharBits(before + [ch]) == done + NumBits(Taken(st, ch).buffer, Taken(st, ch).buflen)
  {
    var v := DecodeChar(ch).value;
    CharBitsSnoc(before, ch);
    Appended(st.buffer, st.buflen, v, 6);
    Regroup(done, NumBits(st.buffer, st.buflen), NumBits(v, 6));
  }

  /** The first eight pending bits are those of the next byte. */
  lemma NextBits(st: DecodeState, text: string, bytes: seq<Octet>, i: nat, n: nat)
    requires Reading(st, text, bytes, i) && i < |bytes| && 8 <= st.buflen
    requires n == Low(Shr(st.buffer, st.buflen - 8), 8)
    ensures NumBits(st.buffer, st.buflen) == NumBits(n, 8) + NumBits(st.buffer, st.buflen - 8)
    ensures NumBits(n, 8) == NumBits(bytes[i], 8)
  {
    hide CharBits, OctetBits, NumBits, DataLength, Low, Shr, Pow2, IsData;
    var m := st.buflen - 8;
    ShrBits(st.buffer, m, 8);
    LowBits(Shr(st.buffer, m), 8, 8);
    ConsumedBits(text, bytes, st.pos);
    OctetBitsAt(bytes, i);
    PrefixEqual(OctetBits(bytes), ZeroTail(bytes), OctetBits(bytes[..i]), NumBits(n, 8), NumBits(st.buffer, m),
                6 * st.pos);
  }

  /** The zero bits that fill up the last data character. */
  function ZeroTail(bytes: seq<Octet>): seq<bool> {
    FalseBits(6 * DataLength(|bytes|) - 8 * |bytes|)
  }

  lemma ConsumedBits(text: string, bytes: seq<Octet>, pos: nat)
    requires HoldsBytes(text, bytes) && pos <= DataLength(|bytes|)
    ensures IsData(text[..pos]) && (OctetBits(bytes) + ZeroTail(bytes))[..6 * pos] == CharBits(text[..pos])
  {
    hide OctetBits, CharBits, IsData, NumBits, DataLength, FalseBits;
    var data := text[..DataLength(|bytes|)];
    CharBitsPrefix(data, pos);
    assert data[..pos] == text[..pos];
  }

  /** Eight pending bits are the next byte. */
  lemma TakeByte(st: DecodeState, text: string, bytes: seq<Octet>, i: nat)
    requires Reading(st, text, bytes, i) && i < |bytes| && 8 <= st.buflen
    ensures Read(st).0 == Byte(bytes[i])
    ensures Reading(Read(st).1, text, bytes, i + 1) && Read(st).1.buflen < 6
  {
    hide CharBits, OctetBits, NumBits, IsData, DataLength, Low, Shr, Pow2, DecodeChar;
    Pow2Octet();
    var n := Low(Shr(st.buffer, st.buflen - 8), 8);
    NextBits(st, text, bytes, i, n);
    SameBits(n, bytes[i], 8);
    OctetBitsSnoc(bytes[..i], bytes[i]);
    assert bytes[..i + 1] == bytes[..i] + [bytes[i]];
    Regroup(OctetBits(bytes[..i]), NumBits(n, 8), NumBits(st.buffer, st.buflen - 8));
  }

  /** There are data characters left while bytes are: counting bits. */
  lemma CharsLeft(st: DecodeState, text: string, bytes: seq<Octet>, i: nat)
    requires Reading(st, text, bytes, i) && st.buflen < 8
    ensures 6 * st.pos == 8 * i + st.buflen
    ensures i < |bytes| ==> st.pos < DataLength(|bytes|)
    ensures i == |bytes| ==> st.pos == DataLength(|bytes|) || st.buflen >= 6
  {
  }

  /** The state after a data character is taken. */
  function Taken(st: DecodeState, ch: char): (r: DecodeState)
    requires DecodeChar(ch).Some? && st.buflen < 8
    ensures r.buflen < 14
  {
    DecodeState(st.str, st.pos + 1, Append(st.buffer, DecodeChar(ch).value, 6), st.buflen + 6)
  }

  lemma ReadTakes(st: DecodeState, ch: char)
    requires st.buflen < 8 && st.pos < |st.str| && st.str[st.pos] == ch && DecodeChar(ch).Some?
    ensures Read(st) == Read(Taken(st, ch))
  {
    hide Append, Pow2, Low, Shr, DecodeChar, Whitespace;
    DataChar(ch);
  }

  /** read returns the next byte, taking as many characters as it needs. */
  lemma {:induction false} ReadNext(st: DecodeState, text: string, bytes: seq<Octet>, i: nat)
    requires Reading(st, text, bytes, i) && i < |bytes|
    ensures Read(st).0 == Byte(bytes[i])
    ensures Reading(Read(st).1, text, bytes, i + 1) && Read(st).1.buflen < 6
    decreases |text| - st.pos
  {
    if st.buflen >= 8 {
      TakeByte(st, text, bytes, i);
    } else {
      CharsLeft(st, text, bytes, i);
      var ch := text[st.pos];
      TakeChar(st, text, bytes, i, ch);
      ReadTakes(st, ch);
      ReadNext(Taken(st, ch), text, bytes, i);
    }
  }

  /** What the reader says to a text that goes on like this behind the data characters of n bytes. */
  function EndOfData(rest: string, n: nat): ReadResult {
    if rest == "" then if n % 3 == 0 then Eof else Error
    else if rest[0] == '=' then Eof
    else Error
  }

  lemma ReadEnd(st: DecodeState, text: string, bytes: seq<Octet>)
    requires Reading(st, text, bytes, |bytes|) && st.buflen < 6
    requires var rest := text[DataLength(|bytes|)..];
             rest != "" && rest[0] != '=' ==> !Whitespace(rest[0]) && DecodeChar(rest[0]).None?
    ensures Read(st).0 == EndOfData(text[DataLength(|bytes|)..], |bytes|)
  {
    hide CharBits, OctetBits, NumBits, IsData, Read, DataLength, DecodeChar, Whitespace;
    CharsLeft(st, text, bytes, |bytes|);
    BitsLeft(|bytes|, st.pos, st.buflen);
    NothingLeft(st);
  }

  lemma BitsLeft(n: nat, pos: nat, buflen: nat)
    requires 6 * pos == 8 * n + buflen && buflen < 6
    ensures pos == DataLength(n) && (n % 3 == 0 <==> buflen == 0)
  {
    SixFold(pos, 5 - buflen);
    if n % 3 == 0 {
      assert buflen == 6 * (pos - 4 * (n / 3));
    }
    if buflen == 0 {
      assert n == 3 * (pos - n);
    }
  }

  lemma SixFold(pos: nat, rest: nat)
    requires rest < 6
    ensures (6 * pos + rest) / 6 == pos
  {
  }

  /** No data character follows. */
  lemma NothingLeft(st: DecodeState)
    requires st.buflen < 8
    requires st.pos < |st.str| && st.str[st.pos] != '=' ==>
               !Whitespace(st.str[st.pos]) && DecodeChar(st.str[st.pos]).None?
    ensures Read(st).0 == if st.pos < |st.str| then if st.str[st.pos] == '=' then Eof else Error
                          else if st.buflen == 0 then Eof else Error
  {
    hide Append, Pow2, Low, Shr, DecodeChar, Whitespace;
  }

  /** The state after i calls of read. */
  function ReadTimes(text: string, i: nat): (st: DecodeState)
    ensures st.buflen < 32
  {
    if i == 0 then DecodeState(text, 0, 0, 0) else Read(ReadTimes(text, i - 1)).1
  }

  lemma {:induction false} ReadingAfter(text: string, bytes: seq<Octet>, i: nat)
    requires HoldsBytes(text, bytes) && i <= |bytes|
    ensures Reading(ReadTimes(text, i), text, bytes, i) && ReadTimes(text, i).buflen < 6
  {
    if i == 0 {
      assert bytes[..0] == [] && text[..0] == "";
    } else {
      ReadingAfter(text, bytes, i - 1);
      ReadNext(ReadTimes(text, i - 1), text, bytes, i - 1);
    }
  }

  /** The i-th call of read returns byte i, and the call after the last one -1. */
  lemma DecodeReturnsBytes(text: string, bytes: seq<Octet>, i: nat)
    requires IsEncoded(text, bytes) && i <= |bytes|
    ensures Read(ReadTimes(text, i)).0 == if i < |bytes| then Byte(bytes[i]) else Eof
  {
    hide HoldsBytes, Read, ReadTimes, DataLength, DecodeChar, Whitespace;
    DecodeStops(text, bytes, i);
  }

  /**
    Of any text that begins with data characters the reader returns the bytes, and then the end at padding or after
    whole groups of characters, and an error for a group left open or for a character that is none of the alphabet.
  */
  lemma DecodeStops(text: string, bytes: seq<Octet>, i: nat)
    requires HoldsBytes(text, bytes) && i <= |bytes|
    requires var rest := text[DataLength(|bytes|)..];
             rest != "" && rest[0] != '=' ==> !Whitespace(rest[0]) && DecodeChar(rest[0]).None?
    ensures Read(ReadTimes(text, i)).0
            == if i < |bytes| then Byte(bytes[i]) else EndOfData(text[DataLength(|bytes|)..], |bytes|)
  {
    hide Read, ReadTimes, DataLength, DecodeChar, Whitespace, CharBits, OctetBits, NumBits, IsData;
    ReadingAfter(text, bytes, i);
    if i < |bytes| {
      ReadNext(ReadTimes(text, i), text, bytes, i);
    } else {
      ReadEnd(ReadTimes(text, i), text, bytes);
    }
  }

  lemma PrefixEqual(all: seq<bool>, zeros: seq<bool>, done: seq<bool>, next: seq<bool>, rest: seq<bool>, n: nat)
    requires n <= |all| + |zeros| && (all + zeros)[..n] == done + (next + rest)
    requires |done| + |next| <= |all|
    ensures all[|done|..|done| + |next|] == next
  {
    forall k | 0 <= k < |next| ensures all[|done| + k] == next[k] {
      assert (all + zeros)[..n][|done| + k] == next[k];
    }
  }
}
