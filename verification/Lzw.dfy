/**
  The GIF raster compressor (Appendix F of the GIF89a specification): lzwTable, getLZWRaster and the
  decoder that rebuilds the dictionary from the codes alone.
*/
module Lzw {
  import opened NumberBits
  import opened Basics

  /** A dictionary string, as its pixel values. */
  type Str = seq<nat>

  const CLEAR: nat := 4
  const END: nat := 5
  /** The encoder stops adding strings at this table size. */
  const FROZEN: nat := 0xfff

  // ---- the decoder

  /** The dictionary so far, the string of the previous code, and the pixels put out. */
  datatype Decoder = Decoder(table: seq<Str>, prev: Str, out: seq<nat>)

  function Initial(): Decoder {
    Decoder([[0], [1], [2], [3], [CLEAR], [END]], [], [])
  }

  /** One code; a decoder freezes its table at `limit` strings. */
  function Step(d: Decoder, code: nat, limit: nat): Option<Decoder> {
    if code == CLEAR || code == END then None
    else if d.prev == [] then
      if code < CLEAR then Some(Decoder(d.table, [code], d.out + [code])) else None
    else if code < |d.table| && d.table[code] != [] then
      Some(Extend(d, d.table[code], limit))
    else if code == |d.table| && code < limit then
      Some(Extend(d, d.prev + [d.prev[0]], limit))
    else None
  }

  function Extend(d: Decoder, entry: Str, limit: nat): Decoder
    requires d.prev != [] && entry != []
  {
    Decoder(if |d.table| < limit then d.table + [d.prev + [entry[0]]] else d.table, entry, d.out + entry)
  }

  function Decode(codes: seq<nat>, limit: nat): Option<Decoder> {
    if codes == [] then Some(Initial())
    else
      match Decode(codes[..|codes| - 1], limit)
      case None => None
      case Some(d) => Step(d, codes[|codes| - 1], limit)
  }

  /** The width a decoder reads the next code with, from its table size alone. */
  function ReadWidth(tableSize: nat): nat {
    if tableSize < 8 then 3 else if tableSize < 16 then 4 else if tableSize < 32 then 5
    else if tableSize < 64 then 6 else if tableSize < 128 then 7 else if tableSize < 256 then 8
    else if tableSize < 512 then 9 else if tableSize < 1024 then 10 else if tableSize < 2048 then 11 else 12
  }

  /** How many strings a decoder knows after k codes. */
  function DecoderSize(k: nat, limit: nat): nat {
    if k == 0 then 6 else Min(5 + k, limit)
  }

  // ---- encoder and decoder in step

  /**
    The encoder holds the dictionary `entries` and the pending string s after k codes; the decoder is
    one string behind, and the one it lacks is its previous string followed by the first pixel of s.
  */
  ghost predicate InStep(d: Decoder, entries: seq<Str>, s: Str, k: nat, limit: nat) {
    && limit >= FROZEN
    && |entries| == Min(6 + k, FROZEN) && |d.table| == DecoderSize(k, limit)
    && (forall i :: 0 <= i < |d.table| && i < |entries| ==> d.table[i] == entries[i])
    && (forall i :: 0 <= i < |entries| ==> entries[i] != [])
    && entries[CLEAR] == [CLEAR] && entries[END] == [END]
    && (forall i :: 0 <= i < 4 ==> entries[i] == [i])
    && s != [] && s[0] < CLEAR
    && (k == 0 <==> d.prev == [])
    && (k == 0 ==> |s| == 1)
    && (|d.table| < |entries| ==> k > 0 && entries[|d.table|] == d.prev + [s[0]])
  }

  /** The dictionary after the code of s is put out and the pixel c follows. */
  function Added(entries: seq<Str>, s: Str, c: nat): seq<Str> {
    if |entries| < FROZEN then entries + [s + [c]] else entries
  }

  /** The dictionary grows by the pending string with the next pixel, up to 4095 strings, and keeps what it has. */
  lemma AddedIs(entries: seq<Str>, s: Str, c: nat)
    requires |entries| <= 4095
    ensures |Added(entries, s, c)| == Min(|entries| + 1, 4095) && entries <= Added(entries, s, c)
    ensures |entries| < 4095 ==> Added(entries, s, c)[|entries|] == s + [c]
  {
  }

  /** The decoder understands the code of s, puts s out, and stays in step. */
  lemma StepInStep(d: Decoder, entries: seq<Str>, s: Str, code: nat, k: nat, limit: nat)
    requires InStep(d, entries, s, k, limit)
    requires code < |entries| && entries[code] == s
    ensures Step(d, code, limit) == Some(if k == 0 then Decoder(d.table, s, d.out + s) else Extend(d, s, limit))
  {
    if k > 0 && code >= |d.table| {
      assert s == d.prev + [s[0]];
      assert s[0] == d.prev[0];
    }
  }

  lemma InStepNext(d: Decoder, d': Decoder, entries: seq<Str>, s: Str, c: nat, k: nat, limit: nat)
    requires InStep(d, entries, s, k, limit) && c < CLEAR
    requires d' == if k == 0 then Decoder(d.table, s, d.out + s) else Extend(d, s, limit)
    ensures InStep(d', Added(entries, s, c), [c], k + 1, limit)
  {
  }

  // ---- the greedy parse

  /** Where a string stands in the dictionary. */
  function IndexIn(entries: seq<Str>, s: Str): nat {
    if entries == [] then 0
    else if entries[|entries| - 1] == s then |entries| - 1
    else IndexIn(entries[..|entries| - 1], s)
  }

  lemma {:induction false} IndexInIs(entries: seq<Str>, s: Str, i: nat)
    requires i < |entries| && entries[i] == s
    requires forall j :: 0 <= j < |entries| && entries[j] == s ==> j == i
    ensures IndexIn(entries, s) == i
  {
    if i < |entries| - 1 {
      IndexInIs(entries[..|entries| - 1], s, i);
    }
  }

  /** The codes of the pixels from `pos` on, with the string s pending: each the longest string known. */
  function CodesFrom(pixels: seq<nat>, pos: nat, s: Str, entries: seq<Str>): seq<nat>
    requires pos <= |pixels|
    decreases |pixels| - pos
  {
    if pos == |pixels| then [IndexIn(entries, s)]
    else if s + [pixels[pos]] in entries then CodesFrom(pixels, pos + 1, s + [pixels[pos]], entries)
    else [IndexIn(entries, s)] + CodesFrom(pixels, pos + 1, [pixels[pos]], Added(entries, s, pixels[pos]))
  }

  /** The codes between clear code and end code. */
  function Codes(pixels: seq<nat>): seq<nat>
    requires pixels != []
  {
    CodesFrom(pixels, 1, [pixels[0]], Initial().table)
  }

  // ---- the table

  class LzwTable {
    var index: map<Str, nat>
    var size: nat
    /** The strings by index. */
    ghost var Entries: seq<Str>

    ghost predicate Valid()
      reads this
    {
      && size == |Entries|
      && (forall i :: 0 <= i < |Entries| ==> Entries[i] in index && index[Entries[i]] == i)
      && (forall key :: key in index ==> index[key] < |Entries| && Entries[index[key]] == key)
    }

    constructor ()
      ensures Valid() && Entries == []
    {
      index, size, Entries := map[], 0, [];
    }

    predicate Contains(key: Str)
      reads this
    {
      key in index
    }

    function IndexOf(key: Str): (i: nat)
      requires Valid() && Contains(key)
      reads this
      ensures i < |Entries| && Entries[i] == key
    {
      index[key]
    }

    lemma IndexIsUnique(key: Str)
      requires Valid() && Contains(key)
      ensures IndexOf(key) == IndexIn(Entries, key)
    {
      IndexInIs(Entries, key, index[key]);
    }

    /** Adding a string twice is an error, so it is required not to be there. */
    method Add(key: Str)
      requires Valid() && !Contains(key)
      modifies this
      ensures Valid() && Entries == old(Entries) + [key]
    {
      index := index[key := size];
      size := size + 1;
      Entries := Entries + [key];
    }
  }

  method NewTable() returns (table: LzwTable)
    ensures fresh(table) && table.Valid() && table.Entries == Initial().table
  {
    table := new LzwTable();
    for i := 0 to CLEAR
      invariant fresh(table) && table.Valid() && |table.Entries| == i
      invariant forall j :: 0 <= j < i ==> table.Entries[j] == [j]
    {
      table.Add([i]);
    }
    table.Add([CLEAR]);
    table.Add([END]);
  }

  // ---- the compressor

  /** The code width of the encoder: the least that holds every index of its table. */
  function WidthFor(size: nat): nat
    requires size > 0
  {
    ReadWidth(size - 1)
  }

  lemma WidthBounds(size: nat)
    requires 6 <= size <= FROZEN
    ensures size <= Pow2(WidthFor(size)) && 3 <= WidthFor(size) <= 12
    ensures size < FROZEN ==> WidthFor(size + 1) == WidthFor(size) + (if size == Pow2(WidthFor(size)) then 1 else 0)
  {
    assert Pow2(3) == 8 && Pow2(4) == 16 && Pow2(5) == 32 && Pow2(6) == 64 && Pow2(7) == 128;
    assert Pow2(8) == 256 && Pow2(9) == 512 && Pow2(10) == 1024 && Pow2(11) == 2048 && Pow2(12) == 4096;
  }

  /** Encoder and decoder agree on the width of every code before the end code. */
  lemma SameWidth(k: nat, limit: nat)
    requires limit >= FROZEN
    ensures WidthFor(Min(6 + k, FROZEN)) == ReadWidth(DecoderSize(k, limit))
  {
  }

  // ---- bits, least significant first

  function LsbBits(v: nat, length: nat): (bits: seq<bool>)
    ensures |bits| == length
  {
    if length == 0 then [] else [v % 2 == 1] + LsbBits(v / 2, length - 1)
  }

  function ReadLsb(bits: seq<bool>): nat {
    if bits == [] then 0 else (if bits[0] then 1 else 0) + 2 * ReadLsb(bits[1..])
  }

  lemma {:induction false} ReadLsbBits(v: nat, length: nat)
    requires v < Pow2(length)
    ensures ReadLsb(LsbBits(v, length)) == v
  {
    if length > 0 {
      ReadLsbBits(v / 2, length - 1);
    }
  }

  /** `(data << k) | pending`, for a pending value of k bits. */
  function Combine(pending: nat, k: nat, data: nat): nat {
    if k == 0 then data else pending % 2 + 2 * Combine(pending / 2, k - 1, data)
  }

  lemma {:induction false} ShrBound(v: nat, k: nat, n: nat)
    requires v < Pow2(k + n)
    ensures Shr(v, k) < Pow2(n)
  {
    if k > 0 {
      ShrBound(v / 2, k - 1, n);
    }
  }

  lemma {:induction false} CombineBound(pending: nat, k: nat, data: nat, n: nat)
    requires data < Pow2(n)
    ensures Combine(pending, k, data) < Pow2(k + n)
  {
    if k > 0 {
      CombineBound(pending / 2, k - 1, data, n);
    }
  }

  lemma {:induction false} LowLsb(v: nat, k: nat)
    ensures LsbBits(Low(v, k), k) == LsbBits(v, k)
  {
    if k > 0 {
      LowLsb(v / 2, k - 1);
    }
  }

  lemma {:induction false} SplitBits(v: nat, k: nat, n: nat)
    ensures LsbBits(v, k + n) == LsbBits(v, k) + LsbBits(Shr(v, k), n)
  {
    if k > 0 {
      SplitBits(v / 2, k - 1, n);
    }
  }

  lemma {:induction false} CombineBits(pending: nat, k: nat, data: nat, n: nat)
    ensures LsbBits(Combine(pending, k, data), k + n) == LsbBits(pending, k) + LsbBits(data, n)
  {
    if k > 0 {
      CombineBits(pending / 2, k - 1, data, n);
    }
  }

  lemma {:induction false} ZeroLsb(length: nat)
    ensures LsbBits(0, length) == FalseBits(length)
  {
    if length > 0 {
      ZeroLsb(length - 1);
    }
  }

  lemma {:induction false} ExtendLsb(v: nat, length: nat, n: nat)
    requires v < Pow2(length)
    ensures LsbBits(v, length) + FalseBits(n) == LsbBits(v, length + n)
  {
    if length == 0 {
      ZeroLsb(n);
    } else {
      ExtendLsb(v / 2, length - 1, n);
      assert LsbBits(v, length) + FalseBits(n) == [v % 2 == 1] + (LsbBits(v / 2, length - 1) + FalseBits(n));
    }
  }

  function UnpackLsb(bytes: seq<nat>): (bits: seq<bool>)
    ensures |bits| == 8 * |bytes|
  {
    if bytes == [] then [] else UnpackLsb(bytes[..|bytes| - 1]) + LsbBits(bytes[|bytes| - 1], 8)
  }

  // ---- the bit stream

  /** What is written: whole bytes, and the bits that do not fill a byte yet. */
  ghost predicate Holds(bytes: seq<nat>, bitBuffer: nat, bitLength: nat, bits: seq<bool>) {
    && bitLength < 8 && bitBuffer < Pow2(bitLength)
    && UnpackLsb(bytes) + LsbBits(bitBuffer, bitLength) == bits
  }

  lemma UnpackSnoc(bytes: seq<nat>, byte: nat)
    ensures UnpackLsb(bytes + [byte]) == UnpackLsb(bytes) + LsbBits(byte, 8)
  {
    assert (bytes + [byte])[..|bytes|] == bytes;
  }

  /** One round of the loop: a byte out, and what is left of the data. */
  lemma ByteOut(bytes: seq<nat>, bitBuffer: nat, bitLength: nat, rest: nat, left: nat, l: nat, byte: nat)
    requires bitLength + l == 8 && l <= left && rest < Pow2(left)
    requires byte == Low(Combine(bitBuffer, bitLength, rest), 8)
    ensures Shr(rest, l) < Pow2(left - l)
    ensures UnpackLsb(bytes + [byte]) + LsbBits(Shr(rest, l), left - l)
            == UnpackLsb(bytes) + (LsbBits(bitBuffer, bitLength) + LsbBits(rest, left))
  {
    ShrBound(rest, l, left - l);
    LowLsb(Combine(bitBuffer, bitLength, rest), 8);
    CombineBits(bitBuffer, bitLength, rest, l);
    SplitBits(rest, l, left - l);
    UnpackSnoc(bytes, byte);
    Regroup(LsbBits(bitBuffer, bitLength), LsbBits(rest, l), LsbBits(Shr(rest, l), left - l));
    Regroup(UnpackLsb(bytes), LsbBits(byte, 8), LsbBits(Shr(rest, l), left - l));
  }

  lemma Regroup(a: seq<bool>, b: seq<bool>, c: seq<bool>)
    ensures (a + b) + c == a + (b + c)
  {
  }

  lemma PadCountAt(q: nat, r: nat)
    requires r < 8
    ensures PadCount(8 * q + r) == if r == 0 then 0 else 8 - r
  {
  }

  lemma NoFill(bits: seq<bool>)
    ensures bits + FalseBits(0) == bits
  {
  }

  /** The last, incomplete byte is filled up with zero bits. */
  lemma FlushedBits(bytes: seq<nat>, bitBuffer: nat, bitLength: nat, bits: seq<bool>)
    requires Holds(bytes, bitBuffer, bitLength, bits)
    ensures bitLength == 0 ==> UnpackLsb(bytes) == bits + FalseBits(PadCount(|bits|))
    ensures bitLength > 0 ==> UnpackLsb(bytes + [bitBuffer]) == bits + FalseBits(PadCount(|bits|))
  {
    hide LsbBits, Pow2, PadCount, FalseBits;
    PadCountAt(|bytes|, bitLength);
    NoFill(bits);
    NoFill(UnpackLsb(bytes));
    if bitLength > 0 {
      UnpackSnoc(bytes, bitBuffer);
      ExtendLsb(bitBuffer, bitLength, 8 - bitLength);
      Regroup(UnpackLsb(bytes), LsbBits(bitBuffer, bitLength), FalseBits(8 - bitLength));
    }
  }

  class BitOutputStream {
    var bytes: seq<nat>
    var bitLength: nat
    var bitBuffer: nat
    ghost var Contents: seq<bool>

    ghost predicate Valid()
      reads this
    {
      Holds(bytes, bitBuffer, bitLength, Contents)
    }

    constructor ()
      ensures Valid() && Contents == []
    {
      bytes, bitLength, bitBuffer, Contents := [], 0, 0, [];
    }

    /** Data wider than `length` is an error, so it is required to fit. */
    method Write(data: nat, length: nat)
      requires Valid() && data < Pow2(length)
      modifies this
      ensures Valid() && Contents == old(Contents) + LsbBits(data, length)
    {
      bytes, bitLength, bitBuffer := Written(bytes, bitLength, bitBuffer, data, length, Contents);
      Contents := Contents + LsbBits(data, length);
    }

    method Flush()
      requires Valid()
      modifies `bytes
      ensures UnpackLsb(bytes) == Contents + FalseBits(PadCount(|Contents|))
    {
      FlushedBits(bytes, bitBuffer, bitLength, Contents);
      if bitLength > 0 {
        bytes := bytes + [bitBuffer];
      }
    }
  }

  method Written(startBytes: seq<nat>, startLength: nat, startBuffer: nat, data: nat, length: nat,
                 ghost bits: seq<bool>)
    returns (bytes: seq<nat>, bitLength: nat, bitBuffer: nat)
    requires Holds(startBytes, startBuffer, startLength, bits) && data < Pow2(length)
    ensures Holds(bytes, bitBuffer, bitLength, bits + LsbBits(data, length))
  {
    hide LsbBits, UnpackLsb, Combine, Low, Shr, Pow2;
    bytes, bitLength, bitBuffer := startBytes, startLength, startBuffer;
    var rest: nat, left: nat := data, length;
    ghost var all := bits + LsbBits(data, length);
    Regroup(UnpackLsb(bytes), LsbBits(bitBuffer, bitLength), LsbBits(data, length));
    while bitLength + left >= 8
      invariant bitLength < 8 && bitBuffer < Pow2(bitLength) && rest < Pow2(left)
      invariant UnpackLsb(bytes) + (LsbBits(bitBuffer, bitLength) + LsbBits(rest, left)) == all
      decreases left + bitLength
    {
      var l := 8 - bitLength;
      var byte := Low(Combine(bitBuffer, bitLength, rest), 8);
      ByteOut(bytes, bitBuffer, bitLength, rest, left, l, byte);
      bytes := bytes + [byte];
      left, rest := left - l, Shr(rest, l);
      bitBuffer, bitLength := 0, 0;
    }
    CombineBits(bitBuffer, bitLength, rest, left);
    CombineBound(bitBuffer, bitLength, rest, left);
    bitBuffer := Combine(bitBuffer, bitLength, rest);
    bitLength := bitLength + left;
  }

  // ---- the compressor

  /** The bits of the codes, each as wide as a decoder expects it. */
  function CodeBits(codes: seq<nat>, limit: nat): seq<bool> {
    if codes == [] then []
    else
      var k := |codes| - 1;
      CodeBits(codes[..k], limit) + LsbBits(codes[k], ReadWidth(DecoderSize(k, limit)))
  }

  ghost predicate AllFit(codes: seq<nat>, limit: nat) {
    forall k :: 0 <= k < |codes| ==> codes[k] < Pow2(ReadWidth(DecoderSize(k, limit)))
  }

  /** The width the end code is written with: that of the code before it. */
  function EndWidth(k: nat, limit: nat): nat
    requires k > 0
  {
    ReadWidth(DecoderSize(k - 1, limit))
  }

  /** Clear code and codes. */
  function StartBits(codes: seq<nat>, limit: nat): seq<bool> {
    LsbBits(CLEAR, 3) + CodeBits(codes, limit)
  }

  /** Clear code, codes, end code. */
  function StreamBits(codes: seq<nat>, limit: nat): seq<bool>
    requires codes != []
  {
    StartBits(codes, limit) + LsbBits(END, EndWidth(|codes|, limit))
  }

  /** How many bits fill up the last byte. */
  function PadCount(used: nat): (pad: nat)
    ensures pad > 0 <==> used % 8 != 0
  {
    (8 - used % 8) % 8
  }

  /** Where the compressor stands: the codes put out decode to the pixels before the pending string. */
  ghost predicate Encoding(pixels: seq<nat>, pos: nat, s: Str, entries: seq<Str>, codes: seq<nat>, d: Decoder,
                           limit: nat) {
    && pos <= |pixels|
    && Decode(codes, limit) == Some(d)
    && InStep(d, entries, s, |codes|, limit)
    && d.out + s == pixels[..pos]
    && s in entries
    && AllFit(codes, limit)
  }

  lemma EncodingStart(pixels: seq<nat>, limit: nat)
    requires pixels != [] && pixels[0] < CLEAR && limit >= FROZEN
    ensures Encoding(pixels, 1, [pixels[0]], Initial().table, [], Initial(), limit)
    ensures WidthFor(|Initial().table|) == 3 && StartBits([], limit) == LsbBits(CLEAR, 3)
  {
    assert Initial().table[pixels[0]] == [pixels[0]];
  }

  /** The pending string grows by a pixel when the dictionary holds the longer one. */
  lemma EncodingGrow(pixels: seq<nat>, pos: nat, s: Str, entries: seq<Str>, codes: seq<nat>, d: Decoder, limit: nat)
    requires Encoding(pixels, pos, s, entries, codes, d, limit) && pos < |pixels|
    requires s + [pixels[pos]] in entries
    ensures Encoding(pixels, pos + 1, s + [pixels[pos]], entries, codes, d, limit)
  {
    assert pixels[..pos + 1] == pixels[..pos] + [pixels[pos]];
    assert codes == [] ==> d == Initial() && entries == d.table;
  }

  ghost function After(d: Decoder, s: Str, k: nat, limit: nat): Decoder
    requires s != [] && (k > 0 ==> d.prev != [])
  {
    if k == 0 then Decoder(d.table, s, d.out + s) else Extend(d, s, limit)
  }

  lemma CodeFits(entries: seq<Str>, code: nat, k: nat, limit: nat)
    requires |entries| == Min(6 + k, FROZEN) && code < |entries| && limit >= FROZEN
    ensures code < Pow2(WidthFor(|entries|)) && WidthFor(|entries|) == ReadWidth(DecoderSize(k, limit))
  {
    WidthBounds(|entries|);
    SameWidth(k, limit);
  }

  lemma DecodeSnoc(codes: seq<nat>, code: nat, limit: nat)
    ensures Decode(codes + [code], limit) ==
            match Decode(codes, limit) case None => None case Some(d) => Step(d, code, limit)
    ensures StartBits(codes + [code], limit) ==
            StartBits(codes, limit) + LsbBits(code, ReadWidth(DecoderSize(|codes|, limit)))
  {
    assert (codes + [code])[..|codes|] == codes;
    Regroup(LsbBits(CLEAR, 3), CodeBits(codes, limit), LsbBits(code, ReadWidth(DecoderSize(|codes|, limit))));
  }

  /** The code of the pending string goes out and the decoder puts the string out. */
  lemma EncodingPut(pixels: seq<nat>, pos: nat, s: Str, entries: seq<Str>, codes: seq<nat>, code: nat, d: Decoder,
                    limit: nat)
    requires Encoding(pixels, pos, s, entries, codes, d, limit) && code < |entries| && entries[code] == s
    ensures Decode(codes + [code], limit) == Some(After(d, s, |codes|, limit))
    ensures After(d, s, |codes|, limit).out == pixels[..pos] && AllFit(codes + [code], limit)
  {
    hide StartBits, LsbBits, Step, WidthFor, ReadWidth;
    StepInStep(d, entries, s, code, |codes|, limit);
    DecodeSnoc(codes, code, limit);
    CodeFits(entries, code, |codes|, limit);
  }

  lemma EncodingNext(pixels: seq<nat>, pos: nat, s: Str, entries: seq<Str>, codes: seq<nat>, code: nat, d: Decoder,
                     limit: nat)
    requires Encoding(pixels, pos, s, entries, codes, d, limit) && pos < |pixels| && pixels[pos] < CLEAR
    requires code < |entries| && entries[code] == s
    ensures Encoding(pixels, pos + 1, [pixels[pos]], Added(entries, s, pixels[pos]), codes + [code],
                     After(d, s, |codes|, limit), limit)
  {
    hide StartBits, LsbBits, Step, Extend, WidthFor, ReadWidth, AllFit;
    EncodingPut(pixels, pos, s, entries, codes, code, d, limit);
    InStepNext(d, After(d, s, |codes|, limit), entries, s, pixels[pos], |codes|, limit);
    assert entries[pixels[pos]] == [pixels[pos]] by {
      SingleEntries(d, entries, s, |codes|, limit);
    }
    assert pixels[..pos + 1] == pixels[..pos] + [pixels[pos]];
    assert Added(entries, s, pixels[pos])[pixels[pos]] == [pixels[pos]];
  }

  lemma SingleEntries(d: Decoder, entries: seq<Str>, s: Str, k: nat, limit: nat)
    requires InStep(d, entries, s, k, limit)
    ensures forall i :: 0 <= i < 4 ==> entries[i] == [i]
  {
  }

  /** Puts one code out and, unless the table is frozen, widens the code and adds the string. */
  method PutCode(table: LzwTable, bitOut: BitOutputStream, s: Str, c: nat,
                 startLength: nat) returns (bitLength: nat, ghost code: nat)
    requires table.Valid() && bitOut.Valid() && table.Contains(s) && !table.Contains(s + [c])
    requires 6 <= |table.Entries| <= FROZEN && startLength == WidthFor(|table.Entries|)
    modifies table, bitOut
    ensures table.Valid() && bitOut.Valid()
    ensures code < |old(table.Entries)| && old(table.Entries)[code] == s
    ensures code == IndexIn(old(table.Entries), s)
    ensures bitOut.Contents == old(bitOut.Contents) + LsbBits(code, startLength)
    ensures table.Entries == Added(old(table.Entries), s, c)
    ensures bitLength == WidthFor(|table.Entries|)
  {
    WidthBounds(|table.Entries|);
    table.IndexIsUnique(s);
    bitLength := startLength;
    code := table.IndexOf(s);
    bitOut.Write(table.IndexOf(s), bitLength);
    if table.size < FROZEN {
      if table.size == Pow2(bitLength) {
        bitLength := bitLength + 1;
      }
      table.Add(s + [c]);
    }
  }

  /** The branch of the loop that ends the pending string. */
  method EndString(table: LzwTable, bitOut: BitOutputStream, s: Str, startLength: nat, pixels: seq<nat>, pos: nat,
                   ghost codes: seq<nat>, ghost d: Decoder, ghost limit: nat)
    returns (bitLength: nat, ghost codes': seq<nat>, ghost d': Decoder)
    requires table.Valid() && bitOut.Valid() && pos < |pixels| && pixels[pos] < CLEAR
    requires Encoding(pixels, pos, s, table.Entries, codes, d, limit) && !table.Contains(s + [pixels[pos]])
    requires |table.Entries| > 0 && startLength == WidthFor(|table.Entries|)
    requires bitOut.Contents == StartBits(codes, limit)
    modifies table, bitOut
    ensures table.Valid() && bitOut.Valid()
    ensures Encoding(pixels, pos + 1, [pixels[pos]], table.Entries, codes', d', limit)
    ensures |table.Entries| > 0 && bitLength == WidthFor(|table.Entries|)
    ensures bitOut.Contents == StartBits(codes', limit)
    ensures codes' == codes + [IndexIn(old(table.Entries), s)]
    ensures table.Entries == Added(old(table.Entries), s, pixels[pos])
  {
    ghost var entries, code := table.Entries, 0;
    bitLength, code := PutCode(table, bitOut, s, pixels[pos], startLength);
    EncodingNext(pixels, pos, s, entries, codes, code, d, limit);
    SameWidth(|codes|, limit);
    DecodeSnoc(codes, code, limit);
    codes', d' := codes + [code], After(d, s, |codes|, limit);
  }

  lemma InEntries(table: LzwTable, key: Str)
    requires table.Valid()
    ensures table.Contains(key) <==> key in table.Entries
  {
  }

  /** The codes put out so far and those to come are the codes of the pixels. */
  ghost predicate Parsing(pixels: seq<nat>, pos: nat, s: Str, entries: seq<Str>, codes: seq<nat>) {
    pixels != [] && pos <= |pixels| && codes + CodesFrom(pixels, pos, s, entries) == Codes(pixels)
  }

  lemma ParsingStarts(pixels: seq<nat>)
    requires pixels != []
    ensures Parsing(pixels, 1, [pixels[0]], Initial().table, [])
  {
  }

  lemma ParsingStep(pixels: seq<nat>, pos: nat, s: Str, entries: seq<Str>, codes: seq<nat>)
    requires Parsing(pixels, pos, s, entries, codes) && pos < |pixels|
    ensures var c := pixels[pos];
            if s + [c] in entries then Parsing(pixels, pos + 1, s + [c], entries, codes)
            else Parsing(pixels, pos + 1, [c], Added(entries, s, c), codes + [IndexIn(entries, s)])
  {
    var rest := CodesFrom(pixels, pos + 1, [pixels[pos]], Added(entries, s, pixels[pos]));
    assert codes + ([IndexIn(entries, s)] + rest) == (codes + [IndexIn(entries, s)]) + rest;
  }

  lemma ParsingEnds(pixels: seq<nat>, s: Str, entries: seq<Str>, codes: seq<nat>)
    requires Parsing(pixels, |pixels|, s, entries, codes)
    ensures codes + [IndexIn(entries, s)] == Codes(pixels)
  {
  }

  /** The loop of getLZWRaster: afterwards the string of the last code is still pending. */
  method CompressPixels(pixels: seq<nat>, ghost limit: nat)
    returns (table: LzwTable, bitOut: BitOutputStream, s: Str, bitLength: nat, ghost codes: seq<nat>, ghost d: Decoder)
    requires pixels != [] && (forall i :: 0 <= i < |pixels| ==> pixels[i] < CLEAR) && limit >= FROZEN
    ensures fresh(bitOut) && table.Valid() && bitOut.Valid()
    ensures Encoding(pixels, |pixels|, s, table.Entries, codes, d, limit)
    ensures |table.Entries| > 0 && bitLength == WidthFor(|table.Entries|)
    ensures bitOut.Contents == StartBits(codes, limit)
    ensures codes + [IndexIn(table.Entries, s)] == Codes(pixels)
  {
    hide Encoding, LsbBits, StartBits, WidthFor, IndexIn, Parsing;
    bitLength := 3;
    table := NewTable();
    bitOut := new BitOutputStream();
    bitOut.Write(CLEAR, bitLength);
    var dataIndex := 0;
    s := [pixels[dataIndex]];
    dataIndex := dataIndex + 1;
    d, codes := Initial(), [];
    EncodingStart(pixels, limit);
    ParsingStarts(pixels);
    while dataIndex < |pixels|
      invariant dataIndex <= |pixels| && fresh(table) && fresh(bitOut) && table.Valid() && bitOut.Valid()
      invariant Encoding(pixels, dataIndex, s, table.Entries, codes, d, limit)
      invariant |table.Entries| > 0 && bitLength == WidthFor(|table.Entries|)
      invariant bitOut.Contents == StartBits(codes, limit)
      invariant Parsing(pixels, dataIndex, s, table.Entries, codes)
    {
      var c := pixels[dataIndex];
      ParsingStep(pixels, dataIndex, s, table.Entries, codes);
      InEntries(table, s + [c]);
      if table.Contains(s + [c]) {
        EncodingGrow(pixels, dataIndex, s, table.Entries, codes, d, limit);
        s := s + [c];
      } else {
        bitLength, codes, d := EndString(table, bitOut, s, bitLength, pixels, dataIndex, codes, d, limit);
        s := [c];
      }
      dataIndex := dataIndex + 1;
    }
    ParsingEnds(pixels, s, table.Entries, codes);
  }
}
