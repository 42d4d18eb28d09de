/**
  The raster of a GIF image: getLZWRaster, a reader of its packed bits, and the exact inputs whose end
  code that reader finds.
*/
module GifRaster {
  import opened NumberBits
  import opened Basics
  import opened Lzw

  /** The bytes hold the clear code, codes that decode to the pixels, the end code and filling bits. */
  ghost predicate IsRasterOf(raster: seq<nat>, codes: seq<nat>, pixels: seq<nat>, limit: nat) {
    && codes != [] && AllFit(codes, limit)
    && Decode(codes, limit).Some? && Decode(codes, limit).value.out == pixels
    && UnpackLsb(raster) == StreamBits(codes, limit) + FalseBits(PadCount(|StreamBits(codes, limit)|))
  }

  /** The last code, the end code at the same width, and the bits that fill up the last byte. */
  method FinishStream(bitOut: BitOutputStream, code: nat, bitLength: nat)
    requires bitOut.Valid() && code < Pow2(bitLength) && bitLength >= 3
    modifies bitOut
    ensures var bits := old(bitOut.Contents) + LsbBits(code, bitLength) + LsbBits(END, bitLength);
            UnpackLsb(bitOut.bytes) == bits + FalseBits(PadCount(|bits|))
  {
    assert Pow2(3) == 8;
    Pow2Grows(3, bitLength);
    bitOut.Write(code, bitLength);
    bitOut.Write(END, bitLength);
    bitOut.Flush();
  }

  // ---- a reader of the raster

  /** Reads codes at the width the rebuilt table asks for, until the end code. */
  function ReadCodes(d: Decoder, bits: seq<bool>, limit: nat): Option<seq<nat>>
    decreases |bits|
  {
    var width := ReadWidth(|d.table|);
    if |bits| < width then None
    else
      var code := ReadLsb(bits[..width]);
      if code == END then Some(d.out)
      else
        match Step(d, code, limit)
        case None => None
        case Some(d') => ReadCodes(d', bits[width..], limit)
  }

  function ReadRaster(bits: seq<bool>, limit: nat): Option<seq<nat>> {
    if |bits| < 3 || ReadLsb(bits[..3]) != CLEAR then None else ReadCodes(Initial(), bits[3..], limit)
  }

  lemma {:induction false} DecoderTableSize(codes: seq<nat>, limit: nat)
    requires Decode(codes, limit).Some? && limit >= FROZEN
    ensures |Decode(codes, limit).value.table| == DecoderSize(|codes|, limit)
    ensures Decode(codes, limit).value.prev == [] <==> codes == []
  {
    if codes != [] {
      DecoderTableSize(codes[..|codes| - 1], limit);
    }
  }

  lemma {:induction false} ReadsCodes(codes: seq<nat>, tail: seq<bool>, limit: nat)
    requires Decode(codes, limit).Some? && AllFit(codes, limit) && limit >= FROZEN
    ensures ReadCodes(Initial(), CodeBits(codes, limit) + tail, limit) ==
            ReadCodes(Decode(codes, limit).value, tail, limit)
  {
    if codes == [] {
      assert [] + tail == tail;
    } else {
      var k := |codes| - 1;
      var front, code := codes[..k], codes[k];
      var width := ReadWidth(DecoderSize(k, limit));
      DecoderTableSize(front, limit);
      ReadsCodes(front, LsbBits(code, width) + tail, limit);
      Regroup(CodeBits(front, limit), LsbBits(code, width), tail);
      ReadLsbBits(code, width);
      assert (LsbBits(code, width) + tail)[..width] == LsbBits(code, width);
      assert (LsbBits(code, width) + tail)[width..] == tail;
    }
  }

  lemma ReadsEnd(d: Decoder, k: nat, pad: nat, limit: nat)
    requires k > 0 && |d.table| == DecoderSize(k, limit) && limit >= FROZEN
    ensures var bits := LsbBits(END, EndWidth(k, limit)) + FalseBits(pad);
            ReadCodes(d, bits, limit) ==
              if ReadWidth(DecoderSize(k, limit)) == EndWidth(k, limit) || pad > 0 then Some(d.out) else None
  {
    var w, w' := EndWidth(k, limit), ReadWidth(DecoderSize(k, limit));
    assert w' == w || w' == w + 1;
    var bits := LsbBits(END, w) + FalseBits(pad);
    assert Pow2(3) == 8;
    Pow2Grows(3, w);
    if w' == w {
      ReadLsbBits(END, w);
      assert bits[..w] == LsbBits(END, w);
    } else if pad > 0 {
      ExtendLsb(END, w, 1);
      ReadLsbBits(END, w + 1);
      assert bits[..w + 1] == LsbBits(END, w) + FalseBits(1);
    }
  }

  lemma {:induction false} Pow2Grows(m: nat, n: nat)
    requires m <= n
    ensures Pow2(m) <= Pow2(n)
  {
    if m < n {
      Pow2Grows(m, n - 1);
    }
  }

  /** The raster reads back exactly when the end code stands where the reader looks for it. */
  lemma RasterReads(raster: seq<nat>, codes: seq<nat>, pixels: seq<nat>, limit: nat)
    requires limit >= FROZEN && IsRasterOf(raster, codes, pixels, limit)
    ensures ReadRaster(UnpackLsb(raster), limit) == Some(pixels) <==>
            ReadWidth(DecoderSize(|codes|, limit)) == EndWidth(|codes|, limit) || |StreamBits(codes, limit)| % 8 != 0
  {
    var pad := PadCount(|StreamBits(codes, limit)|);
    var end := LsbBits(END, EndWidth(|codes|, limit));
    var tail := end + FalseBits(pad);
    var bits := UnpackLsb(raster);
    Regroup(LsbBits(CLEAR, 3) + CodeBits(codes, limit), end, FalseBits(pad));
    Regroup(LsbBits(CLEAR, 3), CodeBits(codes, limit), tail);
    assert StreamBits(codes, limit) == (LsbBits(CLEAR, 3) + CodeBits(codes, limit)) + end;
    assert bits == LsbBits(CLEAR, 3) + (CodeBits(codes, limit) + tail);
    assert bits[..3] == LsbBits(CLEAR, 3) && bits[3..] == CodeBits(codes, limit) + tail;
    assert Pow2(3) == 8;
    ReadLsbBits(CLEAR, 3);
    DecoderTableSize(codes, limit);
    ReadsCodes(codes, tail, limit);
    ReadsEnd(Decode(codes, limit).value, |codes|, pad, limit);
  }

  // ---- when the end code is lost

  /** The bits k codes take: three codes of 3 bits, eight of 4, sixteen of 5, and so on up to 12. */
  function BitsOfCodes(k: nat): nat {
    if k <= 3 then 3 * k else if k <= 11 then 4 * k - 3 else if k <= 27 then 5 * k - 14
    else if k <= 59 then 6 * k - 41 else if k <= 123 then 7 * k - 100 else if k <= 251 then 8 * k - 223
    else if k <= 507 then 9 * k - 474 else if k <= 1019 then 10 * k - 981 else if k <= 2043 then 11 * k - 2000
    else 12 * k - 4043
  }

  lemma {:induction false} CodeBitsLength(codes: seq<nat>, limit: nat)
    requires limit >= FROZEN
    ensures |CodeBits(codes, limit)| == BitsOfCodes(|codes|)
  {
    if codes != [] {
      CodeBitsLength(codes[..|codes| - 1], limit);
    }
  }

  lemma EndPosition(k: nat, limit: nat)
    requires k > 0 && limit >= FROZEN
    ensures ReadWidth(DecoderSize(k, limit)) == EndWidth(k, limit) || (3 + BitsOfCodes(k) + EndWidth(k, limit)) % 8 != 0
            <==> k != 11
  {
    if ReadWidth(DecoderSize(k, limit)) != EndWidth(k, limit) {
      assert k in {3, 11, 27, 59, 123, 251, 507, 1019, 2043};
    }
  }

  /**
    The decoder's table outgrows its width just before the end code after 3, 11, 27, 59, … codes; only
    after 11 does the end code then fill up the last byte, so that no padding bit makes up for it.
  */
  lemma LostOnlyAfterEleven(codes: seq<nat>, limit: nat)
    requires codes != [] && limit >= FROZEN
    ensures ReadWidth(DecoderSize(|codes|, limit)) == EndWidth(|codes|, limit) || |StreamBits(codes, limit)| % 8 != 0
            <==> |codes| != 11
  {
    hide BitsOfCodes, CodeBits, LsbBits, ReadWidth, DecoderSize;
    CodeBitsLength(codes, limit);
    EndPosition(|codes|, limit);
  }

  lemma Knows(pixels: seq<nat>, s: Str, entries: seq<Str>, codes: seq<nat>, d: Decoder, limit: nat)
    requires Encoding(pixels, |pixels|, s, entries, codes, d, limit)
    ensures s in entries
  {
  }

  /** The code of the pending string and the end code complete the stream. */
  lemma LastCodeOut(pixels: seq<nat>, s: Str, entries: seq<Str>, before: seq<nat>, code: nat, d: Decoder, limit: nat)
    requires Encoding(pixels, |pixels|, s, entries, before, d, limit) && code < |entries| && entries[code] == s
    ensures var codes, width := before + [code], WidthFor(|entries|);
            && Decode(codes, limit).Some? && Decode(codes, limit).value.out == pixels && AllFit(codes, limit)
            && StreamBits(codes, limit) == StartBits(before, limit) + LsbBits(code, width) + LsbBits(END, width)
            && code < Pow2(width) && width >= 3
  {
    hide LsbBits, StartBits, Decode, Step, WidthFor, ReadWidth;
    assert pixels[..|pixels|] == pixels;
    EncodingPut(pixels, |pixels|, s, entries, before, code, d, limit);
    DecodeSnoc(before, code, limit);
    WidthBounds(|entries|);
    CodeFits(entries, code, |before|, limit);
  }

  /**
    getLZWRaster for a minimum code size of 2. The bytes hold the codes of the greedy parse, which decode
    to the pixels whatever size from 0xfff on a decoder freezes its table at, each as wide as that decoder
    expects; a reader gets the pixels back exactly when there are not eleven codes.
  */
  method GetLzwRaster(pixels: seq<nat>, ghost limit: nat) returns (raster: seq<nat>)
    requires pixels != [] && (forall i :: 0 <= i < |pixels| ==> pixels[i] < CLEAR) && limit >= FROZEN
    ensures IsRasterOf(raster, Codes(pixels), pixels, limit)
    ensures ReadRaster(UnpackLsb(raster), limit) == Some(pixels) <==> |Codes(pixels)| != 11
  {
    hide LsbBits, StreamBits, StartBits, Decode, WidthFor, CodesFrom, Encoding, ReadRaster;
    var table, bitOut, s, bitLength, before, d := CompressPixels(pixels, limit);
    assert pixels[..|pixels|] == pixels;
    Knows(pixels, s, table.Entries, before, d, limit);
    table.IndexIsUnique(s);
    var code := table.IndexOf(s);
    LastCodeOut(pixels, s, table.Entries, before, code, d, limit);
    FinishStream(bitOut, code, bitLength);
    raster := bitOut.bytes;
    assert IsRasterOf(raster, before + [code], pixels, limit);
    RasterReadsBackIff(raster, pixels, limit);
  }

  /** The pixels come back from the whole raster, end code included, exactly when there are not eleven codes. */
  lemma RasterReadsBackIff(raster: seq<nat>, pixels: seq<nat>, limit: nat)
    requires pixels != [] && limit >= FROZEN && IsRasterOf(raster, Codes(pixels), pixels, limit)
    ensures ReadRaster(UnpackLsb(raster), limit) == Some(pixels) <==> |Codes(pixels)| != 11
  {
    RasterReads(raster, Codes(pixels), pixels, limit);
    LostOnlyAfterEleven(Codes(pixels), limit);
  }

  // ---- how many pixels eleven codes can cover

  function Triangle(n: nat): nat {
    if n == 0 then 0 else Triangle(n - 1) + n
  }

  /** The (k+1)-th code stands for at most k+1 pixels, since strings grow by one pixel a code. */
  lemma {:induction false} CodesCover(pixels: seq<nat>, pos: nat, s: Str, entries: seq<Str>, k: nat)
    requires pos <= |pixels| && |s| <= k + 1 && forall i :: 0 <= i < |entries| ==> |entries[i]| <= k + 1
    ensures var m := |CodesFrom(pixels, pos, s, entries)|;
            |pixels| - pos + |s| + Triangle(k) <= Triangle(k + m)
    decreases |pixels| - pos
  {
    if pos < |pixels| {
      var c := pixels[pos];
      if s + [c] in entries {
        CodesCover(pixels, pos + 1, s + [c], entries, k);
      } else {
        CodesCover(pixels, pos + 1, [c], Added(entries, s, c), k + 1);
      }
    }
  }

  /** More than 66 pixels take more than eleven codes. */
  lemma ManyPixelsManyCodes(pixels: seq<nat>)
    requires |pixels| > 66
    ensures |Codes(pixels)| > 11
  {
    CodesCover(pixels, 1, [pixels[0]], Initial().table, 0);
    TriangleGrows(|Codes(pixels)|, 11);
    assert Triangle(11) == 66;
  }

  lemma {:induction false} TriangleGrows(m: nat, n: nat)
    ensures m <= n ==> Triangle(m) <= Triangle(n)
  {
    if m < n {
      TriangleGrows(m, n - 1);
    }
  }

  /** Every image of more than 66 pixels reads back; the smallest symbol drawn has 21 x 21 modules. */
  lemma LargeRasterReadsBack(raster: seq<nat>, pixels: seq<nat>, limit: nat)
    requires |pixels| > 66 && limit >= FROZEN && IsRasterOf(raster, Codes(pixels), pixels, limit)
    ensures ReadRaster(UnpackLsb(raster), limit) == Some(pixels)
  {
    ManyPixelsManyCodes(pixels);
    RasterReadsBackIff(raster, pixels, limit);
  }

  // ---- inputs that fail

  /** No two neighbouring pixels occur twice. */
  predicate PairsDiffer(pixels: seq<nat>) {
    forall i, j :: 0 <= i < j < |pixels| - 1 ==> pixels[i] != pixels[j] || pixels[i + 1] != pixels[j + 1]
  }

  /** The strings of two pixels in the dictionary are pairs that went by before `pos`. */
  ghost predicate PairsSeen(pixels: seq<nat>, pos: nat, entries: seq<Str>)
    requires pos <= |pixels|
  {
    forall e :: e in entries && |e| == 2 ==> exists i :: 0 <= i < pos - 1 && e == [pixels[i], pixels[i + 1]]
  }

  /** The pair at pos is new, and seen from then on. */
  lemma NextPair(pixels: seq<nat>, pos: nat, entries: seq<Str>)
    requires 1 <= pos < |pixels| && PairsDiffer(pixels) && PairsSeen(pixels, pos, entries)
    ensures [pixels[pos - 1]] + [pixels[pos]] !in entries
    ensures PairsSeen(pixels, pos + 1, Added(entries, [pixels[pos - 1]], pixels[pos]))
  {
    var s, c := [pixels[pos - 1]], pixels[pos];
    assert s + [c] == [pixels[pos - 1], pixels[pos]];
    forall e | e in Added(entries, s, c) && |e| == 2
      ensures exists i :: 0 <= i < pos && e == [pixels[i], pixels[i + 1]]
    {
      if e !in entries {
        assert e == [pixels[pos - 1], pixels[pos - 1 + 1]];
      }
    }
  }

  lemma {:induction false} OneCodeEach(pixels: seq<nat>, pos: nat, entries: seq<Str>)
    requires 1 <= pos <= |pixels| && PairsDiffer(pixels) && PairsSeen(pixels, pos, entries)
    ensures |CodesFrom(pixels, pos, [pixels[pos - 1]], entries)| == |pixels| - pos + 1
    decreases |pixels| - pos
  {
    hide PairsSeen, PairsDiffer, IndexIn, Added;
    if pos < |pixels| {
      var s, c := [pixels[pos - 1]], pixels[pos];
      NextPair(pixels, pos, entries);
      OneCodeEach(pixels, pos + 1, Added(entries, s, c));
    }
  }

  /** Eleven pixels whose neighbouring pairs all differ: the reader runs out of bits before the end code. */
  lemma EndCodeCanBeLost(raster: seq<nat>, limit: nat)
    ensures var pixels := [0, 1, 0, 2, 0, 3, 1, 2, 1, 3, 2];
            && |Codes(pixels)| == 11
            && (limit >= FROZEN && IsRasterOf(raster, Codes(pixels), pixels, limit) ==>
                  ReadRaster(UnpackLsb(raster), limit) != Some(pixels))
  {
    var pixels: seq<nat> := [0, 1, 0, 2, 0, 3, 1, 2, 1, 3, 2];
    assert PairsSeen(pixels, 1, Initial().table);
    OneCodeEach(pixels, 1, Initial().table);
    if limit >= FROZEN && IsRasterOf(raster, Codes(pixels), pixels, limit) {
      RasterReadsBackIff(raster, pixels, limit);
    }
  }

  // ---- the smallest raster

  lemma OnePixelCodes()
    ensures Codes([0]) == [0]
  {
    var table := Initial().table;
    assert table[0] == [0];
    IndexInIs(table, [0], 0);
  }

  lemma OnePixelBits(limit: nat)
    requires limit >= FROZEN
    ensures StreamBits([0], limit) == [false, false, true, false, false, false, true, false, true]
  {
    assert [0][..0] == [];
    assert CodeBits([], limit) == [];
    ThreeBits();
    assert CodeBits([0], limit) == CodeBits([], limit) + LsbBits(0, 3);
  }

  lemma LowestBit(v: nat, n: nat)
    ensures LsbBits(v, n + 1) == [v % 2 == 1] + LsbBits(v / 2, n)
    ensures LsbBits(v, 0) == []
  {
  }

  lemma ThreeBits()
    ensures LsbBits(CLEAR, 3) == [false, false, true]
    ensures LsbBits(0, 3) == [false, false, false]
    ensures LsbBits(END, 3) == [true, false, true]
  {
    hide LsbBits;
    LowestBit(4, 2);
    LowestBit(5, 2);
    LowestBit(2, 1);
    LowestBit(1, 0);
    ZeroLsb(3);
  }

  lemma EightBits()
    ensures LsbBits(0x44, 8) == [false, false, true, false, false, false, true, false]
    ensures LsbBits(0x01, 8) == [true] + FalseBits(7)
  {
    hide LsbBits;
    LowestBit(0x44, 7);
    LowestBit(0x22, 6);
    LowestBit(0x11, 5);
    LowestBit(0x08, 4);
    LowestBit(0x04, 3);
    LowestBit(0x02, 2);
    LowestBit(0x01, 1);
    LowestBit(0x00, 0);
    LowestBit(0x01, 7);
    ZeroLsb(7);
  }

  /** The image of one black pixel: the bytes 44 01 of every smallest GIF. */
  lemma KnownRaster(limit: nat)
    requires limit >= FROZEN
    ensures IsRasterOf([0x44, 0x01], Codes([0]), [0], limit)
  {
    hide LsbBits, StreamBits;
    OnePixelCodes();
    OnePixelBits(limit);
    OnePixelDecodes(limit);
    EightBits();
    UnpackSnoc([], 0x44);
    UnpackSnoc([0x44], 0x01);
    assert [] + [0x44] == [0x44] && [0x44] + [0x01] == [0x44, 0x01];
  }

  lemma OnePixelDecodes(limit: nat)
    requires limit >= FROZEN
    ensures AllFit([0], limit) && Decode([0], limit).Some? && Decode([0], limit).value.out == [0]
  {
    assert [0][..0] == [] && Decode([], limit) == Some(Initial());
    assert Pow2(3) == 8;
  }
}
