/**
  The encoder from end to end: createData, make, and a reader that starts from the finished symbol and
  arrives at the text.
*/
module QrCode {
  import opened Gf256
  import opened CodeDistance
  import opened ReedSolomon
  import opened CodewordBlocks
  import opened Bits
  import opened SymbolPath
  import opened QrPatterns
  import opened QrData
  import opened QrFigures
  import opened QrFormat
  import opened QrModules
  import opened QrStream
  import opened QrTables
  import opened QrWords
  import Symbols = QrSymbol
  import opened Basics
  import opened NumberBits
  import Utf8

  // ---- bytes as numbers and as field elements

  function ToField(bytes: seq<Octet>): seq<bv8> {
    seq(|bytes|, i requires 0 <= i < |bytes| => JoinByte(NumBits(bytes[i], 8)))
  }

  function FromField(bytes: seq<bv8>): seq<Octet> {
    seq(|bytes|, i requires 0 <= i < |bytes| => ReadOctet(ByteBits(bytes[i])))
  }

  lemma FieldRoundTrip(bytes: seq<Octet>)
    ensures FromField(ToField(bytes)) == bytes
  {
    hide JoinByte, ByteBits, NumBits, ReadOctet;
    forall i | 0 <= i < |bytes| ensures FromField(ToField(bytes))[i] == bytes[i] {
      BitsJoined(NumBits(bytes[i], 8));
      OctetRoundTrip(bytes[i]);
    }
  }

  function Concat(rows: seq<seq<bv8>>): seq<bv8> {
    if rows == [] then [] else Concat(rows[..|rows| - 1]) + rows[|rows| - 1]
  }

  /** The data bytes of the first r blocks are the buffer up to where block r starts. */
  lemma {:induction false} BlocksConcat(buffer: seq<bv8>, blocks: seq<RsBlock>, dcs: seq<seq<bv8>>, r: nat)
    requires |dcs| == |blocks| && r <= |blocks|
    requires forall q :: 0 <= q < |blocks| ==> dcs[q] == BlockData(buffer, blocks, q)
    requires Sum(DataCounts(blocks)[..r]) <= |buffer|
    ensures Concat(dcs[..r]) == buffer[..Sum(DataCounts(blocks)[..r])]
  {
    if r > 0 {
      PrefixStep(DataCounts(blocks), r - 1);
      BlocksConcat(buffer, blocks, dcs, r - 1);
      assert dcs[..r][..r - 1] == dcs[..r - 1];
    }
  }

  lemma AllBlocksConcat(buffer: seq<bv8>, blocks: seq<RsBlock>, dcs: seq<seq<bv8>>)
    requires |dcs| == |blocks| && Sum(DataCounts(blocks)) == |buffer|
    requires forall q :: 0 <= q < |blocks| ==> dcs[q] == BlockData(buffer, blocks, q)
    ensures Concat(dcs) == buffer
  {
    assert DataCounts(blocks)[..|blocks|] == DataCounts(blocks) && dcs[..|blocks|] == dcs;
    BlocksConcat(buffer, blocks, dcs, |blocks|);
    assert buffer[..|buffer|] == buffer;
  }

  // ---- the reader

  ghost predicate Locatable(lens: seq<nat>, length: nat) {
    forall r, i :: 0 <= r < |lens| && 0 <= i < lens[r] ==> Locate(lens, r, i) < length
  }

  /** The data bytes of all blocks, as the codewords have them. */
  ghost function DataBytes(blocks: seq<RsBlock>, codewords: seq<bv8>): seq<Octet>
    requires Sum(DataCounts(blocks)) <= |codewords| && Locatable(DataCounts(blocks), Sum(DataCounts(blocks)))
  {
    FromField(Concat(Deinterleave(DataCounts(blocks), codewords[..Sum(DataCounts(blocks))])))
  }

  /** They are numbers, most significant bit first. */
  lemma FieldIsNumber(bytes: seq<bv8>, i: nat)
    requires i < |bytes|
    ensures FromField(bytes)[i] == bytes[i] as int
  {
    ByteIsNumber(bytes[i]);
  }

  /** From the codewords to the segments: de-interleave, join the blocks, read the stream. */
  ghost function ReadCodewords(blocks: seq<RsBlock>, codewords: seq<bv8>, width: nat): seq<seq<Octet>>
    requires Sum(DataCounts(blocks)) <= |codewords|
  {
    if !Locatable(DataCounts(blocks), Sum(DataCounts(blocks))) then []
    else ReadSegments(OctetBits(DataBytes(blocks, codewords)), width)
  }

  /**
    The codewords a reader finds in a finished symbol, from its size, the positions of its alignment
    patterns and its mask; None when the symbol has no room for that many.
  */
  ghost function SymbolCodewords(g: Grid, n: nat, pos: seq<nat>, mask: (int, int) -> bool, total: nat): Option<seq<bv8>>
    requires SymbolSize(n)
  {
    var bits := ReadBits(Reserved(n, pos), g, mask, Path(n));
    if |bits| < 8 * total then None
    else Some(seq(total, j requires 0 <= j < total => ByteAt(bits, j)))
  }

  /** The bytes of the one segment in a symbol whose version, mask and blocks are known. */
  ghost function ReadModules(g: Grid, n: nat, pos: seq<nat>, mask: (int, int) -> bool, blocks: seq<RsBlock>, width: nat)
    : Option<seq<Utf8.Unit>>
    requires SymbolSize(n)
  {
    var codewords := SymbolCodewords(g, n, pos, mask, Sum(TotalCounts(blocks)));
    if codewords.None? || Sum(DataCounts(blocks)) > |codewords.value| then None
    else
      var segments := ReadCodewords(blocks, codewords.value, width);
      if |segments| != 1 then None else Utf8.Decode(segments[0])
  }

  /** The version of a symbol of side n. */
  function VersionOf(n: nat): Option<nat> {
    if 21 <= n <= 177 && n % 4 == 1 then Some((n - 17) / 4) else None
  }

  /** From the modules of a finished symbol, and nothing else, to its text: size, format bits, tables, zigzag. */
  ghost function ReadSymbol(g: Grid): Option<seq<Utf8.Unit>> {
    var n := |g|;
    if VersionOf(n).None? then None
    else
      var typeNumber := VersionOf(n).value;
      var (level, maskPattern) := FormatOf(Seen(g, ColumnPlaces(n)));
      ReadModules(g, ModuleCount(typeNumber), PatternPosition(typeNumber), Symbols.MaskFunction(maskPattern),
                  RsBlocks(typeNumber, level), LengthInBits(typeNumber))
  }

  /** The codewords are as many as the blocks hold. */
  ghost predicate FillBlocks(blocks: seq<RsBlock>, codewords: seq<bv8>) {
    var data, ec := DataCounts(blocks), EcCounts(blocks);
    |codewords| == Sum(data) + Sum(ec) && Locatable(data, Sum(data)) && Locatable(ec, Sum(ec))
  }

  /** Block q as a reader takes it: its data bytes and the error correction bytes behind them. */
  ghost function BlockOf(blocks: seq<RsBlock>, codewords: seq<bv8>, q: nat): (block: seq<bv8>)
    requires FillBlocks(blocks, codewords) && q < |blocks|
    ensures |block| == blocks[q].dataCount + blocks[q].EcCount()
  {
    var data, ec := DataCounts(blocks), EcCounts(blocks);
    Deinterleave(data, codewords[..Sum(data)])[q] + Deinterleave(ec, codewords[Sum(data)..])[q]
  }

  /** Every block passes the test of section 7.5: all its syndromes are zero. */
  ghost predicate BlocksAreCodewords(blocks: seq<RsBlock>, codewords: seq<bv8>) {
    && FillBlocks(blocks, codewords)
    && forall q :: 0 <= q < |blocks| ==> IsCodeword(BlockOf(blocks, codewords, q), blocks[q].EcCount())
  }

  /**
    What the error correction bytes are for: in a block of any version and level, whatever bytes a reader sees,
    at most one block that passes the test is within half as many byte errors as there are correction bytes.
  */
  lemma BlockIsRepaired(typeNumber: nat, level: Level, a: seq<bv8>, b: seq<bv8>, q: nat, seen: seq<bv8>)
    requires 1 <= typeNumber <= 40 && q < |RsBlocks(typeNumber, level)|
    requires BlocksAreCodewords(RsBlocks(typeNumber, level), a) && BlocksAreCodewords(RsBlocks(typeNumber, level), b)
    requires var blocks := RsBlocks(typeNumber, level);
             && |seen| == blocks[q].dataCount + blocks[q].EcCount()
             && 2 * Distance(seen, BlockOf(blocks, a, q)) <= blocks[q].EcCount()
             && 2 * Distance(seen, BlockOf(blocks, b, q)) <= blocks[q].EcCount()
    ensures BlockOf(RsBlocks(typeNumber, level), a, q) == BlockOf(RsBlocks(typeNumber, level), b, q)
  {
    hide RsBlocks, FillBlocks, BlockOf, IsCodeword, Distance, PositionTable, FreeModules, Sum, Pow2;
    var blocks := RsBlocks(typeNumber, level);
    VersionFits(typeNumber, level);
    HalfTheTailIsRepaired(seen, BlockOf(blocks, a, q), BlockOf(blocks, b, q), blocks[q].EcCount());
  }

  // ---- createData

  method TotalDataCount(blocks: seq<RsBlock>) returns (totalDataCount: nat)
    ensures totalDataCount == Sum(DataCounts(blocks))
  {
    totalDataCount := 0;
    for i := 0 to |blocks|
      invariant totalDataCount == Sum(DataCounts(blocks)[..i])
    {
      PrefixStep(DataCounts(blocks), i);
      totalDataCount := totalDataCount + blocks[i].dataCount;
    }
    assert DataCounts(blocks)[..|blocks|] == DataCounts(blocks);
  }

  lemma SplitIsCodewords(buffer: seq<bv8>, blocks: seq<RsBlock>, codewords: seq<bv8>, dcs: seq<seq<bv8>>,
                         ecs: seq<seq<bv8>>)
    requires |codewords| == Sum(DataCounts(blocks)) + Sum(EcCounts(blocks))
    requires Recovers(DataCounts(blocks), codewords[..Sum(DataCounts(blocks))], dcs)
    requires Recovers(EcCounts(blocks), codewords[Sum(DataCounts(blocks))..], ecs)
    requires IsSplit(buffer, blocks, dcs, ecs) && |dcs| == |blocks|
    ensures BlocksAreCodewords(blocks, codewords)
  {
    hide Sum, IsCodeword, Locate;
  }

  /** The codewords of a payload that fits; None, for an overflow, otherwise. */
  method CreateData(math: QrMath, typeNumber: nat, blocks: seq<RsBlock>, dataList: seq<seq<Octet>>)
    returns (r: Option<seq<bv8>>)
    requires math.Valid() && forall q :: 0 <= q < |blocks| ==> blocks[q].Valid()
    ensures r.None? <==> |PayloadBits(dataList, LengthInBits(typeNumber))| > 8 * Sum(DataCounts(blocks))
    ensures r.Some? ==> |r.value| == Sum(TotalCounts(blocks)) >= Sum(DataCounts(blocks))
    ensures r.Some? ==> BlocksAreCodewords(blocks, r.value)
    ensures r.Some? && (forall i :: 0 <= i < |dataList| ==> |dataList[i]| < Pow2(LengthInBits(typeNumber))) ==>
              ReadCodewords(blocks, r.value, LengthInBits(typeNumber)) == dataList
    ensures r.Some? && |dataList| == 1 && typeNumber >= 1 ==>
              && Locatable(DataCounts(blocks), Sum(DataCounts(blocks)))
              && DataBytes(blocks, r.value) == StandardBytes(dataList[0], typeNumber, Sum(DataCounts(blocks)))
  {
    hide Sum, PayloadBits, Concat, ReadSegments, Pow2, Padding, OctetBits, BlocksAreCodewords, StandardBytes, Locate;
    var totalDataCount := TotalDataCount(blocks);
    var stream := BuildStream(dataList, typeNumber, totalDataCount);
    if stream.None? {
      return None;
    }
    ghost var width := LengthInBits(typeNumber);
    var codewords, dcs, ecs := CreateBytes(math, ToField(stream.value), blocks);
    AllBlocksConcat(ToField(stream.value), blocks, dcs);
    FieldRoundTrip(stream.value);
    SplitIsCodewords(ToField(stream.value), blocks, codewords, dcs, ecs);
    if forall i :: 0 <= i < |dataList| ==> |dataList[i]| < Pow2(width) {
      StreamReadsBack(dataList, width, totalDataCount);
    }
    if |dataList| == 1 && typeNumber >= 1 {
      assert dataList == [dataList[0]];
      StreamIsStandard(dataList[0], typeNumber, totalDataCount, stream.value);
    }
    r := Some(codewords);
  }

  // ---- make

  /** Data bytes of each version. */
  function DataCapacities(level: Level): seq<nat> {
    seq(40, t requires 0 <= t < 40 => Sum(DataCounts(RsBlocks(t + 1, level))))
  }

  method Capacities(level: Level) returns (counts: seq<nat>)
    ensures counts == DataCapacities(level)
  {
    hide RsBlocks, Sum;
    counts := [];
    for t := 0 to 40
      invariant counts == DataCapacities(level)[..t]
    {
      var blocks := GetRsBlocks(t + 1, level);
      var n := TotalDataCount(blocks);
      counts := counts + [n];
    }
  }

  /** The data bytes of the blocks are those of the standard for the text. */
  ghost predicate HasDataBytes(codewords: seq<bv8>, typeNumber: nat, level: Level, text: seq<Utf8.Unit>)
    requires 1 <= typeNumber <= 40
  {
    var blocks := RsBlocks(typeNumber, level);
    var data := DataCounts(blocks);
    && Sum(data) <= |codewords| && Locatable(data, Sum(data))
    && DataBytes(blocks, codewords) == StandardBytes(Utf8.Encode(text), typeNumber, Sum(data))
  }

  /** The finished symbol: its patterns, its words, the data bytes of its codewords, and the text of the reader. */
  ghost predicate IsSymbolOf(g: Grid, typeNumber: nat, level: Level, maskPattern: nat, text: seq<Utf8.Unit>)
    requires 1 <= typeNumber <= 40 && maskPattern < 8
  {
    var n, pos, blocks := ModuleCount(typeNumber), PatternPosition(typeNumber), RsBlocks(typeNumber, level);
    var codewords := SymbolCodewords(g, n, pos, Symbols.MaskFunction(maskPattern), Sum(TotalCounts(blocks)));
    && Square(g, n) && Symbols.Full(g, n)
    && LooksLikeFigures(g, n, pos) && ShowsWords(g, n, typeNumber, level, maskPattern)
    && FormatOf(Seen(g, ColumnPlaces(n))) == FormatOf(Seen(g, RowPlaces(n))) == (level, maskPattern)
    && (typeNumber >= 7 ==> VersionIn(Seen(g, UpperPlaces(n))) == VersionIn(Seen(g, LowerPlaces(n))) == typeNumber)
    && codewords.Some? && BlocksAreCodewords(blocks, codewords.value)
    && ShowsData(g, n, pos, maskPattern, codewords.value) && HasDataBytes(codewords.value, typeNumber, level, text)
    && (Utf8.WellFormed(text) ==> ReadSymbol(g) == Some(text))
  }

  /** makeImpl for codewords that read back as the bytes of the text. */
  method DrawSymbol(typeNumber: nat, level: Level, data: seq<bv8>, maskPattern: nat, ghost text: seq<Utf8.Unit>)
    returns (symbol: Symbols.QrSymbol)
    requires 1 <= typeNumber <= 40 && maskPattern < 8
    requires |data| == Sum(TotalCounts(RsBlocks(typeNumber, level))) >= Sum(DataCounts(RsBlocks(typeNumber, level)))
    requires BlocksAreCodewords(RsBlocks(typeNumber, level), data)
    requires ReadCodewords(RsBlocks(typeNumber, level), data, LengthInBits(typeNumber)) == [Utf8.Encode(text)]
    requires HasDataBytes(data, typeNumber, level, text)
    ensures fresh(symbol) && symbol.moduleCount == ModuleCount(typeNumber)
    ensures IsSymbolOf(symbol.modules, typeNumber, level, maskPattern, text)
  {
    hide Sum, ReadCodewords, SymbolSize, Symbols.Full, Symbols.Carries, ShowsPatterns, BlocksAreCodewords, FreeModules,
         PositionTable, PatternPosition, RsBlocks, FormatBits, VersionBits, IsSymbolOf, HasDataBytes;
    VersionFits(typeNumber, level);
    symbol := new Symbols.QrSymbol(typeNumber);
    var formatBits := GetFormatBits(level, maskPattern);
    var versionBits := GetVersionBits(typeNumber);
    symbol.MakeImpl(false, maskPattern, PatternPosition(typeNumber), formatBits, versionBits, data);
    DrawnIsSymbol(symbol.modules, typeNumber, level, maskPattern, data, text);
  }

  /**
    make with the automatic version, for one byte segment holding `text`. The mask the penalty score picks is a
    parameter. A symbol is drawn exactly when the text fits the version; then its patterns are in place, each of
    its blocks is a codeword, and a reader who is given nothing but the modules gets the text back.
  */
  method Make(math: QrMath, level: Level, text: seq<Utf8.Unit>, maskPattern: nat)
    returns (symbol: Symbols.QrSymbol?, typeNumber: nat)
    requires math.Valid() && maskPattern < 8
    ensures 1 <= typeNumber <= 40
    ensures forall t :: 1 <= t < typeNumber ==> !Fits([Utf8.Encode(text)], DataCapacities(level), t)
    ensures symbol != null <==> Fits([Utf8.Encode(text)], DataCapacities(level), typeNumber)
    ensures symbol != null ==> IsSymbolOf(symbol.modules, typeNumber, level, maskPattern, text)
  {
    hide Sum, PayloadBits, ReadCodewords, IsSymbolOf, Utf8.WellFormed, Pow2, BlocksAreCodewords, FreeModules;
    hide PositionTable, RsBlocks, PatternPosition;
    var bytes := Utf8.ToUtf8Array(text);
    var counts := Capacities(level);
    typeNumber := ChooseTypeNumber([bytes], counts);
    VersionFits(typeNumber, level);
    var blocks := GetRsBlocks(typeNumber, level);
    LengthFits(bytes, LengthInBits(typeNumber), Sum(DataCounts(blocks)));
    var data := CreateData(math, typeNumber, blocks, [bytes]);
    if data.None? {
      return null, typeNumber;
    }
    assert HasDataBytes(data.value, typeNumber, level, text);
    symbol := DrawSymbol(typeNumber, level, data.value, maskPattern, text);
  }

  /** A text fits exactly if its bytes and two more, or three from version 10 on, are no more than a version holds. */
  lemma FitsIff(bytes: seq<Octet>, level: Level, typeNumber: nat)
    requires 1 <= typeNumber <= 40
    ensures Fits([bytes], DataCapacities(level), typeNumber) <==>
            |bytes| + (if typeNumber < 10 then 2 else 3) <= Sum(DataCounts(RsBlocks(typeNumber, level)))
  {
    hide RsBlocks, Sum;
    PayloadOfOne(bytes, LengthInBits(typeNumber));
  }

  /** A payload that fits the data bytes is no longer than they are. */
  lemma LengthFits(bytes: seq<Octet>, width: nat, capacity: nat)
    ensures |PayloadBits([bytes], width)| <= 8 * capacity ==> |bytes| <= capacity
  {
    assert PayloadBits([bytes], width) == SegmentBits(bytes, width) + PayloadBits([], width);
  }

  lemma ModulesRead(g: Grid, n: nat, pos: seq<nat>, mask: (int, int) -> bool, blocks: seq<RsBlock>, width: nat,
                    codewords: seq<bv8>, text: seq<Utf8.Unit>)
    requires SymbolSize(n) && |codewords| == Sum(TotalCounts(blocks)) >= Sum(DataCounts(blocks))
    requires Symbols.Carries(Reserved(n, pos), g, mask, n, codewords)
    ensures SymbolCodewords(g, n, pos, mask, |codewords|) == Some(codewords)
    ensures Utf8.WellFormed(text) && ReadCodewords(blocks, codewords, width) == [Utf8.Encode(text)] ==>
              ReadModules(g, n, pos, mask, blocks, width) == Some(text)
  {
    hide Sum, ReadCodewords, ReadBits, ByteAt, Utf8.WellFormed;
    var bits := ReadBits(Reserved(n, pos), g, mask, Path(n));
    var total := |codewords|;
    assert seq(total, j requires 0 <= j < total => ByteAt(bits, j)) == codewords;
    if Utf8.WellFormed(text) {
      Utf8.DecodeEncode(text);
    }
  }

  lemma SideTellsVersion(typeNumber: nat)
    requires 1 <= typeNumber <= 40
    ensures VersionOf(ModuleCount(typeNumber)) == Some(typeNumber)
  {
  }

  /** Size and format bits tell a reader everything else. */
  lemma SymbolReads(g: Grid, typeNumber: nat, level: Level, maskPattern: nat)
    requires 1 <= typeNumber <= 40 && maskPattern < 8 && |g| == ModuleCount(typeNumber)
    requires ShowsPatterns(g, |g|, PatternPosition(typeNumber), false, FormatBits(level, maskPattern),
                           VersionBits(typeNumber))
    ensures ReadSymbol(g) ==
            ReadModules(g, |g|, PatternPosition(typeNumber), Symbols.MaskFunction(maskPattern),
                        RsBlocks(typeNumber, level), LengthInBits(typeNumber))
  {
    hide ReadModules, FormatOf, RsBlocks, PatternPosition, FormatDrawn, FormatBits, VersionBits, ShowsFixed,
         VersionDrawn, VersionOf, Symbols.MaskFunction;
    FormatReads(g, |g|, level, maskPattern);
    SideTellsVersion(typeNumber);
  }

  /** The patterns of a drawn symbol, as a reader sees them. */
  lemma PatternsSeen(g: Grid, typeNumber: nat, level: Level, maskPattern: nat)
    requires 1 <= typeNumber <= 40 && maskPattern < 8 && |g| == ModuleCount(typeNumber)
    requires ShowsPatterns(g, |g|, PatternPosition(typeNumber), false, FormatBits(level, maskPattern),
                           VersionBits(typeNumber))
    ensures LooksLikeFigures(g, |g|, PatternPosition(typeNumber)) && ShowsWords(g, |g|, typeNumber, level, maskPattern)
    ensures FormatOf(Seen(g, ColumnPlaces(|g|))) == FormatOf(Seen(g, RowPlaces(|g|))) == (level, maskPattern)
    ensures typeNumber >= 7 ==>
              VersionIn(Seen(g, UpperPlaces(|g|))) == VersionIn(Seen(g, LowerPlaces(|g|))) == typeNumber
  {
    hide PatternPosition, PositionTable, ShowsFixed, FormatDrawn, VersionDrawn, LooksLikeFigures, FormatOf, VersionIn,
         FormatBits, VersionBits, Seen, ColumnPlaces, RowPlaces, UpperPlaces, LowerPlaces, ShowsWords;
    PositionsSpan(typeNumber);
    WordsShown(g, |g|, typeNumber, level, maskPattern);
    FiguresShown(g, |g|, PatternPosition(typeNumber), FormatBits(level, maskPattern), VersionBits(typeNumber));
    FormatReads(g, |g|, level, maskPattern);
    if typeNumber >= 7 {
      VersionReads(g, |g|, typeNumber);
    }
  }

  lemma DrawnIsSymbol(g: Grid, typeNumber: nat, level: Level, maskPattern: nat, data: seq<bv8>, text: seq<Utf8.Unit>)
    requires 1 <= typeNumber <= 40 && maskPattern < 8 && Square(g, ModuleCount(typeNumber))
    requires |data| == Sum(TotalCounts(RsBlocks(typeNumber, level))) >= Sum(DataCounts(RsBlocks(typeNumber, level)))
    requires BlocksAreCodewords(RsBlocks(typeNumber, level), data)
    requires ReadCodewords(RsBlocks(typeNumber, level), data, LengthInBits(typeNumber)) == [Utf8.Encode(text)]
    requires HasDataBytes(data, typeNumber, level, text)
    requires Symbols.Full(g, |g|)
    requires ShowsPatterns(g, |g|, PatternPosition(typeNumber), false, FormatBits(level, maskPattern),
                           VersionBits(typeNumber))
    requires Symbols.Carries(Reserved(|g|, PatternPosition(typeNumber)), g, Symbols.MaskFunction(maskPattern), |g|,
                             data)
    ensures IsSymbolOf(g, typeNumber, level, maskPattern, text)
  {
    hide Sum, ReadCodewords, ReadModules, ReadSymbol, SymbolCodewords, Symbols.Full, Symbols.Carries, ShowsPatterns,
         BlocksAreCodewords, PatternPosition, RsBlocks, FormatBits, VersionBits, Utf8.WellFormed, FormatOf, VersionIn,
         Seen, LooksLikeFigures, ColumnPlaces, RowPlaces, UpperPlaces, LowerPlaces, ShowsWords, ShowsData,
         HasDataBytes;
    PatternsSeen(g, typeNumber, level, maskPattern);
    CarriedIsShown(g, |g|, PatternPosition(typeNumber), maskPattern, data);
    ModulesRead(g, |g|, PatternPosition(typeNumber), Symbols.MaskFunction(maskPattern), RsBlocks(typeNumber, level),
                LengthInBits(typeNumber), data, text);
    SymbolReads(g, typeNumber, level, maskPattern);
  }
}
