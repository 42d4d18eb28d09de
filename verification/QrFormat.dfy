/**
  The format and version bits of a symbol (sections 7.9 and 7.10 of ISO/IEC 18004:2015): how level, mask and
  version become the bits setupTypeInfo and setupTypeNumber draw, and how a reader gets them back.
*/
module QrFormat {
  import opened BchCodes
  import opened NumberBits
  import opened QrPatterns
  import opened QrTables
  import opened SymbolPath

  function LevelCode(level: Level): nat {
    match level
    case L => 1
    case M => 0
    case Q => 3
    case H => 2
  }

  function LevelOf(code: nat): Level {
    match code
    case 1 => L
    case 0 => M
    case 3 => Q
    case _ => H
  }

  /** `errorCorrectionLevel << 3 | maskPattern` */
  function FormatData(level: Level, maskPattern: nat): bv32 {
    Binary(8 * LevelCode(level) + maskPattern, 5)
  }

  function FormatBits(level: Level, maskPattern: nat): (bits: seq<bool>)
    ensures |bits| == 15
  {
    WordBits(TypeInfo(FormatData(level, maskPattern)), 15)
  }

  function VersionBits(typeNumber: nat): (bits: seq<bool>)
    ensures |bits| == 18
  {
    WordBits(Word18(Binary(typeNumber, 6)), 18)
  }

  /** What the drawing reads bit by bit. */
  method GetFormatBits(level: Level, maskPattern: nat) returns (bits: seq<bool>)
    requires maskPattern < 8
    ensures bits == FormatBits(level, maskPattern)
  {
    hide TypeInfo, Binary, Below;
    FormatIsData(level, maskPattern);
    var word := GetBchTypeInfo(FormatData(level, maskPattern));
    bits := WordBits(word, 15);
  }

  method GetVersionBits(typeNumber: nat) returns (bits: seq<bool>)
    requires typeNumber < 64
    ensures bits == VersionBits(typeNumber)
  {
    hide Word18, Binary, Below;
    Powers();
    NumberRoundTrip(typeNumber, 6);
    var word := GetBchTypeNumber(Binary(typeNumber, 6));
    bits := WordBits(word, 18);
  }

  lemma Powers()
    ensures Pow2(5) == 32 && Pow2(6) == 64
  {
  }

  lemma FormatIsData(level: Level, maskPattern: nat)
    requires maskPattern < 8
    ensures Below(FormatData(level, maskPattern), 5)
    ensures Number(FormatData(level, maskPattern), 5) == 8 * LevelCode(level) + maskPattern
  {
    hide Binary, Number, Below;
    Powers();
    NumberRoundTrip(8 * LevelCode(level) + maskPattern, 5);
  }

  // ---- the reader

  function Dark(g: Grid, at: (int, int)): bool {
    Get(g, at) == Drawn(true)
  }

  /** Where format bits 0 to 14 are: down the column beside the upper probe pattern, and on beside the lower one. */
  function ColumnPlaces(n: nat): (places: seq<(int, int)>)
    ensures |places| == 15
  {
    [(0, 8), (1, 8), (2, 8), (3, 8), (4, 8), (5, 8), (7, 8), (8, 8),
     (n - 7, 8), (n - 6, 8), (n - 5, 8), (n - 4, 8), (n - 3, 8), (n - 2, 8), (n - 1, 8)]
  }

  /** The other copy: from the right along the row below the upper probe patterns. */
  function RowPlaces(n: nat): (places: seq<(int, int)>)
    ensures |places| == 15
  {
    [(8, n - 1), (8, n - 2), (8, n - 3), (8, n - 4), (8, n - 5), (8, n - 6), (8, n - 7), (8, n - 8),
     (8, 7), (8, 5), (8, 4), (8, 3), (8, 2), (8, 1), (8, 0)]
  }

  /** Where version bits 0 to 17 are: left of the upper right probe pattern, row by row. */
  function UpperPlaces(n: nat): (places: seq<(int, int)>)
    ensures |places| == 18
  {
    [(0, n - 11), (0, n - 10), (0, n - 9), (1, n - 11), (1, n - 10), (1, n - 9), (2, n - 11), (2, n - 10), (2, n - 9),
     (3, n - 11), (3, n - 10), (3, n - 9), (4, n - 11), (4, n - 10), (4, n - 9), (5, n - 11), (5, n - 10), (5, n - 9)]
  }

  /** The other copy: above the lower left probe pattern, column by column. */
  function LowerPlaces(n: nat): (places: seq<(int, int)>)
    ensures |places| == 18
  {
    [(n - 11, 0), (n - 10, 0), (n - 9, 0), (n - 11, 1), (n - 10, 1), (n - 9, 1), (n - 11, 2), (n - 10, 2), (n - 9, 2),
     (n - 11, 3), (n - 10, 3), (n - 9, 3), (n - 11, 4), (n - 10, 4), (n - 9, 4), (n - 11, 5), (n - 10, 5), (n - 9, 5)]
  }

  function Seen(g: Grid, places: seq<(int, int)>): (bits: seq<bool>)
    ensures |bits| == |places|
  {
    seq(|places|, k requires 0 <= k < |places| => Dark(g, places[k]))
  }

  function Front(word: bv32): bv32 {
    word >> 10
  }

  /** The data bits of a format word: the mask taken off, the remainder dropped. */
  function DataOf(word: bv32): bv32 {
    Front(Plus(word, G15_MASK))
  }

  /** Level and mask in the format bits of a symbol. */
  function FormatOf(bits: seq<bool>): (Level, nat) {
    var data := Number(DataOf(JoinWord(bits)), 5);
    (LevelOf(data / 8), data % 8)
  }

  /** The version in the version bits of a symbol: the remainder dropped. */
  function VersionIn(bits: seq<bool>): nat {
    Number(Version(JoinWord(bits)), 6)
  }

  function Version(word: bv32): bv32 {
    word >> 12
  }

  lemma MaskComesOff(x: bv32)
    ensures Plus(Plus(x, G15_MASK), G15_MASK) == x
  {
    hide Plus;
    PlusItself(x);
    PlusItself(G15_MASK);
    Regroup(x, G15_MASK, 0, G15_MASK);
  }

  lemma MaskFits(x: bv32)
    requires Below(x, 15)
    ensures Below(x ^ G15_MASK, 15)
  {
  }

  lemma FrontDrops(data: bv32, r: bv32)
    requires Below(data, 5) && Below(r, 10)
    ensures Front(Plus(Raise10(data), r)) == data && Below(Plus(Raise10(data), r), 15)
  {
  }

  lemma DataIsOnTop(data: bv32)
    requires Below(data, 5)
    ensures DataOf(TypeInfo(data)) == data && Below(TypeInfo(data), 15)
  {
    hide Plus, Remainder15, Below, Front, Raise10;
    FormatStarts(data);
    RemainderIsShort(Raise10(data));
    FrontDrops(data, Remainder15(Raise10(data)));
    MaskComesOff(Word15(data));
    MaskFits(Word15(data));
    PlusIsXor(Word15(data), G15_MASK);
  }

  lemma FormatPlaces(n: nat, k: nat)
    requires n >= 21 && k < 15
    ensures ColumnPlaces(n)[k] == FormatV(n, k) && RowPlaces(n)[k] == FormatH(n, k)
  {
  }

  lemma VersionPlaces(n: nat, k: nat)
    requires n >= 45 && k < 18
    ensures UpperPlaces(n)[k] == VersionA(n, k) && LowerPlaces(n)[k] == VersionB(n, k)
  {
  }

  /** Both copies hold the bits drawn. */
  lemma SeenFormat(g: Grid, n: nat, bits: seq<bool>)
    requires n >= 21 && FormatDrawn(g, n, false, bits)
    ensures Seen(g, ColumnPlaces(n)) == bits && Seen(g, RowPlaces(n)) == bits
  {
    hide ColumnPlaces, RowPlaces, FormatV, FormatH, Get;
    forall k: nat | k < 15 ensures Dark(g, ColumnPlaces(n)[k]) == Dark(g, RowPlaces(n)[k]) == bits[k] {
      FormatPlaces(n, k);
    }
  }

  lemma SeenVersion(g: Grid, n: nat, bits: seq<bool>)
    requires n >= 45 && VersionDrawn(g, n, false, bits)
    ensures Seen(g, UpperPlaces(n)) == bits && Seen(g, LowerPlaces(n)) == bits
  {
    hide UpperPlaces, LowerPlaces, VersionA, VersionB, Get;
    forall k: nat | k < 18 ensures Dark(g, UpperPlaces(n)[k]) == Dark(g, LowerPlaces(n)[k]) == bits[k] {
      VersionPlaces(n, k);
    }
  }

  /** Level and mask read back from either copy. */
  lemma FormatReads(g: Grid, n: nat, level: Level, maskPattern: nat)
    requires n >= 21 && maskPattern < 8 && FormatDrawn(g, n, false, FormatBits(level, maskPattern))
    ensures FormatOf(Seen(g, ColumnPlaces(n))) == (level, maskPattern)
    ensures FormatOf(Seen(g, RowPlaces(n))) == (level, maskPattern)
  {
    hide Below, TypeInfo, DataOf, WordBits, JoinWord, Number, Binary, Seen, ColumnPlaces, RowPlaces, FormatDrawn;
    var data, bits := FormatData(level, maskPattern), FormatBits(level, maskPattern);
    SeenFormat(g, n, bits);
    FormatIsData(level, maskPattern);
    DataIsOnTop(data);
    WordRoundTrip(TypeInfo(data), 15);
    var number := 8 * LevelCode(level) + maskPattern;
    assert number / 8 == LevelCode(level) && number % 8 == maskPattern;
  }

  lemma VersionIsOnTop(data: bv32, r: bv32)
    requires Below(data, 6) && Below(r, 12)
    ensures Version(Plus(Raise12(data), r)) == data && Below(Plus(Raise12(data), r), 18)
  {
  }

  /** The version reads back from either copy. */
  lemma VersionReads(g: Grid, n: nat, typeNumber: nat)
    requires n >= 45 && typeNumber < 64 && VersionDrawn(g, n, false, VersionBits(typeNumber))
    ensures VersionIn(Seen(g, UpperPlaces(n))) == VersionIn(Seen(g, LowerPlaces(n))) == typeNumber
  {
    hide Below, Word18, Version, WordBits, JoinWord, Number, Binary, Seen, UpperPlaces, LowerPlaces,
         VersionDrawn;
    var data := Binary(typeNumber, 6);
    SeenVersion(g, n, VersionBits(typeNumber));
    Powers();
    NumberRoundTrip(typeNumber, 6);
    VersionWordShape(data);
    WordRoundTrip(Word18(data), 18);
  }

  lemma VersionWordShape(data: bv32)
    requires Below(data, 6)
    ensures Version(Word18(data)) == data && Below(Word18(data), 18)
  {
    hide Plus, Remainder18, Below, Version, Raise12;
    VersionStarts(data);
    RemainderIsShort18(Raise12(data));
    VersionIsOnTop(data, Remainder18(Raise12(data)));
  }
}
