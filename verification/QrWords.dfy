/** The format and version words as Annex C and Annex D of ISO/IEC 18004:2015 list them. */
module QrWords {
  import opened BchCodes
  import opened QrFormat
  import opened QrPatterns
  import opened QrTables
  import opened SymbolPath

  /** The format words of a level, by mask. */
  function FormatWords(level: Level): (words: seq<bv32>)
    ensures |words| == 8
  {
    match level
    case M => [0x5412, 0x5125, 0x5E7C, 0x5B4B, 0x45F9, 0x40CE, 0x4F97, 0x4AA0]
    case L => [0x77C4, 0x72F3, 0x7DAA, 0x789D, 0x662F, 0x6318, 0x6C41, 0x6976]
    case H => [0x1689, 0x13BE, 0x1CE7, 0x19D0, 0x0762, 0x0255, 0x0D0C, 0x083B]
    case Q => [0x355F, 0x3068, 0x3F31, 0x3A06, 0x24B4, 0x2183, 0x2EDA, 0x2BED]
  }

  /** The version words, from version 7 on. */
  function VersionWord(typeNumber: nat): bv32 {
    match typeNumber
    case 7 => 0x07C94
    case 8 => 0x085BC
    case 9 => 0x09A99
    case 10 => 0x0A4D3
    case 11 => 0x0BBF6
    case 12 => 0x0C762
    case 13 => 0x0D847
    case 14 => 0x0E60D
    case 15 => 0x0F928
    case 16 => 0x10B78
    case 17 => 0x1145D
    case 18 => 0x12A17
    case 19 => 0x13532
    case 20 => 0x149A6
    case 21 => 0x15683
    case 22 => 0x168C9
    case 23 => 0x177EC
    case 24 => 0x18EC4
    case 25 => 0x191E1
    case 26 => 0x1AFAB
    case 27 => 0x1B08E
    case 28 => 0x1CC1A
    case 29 => 0x1D33F
    case 30 => 0x1ED75
    case 31 => 0x1F250
    case 32 => 0x209D5
    case 33 => 0x216F0
    case 34 => 0x228BA
    case 35 => 0x2379F
    case 36 => 0x24B0B
    case 37 => 0x2542E
    case 38 => 0x26A64
    case 39 => 0x27541
    case _ => 0x28C69
  }

  lemma {:induction false} SameNumber(a: bv32, b: bv32, n: nat)
    requires n <= 17 && Below(a, n) && Below(b, n) && Number(a, n) == Number(b, n)
    ensures a == b
    decreases n
  {
    hide Below, Plus, When, HasBit, Double, Half;
    if n == 0 {
      ZeroBelow(a, 0);
      ZeroBelow(b, 0);
    } else {
      HalfBelow(a, n);
      HalfBelow(b, n);
      SameNumber(Half(a), Half(b), n - 1);
      LowestBit(a);
      LowestBit(b);
    }
  }

  /** Five bits as a word. */
  lemma DataWord(data: bv32, level: Level, mask: nat)
    requires mask < 8 && data < 32 && Number(data, 5) == 8 * LevelCode(level) + mask
    ensures FormatData(level, mask) == data
  {
    hide Number, LevelCode;
    FormatIsData(level, mask);
    SameNumber(FormatData(level, mask), data, 5);
  }

  lemma LowBit(data: bv32, n: nat)
    ensures Number(data, n + 1) == Ones(data, 1) + 2 * Number(Half(data), n)
  {
    hide Half, HasBit;
  }

  lemma FiveBits(data: bv32)
    ensures var a, b := Half(data), Half(Half(data));
            Number(data, 5) == Ones(data, 1) + 2 * (Ones(a, 1) + 2 * (Ones(b, 1) + 2 * (Ones(Half(b), 1)
                               + 2 * Ones(Half(Half(b)), 1))))
  {
    hide Half, HasBit, Ones;
    var a, b := Half(data), Half(Half(data));
    LowBit(data, 4);
    LowBit(a, 3);
    LowBit(b, 2);
    LowBit(Half(b), 1);
    LowBit(Half(Half(b)), 0);
    assert Number(Half(Half(Half(b))), 0) == 0;
  }

  lemma NumbersM()
    ensures Number(0, 5) == 0 && Number(1, 5) == 1 && Number(2, 5) == 2 && Number(3, 5) == 3
    ensures Number(4, 5) == 4 && Number(5, 5) == 5 && Number(6, 5) == 6 && Number(7, 5) == 7
  {
    FiveBits(0);
    FiveBits(1);
    FiveBits(2);
    FiveBits(3);
    FiveBits(4);
    FiveBits(5);
    FiveBits(6);
    FiveBits(7);
  }

  lemma WordsM()
    ensures TypeInfo(0) == 0x5412 && TypeInfo(1) == 0x5125 && TypeInfo(2) == 0x5E7C && TypeInfo(3) == 0x5B4B
    ensures TypeInfo(4) == 0x45F9 && TypeInfo(5) == 0x40CE && TypeInfo(6) == 0x4F97 && TypeInfo(7) == 0x4AA0
  {
  }

  lemma NumbersL()
    ensures Number(8, 5) == 8 && Number(9, 5) == 9 && Number(10, 5) == 10 && Number(11, 5) == 11
    ensures Number(12, 5) == 12 && Number(13, 5) == 13 && Number(14, 5) == 14 && Number(15, 5) == 15
  {
    FiveBits(8);
    FiveBits(9);
    FiveBits(10);
    FiveBits(11);
    FiveBits(12);
    FiveBits(13);
    FiveBits(14);
    FiveBits(15);
  }

  lemma WordsL()
    ensures TypeInfo(8) == 0x77C4 && TypeInfo(9) == 0x72F3 && TypeInfo(10) == 0x7DAA && TypeInfo(11) == 0x789D
    ensures TypeInfo(12) == 0x662F && TypeInfo(13) == 0x6318 && TypeInfo(14) == 0x6C41 && TypeInfo(15) == 0x6976
  {
  }

  lemma NumbersH()
    ensures Number(16, 5) == 16 && Number(17, 5) == 17 && Number(18, 5) == 18 && Number(19, 5) == 19
    ensures Number(20, 5) == 20 && Number(21, 5) == 21 && Number(22, 5) == 22 && Number(23, 5) == 23
  {
    FiveBits(16);
    FiveBits(17);
    FiveBits(18);
    FiveBits(19);
    FiveBits(20);
    FiveBits(21);
    FiveBits(22);
    FiveBits(23);
  }

  lemma WordsH()
    ensures TypeInfo(16) == 0x1689 && TypeInfo(17) == 0x13BE && TypeInfo(18) == 0x1CE7 && TypeInfo(19) == 0x19D0
    ensures TypeInfo(20) == 0x0762 && TypeInfo(21) == 0x0255 && TypeInfo(22) == 0x0D0C && TypeInfo(23) == 0x083B
  {
  }

  lemma NumbersQ()
    ensures Number(24, 5) == 24 && Number(25, 5) == 25 && Number(26, 5) == 26 && Number(27, 5) == 27
    ensures Number(28, 5) == 28 && Number(29, 5) == 29 && Number(30, 5) == 30 && Number(31, 5) == 31
  {
    FiveBits(24);
    FiveBits(25);
    FiveBits(26);
    FiveBits(27);
    FiveBits(28);
    FiveBits(29);
    FiveBits(30);
    FiveBits(31);
  }

  lemma WordsQ()
    ensures TypeInfo(24) == 0x355F && TypeInfo(25) == 0x3068 && TypeInfo(26) == 0x3F31 && TypeInfo(27) == 0x3A06
    ensures TypeInfo(28) == 0x24B4 && TypeInfo(29) == 0x2183 && TypeInfo(30) == 0x2EDA && TypeInfo(31) == 0x2BED
  {
  }
  lemma FormatIs(level: Level, mask: nat, data: bv32, word: bv32)
    requires mask < 8 && data < 32 && Number(data, 5) == 8 * LevelCode(level) + mask && TypeInfo(data) == word
    ensures FormatBits(level, mask) == WordBits(word, 15)
  {
    hide Number, LevelCode, TypeInfo, WordBits;
    DataWord(data, level, mask);
  }

  predicate ListedBit(word: bv32, k: nat) {
    word & Bit(k) != 0
  }

  /** Bit k of the list is bit k of the word. */
  lemma {:induction false} BitOfWord(w: bv32, n: nat, k: nat)
    requires k < n <= 18
    ensures WordBits(w, n)[k] == HasBit(w, Bit(k))
    decreases k
  {
    hide HasBit, Half, Double, Bit;
    if k == 0 {
      FirstBit();
    } else {
      BitOfWord(Half(w), n - 1, k - 1);
      NextBit(k);
      BitOfHalf(w, Bit(k - 1));
    }
  }

  lemma FirstBit()
    ensures Bit(0) == 1
  {
  }

  lemma NextBit(k: nat)
    requires 0 < k < 18
    ensures Bit(k) == Double(Bit(k - 1)) && Bit(k - 1) < 0x80000000
  {
  }

  lemma BitOfHalf(w: bv32, bit: bv32)
    requires bit < 0x80000000
    ensures HasBit(Half(w), bit) == HasBit(w, Double(bit))
  {
  }

  lemma FormatWordBits(level: Level, mask: nat)
    requires mask < 8
    ensures FormatBits(level, mask) == WordBits(FormatWords(level)[mask], 15)
  {
    hide Number, TypeInfo, WordBits, FormatBits;
    NumbersM();
    NumbersL();
    NumbersH();
    NumbersQ();
    WordsM();
    WordsL();
    WordsH();
    WordsQ();
    var first: bv32 := match level case M => 0 case L => 8 case H => 16 case Q => 24;
    match mask
    case 0 => FormatIs(level, mask, first, FormatWords(level)[0]);
    case 1 => FormatIs(level, mask, first + 1, FormatWords(level)[1]);
    case 2 => FormatIs(level, mask, first + 2, FormatWords(level)[2]);
    case 3 => FormatIs(level, mask, first + 3, FormatWords(level)[3]);
    case 4 => FormatIs(level, mask, first + 4, FormatWords(level)[4]);
    case 5 => FormatIs(level, mask, first + 5, FormatWords(level)[5]);
    case 6 => FormatIs(level, mask, first + 6, FormatWords(level)[6]);
    case _ => FormatIs(level, mask, first + 7, FormatWords(level)[7]);
  }

  /** Bit k drawn for a level and a mask is bit k of the word the standard lists for them. */
  lemma FormatIsListed(level: Level, mask: nat, k: nat)
    requires mask < 8 && k < 15
    ensures FormatBits(level, mask)[k] == ListedBit(FormatWords(level)[mask], k)
  {
    hide FormatBits, WordBits, Bit;
    FormatWordBits(level, mask);
    BitOfWord(FormatWords(level)[mask], 15, k);
  }

  // ---- versions

  lemma SixBits(data: bv32)
    ensures Number(data, 6) == Ones(data, 1) + 2 * Number(Half(data), 5)
  {
    hide Half, HasBit;
    LowBit(data, 5);
  }

  lemma VersionIs(typeNumber: nat, data: bv32)
    requires data < 64 && Number(data, 6) == typeNumber
    ensures Binary(typeNumber, 6) == data
  {
    hide Number;
    Powers();
    NumberBelow(data);
    NumberRoundTrip(typeNumber, 6);
    SameNumber(Binary(typeNumber, 6), data, 6);
  }

  lemma NumberBelow(data: bv32)
    requires data < 64
    ensures Number(data, 6) < 64
  {
    hide HasBit;
    FiveBits(Half(data));
    SixBits(data);
  }

  lemma VersionsA()
    ensures Word18(7) == 0x07C94 && Word18(8) == 0x085BC && Word18(9) == 0x09A99
    ensures Word18(10) == 0x0A4D3 && Word18(11) == 0x0BBF6 && Word18(12) == 0x0C762
    ensures Word18(13) == 0x0D847 && Word18(14) == 0x0E60D && Word18(15) == 0x0F928
  {
  }

  lemma SixesA()
    ensures Number(7, 6) == 7 && Number(8, 6) == 8 && Number(9, 6) == 9 && Number(10, 6) == 10
    ensures Number(11, 6) == 11 && Number(12, 6) == 12 && Number(13, 6) == 13 && Number(14, 6) == 14
    ensures Number(15, 6) == 15
  {
    NumbersM();
    SixBits(7);
    SixBits(8);
    SixBits(9);
    SixBits(10);
    SixBits(11);
    SixBits(12);
    SixBits(13);
    SixBits(14);
    SixBits(15);
  }

  lemma ListedA(typeNumber: nat)
    requires 7 <= typeNumber <= 15
    ensures VersionBits(typeNumber) == WordBits(VersionWord(typeNumber), 18)
  {
    hide Number, Word18, WordBits, Binary;
    VersionsA();
    SixesA();
    match typeNumber
    case 7 => VersionIs(7, 7);
    case 8 => VersionIs(8, 8);
    case 9 => VersionIs(9, 9);
    case 10 => VersionIs(10, 10);
    case 11 => VersionIs(11, 11);
    case 12 => VersionIs(12, 12);
    case 13 => VersionIs(13, 13);
    case 14 => VersionIs(14, 14);
    case _ => VersionIs(15, 15);
  }

  lemma VersionsB()
    ensures Word18(16) == 0x10B78 && Word18(17) == 0x1145D && Word18(18) == 0x12A17
    ensures Word18(19) == 0x13532 && Word18(20) == 0x149A6 && Word18(21) == 0x15683
    ensures Word18(22) == 0x168C9 && Word18(23) == 0x177EC && Word18(24) == 0x18EC4
  {
  }

  lemma SixesB()
    ensures Number(16, 6) == 16 && Number(17, 6) == 17 && Number(18, 6) == 18 && Number(19, 6) == 19
    ensures Number(20, 6) == 20 && Number(21, 6) == 21 && Number(22, 6) == 22 && Number(23, 6) == 23
    ensures Number(24, 6) == 24
  {
    NumbersL();
    SixBits(16);
    SixBits(17);
    SixBits(18);
    SixBits(19);
    SixBits(20);
    SixBits(21);
    SixBits(22);
    SixBits(23);
    SixBits(24);
  }

  lemma ListedB(typeNumber: nat)
    requires 16 <= typeNumber <= 24
    ensures VersionBits(typeNumber) == WordBits(VersionWord(typeNumber), 18)
  {
    hide Number, Word18, WordBits, Binary;
    VersionsB();
    SixesB();
    match typeNumber
    case 16 => VersionIs(16, 16);
    case 17 => VersionIs(17, 17);
    case 18 => VersionIs(18, 18);
    case 19 => VersionIs(19, 19);
    case 20 => VersionIs(20, 20);
    case 21 => VersionIs(21, 21);
    case 22 => VersionIs(22, 22);
    case 23 => VersionIs(23, 23);
    case _ => VersionIs(24, 24);
  }

  lemma VersionsC()
    ensures Word18(25) == 0x191E1 && Word18(26) == 0x1AFAB && Word18(27) == 0x1B08E
    ensures Word18(28) == 0x1CC1A && Word18(29) == 0x1D33F && Word18(30) == 0x1ED75
    ensures Word18(31) == 0x1F250 && Word18(32) == 0x209D5
  {
  }

  lemma SixesC()
    ensures Number(25, 6) == 25 && Number(26, 6) == 26 && Number(27, 6) == 27 && Number(28, 6) == 28
    ensures Number(29, 6) == 29 && Number(30, 6) == 30 && Number(31, 6) == 31 && Number(32, 6) == 32
  {
    NumbersL();
    NumbersH();
    SixBits(25);
    SixBits(26);
    SixBits(27);
    SixBits(28);
    SixBits(29);
    SixBits(30);
    SixBits(31);
    SixBits(32);
  }

  lemma ListedC(typeNumber: nat)
    requires 25 <= typeNumber <= 32
    ensures VersionBits(typeNumber) == WordBits(VersionWord(typeNumber), 18)
  {
    hide Number, Word18, WordBits, Binary;
    VersionsC();
    SixesC();
    match typeNumber
    case 25 => VersionIs(25, 25);
    case 26 => VersionIs(26, 26);
    case 27 => VersionIs(27, 27);
    case 28 => VersionIs(28, 28);
    case 29 => VersionIs(29, 29);
    case 30 => VersionIs(30, 30);
    case 31 => VersionIs(31, 31);
    case _ => VersionIs(32, 32);
  }

  lemma VersionsD()
    ensures Word18(33) == 0x216F0 && Word18(34) == 0x228BA && Word18(35) == 0x2379F
    ensures Word18(36) == 0x24B0B && Word18(37) == 0x2542E && Word18(38) == 0x26A64
    ensures Word18(39) == 0x27541 && Word18(40) == 0x28C69
  {
  }

  lemma SixesD()
    ensures Number(33, 6) == 33 && Number(34, 6) == 34 && Number(35, 6) == 35 && Number(36, 6) == 36
    ensures Number(37, 6) == 37 && Number(38, 6) == 38 && Number(39, 6) == 39 && Number(40, 6) == 40
  {
    NumbersH();
    SixBits(33);
    SixBits(34);
    SixBits(35);
    SixBits(36);
    SixBits(37);
    SixBits(38);
    SixBits(39);
    SixBits(40);
  }

  lemma ListedD(typeNumber: nat)
    requires 33 <= typeNumber <= 40
    ensures VersionBits(typeNumber) == WordBits(VersionWord(typeNumber), 18)
  {
    hide Number, Word18, WordBits, Binary;
    VersionsD();
    SixesD();
    match typeNumber
    case 33 => VersionIs(33, 33);
    case 34 => VersionIs(34, 34);
    case 35 => VersionIs(35, 35);
    case 36 => VersionIs(36, 36);
    case 37 => VersionIs(37, 37);
    case 38 => VersionIs(38, 38);
    case 39 => VersionIs(39, 39);
    case _ => VersionIs(40, 40);
  }

  lemma VersionWordBits(typeNumber: nat)
    requires 7 <= typeNumber <= 40
    ensures VersionBits(typeNumber) == WordBits(VersionWord(typeNumber), 18)
  {
    hide VersionBits, VersionWord, WordBits;
    if typeNumber <= 15 {
      ListedA(typeNumber);
    } else if typeNumber <= 24 {
      ListedB(typeNumber);
    } else if typeNumber <= 32 {
      ListedC(typeNumber);
    } else {
      ListedD(typeNumber);
    }
  }

  /** Bit k drawn for a version is bit k of the word the standard lists for it. */
  lemma VersionIsListed(typeNumber: nat, k: nat)
    requires 7 <= typeNumber <= 40 && k < 18
    ensures VersionBits(typeNumber)[k] == ListedBit(VersionWord(typeNumber), k)
  {
    hide VersionBits, VersionWord, WordBits, Bit;
    VersionWordBits(typeNumber);
    BitOfWord(VersionWord(typeNumber), 18, k);
  }

  // ---- in the symbol

  /** Both copies show the listed words. */
  ghost predicate ShowsWords(g: Grid, n: nat, typeNumber: nat, level: Level, mask: nat)
    requires mask < 8
  {
    && (forall k: nat :: k < 15 ==>
          Dark(g, ColumnPlaces(n)[k]) == Dark(g, RowPlaces(n)[k]) == ListedBit(FormatWords(level)[mask], k))
    && (typeNumber >= 7 ==>
          forall k: nat :: k < 18 ==>
            Dark(g, UpperPlaces(n)[k]) == Dark(g, LowerPlaces(n)[k]) == ListedBit(VersionWord(typeNumber), k))
  }

  lemma WordsShown(g: Grid, n: nat, typeNumber: nat, level: Level, mask: nat)
    requires 1 <= typeNumber <= 40 && mask < 8 && n >= 21 && (typeNumber >= 7 ==> n >= 45)
    requires FormatDrawn(g, n, false, FormatBits(level, mask))
    requires typeNumber >= 7 ==> VersionDrawn(g, n, false, VersionBits(typeNumber))
    ensures ShowsWords(g, n, typeNumber, level, mask)
  {
    hide FormatBits, VersionBits, FormatDrawn, VersionDrawn, ListedBit, VersionWord, FormatWords, ColumnPlaces,
         RowPlaces, UpperPlaces, LowerPlaces, Dark;
    SeenFormat(g, n, FormatBits(level, mask));
    forall k: nat | k < 15
      ensures Dark(g, ColumnPlaces(n)[k]) == Dark(g, RowPlaces(n)[k]) == ListedBit(FormatWords(level)[mask], k)
    {
      FormatIsListed(level, mask, k);
      assert Seen(g, ColumnPlaces(n))[k] == Seen(g, RowPlaces(n))[k];
    }
    if typeNumber >= 7 {
      SeenVersion(g, n, VersionBits(typeNumber));
      forall k: nat | k < 18
        ensures Dark(g, UpperPlaces(n)[k]) == Dark(g, LowerPlaces(n)[k]) == ListedBit(VersionWord(typeNumber), k)
      {
        VersionIsListed(typeNumber, k);
        assert Seen(g, UpperPlaces(n))[k] == Seen(g, LowerPlaces(n))[k];
      }
    }
  }
}
