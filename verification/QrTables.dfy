/**
  The library's tables: the rows and columns of the alignment patterns and the blocks of every version and
  level (table E.1 and table 9 of ISO/IEC 18004:2015). They fit together: the codewords of a version fill the
  modules its patterns leave free, but for at most seven.
*/
module QrTables {
  import opened CodewordBlocks
  import opened NumberBits
  import opened QrCapacity
  import opened QrData
  import opened QrPatterns
  import opened SymbolPath

  datatype Level = L | M | Q | H

  // ---- alignment patterns

  /** PATTERN_POSITION_TABLE */
  function PatternPosition(typeNumber: nat): seq<nat>
    requires 1 <= typeNumber <= 40
  {
    match typeNumber
    case 1 => []
    case 2 => [6, 18]
    case 3 => [6, 22]
    case 4 => [6, 26]
    case 5 => [6, 30]
    case 6 => [6, 34]
    case 7 => [6, 22, 38]
    case 8 => [6, 24, 42]
    case 9 => [6, 26, 46]
    case 10 => [6, 28, 50]
    case 11 => [6, 30, 54]
    case 12 => [6, 32, 58]
    case 13 => [6, 34, 62]
    case 14 => [6, 26, 46, 66]
    case 15 => [6, 26, 48, 70]
    case 16 => [6, 26, 50, 74]
    case 17 => [6, 30, 54, 78]
    case 18 => [6, 30, 56, 82]
    case 19 => [6, 30, 58, 86]
    case 20 => [6, 34, 62, 90]
    case 21 => [6, 28, 50, 72, 94]
    case 22 => [6, 26, 50, 74, 98]
    case 23 => [6, 30, 54, 78, 102]
    case 24 => [6, 28, 54, 80, 106]
    case 25 => [6, 32, 58, 84, 110]
    case 26 => [6, 30, 58, 86, 114]
    case 27 => [6, 34, 62, 90, 118]
    case 28 => [6, 26, 50, 74, 98, 122]
    case 29 => [6, 30, 54, 78, 102, 126]
    case 30 => [6, 26, 52, 78, 104, 130]
    case 31 => [6, 30, 56, 82, 108, 134]
    case 32 => [6, 34, 60, 86, 112, 138]
    case 33 => [6, 30, 58, 86, 114, 142]
    case 34 => [6, 34, 62, 90, 118, 146]
    case 35 => [6, 30, 54, 78, 102, 126, 150]
    case 36 => [6, 24, 50, 76, 102, 128, 154]
    case 37 => [6, 28, 54, 80, 106, 132, 158]
    case 38 => [6, 32, 58, 84, 110, 136, 162]
    case 39 => [6, 26, 54, 82, 110, 138, 166]
    case _ => [6, 30, 58, 86, 114, 142, 170]
  }

  function PositionCount(typeNumber: nat): nat {
    if typeNumber == 1 then 0 else typeNumber / 7 + 2
  }

  /** k <= 7 rows that start at the upper probe patterns, end at the lower ones, and keep their distance. */
  predicate Ladder(pos: seq<nat>, n: nat, k: nat) {
    && |pos| == k <= 7 && k != 1
    && (k > 0 ==> pos[0] == 6 && pos[k - 1] == n - 7)
    && (k > 2 ==> 11 <= pos[1] && pos[k - 2] <= n - 14)
    && (k > 3 ==> pos[1] + 5 <= pos[2])
    && (k > 4 ==> pos[2] + 5 <= pos[3])
    && (k > 5 ==> pos[3] + 5 <= pos[4])
    && (k > 6 ==> pos[4] + 5 <= pos[5])
  }

  lemma LadderSpans(pos: seq<nat>, n: nat, k: nat)
    requires n >= 21 && Ladder(pos, n, k) && (k > 0 ==> n >= 25)
    ensures SpansSymbol(pos, n)
  {
  }

  lemma LowerPositions(typeNumber: nat)
    requires 1 <= typeNumber <= 20
    ensures Ladder(PatternPosition(typeNumber), 4 * typeNumber + 17, PositionCount(typeNumber))
  {
  }

  lemma UpperPositions(typeNumber: nat)
    requires 20 < typeNumber <= 40
    ensures Ladder(PatternPosition(typeNumber), 4 * typeNumber + 17, PositionCount(typeNumber))
  {
  }

  lemma PositionsSpan(typeNumber: nat)
    requires 1 <= typeNumber <= 40
    ensures SpansSymbol(PatternPosition(typeNumber), ModuleCount(typeNumber))
    ensures |PatternPosition(typeNumber)| == PositionCount(typeNumber)
  {
    hide SpansSymbol, PatternPosition;
    if typeNumber <= 20 {
      LowerPositions(typeNumber);
    } else {
      UpperPositions(typeNumber);
    }
    LadderSpans(PatternPosition(typeNumber), 4 * typeNumber + 17, PositionCount(typeNumber));
  }

  // ---- blocks

  /** So many blocks of the same size. */
  datatype Group = Group(count: nat, totalCount: nat, dataCount: nat) {
    function Block(): RsBlock {
      RsBlock(totalCount, dataCount)
    }
  }

  function RowL(typeNumber: nat): seq<Group>
    requires 1 <= typeNumber <= 40
  {
    match typeNumber
    case 1 => [Group(1, 26, 19)]
    case 2 => [Group(1, 44, 34)]
    case 3 => [Group(1, 70, 55)]
    case 4 => [Group(1, 100, 80)]
    case 5 => [Group(1, 134, 108)]
    case 6 => [Group(2, 86, 68)]
    case 7 => [Group(2, 98, 78)]
    case 8 => [Group(2, 121, 97)]
    case 9 => [Group(2, 146, 116)]
    case 10 => [Group(2, 86, 68), Group(2, 87, 69)]
    case 11 => [Group(4, 101, 81)]
    case 12 => [Group(2, 116, 92), Group(2, 117, 93)]
    case 13 => [Group(4, 133, 107)]
    case 14 => [Group(3, 145, 115), Group(1, 146, 116)]
    case 15 => [Group(5, 109, 87), Group(1, 110, 88)]
    case 16 => [Group(5, 122, 98), Group(1, 123, 99)]
    case 17 => [Group(1, 135, 107), Group(5, 136, 108)]
    case 18 => [Group(5, 150, 120), Group(1, 151, 121)]
    case 19 => [Group(3, 141, 113), Group(4, 142, 114)]
    case 20 => [Group(3, 135, 107), Group(5, 136, 108)]
    case 21 => [Group(4, 144, 116), Group(4, 145, 117)]
    case 22 => [Group(2, 139, 111), Group(7, 140, 112)]
    case 23 => [Group(4, 151, 121), Group(5, 152, 122)]
    case 24 => [Group(6, 147, 117), Group(4, 148, 118)]
    case 25 => [Group(8, 132, 106), Group(4, 133, 107)]
    case 26 => [Group(10, 142, 114), Group(2, 143, 115)]
    case 27 => [Group(8, 152, 122), Group(4, 153, 123)]
    case 28 => [Group(3, 147, 117), Group(10, 148, 118)]
    case 29 => [Group(7, 146, 116), Group(7, 147, 117)]
    case 30 => [Group(5, 145, 115), Group(10, 146, 116)]
    case 31 => [Group(13, 145, 115), Group(3, 146, 116)]
    case 32 => [Group(17, 145, 115)]
    case 33 => [Group(17, 145, 115), Group(1, 146, 116)]
    case 34 => [Group(13, 145, 115), Group(6, 146, 116)]
    case 35 => [Group(12, 151, 121), Group(7, 152, 122)]
    case 36 => [Group(6, 151, 121), Group(14, 152, 122)]
    case 37 => [Group(17, 152, 122), Group(4, 153, 123)]
    case 38 => [Group(4, 152, 122), Group(18, 153, 123)]
    case 39 => [Group(20, 147, 117), Group(4, 148, 118)]
    case _ => [Group(19, 148, 118), Group(6, 149, 119)]
  }

  function RowM(typeNumber: nat): seq<Group>
    requires 1 <= typeNumber <= 40
  {
    match typeNumber
    case 1 => [Group(1, 26, 16)]
    case 2 => [Group(1, 44, 28)]
    case 3 => [Group(1, 70, 44)]
    case 4 => [Group(2, 50, 32)]
    case 5 => [Group(2, 67, 43)]
    case 6 => [Group(4, 43, 27)]
    case 7 => [Group(4, 49, 31)]
    case 8 => [Group(2, 60, 38), Group(2, 61, 39)]
    case 9 => [Group(3, 58, 36), Group(2, 59, 37)]
    case 10 => [Group(4, 69, 43), Group(1, 70, 44)]
    case 11 => [Group(1, 80, 50), Group(4, 81, 51)]
    case 12 => [Group(6, 58, 36), Group(2, 59, 37)]
    case 13 => [Group(8, 59, 37), Group(1, 60, 38)]
    case 14 => [Group(4, 64, 40), Group(5, 65, 41)]
    case 15 => [Group(5, 65, 41), Group(5, 66, 42)]
    case 16 => [Group(7, 73, 45), Group(3, 74, 46)]
    case 17 => [Group(10, 74, 46), Group(1, 75, 47)]
    case 18 => [Group(9, 69, 43), Group(4, 70, 44)]
    case 19 => [Group(3, 70, 44), Group(11, 71, 45)]
    case 20 => [Group(3, 67, 41), Group(13, 68, 42)]
    case 21 => [Group(17, 68, 42)]
    case 22 => [Group(17, 74, 46)]
    case 23 => [Group(4, 75, 47), Group(14, 76, 48)]
    case 24 => [Group(6, 73, 45), Group(14, 74, 46)]
    case 25 => [Group(8, 75, 47), Group(13, 76, 48)]
    case 26 => [Group(19, 74, 46), Group(4, 75, 47)]
    case 27 => [Group(22, 73, 45), Group(3, 74, 46)]
    case 28 => [Group(3, 73, 45), Group(23, 74, 46)]
    case 29 => [Group(21, 73, 45), Group(7, 74, 46)]
    case 30 => [Group(19, 75, 47), Group(10, 76, 48)]
    case 31 => [Group(2, 74, 46), Group(29, 75, 47)]
    case 32 => [Group(10, 74, 46), Group(23, 75, 47)]
    case 33 => [Group(14, 74, 46), Group(21, 75, 47)]
    case 34 => [Group(14, 74, 46), Group(23, 75, 47)]
    case 35 => [Group(12, 75, 47), Group(26, 76, 48)]
    case 36 => [Group(6, 75, 47), Group(34, 76, 48)]
    case 37 => [Group(29, 74, 46), Group(14, 75, 47)]
    case 38 => [Group(13, 74, 46), Group(32, 75, 47)]
    case 39 => [Group(40, 75, 47), Group(7, 76, 48)]
    case _ => [Group(18, 75, 47), Group(31, 76, 48)]
  }

  function RowQ(typeNumber: nat): seq<Group>
    requires 1 <= typeNumber <= 40
  {
    match typeNumber
    case 1 => [Group(1, 26, 13)]
    case 2 => [Group(1, 44, 22)]
    case 3 => [Group(2, 35, 17)]
    case 4 => [Group(2, 50, 24)]
    case 5 => [Group(2, 33, 15), Group(2, 34, 16)]
    case 6 => [Group(4, 43, 19)]
    case 7 => [Group(2, 32, 14), Group(4, 33, 15)]
    case 8 => [Group(4, 40, 18), Group(2, 41, 19)]
    case 9 => [Group(4, 36, 16), Group(4, 37, 17)]
    case 10 => [Group(6, 43, 19), Group(2, 44, 20)]
    case 11 => [Group(4, 50, 22), Group(4, 51, 23)]
    case 12 => [Group(4, 46, 20), Group(6, 47, 21)]
    case 13 => [Group(8, 44, 20), Group(4, 45, 21)]
    case 14 => [Group(11, 36, 16), Group(5, 37, 17)]
    case 15 => [Group(5, 54, 24), Group(7, 55, 25)]
    case 16 => [Group(15, 43, 19), Group(2, 44, 20)]
    case 17 => [Group(1, 50, 22), Group(15, 51, 23)]
    case 18 => [Group(17, 50, 22), Group(1, 51, 23)]
    case 19 => [Group(17, 47, 21), Group(4, 48, 22)]
    case 20 => [Group(15, 54, 24), Group(5, 55, 25)]
    case 21 => [Group(17, 50, 22), Group(6, 51, 23)]
    case 22 => [Group(7, 54, 24), Group(16, 55, 25)]
    case 23 => [Group(11, 54, 24), Group(14, 55, 25)]
    case 24 => [Group(11, 54, 24), Group(16, 55, 25)]
    case 25 => [Group(7, 54, 24), Group(22, 55, 25)]
    case 26 => [Group(28, 50, 22), Group(6, 51, 23)]
    case 27 => [Group(8, 53, 23), Group(26, 54, 24)]
    case 28 => [Group(4, 54, 24), Group(31, 55, 25)]
    case 29 => [Group(1, 53, 23), Group(37, 54, 24)]
    case 30 => [Group(15, 54, 24), Group(25, 55, 25)]
    case 31 => [Group(42, 54, 24), Group(1, 55, 25)]
    case 32 => [Group(10, 54, 24), Group(35, 55, 25)]
    case 33 => [Group(29, 54, 24), Group(19, 55, 25)]
    case 34 => [Group(44, 54, 24), Group(7, 55, 25)]
    case 35 => [Group(39, 54, 24), Group(14, 55, 25)]
    case 36 => [Group(46, 54, 24), Group(10, 55, 25)]
    case 37 => [Group(49, 54, 24), Group(10, 55, 25)]
    case 38 => [Group(48, 54, 24), Group(14, 55, 25)]
    case 39 => [Group(43, 54, 24), Group(22, 55, 25)]
    case _ => [Group(34, 54, 24), Group(34, 55, 25)]
  }

  function RowH(typeNumber: nat): seq<Group>
    requires 1 <= typeNumber <= 40
  {
    match typeNumber
    case 1 => [Group(1, 26, 9)]
    case 2 => [Group(1, 44, 16)]
    case 3 => [Group(2, 35, 13)]
    case 4 => [Group(4, 25, 9)]
    case 5 => [Group(2, 33, 11), Group(2, 34, 12)]
    case 6 => [Group(4, 43, 15)]
    case 7 => [Group(4, 39, 13), Group(1, 40, 14)]
    case 8 => [Group(4, 40, 14), Group(2, 41, 15)]
    case 9 => [Group(4, 36, 12), Group(4, 37, 13)]
    case 10 => [Group(6, 43, 15), Group(2, 44, 16)]
    case 11 => [Group(3, 36, 12), Group(8, 37, 13)]
    case 12 => [Group(7, 42, 14), Group(4, 43, 15)]
    case 13 => [Group(12, 33, 11), Group(4, 34, 12)]
    case 14 => [Group(11, 36, 12), Group(5, 37, 13)]
    case 15 => [Group(11, 36, 12), Group(7, 37, 13)]
    case 16 => [Group(3, 45, 15), Group(13, 46, 16)]
    case 17 => [Group(2, 42, 14), Group(17, 43, 15)]
    case 18 => [Group(2, 42, 14), Group(19, 43, 15)]
    case 19 => [Group(9, 39, 13), Group(16, 40, 14)]
    case 20 => [Group(15, 43, 15), Group(10, 44, 16)]
    case 21 => [Group(19, 46, 16), Group(6, 47, 17)]
    case 22 => [Group(34, 37, 13)]
    case 23 => [Group(16, 45, 15), Group(14, 46, 16)]
    case 24 => [Group(30, 46, 16), Group(2, 47, 17)]
    case 25 => [Group(22, 45, 15), Group(13, 46, 16)]
    case 26 => [Group(33, 46, 16), Group(4, 47, 17)]
    case 27 => [Group(12, 45, 15), Group(28, 46, 16)]
    case 28 => [Group(11, 45, 15), Group(31, 46, 16)]
    case 29 => [Group(19, 45, 15), Group(26, 46, 16)]
    case 30 => [Group(23, 45, 15), Group(25, 46, 16)]
    case 31 => [Group(23, 45, 15), Group(28, 46, 16)]
    case 32 => [Group(19, 45, 15), Group(35, 46, 16)]
    case 33 => [Group(11, 45, 15), Group(46, 46, 16)]
    case 34 => [Group(59, 46, 16), Group(1, 47, 17)]
    case 35 => [Group(22, 45, 15), Group(41, 46, 16)]
    case 36 => [Group(2, 45, 15), Group(64, 46, 16)]
    case 37 => [Group(24, 45, 15), Group(46, 46, 16)]
    case 38 => [Group(42, 45, 15), Group(32, 46, 16)]
    case 39 => [Group(10, 45, 15), Group(67, 46, 16)]
    case _ => [Group(20, 45, 15), Group(61, 46, 16)]
  }

  /** RS_BLOCK_TABLE, level by level. */
  function RsBlockRow(typeNumber: nat, level: Level): seq<Group>
    requires 1 <= typeNumber <= 40
  {
    match level
    case L => RowL(typeNumber)
    case M => RowM(typeNumber)
    case Q => RowQ(typeNumber)
    case H => RowH(typeNumber)
  }

  function Repeat(block: RsBlock, count: nat): seq<RsBlock> {
    seq(count, i => block)
  }

  function Expanded(row: seq<Group>): seq<RsBlock> {
    if row == [] then []
    else
      var last := row[|row| - 1];
      Expanded(row[..|row| - 1]) + Repeat(last.Block(), last.count)
  }

  function RsBlocks(typeNumber: nat, level: Level): seq<RsBlock>
    requires 1 <= typeNumber <= 40
  {
    Expanded(RsBlockRow(typeNumber, level))
  }

  /** getRSBlocks */
  method GetRsBlocks(typeNumber: nat, level: Level) returns (list: seq<RsBlock>)
    requires 1 <= typeNumber <= 40
    ensures list == RsBlocks(typeNumber, level)
  {
    hide RsBlockRow;
    var row := RsBlockRow(typeNumber, level);
    list := [];
    for i := 0 to |row|
      invariant list == Expanded(row[..i])
    {
      ghost var before := list;
      var block := row[i].Block();
      for j := 0 to row[i].count
        invariant list == before + Repeat(block, j)
      {
        list := list + [block];
      }
      assert row[..i + 1][..i] == row[..i];
    }
    assert row[..|row|] == row;
  }

  // ---- what a row adds up to

  /** One or two groups of valid blocks that fill the symbol but for less than a byte. */
  predicate GoodRow(row: seq<Group>, typeNumber: nat) {
    && 1 <= |row| <= 2 && row[0].Block().Valid() && (|row| == 2 ==> row[1].Block().Valid())
    && row[0].totalCount <= 255 && (|row| == 2 ==> row[1].totalCount <= 255)
    && (var total := row[0].count * row[0].totalCount + if |row| == 1 then 0 else row[1].count * row[1].totalCount;
        8 * total <= Capacity(4 * typeNumber + 17, PositionCount(typeNumber)) < 8 * total + 8)
    && (var data := row[0].count * row[0].dataCount + if |row| == 1 then 0 else row[1].count * row[1].dataCount;
        data < if typeNumber < 10 then 256 else 65536)
  }

  lemma LowerRowsL(typeNumber: nat)
    requires 1 <= typeNumber <= 20
    ensures GoodRow(RowL(typeNumber), typeNumber)
  {
  }

  lemma UpperRowsL(typeNumber: nat)
    requires 20 < typeNumber <= 40
    ensures GoodRow(RowL(typeNumber), typeNumber)
  {
  }

  lemma LowerRowsM(typeNumber: nat)
    requires 1 <= typeNumber <= 20
    ensures GoodRow(RowM(typeNumber), typeNumber)
  {
  }

  lemma UpperRowsM(typeNumber: nat)
    requires 20 < typeNumber <= 40
    ensures GoodRow(RowM(typeNumber), typeNumber)
  {
  }

  lemma LowerRowsQ(typeNumber: nat)
    requires 1 <= typeNumber <= 20
    ensures GoodRow(RowQ(typeNumber), typeNumber)
  {
  }

  lemma UpperRowsQ(typeNumber: nat)
    requires 20 < typeNumber <= 40
    ensures GoodRow(RowQ(typeNumber), typeNumber)
  {
  }

  lemma LowerRowsH(typeNumber: nat)
    requires 1 <= typeNumber <= 20
    ensures GoodRow(RowH(typeNumber), typeNumber)
  {
  }

  lemma UpperRowsH(typeNumber: nat)
    requires 20 < typeNumber <= 40
    ensures GoodRow(RowH(typeNumber), typeNumber)
  {
  }

  lemma RowsAreGood(typeNumber: nat, level: Level)
    requires 1 <= typeNumber <= 40
    ensures GoodRow(RsBlockRow(typeNumber, level), typeNumber)
  {
    hide GoodRow, RowL, RowM, RowQ, RowH;
    match level
    case L => if typeNumber <= 20 { LowerRowsL(typeNumber); } else { UpperRowsL(typeNumber); }
    case M => if typeNumber <= 20 { LowerRowsM(typeNumber); } else { UpperRowsM(typeNumber); }
    case Q => if typeNumber <= 20 { LowerRowsQ(typeNumber); } else { UpperRowsQ(typeNumber); }
    case H => if typeNumber <= 20 { LowerRowsH(typeNumber); } else { UpperRowsH(typeNumber); }
  }

  lemma {:induction false} SumAppend(a: seq<nat>, b: seq<nat>)
    ensures Sum(a + b) == Sum(a) + Sum(b)
  {
    if b == [] {
      assert a + b == a;
    } else {
      assert (a + b)[..|a + b| - 1] == a + b[..|b| - 1];
      SumAppend(a, b[..|b| - 1]);
    }
  }

  lemma {:induction false} SumRepeat(block: RsBlock, count: nat)
    ensures Sum(TotalCounts(Repeat(block, count))) == count * block.totalCount
    ensures Sum(DataCounts(Repeat(block, count))) == count * block.dataCount
  {
    if count > 0 {
      SumRepeat(block, count - 1);
      assert TotalCounts(Repeat(block, count))[..count - 1] == TotalCounts(Repeat(block, count - 1));
      assert DataCounts(Repeat(block, count))[..count - 1] == DataCounts(Repeat(block, count - 1));
    }
  }

  lemma SumsAppend(a: seq<RsBlock>, b: seq<RsBlock>)
    ensures Sum(TotalCounts(a + b)) == Sum(TotalCounts(a)) + Sum(TotalCounts(b))
    ensures Sum(DataCounts(a + b)) == Sum(DataCounts(a)) + Sum(DataCounts(b))
  {
    assert TotalCounts(a + b) == TotalCounts(a) + TotalCounts(b);
    assert DataCounts(a + b) == DataCounts(a) + DataCounts(b);
    SumAppend(TotalCounts(a), TotalCounts(b));
    SumAppend(DataCounts(a), DataCounts(b));
  }

  /** The blocks of one more group. */
  lemma GroupSums(row: seq<Group>)
    requires row != []
    ensures var front, last := row[..|row| - 1], row[|row| - 1];
            && Sum(TotalCounts(Expanded(row))) == Sum(TotalCounts(Expanded(front))) + last.count * last.totalCount
            && Sum(DataCounts(Expanded(row))) == Sum(DataCounts(Expanded(front))) + last.count * last.dataCount
  {
    var front, last := row[..|row| - 1], row[|row| - 1];
    SumsAppend(Expanded(front), Repeat(last.Block(), last.count));
    SumRepeat(last.Block(), last.count);
  }

  lemma GoodRowSums(row: seq<Group>, typeNumber: nat)
    requires GoodRow(row, typeNumber)
    ensures forall q :: 0 <= q < |Expanded(row)| ==> Expanded(row)[q].Valid() && Expanded(row)[q].totalCount <= 255
    ensures var total := Sum(TotalCounts(Expanded(row)));
            8 * total <= Capacity(4 * typeNumber + 17, PositionCount(typeNumber)) < 8 * total + 8
    ensures Sum(DataCounts(Expanded(row))) < if typeNumber < 10 then 256 else 65536
  {
    hide Capacity;
    assert Expanded([]) == [] && row[..1][..0] == [];
    GroupSums(row[..1]);
    if |row| == 2 {
      GroupSums(row);
    } else {
      assert row[..1] == row;
    }
  }

  lemma WidthHolds(typeNumber: nat)
    requires 1 <= typeNumber
    ensures Pow2(LengthInBits(typeNumber)) == if typeNumber < 10 then 256 else 65536
  {
    Pow2Octet();
    PowSum(8, 8);
  }

  lemma {:induction false} PowSum(a: nat, b: nat)
    ensures Pow2(a + b) == Pow2(a) * Pow2(b)
  {
    if b > 0 {
      PowSum(a, b - 1);
    }
  }

  /**
    Every version and level: valid blocks of at most 255 bytes, alignment patterns that keep clear of the probe
    patterns, codewords that fill the free modules but for at most seven, and a length field that can hold the
    data bytes.
  */
  lemma VersionFits(typeNumber: nat, level: Level)
    requires 1 <= typeNumber <= 40
    ensures forall q :: 0 <= q < |RsBlocks(typeNumber, level)| ==>
              RsBlocks(typeNumber, level)[q].Valid() && RsBlocks(typeNumber, level)[q].totalCount <= 255
    ensures PositionTable(PatternPosition(typeNumber), ModuleCount(typeNumber))
    ensures var total := Sum(TotalCounts(RsBlocks(typeNumber, level)));
            8 * total <= FreeModules(ModuleCount(typeNumber), PatternPosition(typeNumber)) < 8 * total + 8
    ensures Sum(DataCounts(RsBlocks(typeNumber, level))) < Pow2(LengthInBits(typeNumber))
  {
    hide PositionTable, GoodRow, RsBlockRow, PatternPosition, FreeModules, Capacity, Expanded, Pow2;
    PositionsSpan(typeNumber);
    RowsAreGood(typeNumber, level);
    GoodRowSums(RsBlockRow(typeNumber, level), typeNumber);
    FreeModulesAre(ModuleCount(typeNumber), PatternPosition(typeNumber));
    WidthHolds(typeNumber);
  }
}
