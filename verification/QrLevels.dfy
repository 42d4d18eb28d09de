/** What levels and blocks of the table are for: stronger levels hold less data, and shorter blocks come first. */
module QrLevels {
  import opened CodewordBlocks
  import opened QrTables

  /** The data bytes of a row, group by group. */
  function DataOf(row: seq<Group>): nat {
    if row == [] then 0
    else row[0].count * row[0].dataCount + if |row| == 1 then 0 else row[1].count * row[1].dataCount
  }

  /** The blocks of the second group have one data byte more. */
  predicate Steady(row: seq<Group>) {
    && 1 <= |row| <= 2 && row[0].count > 0 && row[0].dataCount < row[0].totalCount
    && (|row| == 2 ==> row[1].count > 0 && row[1].totalCount == row[0].totalCount + 1
                       && row[1].dataCount == row[0].dataCount + 1)
  }

  lemma LowerLOverM(typeNumber: nat)
    requires 1 <= typeNumber <= 20
    ensures DataOf(RowL(typeNumber)) > DataOf(RowM(typeNumber)) && Steady(RowL(typeNumber))
  {
  }

  lemma UpperLOverM(typeNumber: nat)
    requires 21 <= typeNumber <= 40
    ensures DataOf(RowL(typeNumber)) > DataOf(RowM(typeNumber)) && Steady(RowL(typeNumber))
  {
  }

  lemma LowerMOverQ(typeNumber: nat)
    requires 1 <= typeNumber <= 20
    ensures DataOf(RowM(typeNumber)) > DataOf(RowQ(typeNumber)) && Steady(RowM(typeNumber))
  {
  }

  lemma UpperMOverQ(typeNumber: nat)
    requires 21 <= typeNumber <= 40
    ensures DataOf(RowM(typeNumber)) > DataOf(RowQ(typeNumber)) && Steady(RowM(typeNumber))
  {
  }

  lemma LowerQOverH(typeNumber: nat)
    requires 1 <= typeNumber <= 20
    ensures DataOf(RowQ(typeNumber)) > DataOf(RowH(typeNumber)) && Steady(RowQ(typeNumber)) && Steady(RowH(typeNumber))
  {
  }

  lemma HigherQOverH(typeNumber: nat)
    requires 21 <= typeNumber <= 30
    ensures DataOf(RowQ(typeNumber)) > DataOf(RowH(typeNumber)) && Steady(RowQ(typeNumber)) && Steady(RowH(typeNumber))
  {
  }

  lemma HighestQOverH(typeNumber: nat)
    requires 31 <= typeNumber <= 40
    ensures DataOf(RowQ(typeNumber)) > DataOf(RowH(typeNumber)) && Steady(RowQ(typeNumber)) && Steady(RowH(typeNumber))
  {
  }

  lemma RowsInOrder(typeNumber: nat)
    requires 1 <= typeNumber <= 40
    ensures DataOf(RowL(typeNumber)) > DataOf(RowM(typeNumber)) > DataOf(RowQ(typeNumber)) > DataOf(RowH(typeNumber))
    ensures Steady(RowL(typeNumber)) && Steady(RowM(typeNumber)) && Steady(RowQ(typeNumber)) && Steady(RowH(typeNumber))
  {
    hide DataOf, Steady, RowL, RowM, RowQ, RowH;
    if typeNumber <= 20 {
      LowerLOverM(typeNumber);
      LowerMOverQ(typeNumber);
      LowerQOverH(typeNumber);
    } else {
      UpperLOverM(typeNumber);
      UpperMOverQ(typeNumber);
      if typeNumber <= 30 {
        HigherQOverH(typeNumber);
      } else {
        HighestQOverH(typeNumber);
      }
    }
  }

  lemma DataOfRow(row: seq<Group>)
    requires 1 <= |row| <= 2
    ensures Sum(DataCounts(Expanded(row))) == DataOf(row)
  {
    assert Expanded([]) == [] && row[..1][..0] == [];
    GroupSums(row[..1]);
    if |row| == 2 {
      GroupSums(row);
    } else {
      assert row[..1] == row;
    }
  }

  lemma SteadyIsShort(row: seq<Group>)
    requires Steady(row)
    ensures 1 <= |row| <= 2
  {
  }

  /** In every version L leaves the most room for data, then M, then Q, then H. */
  lemma StrongerHoldsLess(typeNumber: nat)
    requires 1 <= typeNumber <= 40
    ensures Sum(DataCounts(RsBlocks(typeNumber, L))) > Sum(DataCounts(RsBlocks(typeNumber, M)))
            > Sum(DataCounts(RsBlocks(typeNumber, Q))) > Sum(DataCounts(RsBlocks(typeNumber, H)))
  {
    hide DataOf, Steady, RowL, RowM, RowQ, RowH, Expanded, Sum;
    RowsInOrder(typeNumber);
    SteadyIsShort(RowL(typeNumber));
    SteadyIsShort(RowM(typeNumber));
    SteadyIsShort(RowQ(typeNumber));
    SteadyIsShort(RowH(typeNumber));
    DataOfRow(RowL(typeNumber));
    DataOfRow(RowM(typeNumber));
    DataOfRow(RowQ(typeNumber));
    DataOfRow(RowH(typeNumber));
  }

  lemma ExpandedAre(row: seq<Group>)
    requires 1 <= |row| <= 2
    ensures Expanded(row) == Repeat(row[0].Block(), row[0].count)
                             + if |row| == 1 then [] else Repeat(row[1].Block(), row[1].count)
  {
    assert Expanded([]) == [] && row[..1][..0] == [];
    assert Expanded(row[..1]) == Expanded([]) + Repeat(row[0].Block(), row[0].count);
    if |row| == 1 {
      assert row[..1] == row;
    }
  }

  /** The blocks of a symbol have the same number of correction bytes, and the shorter ones come first. */
  lemma ShorterBlocksFirst(typeNumber: nat, level: Level, i: nat, j: nat)
    requires 1 <= typeNumber <= 40 && i < j < |RsBlocks(typeNumber, level)|
    ensures var a, b := RsBlocks(typeNumber, level)[i], RsBlocks(typeNumber, level)[j];
            && 0 < a.EcCount() == b.EcCount()
            && a.dataCount <= b.dataCount <= a.dataCount + 1
  {
    hide Expanded, RowL, RowM, RowQ, RowH;
    RowsInOrder(typeNumber);
    ExpandedAre(RsBlockRow(typeNumber, level));
  }

  /** As in version 5, level Q: two blocks of 15 data bytes, then two of 16, with 18 correction bytes each. */
  lemma KnownBlocks()
    ensures RsBlocks(5, Q) == [RsBlock(33, 15), RsBlock(33, 15), RsBlock(34, 16), RsBlock(34, 16)]
  {
    hide Expanded;
    ExpandedAre(RowQ(5));
  }
}
