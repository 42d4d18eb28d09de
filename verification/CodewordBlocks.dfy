/**
  createBytes: the data bytes are cut into blocks, every block gets its error correction bytes, and
  the blocks are interleaved column by column (section 7.6 of ISO/IEC 18004:2015). The contract is
  stated for a reader who knows only the block lengths.
*/
module CodewordBlocks {
  import opened Gf256
  import opened ReedSolomon

  datatype RsBlock = RsBlock(totalCount: nat, dataCount: nat) {
    predicate Valid() {
      dataCount <= totalCount && totalCount - dataCount < 255
    }

    function EcCount(): nat {
      if dataCount <= totalCount then totalCount - dataCount else 0
    }
  }

  // ---- interleaving and its reader

  /** The entries at position i of the rows that are long enough, top to bottom. */
  function Column<T>(rows: seq<seq<T>>, i: nat): seq<T> {
    if rows == [] then []
    else
      var last := rows[|rows| - 1];
      Column(rows[..|rows| - 1], i) + if i < |last| then [last[i]] else []
  }

  /** The first n columns, left to right. */
  function Interleave<T>(rows: seq<seq<T>>, n: nat): seq<T> {
    if n == 0 then [] else Interleave(rows, n - 1) + Column(rows, n - 1)
  }

  function Lengths<T>(rows: seq<seq<T>>): seq<nat> {
    seq(|rows|, r requires 0 <= r < |rows| => |rows[r]|)
  }

  function Sum(lens: seq<nat>): nat {
    if lens == [] then 0 else Sum(lens[..|lens| - 1]) + lens[|lens| - 1]
  }

  function Longest(lens: seq<nat>): (m: nat)
    ensures forall r :: 0 <= r < |lens| ==> lens[r] <= m
  {
    if lens == [] then 0
    else
      var m := Longest(lens[..|lens| - 1]);
      if m < lens[|lens| - 1] then lens[|lens| - 1] else m
  }

  /** How many rows reach column i. */
  function ColumnSize(lens: seq<nat>, i: nat): nat {
    if lens == [] then 0
    else ColumnSize(lens[..|lens| - 1], i) + if i < lens[|lens| - 1] then 1 else 0
  }

  function ColumnStart(lens: seq<nat>, i: nat): nat {
    if i == 0 then 0 else ColumnStart(lens, i - 1) + ColumnSize(lens, i - 1)
  }

  /** Where a reader finds byte i of block r. */
  function Locate(lens: seq<nat>, r: nat, i: nat): nat
    requires r < |lens|
  {
    ColumnStart(lens, i) + ColumnSize(lens[..r], i)
  }

  function Deinterleave<T>(lens: seq<nat>, stream: seq<T>): (rows: seq<seq<T>>)
    requires forall r, i :: 0 <= r < |lens| && 0 <= i < lens[r] ==> Locate(lens, r, i) < |stream|
  {
    seq(|lens|, r requires 0 <= r < |lens| =>
      seq(lens[r], i requires 0 <= i < lens[r] => stream[Locate(lens, r, i)]))
  }

  lemma {:induction false} ColumnLength<T>(rows: seq<seq<T>>, i: nat)
    ensures |Column(rows, i)| == ColumnSize(Lengths(rows), i)
  {
    if rows != [] {
      ColumnLength(rows[..|rows| - 1], i);
      assert Lengths(rows)[..|rows| - 1] == Lengths(rows[..|rows| - 1]);
    }
  }

  lemma {:induction false} InterleaveLength<T>(rows: seq<seq<T>>, n: nat)
    ensures |Interleave(rows, n)| == ColumnStart(Lengths(rows), n)
  {
    if n > 0 {
      InterleaveLength(rows, n - 1);
      ColumnLength(rows, n - 1);
    }
  }

  lemma {:induction false} ColumnEntry<T>(rows: seq<seq<T>>, r: nat, i: nat)
    requires r < |rows| && i < |rows[r]|
    ensures ColumnSize(Lengths(rows)[..r], i) < |Column(rows, i)|
    ensures Column(rows, i)[ColumnSize(Lengths(rows)[..r], i)] == rows[r][i]
  {
    var front := rows[..|rows| - 1];
    if r < |rows| - 1 {
      ColumnEntry(front, r, i);
      assert Lengths(rows)[..r] == Lengths(front)[..r];
    } else {
      assert Lengths(rows)[..r] == Lengths(front);
      ColumnLength(front, i);
    }
  }

  lemma {:induction false} InterleavePrefix<T>(rows: seq<seq<T>>, m: nat, n: nat)
    requires m <= n
    ensures Interleave(rows, m) <= Interleave(rows, n)
  {
    if m < n {
      InterleavePrefix(rows, m, n - 1);
    }
  }

  lemma InterleaveStep<T>(rows: seq<seq<T>>, i: nat)
    ensures i == 0 ==> Interleave(rows, i) == []
    ensures i > 0 ==> Interleave(rows, i) == Interleave(rows, i - 1) + Column(rows, i - 1)
  {
  }

  lemma InterleaveEntry<T>(rows: seq<seq<T>>, n: nat, r: nat, i: nat)
    requires r < |rows| && i < |rows[r]| && i < n
    ensures Locate(Lengths(rows), r, i) < |Interleave(rows, n)|
    ensures Interleave(rows, n)[Locate(Lengths(rows), r, i)] == rows[r][i]
  {
    hide Interleave, Column, ColumnSize, ColumnStart;
    var left, column, whole := Interleave(rows, i), Column(rows, i), Interleave(rows, n);
    InterleaveStep(rows, i + 1);
    var k := ColumnSize(Lengths(rows)[..r], i);
    InterleaveLength(rows, i);
    ColumnEntry(rows, r, i);
    InterleavePrefix(rows, i + 1, n);
    assert left + column <= whole;
    assert whole[|left| + k] == (left + column)[|left| + k] == column[k];
  }

  /** De-interleaving undoes interleaving, also with blocks of unequal lengths. */
  lemma DeinterleaveInterleave<T>(rows: seq<seq<T>>, n: nat)
    requires Longest(Lengths(rows)) <= n
    ensures forall r, i :: 0 <= r < |rows| && 0 <= i < |rows[r]| ==> Locate(Lengths(rows), r, i) < |Interleave(rows, n)|
    ensures Deinterleave(Lengths(rows), Interleave(rows, n)) == rows
  {
    var lens, stream := Lengths(rows), Interleave(rows, n);
    forall r, i | 0 <= r < |rows| && 0 <= i < |rows[r]|
      ensures Locate(lens, r, i) < |stream| && stream[Locate(lens, r, i)] == rows[r][i]
    {
      assert lens[r] <= n;
      InterleaveEntry(rows, n, r, i);
    }
    var back := Deinterleave(lens, stream);
    forall r | 0 <= r < |rows| ensures back[r] == rows[r] {
      assert |back[r]| == lens[r] == |rows[r]|;
    }
  }

  function Capped(lens: seq<nat>, n: nat): seq<nat> {
    seq(|lens|, r requires 0 <= r < |lens| => if lens[r] < n then lens[r] else n)
  }

  /** Counting by rows and by columns agrees. */
  lemma {:induction false} ColumnStep(lens: seq<nat>, n: nat)
    ensures Sum(Capped(lens, n + 1)) == Sum(Capped(lens, n)) + ColumnSize(lens, n)
  {
    if lens != [] {
      var front := lens[..|lens| - 1];
      ColumnStep(front, n);
      assert Capped(lens, n)[..|lens| - 1] == Capped(front, n);
      assert Capped(lens, n + 1)[..|lens| - 1] == Capped(front, n + 1);
    }
  }

  lemma {:induction false} ColumnsBySum(lens: seq<nat>, n: nat)
    ensures ColumnStart(lens, n) == Sum(Capped(lens, n))
  {
    if n == 0 {
      SumOfZeros(Capped(lens, 0));
    } else {
      ColumnsBySum(lens, n - 1);
      ColumnStep(lens, n - 1);
    }
  }

  lemma {:induction false} SumOfZeros(lens: seq<nat>)
    requires forall r :: 0 <= r < |lens| ==> lens[r] == 0
    ensures Sum(lens) == 0
  {
    if lens != [] {
      SumOfZeros(lens[..|lens| - 1]);
    }
  }

  /** Interleaving all columns writes as many entries as the rows hold. */
  lemma InterleaveSize<T>(rows: seq<seq<T>>, n: nat)
    requires Longest(Lengths(rows)) <= n
    ensures |Interleave(rows, n)| == Sum(Lengths(rows))
  {
    InterleaveLength(rows, n);
    ColumnsBySum(Lengths(rows), n);
    assert Capped(Lengths(rows), n) == Lengths(rows);
  }

  // ---- every byte has one place, and every place one byte

  lemma {:induction false} RowsBefore(lens: seq<nat>, r: nat, s: nat, i: nat)
    requires r <= s <= |lens|
    ensures ColumnSize(lens[..r], i) <= ColumnSize(lens[..s], i)
    ensures r < s && i < lens[r] ==> ColumnSize(lens[..r], i) < ColumnSize(lens[..s], i)
    decreases s
  {
    if r < s {
      RowsBefore(lens, r, s - 1, i);
      assert lens[..s][..s - 1] == lens[..s - 1];
    }
  }

  lemma {:induction false} ColumnsBefore(lens: seq<nat>, i: nat, j: nat)
    requires i <= j
    ensures ColumnStart(lens, i) <= ColumnStart(lens, j)
    ensures i < j ==> ColumnStart(lens, i) + ColumnSize(lens, i) <= ColumnStart(lens, j)
  {
    if i < j {
      ColumnsBefore(lens, i, j - 1);
    }
  }

  /** Byte i of block r stands in its column, before the next one begins. */
  lemma LocateInColumn(lens: seq<nat>, r: nat, i: nat)
    requires r < |lens| && i < lens[r]
    ensures ColumnStart(lens, i) <= Locate(lens, r, i) < ColumnStart(lens, i) + ColumnSize(lens, i)
  {
    assert lens[..|lens|] == lens;
    RowsBefore(lens, r, |lens|, i);
  }

  /** No two bytes share a place. */
  lemma LocateInjective(lens: seq<nat>, r: nat, i: nat, s: nat, j: nat)
    requires r < |lens| && i < lens[r] && s < |lens| && j < lens[s]
    requires Locate(lens, r, i) == Locate(lens, s, j)
    ensures r == s && i == j
  {
    LocateInColumn(lens, r, i);
    LocateInColumn(lens, s, j);
    if i < j {
      ColumnsBefore(lens, i, j);
    } else if j < i {
      ColumnsBefore(lens, j, i);
    } else if r < s {
      RowsBefore(lens, r, s, i);
    } else if s < r {
      RowsBefore(lens, s, r, i);
    }
  }

  lemma {:induction false} RowAt(lens: seq<nat>, i: nat, k: nat) returns (r: nat)
    requires k < ColumnSize(lens, i)
    ensures r < |lens| && i < lens[r] && ColumnSize(lens[..r], i) == k
  {
    var n := |lens| - 1;
    if k < ColumnSize(lens[..n], i) {
      r := RowAt(lens[..n], i, k);
      assert lens[..n][..r] == lens[..r];
    } else {
      r := n;
    }
  }

  /** Every place holds some byte. */
  lemma {:induction false} LocateOnto(lens: seq<nat>, n: nat, k: nat) returns (r: nat, i: nat)
    requires k < ColumnStart(lens, n)
    ensures r < |lens| && i < lens[r] && Locate(lens, r, i) == k
  {
    if k < ColumnStart(lens, n - 1) {
      r, i := LocateOnto(lens, n - 1, k);
    } else {
      i := n - 1;
      r := RowAt(lens, i, k - ColumnStart(lens, i));
    }
  }

  /** The interleaved sequence holds each byte of each block once: places and bytes correspond one to one. */
  lemma EachByteOnce<T>(rows: seq<seq<T>>, n: nat, k: nat)
    requires Longest(Lengths(rows)) <= n && k < |Interleave(rows, n)|
    ensures exists r, i :: 0 <= r < |rows| && 0 <= i < |rows[r]| && Locate(Lengths(rows), r, i) == k
    ensures forall r: nat, i: nat, s: nat, j: nat | r < |rows| && i < |rows[r]| && s < |rows| && j < |rows[s]| ::
              Locate(Lengths(rows), r, i) == Locate(Lengths(rows), s, j) == k ==> r == s && i == j
    ensures forall r: nat, i: nat | r < |rows| && i < |rows[r]| ::
              Locate(Lengths(rows), r, i) == k ==> Interleave(rows, n)[k] == rows[r][i]
  {
    var lens := Lengths(rows);
    InterleaveLength(rows, n);
    var r0, i0 := LocateOnto(lens, n, k);
    assert i0 < |rows[r0]|;
    forall r: nat, i: nat, s: nat, j: nat | r < |rows| && i < |rows[r]| && s < |rows| && j < |rows[s]|
      && Locate(lens, r, i) == Locate(lens, s, j) == k ensures r == s && i == j {
      LocateInjective(lens, r, i, s, j);
    }
    forall r: nat, i: nat | r < |rows| && i < |rows[r]| && Locate(lens, r, i) == k
      ensures Interleave(rows, n)[k] == rows[r][i]
    {
      assert lens[r] <= n;
      InterleaveEntry(rows, n, r, i);
    }
  }

  // ---- createBytes

  function DataCounts(blocks: seq<RsBlock>): seq<nat> {
    seq(|blocks|, r requires 0 <= r < |blocks| => blocks[r].dataCount)
  }

  function EcCounts(blocks: seq<RsBlock>): seq<nat> {
    seq(|blocks|, r requires 0 <= r < |blocks| => blocks[r].EcCount())
  }

  function TotalCounts(blocks: seq<RsBlock>): seq<nat> {
    seq(|blocks|, r requires 0 <= r < |blocks| => blocks[r].totalCount)
  }

  /** `count` bytes of the buffer from `offset`; bytes past its end read as zero. */
  function Slice(buffer: seq<bv8>, offset: nat, count: nat): seq<bv8> {
    seq(count, i requires 0 <= i < count => if offset + i < |buffer| then buffer[offset + i] else 0)
  }

  /** The data bytes of block r. */
  function BlockData(buffer: seq<bv8>, blocks: seq<RsBlock>, r: nat): seq<bv8>
    requires r < |blocks|
  {
    Slice(buffer, Sum(DataCounts(blocks)[..r]), blocks[r].dataCount)
  }

  lemma PrefixStep(lens: seq<nat>, r: nat)
    requires r < |lens|
    ensures Sum(lens[..r + 1]) == Sum(lens[..r]) + lens[r]
    ensures Longest(lens[..r + 1]) == if Longest(lens[..r]) < lens[r] then lens[r] else Longest(lens[..r])
  {
    assert lens[..r + 1][..r] == lens[..r];
  }

  /** The bytes of the blocks split so far. */
  ghost predicate IsSplit(buffer: seq<bv8>, blocks: seq<RsBlock>, dcdata: seq<seq<bv8>>, ecdata: seq<seq<bv8>>) {
    && |dcdata| == |ecdata| <= |blocks|
    && (forall r :: 0 <= r < |dcdata| ==> |ecdata[r]| == blocks[r].EcCount())
    && (forall r :: 0 <= r < |dcdata| ==> dcdata[r] == BlockData(buffer, blocks, r))
    && (forall r :: 0 <= r < |dcdata| ==> IsCodeword(dcdata[r] + ecdata[r], blocks[r].EcCount()))
  }

  lemma IsSplitStep(buffer: seq<bv8>, blocks: seq<RsBlock>, dcs: seq<seq<bv8>>, ecs: seq<seq<bv8>>, dc: seq<bv8>,
                    ec: seq<bv8>)
    requires IsSplit(buffer, blocks, dcs, ecs) && |dcs| < |blocks|
    requires |ec| == blocks[|dcs|].EcCount() && dc == BlockData(buffer, blocks, |dcs|)
    requires IsCodeword(dc + ec, blocks[|dcs|].EcCount())
    ensures IsSplit(buffer, blocks, dcs + [dc], ecs + [ec])
  {
  }

  method SplitBlocks(math: QrMath, buffer: seq<bv8>, blocks: seq<RsBlock>)
    returns (dcdata: seq<seq<bv8>>, ecdata: seq<seq<bv8>>, maxDcCount: nat, maxEcCount: nat)
    requires math.Valid() && forall r :: 0 <= r < |blocks| ==> blocks[r].Valid()
    ensures IsSplit(buffer, blocks, dcdata, ecdata) && |dcdata| == |blocks|
    ensures maxDcCount == Longest(DataCounts(blocks)) && maxEcCount == Longest(EcCounts(blocks))
  {
    ghost var dcs, ecs := DataCounts(blocks), EcCounts(blocks);
    var offset := 0;
    maxDcCount, maxEcCount := 0, 0;
    dcdata, ecdata := [], [];
    for r := 0 to |blocks|
      invariant IsSplit(buffer, blocks, dcdata, ecdata) && |dcdata| == r
      invariant offset == Sum(dcs[..r])
      invariant maxDcCount == Longest(dcs[..r]) && maxEcCount == Longest(ecs[..r])
    {
      var dcCount := blocks[r].dataCount;
      var ecCount := blocks[r].totalCount - dcCount;
      PrefixStep(dcs, r);
      PrefixStep(ecs, r);
      maxDcCount := if maxDcCount < dcCount then dcCount else maxDcCount;
      maxEcCount := if maxEcCount < ecCount then ecCount else maxEcCount;
      var bytes := ReadBytes(buffer, offset, dcCount);
      offset := offset + dcCount;
      var ec := ErrorCorrection(math, bytes, ecCount);
      IsSplitStep(buffer, blocks, dcdata, ecdata, bytes, ec);
      dcdata, ecdata := dcdata + [bytes], ecdata + [ec];
    }
    assert dcs[..|blocks|] == dcs && ecs[..|blocks|] == ecs;
  }

  method ReadBytes(buffer: seq<bv8>, offset: nat, count: nat) returns (bytes: seq<bv8>)
    ensures bytes == Slice(buffer, offset, count)
  {
    bytes := [];
    for i := 0 to count
      invariant bytes == Slice(buffer, offset, i)
    {
      bytes := bytes + [if offset + i < |buffer| then buffer[offset + i] else 0];
    }
  }

  method WriteColumn(data: array<bv8>, start: nat, rows: seq<seq<bv8>>, i: nat) returns (index: nat)
    requires start + |Column(rows, i)| <= data.Length
    modifies data
    ensures index == start + |Column(rows, i)|
    ensures data[..index] == old(data[..start]) + Column(rows, i)
  {
    index := start;
    for r := 0 to |rows|
      invariant index == start + |Column(rows[..r], i)| <= data.Length
      invariant data[..index] == old(data[..start]) + Column(rows[..r], i)
    {
      assert rows[..r + 1][..r] == rows[..r];
      ColumnPrefix(rows, r + 1, i);
      if i < |rows[r]| {
        data[index] := rows[r][i];
        index := index + 1;
      }
    }
    assert rows[..|rows|] == rows;
  }

  lemma {:induction false} ColumnPrefix<T>(rows: seq<seq<T>>, r: nat, i: nat)
    requires r <= |rows|
    ensures |Column(rows[..r], i)| <= |Column(rows, i)|
    decreases |rows| - r
  {
    if r == |rows| {
      assert rows[..r] == rows;
    } else {
      assert rows[..r + 1][..r] == rows[..r];
      ColumnPrefix(rows, r + 1, i);
    }
  }

  /** One of the two interleaving loops: fills data from `start` with the columns of `rows`. */
  method WriteColumns(data: array<bv8>, start: nat, rows: seq<seq<bv8>>, max: nat) returns (index: nat)
    requires Longest(Lengths(rows)) <= max && start + Sum(Lengths(rows)) <= data.Length
    modifies data
    ensures index == start + Sum(Lengths(rows))
    ensures data[..index] == old(data[..start]) + Interleave(rows, max)
  {
    hide Interleave, Column, Sum, Longest;
    InterleaveSize(rows, max);
    InterleaveStep(rows, 0);
    index := start;
    for i := 0 to max
      invariant index == start + |Interleave(rows, i)| <= data.Length
      invariant data[..index] == old(data[..start]) + Interleave(rows, i)
    {
      InterleavePrefix(rows, i + 1, max);
      InterleaveStep(rows, i + 1);
      index := WriteColumn(data, index, rows, i);
      assert data[..index] == old(data[..start]) + (Interleave(rows, i) + Column(rows, i));
    }
  }

  lemma {:induction false} SumOfTotals(blocks: seq<RsBlock>)
    requires forall r :: 0 <= r < |blocks| ==> blocks[r].Valid()
    ensures Sum(TotalCounts(blocks)) == Sum(DataCounts(blocks)) + Sum(EcCounts(blocks))
  {
    if blocks != [] {
      var front := blocks[..|blocks| - 1];
      SumOfTotals(front);
      assert TotalCounts(blocks)[..|front|] == TotalCounts(front);
      assert DataCounts(blocks)[..|front|] == DataCounts(front);
      assert EcCounts(blocks)[..|front|] == EcCounts(front);
    }
  }

  /** What a reader recovers from the first codewords, and from the rest. */
  ghost predicate Recovers(lens: seq<nat>, stream: seq<bv8>, rows: seq<seq<bv8>>) {
    && |stream| == Sum(lens)
    && (forall r, i :: 0 <= r < |lens| && 0 <= i < lens[r] ==> Locate(lens, r, i) < |stream|)
    && Deinterleave(lens, stream) == rows
  }

  lemma InterleaveRecovers(lens: seq<nat>, rows: seq<seq<bv8>>)
    requires Lengths(rows) == lens
    ensures Recovers(lens, Interleave(rows, Longest(lens)), rows)
  {
    InterleaveSize(rows, Longest(lens));
    DeinterleaveInterleave(rows, Longest(lens));
  }

  method TotalCodewords(blocks: seq<RsBlock>) returns (totalCodeCount: nat)
    ensures totalCodeCount == Sum(TotalCounts(blocks))
  {
    totalCodeCount := 0;
    for i := 0 to |blocks|
      invariant totalCodeCount == Sum(TotalCounts(blocks)[..i])
    {
      assert TotalCounts(blocks)[..i + 1][..i] == TotalCounts(blocks)[..i];
      totalCodeCount := totalCodeCount + blocks[i].totalCount;
    }
    assert TotalCounts(blocks)[..|blocks|] == TotalCounts(blocks);
  }

  /**
    The codeword sequence is exactly as long as the blocks together, and a reader who de-interleaves
    it gets each block's data bytes back, followed by a tail that makes every syndrome zero.
  */
  method CreateBytes(math: QrMath, buffer: seq<bv8>, blocks: seq<RsBlock>)
    returns (codewords: seq<bv8>, ghost dcs: seq<seq<bv8>>, ghost ecs: seq<seq<bv8>>)
    requires math.Valid() && forall r :: 0 <= r < |blocks| ==> blocks[r].Valid()
    ensures |codewords| == Sum(TotalCounts(blocks)) == Sum(DataCounts(blocks)) + Sum(EcCounts(blocks))
    ensures Recovers(DataCounts(blocks), codewords[..Sum(DataCounts(blocks))], dcs)
    ensures Recovers(EcCounts(blocks), codewords[Sum(DataCounts(blocks))..], ecs)
    ensures IsSplit(buffer, blocks, dcs, ecs) && |dcs| == |blocks|
  {
    var dcdata, ecdata, maxDcCount, maxEcCount := SplitBlocks(math, buffer, blocks);
    var totalCodeCount := TotalCodewords(blocks);
    SumOfTotals(blocks);
    LengthsOfSplit(buffer, blocks, dcdata, ecdata);
    var data := new bv8[totalCodeCount];
    var index := WriteColumns(data, 0, dcdata, maxDcCount);
    index := WriteColumns(data, index, ecdata, maxEcCount);
    codewords, dcs, ecs := data[..], dcdata, ecdata;
    assert codewords == data[..index];
    InterleaveRecovers(DataCounts(blocks), dcdata);
    InterleaveRecovers(EcCounts(blocks), ecdata);
    TakeDrop(codewords, Interleave(dcdata, maxDcCount), Interleave(ecdata, maxEcCount));
  }

  lemma LengthsOfSplit(buffer: seq<bv8>, blocks: seq<RsBlock>, dcdata: seq<seq<bv8>>, ecdata: seq<seq<bv8>>)
    requires IsSplit(buffer, blocks, dcdata, ecdata) && |dcdata| == |blocks|
    ensures Lengths(dcdata) == DataCounts(blocks) && Lengths(ecdata) == EcCounts(blocks)
  {
  }

  lemma TakeDrop(whole: seq<bv8>, left: seq<bv8>, right: seq<bv8>)
    requires whole == [] + left + right
    ensures whole[..|left|] == left && whole[|left|..] == right
  {
  }
}
