/**
  The function patterns of a symbol (sections 6.3 and 7.9 of ISO/IEC 18004:2015), module by module: which
  modules of a version belong to a pattern, what each of them shows, and how many are left for data.
*/
module QrPatterns {
  import opened SymbolPath

  // ---- probe, alignment and timing patterns

  /** The three concentric squares of a probe pattern, with its light border. */
  function ProbeDark(r: int, c: int): bool {
    || (0 <= r <= 6 && (c == 0 || c == 6))
    || (0 <= c <= 6 && (r == 0 || r == 6))
    || (2 <= r <= 4 && 2 <= c <= 4)
  }

  predicate InSquare(row: int, col: int, lo: int, hi: int, at: (int, int)) {
    row + lo <= at.0 <= row + hi && col + lo <= at.1 <= col + hi
  }

  /** A corner with its light border. */
  predicate InFinder(n: nat, at: (int, int)) {
    InSquare(0, 0, -1, 7, at) || InSquare(n - 7, 0, -1, 7, at) || InSquare(0, n - 7, -1, 7, at)
  }

  function FinderCell(n: nat, at: (int, int)): Cell {
    if InSquare(0, n - 7, -1, 7, at) then Drawn(ProbeDark(at.0, at.1 - (n - 7)))
    else if InSquare(n - 7, 0, -1, 7, at) then Drawn(ProbeDark(at.0 - (n - 7), at.1))
    else if InSquare(0, 0, -1, 7, at) then Drawn(ProbeDark(at.0, at.1))
    else Null
  }

  /**
    The rows and columns of the alignment patterns of a version, as in the table of the standard: those
    of the probe patterns or well between them, and further apart than a pattern is wide.
  */
  predicate PositionTable(pos: seq<nat>, n: nat) {
    && (forall i :: 0 <= i < |pos| ==> pos[i] == 6 || pos[i] == n - 7 || 11 <= pos[i] <= n - 14)
    && (forall i, j :: 0 <= i < j < |pos| ==> pos[i] + 5 <= pos[j])
  }

  function AdjustDark(r: int, c: int): bool {
    r == -2 || r == 2 || c == -2 || c == 2 || (r == 0 && c == 0)
  }

  /** The module is in the alignment pattern at (row, col); the three in the corners give way to the probe patterns. */
  predicate InAlignmentAt(n: nat, row: int, col: int, at: (int, int)) {
    !InFinder(n, (row, col)) && InSquare(row, col, -2, 2, at)
  }

  ghost predicate InAlignment(n: nat, pos: seq<nat>, at: (int, int)) {
    exists i, j :: 0 <= i < |pos| && 0 <= j < |pos| && InAlignmentAt(n, pos[i], pos[j], at)
  }

  /** Outside the probe patterns and their borders. */
  predicate InTiming(n: nat, at: (int, int)) {
    (8 <= at.0 < n - 8 && at.1 == 6) || (8 <= at.1 < n - 8 && at.0 == 6)
  }

  function TimingDark(at: (int, int)): bool {
    if at.1 == 6 then at.0 % 2 == 0 else at.1 % 2 == 0
  }

  // ---- format and version bits

  /** Where format bit i goes in the vertical copy, and in the horizontal one. */
  function FormatV(n: nat, i: nat): (int, int) {
    if i < 6 then (i, 8) else if i < 8 then (i + 1, 8) else (n - 15 + i, 8)
  }

  function FormatH(n: nat, i: nat): (int, int) {
    if i < 8 then (8, n - i - 1) else if i < 9 then (8, 15 - i) else (8, 14 - i)
  }

  /** The two copies and the module that is always dark. */
  predicate FormatCell(n: nat, at: (int, int)) {
    || (at.1 == 8 && (0 <= at.0 <= 8 || n - 8 <= at.0 < n) && at.0 != 6)
    || (at.0 == 8 && (0 <= at.1 <= 8 || n - 8 <= at.1 < n) && at.1 != 6)
  }

  ghost predicate FormatDrawn(g: Grid, n: nat, test: bool, bits: seq<bool>) {
    && |bits| == 15
    && (forall k :: 0 <= k < 15 ==> Get(g, FormatV(n, k)) == Get(g, FormatH(n, k)) == Drawn(!test && bits[k]))
    && Get(g, (n - 8, 8)) == Drawn(!test)
  }

  /** Where version bit i goes in the upper right copy, and in the lower left one. */
  function VersionA(n: nat, i: nat): (int, int) {
    (i / 3, i % 3 + n - 8 - 3)
  }

  function VersionB(n: nat, i: nat): (int, int) {
    (i % 3 + n - 8 - 3, i / 3)
  }

  predicate VersionCell(n: nat, at: (int, int)) {
    || (0 <= at.0 < 6 && n - 11 <= at.1 < n - 8)
    || (0 <= at.1 < 6 && n - 11 <= at.0 < n - 8)
  }

  ghost predicate VersionDrawn(g: Grid, n: nat, test: bool, bits: seq<bool>) {
    && |bits| == 18
    && forall k :: 0 <= k < 18 ==>
         Get(g, VersionA(n, k)) == Get(g, VersionB(n, k)) == Drawn(!test && bits[k])
  }

  lemma FormatCellHasBit(n: nat, at: (int, int)) returns (k: nat)
    requires n >= 21 && FormatCell(n, at) && at != (n - 8, 8)
    ensures k < 15 && (FormatV(n, k) == at || FormatH(n, k) == at)
  {
    if at.1 == 8 {
      k := if at.0 < 6 then at.0 else if at.0 <= 8 then at.0 - 1 else at.0 - n + 15;
    } else {
      k := if at.1 >= n - 8 then n - 1 - at.1 else if at.1 == 7 then 8 else 14 - at.1;
    }
  }

  lemma VersionCellHasBit(n: nat, at: (int, int)) returns (k: nat)
    requires n >= 45 && VersionCell(n, at)
    ensures k < 18 && (VersionA(n, k) == at || VersionB(n, k) == at)
  {
    var q, r := if at.0 < 6 then at.0 else at.1, (if at.0 < 6 then at.1 else at.0) - (n - 11);
    k := 3 * q + r;
    assert k / 3 == q && k % 3 == r;
  }

  // ---- all patterns of a version

  /** Version bits are drawn from version 7 on, which has 45 modules a side. */
  ghost predicate PatternModule(n: nat, pos: seq<nat>, at: (int, int)) {
    || InFinder(n, at) || InAlignment(n, pos, at) || InTiming(n, at) || FormatCell(n, at)
    || (n >= 45 && VersionCell(n, at))
  }

  /** The pattern modules of a version marked, the others null: all a reader needs to know about patterns. */
  ghost function Reserved(n: nat, pos: seq<nat>): (g: Grid)
    ensures Square(g, n)
    ensures forall at: (int, int) :: Get(g, at) == Null <==> !(Inside(n, at) && PatternModule(n, pos, at))
  {
    seq(n, r requires 0 <= r < n =>
      seq(n, c requires 0 <= c < n => if PatternModule(n, pos, (r, c)) then Drawn(false) else Null))
  }

  /** The modules left for data. */
  ghost function FreeModules(n: nat, pos: seq<nat>): nat
    requires SymbolSize(n)
  {
    Free(Reserved(n, pos), Path(n))
  }

  /** The grid draws the patterns of the version and nothing else. */
  ghost predicate DrawsPatternModules(g: Grid, n: nat, pos: seq<nat>) {
    forall at: (int, int) :: Get(g, at) == Null <==> !(Inside(n, at) && PatternModule(n, pos, at))
  }

  /** Each pattern shows what it should; alignment patterns win over timing, and format and version meet neither. */
  ghost predicate ShowsPatterns(g: Grid, n: nat, pos: seq<nat>, test: bool, formatBits: seq<bool>,
                                versionBits: seq<bool>) {
    && ShowsFixed(g, n, pos)
    && FormatDrawn(g, n, test, formatBits)
    && (n >= 45 ==> VersionDrawn(g, n, test, versionBits))
  }

  /** A grid that agrees with another on every module the other has drawn shows the same patterns. */
  lemma PatternsSurvive(g: Grid, g': Grid, n: nat, pos: seq<nat>, test: bool, formatBits: seq<bool>,
                        versionBits: seq<bool>)
    requires ShowsPatterns(g, n, pos, test, formatBits, versionBits)
    requires forall at: (int, int) :: Get(g, at) != Null ==> Get(g', at) == Get(g, at)
    ensures ShowsPatterns(g', n, pos, test, formatBits, versionBits)
  {
    forall at: (int, int) | Inside(n, at) && InFinder(n, at) ensures Get(g', at) == FinderCell(n, at) {
      assert Get(g, at) == FinderCell(n, at);
    }
  }

  // ---- patterns keep clear of each other

  lemma AlignmentIsClear(n: nat, pos: seq<nat>, i: nat, j: nat, at: (int, int))
    requires n >= 21 && PositionTable(pos, n) && i < |pos| && j < |pos| && InAlignmentAt(n, pos[i], pos[j], at)
    ensures Inside(n, at) && !InFinder(n, at) && !FormatCell(n, at) && (n >= 45 ==> !VersionCell(n, at))
  {
  }

  /** Different alignment patterns do not touch, nor does one cover the centre of another. */
  lemma AlignmentsApart(n: nat, pos: seq<nat>, i: nat, j: nat, k: nat, l: nat, at: (int, int))
    requires PositionTable(pos, n) && i < |pos| && j < |pos| && k < |pos| && l < |pos|
    requires InSquare(pos[i], pos[j], -2, 2, at) && InSquare(pos[k], pos[l], -2, 2, at)
    ensures i == k && j == l
  {
  }

  lemma CentreApart(n: nat, pos: seq<nat>, i: nat, j: nat, k: nat, l: nat)
    requires PositionTable(pos, n) && i < |pos| && j < |pos| && k < |pos| && l < |pos| && (k != i || l != j)
    ensures !InSquare(pos[k], pos[l], -2, 2, (pos[i], pos[j]))
  {
  }

  lemma ColumnSixIsPattern(n: nat, pos: seq<nat>, r: int)
    requires n >= 21 && 0 <= r < n
    ensures PatternModule(n, pos, (r, 6))
  {
  }

  // ---- the stages of drawing

  /** Only the probe patterns are drawn. */
  ghost predicate DrawsFinders(g: Grid, n: nat) {
    forall at: (int, int) :: Get(g, at) == if Inside(n, at) then FinderCell(n, at) else Null
  }

  predicate Before(k: nat, l: nat, i: nat, j: nat) {
    k < i || (k == i && l < j)
  }

  ghost predicate AlignedBefore(n: nat, pos: seq<nat>, i: nat, j: nat, at: (int, int)) {
    exists k, l :: 0 <= k < |pos| && 0 <= l < |pos| && Before(k, l, i, j) && InAlignmentAt(n, pos[k], pos[l], at)
  }

  /** The alignment patterns before (i, j) are drawn on top of the probe patterns, and nothing else is. */
  ghost predicate DrawsAlignment(g: Grid, n: nat, pos: seq<nat>, i: nat, j: nat) {
    && (forall at: (int, int) :: !AlignedBefore(n, pos, i, j, at) ==>
          Get(g, at) == if Inside(n, at) then FinderCell(n, at) else Null)
    && (forall k, l, at: (int, int) :: 0 <= k < |pos| && 0 <= l < |pos| && Before(k, l, i, j)
                                       && InAlignmentAt(n, pos[k], pos[l], at) ==>
          Get(g, at) == Drawn(AdjustDark(at.0 - pos[k], at.1 - pos[l])))
  }

  lemma AlignmentStarts(g: Grid, n: nat, pos: seq<nat>)
    requires DrawsFinders(g, n)
    ensures DrawsAlignment(g, n, pos, 0, 0)
  {
  }

  /** A centre is null when its turn comes exactly when it is not in a corner. */
  lemma CentreNull(g: Grid, n: nat, pos: seq<nat>, i: nat, j: nat)
    requires n >= 21 && PositionTable(pos, n) && i < |pos| && j < |pos| && DrawsAlignment(g, n, pos, i, j)
    ensures Get(g, (pos[i], pos[j])) == Null <==> !InFinder(n, (pos[i], pos[j]))
  {
    forall k: nat, l: nat | k < |pos| && l < |pos| && Before(k, l, i, j)
      ensures !InAlignmentAt(n, pos[k], pos[l], (pos[i], pos[j]))
    {
      CentreApart(n, pos, i, j, k, l);
    }
    assert !AlignedBefore(n, pos, i, j, (pos[i], pos[j]));
  }

  lemma AlignedGrows(n: nat, pos: seq<nat>, i: nat, j: nat, at: (int, int))
    requires i < |pos| && j < |pos|
    ensures AlignedBefore(n, pos, i, j, at) || InAlignmentAt(n, pos[i], pos[j], at) ==>
              AlignedBefore(n, pos, i, j + 1, at)
  {
    assert Before(i, j, i, j + 1);
    forall k, l | 0 <= k < |pos| && 0 <= l < |pos| && Before(k, l, i, j) ensures Before(k, l, i, j + 1) {
    }
  }

  lemma AlignmentStep(g: Grid, g': Grid, n: nat, pos: seq<nat>, i: nat, j: nat)
    requires n >= 21 && PositionTable(pos, n) && i < |pos| && j < |pos| && DrawsAlignment(g, n, pos, i, j)
    requires forall at: (int, int) :: Get(g', at) ==
               if InAlignmentAt(n, pos[i], pos[j], at) then Drawn(AdjustDark(at.0 - pos[i], at.1 - pos[j]))
               else Get(g, at)
    ensures DrawsAlignment(g', n, pos, i, j + 1)
  {
    forall at: (int, int) | !AlignedBefore(n, pos, i, j + 1, at)
      ensures Get(g', at) == if Inside(n, at) then FinderCell(n, at) else Null
    {
      AlignedGrows(n, pos, i, j, at);
    }
    forall k, l, at: (int, int) | 0 <= k < |pos| && 0 <= l < |pos| && Before(k, l, i, j + 1)
                                  && InAlignmentAt(n, pos[k], pos[l], at)
      ensures Get(g', at) == Drawn(AdjustDark(at.0 - pos[k], at.1 - pos[l]))
    {
      if InAlignmentAt(n, pos[i], pos[j], at) {
        AlignmentsApart(n, pos, i, j, k, l, at);
      } else {
        assert Before(k, l, i, j);
      }
    }
  }

  lemma AlignmentRow(g: Grid, n: nat, pos: seq<nat>, i: nat)
    requires DrawsAlignment(g, n, pos, i, |pos|)
    ensures DrawsAlignment(g, n, pos, i + 1, 0)
  {
    forall at: (int, int) | !AlignedBefore(n, pos, i + 1, 0, at) ensures !AlignedBefore(n, pos, i, |pos|, at) {
      if AlignedBefore(n, pos, i, |pos|, at) {
        var k, l :| 0 <= k < |pos| && 0 <= l < |pos| && Before(k, l, i, |pos|) && InAlignmentAt(n, pos[k], pos[l], at);
        assert Before(k, l, i + 1, 0);
      }
    }
    forall k: nat, l: nat | l < |pos| && Before(k, l, i + 1, 0) ensures Before(k, l, i, |pos|) {
    }
  }

  /** Probe, alignment and timing patterns are drawn, and nothing else. */
  ghost predicate DrawsFixed(g: Grid, n: nat, pos: seq<nat>) {
    && (forall at: (int, int) :: Get(g, at) == Null <==>
          !(Inside(n, at) && (InFinder(n, at) || InAlignment(n, pos, at) || InTiming(n, at))))
    && ShowsFixed(g, n, pos)
  }

  ghost predicate ShowsFixed(g: Grid, n: nat, pos: seq<nat>) {
    && (forall at: (int, int) :: Inside(n, at) && InFinder(n, at) ==> Get(g, at) == FinderCell(n, at))
    && (forall i, j, at: (int, int) :: 0 <= i < |pos| && 0 <= j < |pos| && InAlignmentAt(n, pos[i], pos[j], at) ==>
          Get(g, at) == Drawn(AdjustDark(at.0 - pos[i], at.1 - pos[j])))
    && (forall at: (int, int) :: InTiming(n, at) && !InAlignment(n, pos, at) ==> Get(g, at) == Drawn(TimingDark(at)))
  }

  lemma FinderCellNull(n: nat, at: (int, int))
    ensures FinderCell(n, at) == Null <==> !InFinder(n, at)
  {
  }

  lemma AllAligned(n: nat, pos: seq<nat>, at: (int, int))
    ensures AlignedBefore(n, pos, |pos|, 0, at) <==> InAlignment(n, pos, at)
  {
    if InAlignment(n, pos, at) {
      var i, j :| 0 <= i < |pos| && 0 <= j < |pos| && InAlignmentAt(n, pos[i], pos[j], at);
      assert Before(i, j, |pos|, 0);
    }
  }

  /** What is drawn before the timing patterns. */
  lemma AlignmentDone(g: Grid, n: nat, pos: seq<nat>)
    requires n >= 21 && PositionTable(pos, n) && DrawsAlignment(g, n, pos, |pos|, 0)
    ensures forall at: (int, int) ::
              Get(g, at) == Null <==> !(Inside(n, at) && (InFinder(n, at) || InAlignment(n, pos, at)))
    ensures forall at: (int, int) :: Inside(n, at) && InFinder(n, at) ==> Get(g, at) == FinderCell(n, at)
    ensures forall i, j, at: (int, int) :: 0 <= i < |pos| && 0 <= j < |pos| && InAlignmentAt(n, pos[i], pos[j], at) ==>
              Get(g, at) == Drawn(AdjustDark(at.0 - pos[i], at.1 - pos[j]))
  {
    hide InFinder, FinderCell, InAlignmentAt, PositionTable, AdjustDark;
    forall i: nat, j: nat, at: (int, int) | i < |pos| && j < |pos| && InAlignmentAt(n, pos[i], pos[j], at)
      ensures Inside(n, at) && !InFinder(n, at) && Get(g, at) == Drawn(AdjustDark(at.0 - pos[i], at.1 - pos[j]))
    {
      assert Before(i, j, |pos|, 0);
      AlignmentIsClear(n, pos, i, j, at);
    }
    forall at: (int, int)
      ensures Get(g, at) == Null <==> !(Inside(n, at) && (InFinder(n, at) || InAlignment(n, pos, at)))
      ensures Inside(n, at) && InFinder(n, at) ==> Get(g, at) == FinderCell(n, at)
    {
      AllAligned(n, pos, at);
      FinderCellNull(n, at);
    }
  }

  lemma TimingStage(g: Grid, g': Grid, n: nat, pos: seq<nat>)
    requires n >= 21 && PositionTable(pos, n) && DrawsAlignment(g, n, pos, |pos|, 0)
    requires forall at: (int, int) :: Get(g', at) ==
               if Get(g, at) == Null && InTiming(n, at) then Drawn(TimingDark(at)) else Get(g, at)
    ensures DrawsFixed(g', n, pos)
  {
    hide InFinder, FinderCell, InAlignmentAt, DrawsAlignment, PositionTable, AdjustDark;
    AlignmentDone(g, n, pos);
    forall at: (int, int) | InTiming(n, at) ensures Inside(n, at) && !InFinder(n, at) {
      TimingIsClear(n, at);
    }
    forall i: nat, j: nat, at: (int, int) | i < |pos| && j < |pos| && InAlignmentAt(n, pos[i], pos[j], at)
      ensures Get(g', at) == Get(g, at)
    {
      assert Get(g, at) != Null;
    }
  }

  lemma TimingIsClear(n: nat, at: (int, int))
    requires n >= 21 && InTiming(n, at)
    ensures Inside(n, at) && !InFinder(n, at)
  {
  }

  /** The fixed patterns and the format bits are drawn, and nothing else. */
  ghost predicate DrawsFormat(g: Grid, n: nat, pos: seq<nat>) {
    forall at: (int, int) :: Get(g, at) == Null <==>
      !(Inside(n, at) && (InFinder(n, at) || InAlignment(n, pos, at) || InTiming(n, at) || FormatCell(n, at)))
  }

  lemma FixedIsClear(n: nat, pos: seq<nat>, at: (int, int))
    requires n >= 21 && PositionTable(pos, n) && Inside(n, at)
    requires InFinder(n, at) || InAlignment(n, pos, at) || InTiming(n, at)
    ensures !FormatCell(n, at) && (n >= 45 ==> !VersionCell(n, at))
  {
    if InAlignment(n, pos, at) {
      var i, j :| 0 <= i < |pos| && 0 <= j < |pos| && InAlignmentAt(n, pos[i], pos[j], at);
      AlignmentIsClear(n, pos, i, j, at);
    }
  }

  /** Drawing modules that belong to no fixed pattern leaves the fixed patterns as they are. */
  lemma FixedSurvives(g: Grid, g': Grid, n: nat, pos: seq<nat>)
    requires n >= 21 && PositionTable(pos, n) && ShowsFixed(g, n, pos)
    requires forall at: (int, int) ::
               Inside(n, at) && (InFinder(n, at) || InAlignment(n, pos, at) || InTiming(n, at)) ==>
                 Get(g', at) == Get(g, at)
    ensures ShowsFixed(g', n, pos)
  {
    forall i, j, at: (int, int) | 0 <= i < |pos| && 0 <= j < |pos| && InAlignmentAt(n, pos[i], pos[j], at)
      ensures Get(g', at) == Drawn(AdjustDark(at.0 - pos[i], at.1 - pos[j]))
    {
      AlignmentIsClear(n, pos, i, j, at);
      assert InAlignment(n, pos, at);
    }
  }

  lemma FormatStage(g: Grid, g': Grid, n: nat, pos: seq<nat>, test: bool, bits: seq<bool>)
    requires n >= 21 && PositionTable(pos, n) && DrawsFixed(g, n, pos) && FormatDrawn(g', n, test, bits)
    requires forall at: (int, int) :: !FormatCell(n, at) ==> Get(g', at) == Get(g, at)
    ensures DrawsFormat(g', n, pos) && ShowsFixed(g', n, pos)
  {
    hide InFinder, InAlignment, InTiming;
    forall at: (int, int) | FormatCell(n, at) ensures Inside(n, at) && Get(g', at) != Null {
      if at != (n - 8, 8) {
        var k := FormatCellHasBit(n, at);
      }
    }
    forall at: (int, int) | Inside(n, at) && (InFinder(n, at) || InAlignment(n, pos, at) || InTiming(n, at))
      ensures Get(g', at) == Get(g, at)
    {
      FixedIsClear(n, pos, at);
    }
    FixedSurvives(g, g', n, pos);
  }

  lemma VersionStage(g: Grid, g': Grid, n: nat, pos: seq<nat>, test: bool, formatBits: seq<bool>,
                     versionBits: seq<bool>)
    requires n >= 45 && PositionTable(pos, n) && DrawsFormat(g, n, pos) && ShowsFixed(g, n, pos)
    requires FormatDrawn(g, n, test, formatBits) && VersionDrawn(g', n, test, versionBits)
    requires forall at: (int, int) :: !VersionCell(n, at) ==> Get(g', at) == Get(g, at)
    ensures DrawsPatternModules(g', n, pos) && ShowsPatterns(g', n, pos, test, formatBits, versionBits)
  {
    hide InFinder, InAlignment, InTiming;
    forall at: (int, int) | VersionCell(n, at) ensures Inside(n, at) && Get(g', at) != Null {
      var k := VersionCellHasBit(n, at);
    }
    forall at: (int, int) | Inside(n, at) && (InFinder(n, at) || InAlignment(n, pos, at) || InTiming(n, at))
      ensures Get(g', at) == Get(g, at)
    {
      FixedIsClear(n, pos, at);
    }
    FixedSurvives(g, g', n, pos);
    FormatSurvives(g, g', n, test, formatBits);
  }

  lemma FormatSurvives(g: Grid, g': Grid, n: nat, test: bool, bits: seq<bool>)
    requires n >= 45 && FormatDrawn(g, n, test, bits)
    requires forall at: (int, int) :: !VersionCell(n, at) ==> Get(g', at) == Get(g, at)
    ensures FormatDrawn(g', n, test, bits)
  {
  }

  // ---- what a reader finds

  lemma {:induction false} FreeDependsOnNulls(g: Grid, h: Grid, path: seq<(int, int)>)
    requires forall at: (int, int) :: Get(g, at) == Null <==> Get(h, at) == Null
    ensures Free(g, path) == Free(h, path)
  {
    if path != [] {
      FreeDependsOnNulls(g, h, path[..|path| - 1]);
    }
  }

  lemma {:induction false} ReadDependsOnNulls(g: Grid, h: Grid, symbol: Grid, mask: (int, int) -> bool,
                                              path: seq<(int, int)>)
    requires forall at: (int, int) :: Get(g, at) == Null <==> Get(h, at) == Null
    ensures ReadBits(g, symbol, mask, path) == ReadBits(h, symbol, mask, path)
  {
    if path != [] {
      ReadDependsOnNulls(g, h, symbol, mask, path[..|path| - 1]);
    }
  }
}
