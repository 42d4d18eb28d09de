/**
  How many modules of a symbol are left for data: the modules of the patterns counted, shape by shape.
*/
module QrCapacity {
  import opened SymbolPath
  import opened QrPatterns

  // ---- counting rectangles

  ghost function Rect(top: int, left: int, height: nat, width: nat): (s: set<(int, int)>)
    ensures forall at: (int, int) :: at in s <==> top <= at.0 < top + height && left <= at.1 < left + width
  {
    set r, c | top <= r < top + height && left <= c < left + width :: (r, c)
  }

  lemma {:induction false} RowSize(top: int, left: int, width: nat)
    ensures |Rect(top, left, 1, width)| == width
  {
    if width > 0 {
      RowSize(top, left, width - 1);
      assert Rect(top, left, 1, width) == Rect(top, left, 1, width - 1) + {(top, left + width - 1)};
    } else {
      assert Rect(top, left, 1, width) == {};
    }
  }

  lemma RowBelow(top: int, left: int, height: nat, width: nat)
    ensures |Rect(top, left, height + 1, width)| ==
            |Rect(top, left, height, width)| + |Rect(top + height, left, 1, width)|
  {
    var upper, last := Rect(top, left, height, width), Rect(top + height, left, 1, width);
    assert Rect(top, left, height + 1, width) == upper + last;
    assert upper !! last;
  }

  lemma NoRows(top: int, left: int, width: nat)
    ensures Rect(top, left, 0, width) == {}
  {
  }

  lemma OneRowMore(height: int, width: int)
    ensures height * width == (height - 1) * width + width
  {
  }

  lemma {:induction false} RectSize(top: int, left: int, height: nat, width: nat)
    ensures |Rect(top, left, height, width)| == height * width
  {
    hide Rect;
    if height == 0 {
      NoRows(top, left, width);
    } else {
      RectSize(top, left, height - 1, width);
      RowBelow(top, left, height - 1, width);
      RowSize(top + height - 1, left, width);
      OneRowMore(height, width);
    }
  }

  ghost function NullOn(g: Grid, path: seq<(int, int)>): (s: set<(int, int)>)
    ensures forall at: (int, int) :: at in s <==> at in path && Get(g, at) == Null
  {
    set at | at in path && Get(g, at) == Null
  }

  lemma NullOnSnoc(g: Grid, front: seq<(int, int)>, last: (int, int))
    ensures NullOn(g, front + [last]) == NullOn(g, front) + if Get(g, last) == Null then {last} else {}
  {
  }

  lemma {:induction false} FreeCounts(g: Grid, path: seq<(int, int)>)
    requires NoRepeats(path)
    ensures Free(g, path) == |NullOn(g, path)|
  {
    if path == [] {
      assert NullOn(g, path) == {};
    } else {
      var front, last := path[..|path| - 1], path[|path| - 1];
      FreeCounts(g, front);
      assert last !in front;
      NullOnSnoc(g, front, last);
      assert path == front + [last];
    }
  }

  // ---- the sizes of the patterns

  /** A set of modules that splits in two. */
  lemma Splits(s: set<(int, int)>, a: set<(int, int)>, b: set<(int, int)>)
    requires forall at: (int, int) :: at in s <==> at in a || at in b
    requires forall at: (int, int) :: !(at in a && at in b)
    ensures |s| == |a| + |b|
  {
    assert s == a + b;
    assert a !! b;
  }

  ghost function Finders(n: nat): (s: set<(int, int)>)
    ensures forall at: (int, int) :: at in s <==> Inside(n, at) && InFinder(n, at)
  {
    set at | at in Rect(0, 0, n, n) && InFinder(n, at)
  }

  lemma FindersSize(n: nat)
    requires n >= 21
    ensures |Finders(n)| == 192
  {
    var left := Rect(0, 0, 8, 8) + Rect(n - 8, 0, 8, 8);
    RectSize(0, 0, 8, 8);
    RectSize(n - 8, 0, 8, 8);
    RectSize(0, n - 8, 8, 8);
    Splits(left, Rect(0, 0, 8, 8), Rect(n - 8, 0, 8, 8));
    Splits(Finders(n), left, Rect(0, n - 8, 8, 8));
  }

  ghost function Timing(n: nat): (s: set<(int, int)>)
    ensures forall at: (int, int) :: at in s <==> Inside(n, at) && InTiming(n, at)
  {
    set at | at in Rect(0, 0, n, n) && InTiming(n, at)
  }

  lemma TimingSize(n: nat)
    requires n >= 21
    ensures |Timing(n)| == 2 * (n - 16)
  {
    RectSize(8, 6, n - 16, 1);
    RectSize(6, 8, 1, n - 16);
    Splits(Timing(n), Rect(8, 6, n - 16, 1), Rect(6, 8, 1, n - 16));
  }

  ghost function FormatCells(n: nat): (s: set<(int, int)>)
    ensures forall at: (int, int) :: at in s <==> Inside(n, at) && FormatCell(n, at)
  {
    set at | at in Rect(0, 0, n, n) && FormatCell(n, at)
  }

  lemma FormatColumn(n: nat) returns (s: set<(int, int)>)
    requires n >= 21
    ensures forall at: (int, int) :: at in s <==> at.1 == 8 && (0 <= at.0 <= 8 || n - 8 <= at.0 < n) && at.0 != 6
    ensures |s| == 16
  {
    RectSize(0, 8, 6, 1);
    RectSize(7, 8, 2, 1);
    RectSize(n - 8, 8, 8, 1);
    var upper := Rect(0, 8, 6, 1) + Rect(7, 8, 2, 1);
    Splits(upper, Rect(0, 8, 6, 1), Rect(7, 8, 2, 1));
    s := upper + Rect(n - 8, 8, 8, 1);
    Splits(s, upper, Rect(n - 8, 8, 8, 1));
  }

  /** The horizontal copy but for the module it shares with the vertical one. */
  lemma FormatRow(n: nat) returns (s: set<(int, int)>)
    requires n >= 21
    ensures forall at: (int, int) :: at in s <==>
              at.0 == 8 && (0 <= at.1 < 8 || n - 8 <= at.1 < n) && at.1 != 6
    ensures |s| == 15
  {
    RectSize(8, 0, 1, 6);
    RectSize(8, 7, 1, 1);
    RectSize(8, n - 8, 1, 8);
    var left := Rect(8, 0, 1, 6) + Rect(8, 7, 1, 1);
    Splits(left, Rect(8, 0, 1, 6), Rect(8, 7, 1, 1));
    s := left + Rect(8, n - 8, 1, 8);
    Splits(s, left, Rect(8, n - 8, 1, 8));
  }

  lemma FormatSize(n: nat)
    requires n >= 21
    ensures |FormatCells(n)| == 31
  {
    var column := FormatColumn(n);
    var row := FormatRow(n);
    Splits(FormatCells(n), column, row);
  }

  ghost function VersionCells(n: nat): (s: set<(int, int)>)
    ensures forall at: (int, int) :: at in s <==> n >= 45 && Inside(n, at) && VersionCell(n, at)
  {
    set at | at in Rect(0, 0, n, n) && n >= 45 && VersionCell(n, at)
  }

  lemma VersionSize(n: nat)
    ensures |VersionCells(n)| == if n >= 45 then 36 else 0
  {
    if n >= 45 {
      RectSize(0, n - 11, 6, 3);
      RectSize(n - 11, 0, 3, 6);
      Splits(VersionCells(n), Rect(0, n - 11, 6, 3), Rect(n - 11, 0, 3, 6));
    } else {
      assert VersionCells(n) == {};
    }
  }

  // ---- alignment patterns

  /** As in the table of the standard: none, or from the row of the upper probe patterns to that of the lower one. */
  predicate SpansSymbol(pos: seq<nat>, n: nat) {
    && PositionTable(pos, n)
    && (pos != [] ==> |pos| >= 2 && pos[0] == 6 && pos[|pos| - 1] == n - 7)
  }

  /** The three places of the grid of alignment patterns that the probe patterns take. */
  predicate Corner(k: nat, i: nat, j: nat) {
    (i == 0 && j == 0) || (i == 0 && j == k - 1) || (i == k - 1 && j == 0)
  }

  lemma CornersAreFinders(n: nat, pos: seq<nat>, i: nat, j: nat)
    requires n >= 25 && SpansSymbol(pos, n) && i < |pos| && j < |pos|
    ensures InFinder(n, (pos[i], pos[j])) <==> Corner(|pos|, i, j)
  {
  }

  /** How many patterns come before (i, j). */
  function AlignmentsBefore(k: nat, i: nat, j: nat): int {
    i * k + j - (if i > 0 || j > 0 then 1 else 0) - (if i > 0 || j > k - 1 then 1 else 0)
    - (if i > k - 1 || (i == k - 1 && j > 0) then 1 else 0)
  }

  ghost function Aligned(n: nat, pos: seq<nat>, i: nat, j: nat): (s: set<(int, int)>)
    ensures forall at: (int, int) :: at in s <==> Inside(n, at) && AlignedBefore(n, pos, i, j, at)
  {
    set at | at in Rect(0, 0, n, n) && AlignedBefore(n, pos, i, j, at)
  }

  lemma {:induction false} AlignedSize(n: nat, pos: seq<nat>, i: nat, j: nat)
    requires n >= 25 && SpansSymbol(pos, n) && |pos| >= 2 && (i < |pos| || (i == |pos| && j == 0)) && j <= |pos|
    ensures |Aligned(n, pos, i, j)| == 25 * AlignmentsBefore(|pos|, i, j)
    decreases i, j
  {
    hide AlignmentsBefore, AlignedBefore, PositionTable;
    if j > 0 {
      AlignedSize(n, pos, i, j - 1);
      OneMoreAligned(n, pos, i, j - 1);
      CountOneMore(|pos|, i, j - 1);
    } else if i > 0 {
      AlignedSize(n, pos, i - 1, |pos|);
      RowOfAligned(n, pos, i - 1);
      CountRow(|pos|, i - 1);
    } else {
      NoneAligned(n, pos);
    }
  }

  lemma CountOneMore(k: nat, i: nat, j: nat)
    requires k >= 2 && i < k && j < k
    ensures AlignmentsBefore(k, i, j + 1) == AlignmentsBefore(k, i, j) + if Corner(k, i, j) then 0 else 1
  {
  }

  lemma CountRow(k: nat, i: nat)
    requires k >= 2 && i < k
    ensures AlignmentsBefore(k, i + 1, 0) == AlignmentsBefore(k, i, k)
  {
    assert (i + 1) * k == i * k + k;
  }

  lemma NoneAligned(n: nat, pos: seq<nat>)
    requires |pos| >= 2
    ensures Aligned(n, pos, 0, 0) == {} && AlignmentsBefore(|pos|, 0, 0) == 0
  {
  }

  lemma RowOfAligned(n: nat, pos: seq<nat>, i: nat)
    requires i < |pos|
    ensures Aligned(n, pos, i + 1, 0) == Aligned(n, pos, i, |pos|)
  {
    forall at: (int, int) ensures AlignedBefore(n, pos, i + 1, 0, at) <==> AlignedBefore(n, pos, i, |pos|, at) {
      SameBefore(|pos|, i);
    }
  }

  lemma SameBefore(k: nat, i: nat)
    ensures forall r: nat, c: nat :: c < k ==> (Before(r, c, i + 1, 0) <==> Before(r, c, i, k))
  {
  }

  /** One more place adds its own pattern and no module of another. */
  lemma AlignedGains(n: nat, pos: seq<nat>, i: nat, j: nat, at: (int, int))
    requires PositionTable(pos, n) && i < |pos| && j < |pos|
    ensures AlignedBefore(n, pos, i, j + 1, at) <==>
              AlignedBefore(n, pos, i, j, at) || InAlignmentAt(n, pos[i], pos[j], at)
    ensures !(AlignedBefore(n, pos, i, j, at) && InAlignmentAt(n, pos[i], pos[j], at))
  {
    hide PositionTable, InFinder;
    AlignedGrows(n, pos, i, j, at);
    forall k: nat, l: nat | k < |pos| && l < |pos| && InAlignmentAt(n, pos[k], pos[l], at)
                            && InAlignmentAt(n, pos[i], pos[j], at)
      ensures k == i && l == j
    {
      AlignmentsApart(n, pos, i, j, k, l, at);
    }
    forall k: nat, l: nat | Before(k, l, i, j + 1) ensures Before(k, l, i, j) || (k == i && l == j) {
    }
  }

  lemma OneMoreAligned(n: nat, pos: seq<nat>, i: nat, j: nat)
    requires n >= 25 && SpansSymbol(pos, n) && i < |pos| && j < |pos|
    ensures |Aligned(n, pos, i, j + 1)| == |Aligned(n, pos, i, j)| + if Corner(|pos|, i, j) then 0 else 25
  {
    hide AlignedBefore, InFinder, PositionTable, Corner;
    CornersAreFinders(n, pos, i, j);
    var row: int, col: int := pos[i], pos[j];
    var own := Rect(row - 2, col - 2, 5, 5);
    RectSize(row - 2, col - 2, 5, 5);
    forall at: (int, int)
      ensures AlignedBefore(n, pos, i, j + 1, at) <==>
                AlignedBefore(n, pos, i, j, at) || InAlignmentAt(n, pos[i], pos[j], at)
      ensures !(AlignedBefore(n, pos, i, j, at) && InAlignmentAt(n, pos[i], pos[j], at))
      ensures InAlignmentAt(n, pos[i], pos[j], at) ==> Inside(n, at)
    {
      AlignedGains(n, pos, i, j, at);
      if InAlignmentAt(n, pos[i], pos[j], at) {
        AlignmentIsClear(n, pos, i, j, at);
      }
    }
    if Corner(|pos|, i, j) {
      assert Aligned(n, pos, i, j + 1) == Aligned(n, pos, i, j);
    } else {
      Splits(Aligned(n, pos, i, j + 1), Aligned(n, pos, i, j), own);
    }
  }

  // ---- alignment patterns on top of the timing patterns

  /** Within one of the alignment patterns between the first and number j, along a row or a column. */
  ghost predicate Hit(pos: seq<nat>, j: nat, x: int) {
    exists l :: 1 <= l < j && l < |pos| && pos[l] - 2 <= x <= pos[l] + 2
  }

  ghost predicate HitAt(pos: seq<nat>, j: nat, along: bool, at: (int, int)) {
    if along then at.0 == 6 && Hit(pos, j, at.1) else at.1 == 6 && Hit(pos, j, at.0)
  }

  ghost function Hits(n: nat, pos: seq<nat>, j: nat, along: bool): (s: set<(int, int)>)
    ensures forall at: (int, int) :: at in s <==> Inside(n, at) && HitAt(pos, j, along, at)
  {
    set at | at in Rect(0, 0, n, n) && HitAt(pos, j, along, at)
  }

  /** The five modules of the row or column that pattern j covers. */
  ghost function Stretch(middle: int, along: bool): (s: set<(int, int)>)
    ensures forall at: (int, int) :: at in s <==>
              if along then at.0 == 6 && middle - 2 <= at.1 <= middle + 2
              else at.1 == 6 && middle - 2 <= at.0 <= middle + 2
  {
    if along then Rect(6, middle - 2, 1, 5) else Rect(middle - 2, 6, 5, 1)
  }

  lemma HitGains(n: nat, pos: seq<nat>, j: nat, along: bool, at: (int, int))
    requires PositionTable(pos, n) && 1 <= j < |pos|
    ensures HitAt(pos, j + 1, along, at) <==> HitAt(pos, j, along, at) || at in Stretch(pos[j], along)
    ensures HitAt(pos, j, along, at) ==> at !in Stretch(pos[j], along)
  {
  }

  lemma OneMoreHit(n: nat, pos: seq<nat>, j: nat, along: bool)
    requires n >= 25 && SpansSymbol(pos, n) && 1 <= j < |pos| - 1
    ensures |Hits(n, pos, j + 1, along)| == |Hits(n, pos, j, along)| + |Stretch(pos[j], along)|
  {
    assert 11 <= pos[j] <= n - 14;
    forall at: (int, int)
      ensures HitAt(pos, j + 1, along, at) <==> HitAt(pos, j, along, at) || at in Stretch(pos[j], along)
      ensures HitAt(pos, j, along, at) ==> at !in Stretch(pos[j], along)
    {
      HitGains(n, pos, j, along, at);
    }
    hide HitAt, PositionTable, Stretch;
    Splits(Hits(n, pos, j + 1, along), Hits(n, pos, j, along), Stretch(pos[j], along));
  }

  lemma StretchSize(middle: int, along: bool)
    ensures |Stretch(middle, along)| == 5
  {
    RectSize(6, middle - 2, 1, 5);
    RectSize(middle - 2, 6, 5, 1);
  }

  lemma NoHits(n: nat, pos: seq<nat>, along: bool)
    ensures Hits(n, pos, 1, along) == {}
  {
  }

  lemma {:induction false} HitsSize(n: nat, pos: seq<nat>, j: nat, along: bool)
    requires n >= 25 && SpansSymbol(pos, n) && 1 <= j < |pos|
    ensures |Hits(n, pos, j, along)| == 5 * (j - 1)
  {
    hide HitAt, PositionTable, Stretch;
    if j == 1 {
      NoHits(n, pos, along);
    } else {
      HitsSize(n, pos, j - 1, along);
      OneMoreHit(n, pos, j - 1, along);
      StretchSize(pos[j - 1], along);
    }
  }

  /** A timing module is covered by an alignment pattern of the first row or column, those in the corners excepted. */
  lemma CoveredTiming(n: nat, pos: seq<nat>, at: (int, int))
    requires n >= 25 && SpansSymbol(pos, n) && |pos| >= 2
    ensures InTiming(n, at) && InAlignment(n, pos, at) <==>
              HitAt(pos, |pos| - 1, true, at) || HitAt(pos, |pos| - 1, false, at)
    ensures !(HitAt(pos, |pos| - 1, true, at) && HitAt(pos, |pos| - 1, false, at))
  {
  }

  ghost function AlignmentModules(n: nat, pos: seq<nat>): (s: set<(int, int)>)
    ensures forall at: (int, int) :: at in s <==> Inside(n, at) && InAlignment(n, pos, at)
  {
    set at | at in Rect(0, 0, n, n) && InAlignment(n, pos, at)
  }

  ghost function Covered(n: nat, pos: seq<nat>): (s: set<(int, int)>)
    ensures forall at: (int, int) :: at in s <==> Inside(n, at) && InTiming(n, at) && InAlignment(n, pos, at)
  {
    set at | at in Rect(0, 0, n, n) && InTiming(n, at) && InAlignment(n, pos, at)
  }

  lemma AlignmentSize(n: nat, pos: seq<nat>)
    requires n >= 21 && SpansSymbol(pos, n) && (pos != [] ==> n >= 25)
    ensures |AlignmentModules(n, pos)| == if pos == [] then 0 else 25 * (|pos| * |pos| - 3)
  {
    hide AlignedBefore, PositionTable;
    if pos == [] {
      assert AlignmentModules(n, pos) == {};
    } else {
      hide InAlignment;
      forall at: (int, int) ensures AlignedBefore(n, pos, |pos|, 0, at) <==> InAlignment(n, pos, at) {
        AllAligned(n, pos, at);
      }
      AlignedSize(n, pos, |pos|, 0);
      assert AlignmentModules(n, pos) == Aligned(n, pos, |pos|, 0);
    }
  }

  lemma CoveredSize(n: nat, pos: seq<nat>)
    requires n >= 21 && SpansSymbol(pos, n) && (pos != [] ==> n >= 25)
    ensures |Covered(n, pos)| == if pos == [] then 0 else 10 * (|pos| - 2)
  {
    hide PositionTable, HitAt, InTiming;
    if pos == [] {
      assert Covered(n, pos) == {};
    } else {
      hide InAlignment;
      var k := |pos|;
      forall at: (int, int)
        ensures InTiming(n, at) && InAlignment(n, pos, at) <==>
                  HitAt(pos, k - 1, true, at) || HitAt(pos, k - 1, false, at)
        ensures !(HitAt(pos, k - 1, true, at) && HitAt(pos, k - 1, false, at))
      {
        CoveredTiming(n, pos, at);
      }
      HitsSize(n, pos, k - 1, true);
      HitsSize(n, pos, k - 1, false);
      Splits(Covered(n, pos), Hits(n, pos, k - 1, true), Hits(n, pos, k - 1, false));
    }
  }

  // ---- all patterns

  /** Timing modules that no alignment pattern covers. */
  ghost function BareTiming(n: nat, pos: seq<nat>): (s: set<(int, int)>)
    ensures forall at: (int, int) :: at in s <==> Inside(n, at) && InTiming(n, at) && !InAlignment(n, pos, at)
  {
    set at | at in Rect(0, 0, n, n) && InTiming(n, at) && !InAlignment(n, pos, at)
  }

  ghost function Patterns(n: nat, pos: seq<nat>): (s: set<(int, int)>)
    ensures forall at: (int, int) :: at in s <==> Inside(n, at) && PatternModule(n, pos, at)
  {
    set at | at in Rect(0, 0, n, n) && PatternModule(n, pos, at)
  }

  lemma BareTimingSize(n: nat, pos: seq<nat>)
    requires n >= 21 && SpansSymbol(pos, n) && (pos != [] ==> n >= 25)
    ensures |BareTiming(n, pos)| == 2 * (n - 16) - if pos == [] then 0 else 10 * (|pos| - 2)
  {
    hide InTiming, InAlignment, PositionTable;
    TimingSize(n);
    CoveredSize(n, pos);
    Splits(Timing(n), BareTiming(n, pos), Covered(n, pos));
  }

  lemma PatternsApart(n: nat, pos: seq<nat>, at: (int, int))
    requires n >= 21 && SpansSymbol(pos, n) && Inside(n, at)
    ensures InAlignment(n, pos, at) || InTiming(n, at) ==> !InFinder(n, at)
    ensures InFinder(n, at) || InAlignment(n, pos, at) || InTiming(n, at) ==> !FormatCell(n, at)
    ensures InFinder(n, at) || InAlignment(n, pos, at) || InTiming(n, at) ==> n >= 45 ==> !VersionCell(n, at)
    ensures n >= 45 ==> !(FormatCell(n, at) && VersionCell(n, at))
  {
    if InFinder(n, at) || InAlignment(n, pos, at) || InTiming(n, at) {
      FixedIsClear(n, pos, at);
    }
    if InAlignment(n, pos, at) {
      var i, j :| 0 <= i < |pos| && 0 <= j < |pos| && InAlignmentAt(n, pos[i], pos[j], at);
      AlignmentIsClear(n, pos, i, j, at);
    }
  }

  /** Probe, alignment and timing patterns. */
  ghost function FixedModules(n: nat, pos: seq<nat>): (s: set<(int, int)>)
    ensures forall at: (int, int) :: at in s <==>
              Inside(n, at) && (InFinder(n, at) || InAlignment(n, pos, at) || InTiming(n, at))
  {
    set at | at in Rect(0, 0, n, n) && (InFinder(n, at) || InAlignment(n, pos, at) || InTiming(n, at))
  }

  lemma FixedSize(n: nat, pos: seq<nat>)
    requires n >= 21 && SpansSymbol(pos, n)
    ensures |FixedModules(n, pos)| == |Finders(n)| + |AlignmentModules(n, pos)| + |BareTiming(n, pos)|
  {
    hide InFinder, InAlignment, InTiming, PositionTable;
    forall at: (int, int) | Inside(n, at) ensures InAlignment(n, pos, at) || InTiming(n, at) ==> !InFinder(n, at) {
      PatternsApart(n, pos, at);
    }
    var lines := AlignmentModules(n, pos) + BareTiming(n, pos);
    Splits(lines, AlignmentModules(n, pos), BareTiming(n, pos));
    Splits(FixedModules(n, pos), Finders(n), lines);
  }

  lemma PatternsSize(n: nat, pos: seq<nat>)
    requires n >= 21 && SpansSymbol(pos, n)
    ensures |Patterns(n, pos)| == |FixedModules(n, pos)| + |FormatCells(n)| + |VersionCells(n)|
  {
    hide InFinder, InAlignment, InTiming, FormatCell, VersionCell, PositionTable;
    forall at: (int, int) | Inside(n, at)
      ensures InFinder(n, at) || InAlignment(n, pos, at) || InTiming(n, at) ==> !FormatCell(n, at)
      ensures InFinder(n, at) || InAlignment(n, pos, at) || InTiming(n, at) ==> n >= 45 ==> !VersionCell(n, at)
      ensures n >= 45 ==> !(FormatCell(n, at) && VersionCell(n, at))
    {
      PatternsApart(n, pos, at);
    }
    var formatted := FixedModules(n, pos) + FormatCells(n);
    Splits(formatted, FixedModules(n, pos), FormatCells(n));
    Splits(Patterns(n, pos), formatted, VersionCells(n));
  }

  /** The modules left for data in a symbol of side n with k rows of alignment patterns. */
  function Capacity(n: int, k: int): int {
    n * n - 192 - 31 - (if n >= 45 then 36 else 0) - 2 * (n - 16)
    - (if k == 0 then 0 else 25 * (k * k - 3) - 10 * (k - 2))
  }

  ghost function DataModules(n: nat, pos: seq<nat>): (s: set<(int, int)>)
    ensures forall at: (int, int) :: at in s <==> Inside(n, at) && !PatternModule(n, pos, at)
  {
    set at | at in Rect(0, 0, n, n) && !PatternModule(n, pos, at)
  }

  /** The zigzag finds free what no pattern takes. */
  lemma FreeAreData(n: nat, pos: seq<nat>)
    requires n >= 21 && SymbolSize(n)
    ensures NullOn(Reserved(n, pos), Path(n)) == DataModules(n, pos)
  {
    PathIsComplete(n);
    hide PatternModule, Path;
    forall at: (int, int) | Inside(n, at) && at.1 == 6 ensures PatternModule(n, pos, at) {
      ColumnSixIsPattern(n, pos, at.0);
    }
  }

  lemma FreeAndPatterns(n: nat, pos: seq<nat>)
    requires n >= 21 && SymbolSize(n)
    ensures FreeModules(n, pos) + |Patterns(n, pos)| == n * n
  {
    hide PatternModule, Path, Free, NoRepeats, Reserved;
    PathIsComplete(n);
    FreeCounts(Reserved(n, pos), Path(n));
    FreeAreData(n, pos);
    RectSize(0, 0, n, n);
    Splits(Rect(0, 0, n, n), DataModules(n, pos), Patterns(n, pos));
  }

  lemma FreeModulesAre(n: nat, pos: seq<nat>)
    requires n >= 21 && SymbolSize(n) && SpansSymbol(pos, n) && (pos != [] ==> n >= 25)
    ensures FreeModules(n, pos) == Capacity(n, |pos|)
  {
    hide FreeModules, PositionTable, SpansSymbol, Patterns, Finders, AlignmentModules, BareTiming, FormatCells,
         VersionCells, FixedModules;
    FreeAndPatterns(n, pos);
    PatternsSize(n, pos);
    FixedSize(n, pos);
    FindersSize(n);
    AlignmentSize(n, pos);
    BareTimingSize(n, pos);
    FormatSize(n);
    VersionSize(n);
  }
}
