/**
  The symbol under construction: makeImpl and the setup functions it calls. The grid is the field
  `modules`, updated in place; the functions of SymbolPath say what mapData leaves in it.
*/
module QrSymbol {
  import opened Bits
  import opened QrPatterns
  import opened SymbolPath

  /** Everything drawn in g is drawn in g'. */
  ghost predicate Covers(g: Grid, g': Grid) {
    forall at: (int, int) :: Get(g, at) != Null ==> Get(g', at) != Null
  }

  ghost predicate Full(g: Grid, n: nat) {
    forall at: (int, int) :: Inside(n, at) ==> Get(g, at) != Null
  }

  ghost predicate ColumnSixDrawn(g: Grid, n: nat) {
    forall r :: 0 <= r < n ==> Get(g, (r, 6)) != Null
  }

  /** Where mapData stands: the path walked so far is placed, and the next bit is this one. */
  ghost predicate Progress(g0: Grid, g: Grid, data: seq<bv8>, mask: (int, int) -> bool, path: seq<(int, int)>,
                           byteIndex: nat, bitIndex: int) {
    && Placed(g0, g, BitsOf(data), mask, path)
    && 0 <= bitIndex <= 7
    && 8 * byteIndex + 7 - bitIndex == Free(g0, path)
  }

  lemma WalkStarts(g: Grid, data: seq<bv8>, mask: (int, int) -> bool, n: nat)
    ensures PathBefore(n, 0) == [] && Progress(g, g, data, mask, [], 0, 7)
  {
  }

  lemma WalkEnds(g0: Grid, g: Grid, data: seq<bv8>, mask: (int, int) -> bool, path: seq<(int, int)>,
                 byteIndex: nat, bitIndex: int)
    requires Progress(g0, g, data, mask, path, byteIndex, bitIndex)
    ensures Placed(g0, g, BitsOf(data), mask, path)
  {
  }

  function MaskFunction(pattern: nat): (int, int) -> bool {
    (i, j) => MaskAt(pattern, i, j)
  }

  function SourceBit(data: seq<bv8>, byteIndex: nat, bitIndex: nat): bool
    requires bitIndex <= 7
  {
    byteIndex < |data| && (data[byteIndex] >> bitIndex) & 1 == 1
  }

  lemma SourceBitIs(data: seq<bv8>, byteIndex: nat, bitIndex: nat)
    requires bitIndex <= 7
    ensures SourceBit(data, byteIndex, bitIndex) == BitAt(data, 8 * byteIndex + 7 - bitIndex)
  {
    assert (8 * byteIndex + 7 - bitIndex) / 8 == byteIndex;
    if byteIndex < |data| {
      ByteBitsAt(data[byteIndex], bitIndex);
    }
  }

  lemma NotYetDrawn(before: Grid, g: Grid, bit: nat -> bool, mask: (int, int) -> bool, path: seq<(int, int)>,
                    at: (int, int))
    requires Placed(before, g, bit, mask, path) && at !in path
    ensures Get(g, at) == Get(before, at)
  {
  }

  lemma FreeStep(g: Grid, path: seq<(int, int)>, at: (int, int))
    ensures Free(g, path + [at]) == Free(g, path) + if Get(g, at) == Null then 1 else 0
  {
    assert (path + [at])[..|path|] == path;
  }

  /** The modules visited before the i-th one of pair p. */
  function Visited(n: nat, p: nat, i: nat): seq<(int, int)> {
    PathBefore(n, p) + PairPath(n, p, i)
  }

  lemma CellOfStep(n: nat, p: nat, step: nat, c: nat)
    requires c < 2
    ensures PairCell(n, p, 2 * step + c) == (if p % 2 == 0 then n - 1 - step else step, RightColumn(n, p) - c)
  {
    assert (2 * step + c) / 2 == step && (2 * step + c) % 2 == c;
  }

  lemma NextIsNew(n: nat, p: nat, i: nat)
    requires SymbolSize(n) && p < (n - 1) / 2 && i < 2 * n
    ensures Inside(n, PairCell(n, p, i)) && PairCell(n, p, i) !in Visited(n, p, i)
    ensures Visited(n, p, i + 1) == Visited(n, p, i) + [PairCell(n, p, i)]
  {
    PairCellBounds(n, p, i);
    PathCells(n, p + 1);
    var all := PathBefore(n, p + 1);
    var k := |PathBefore(n, p)| + i;
    assert all[k] == PairCell(n, p, i);
    assert Visited(n, p, i) == all[..k];
  }

  /** The module at hand is the next one of the walk, and not visited before. */
  lemma NextVisit(n: nat, p: nat, step: nat, c: nat, path: seq<(int, int)>, at: (int, int))
    requires SymbolSize(n) && p < (n - 1) / 2 && step < n && c < 2
    requires path == Visited(n, p, 2 * step + c)
    requires at == (if p % 2 == 0 then n - 1 - step else step, RightColumn(n, p) - c)
    ensures Inside(n, at) && at !in path && path + [at] == Visited(n, p, 2 * step + (c + 1))
  {
    CellOfStep(n, p, step, c);
    NextIsNew(n, p, 2 * step + c);
  }

  lemma PairDone(n: nat, p: nat, step: nat, path: seq<(int, int)>)
    requires step == n && path == Visited(n, p, 2 * step)
    ensures path == PathBefore(n, p + 1)
  {
  }

  /** The loop variable `col` of mapData before pair p. */
  function ColumnBefore(n: nat, p: nat): int {
    if n - 1 - 2 * p >= 6 then n - 1 - 2 * p else n - 2 - 2 * p
  }

  lemma ColumnSteps(n: nat, p: nat)
    requires SymbolSize(n) && p <= (n - 1) / 2
    ensures ColumnBefore(n, p) > 0 <==> p < (n - 1) / 2
    ensures var col := ColumnBefore(n, p);
            p < (n - 1) / 2 ==>
              && RightColumn(n, p) == (if col == 6 then col - 1 else col)
              && ColumnBefore(n, p + 1) == (if col == 6 then col - 1 else col) - 2
    ensures p % 2 == 0 <==> (p + 1) % 2 == 1
  {
  }

  /** Column 6, which the walk skips, is the only place where a module could stay null. */
  lemma PlacedFillsAll(n: nat, g0: Grid, g: Grid, bit: nat -> bool, mask: (int, int) -> bool)
    requires SymbolSize(n) && Placed(g0, g, bit, mask, Path(n))
    ensures ColumnSixDrawn(g0, n) ==> Full(g, n) && Covers(g0, g)
  {
    PathIsComplete(n);
    if ColumnSixDrawn(g0, n) {
      forall at: (int, int) | Inside(n, at) ensures Get(g, at) != Null {
        assert Get(g0, (at.0, 6)) != Null;
        if Get(g0, at) == Null {
          var i :| 0 <= i < |Path(n)| && Path(n)[i] == at;
        }
      }
    }
  }

  class QrSymbol {
    var modules: Grid
    const moduleCount: nat

    ghost predicate Valid()
      reads this
    {
      Square(modules, moduleCount)
    }

    constructor (typeNumber: nat)
      ensures Valid() && moduleCount == typeNumber * 4 + 17
      ensures forall at: (int, int) :: Get(modules, at) == Null
    {
      var n := typeNumber * 4 + 17;
      moduleCount := n;
      modules := seq(n, _ => seq(n, _ => Null));
    }

    method SetupPositionProbePattern(row: int, col: int)
      requires Valid()
      modifies `modules
      ensures Valid()
      ensures forall at: (int, int) :: Get(modules, at) ==
                if Inside(moduleCount, at) && InSquare(row, col, -1, 7, at)
                then Drawn(ProbeDark(at.0 - row, at.1 - col))
                else Get(old(modules), at)
    {
      for r := -1 to 8
        invariant Valid()
        invariant forall at: (int, int) :: Get(modules, at) ==
                    if Inside(moduleCount, at) && InSquare(row, col, -1, 7, at) && at.0 < row + r
                    then Drawn(ProbeDark(at.0 - row, at.1 - col)) else Get(old(modules), at)
      {
        if 0 <= row + r < moduleCount {
          for c := -1 to 8
            invariant Valid()
            invariant forall at: (int, int) :: Get(modules, at) ==
                        if Inside(moduleCount, at) && InSquare(row, col, -1, 7, at) &&
                           (at.0 < row + r || (at.0 == row + r && at.1 < col + c))
                        then Drawn(ProbeDark(at.0 - row, at.1 - col)) else Get(old(modules), at)
          {
            if 0 <= col + c < moduleCount {
              modules := Put(modules, (row + r, col + c), Drawn(ProbeDark(r, c)));
            }
          }
        }
      }
    }

    method SetupTimingPattern()
      requires Valid() && moduleCount > 8
      modifies `modules
      ensures Valid() && Covers(old(modules), modules)
      ensures forall at: (int, int) :: Get(modules, at) ==
                if Get(old(modules), at) == Null && 8 <= at.0 < moduleCount - 8 && at.1 == 6 then Drawn(at.0 % 2 == 0)
                else if Get(old(modules), at) == Null && 8 <= at.1 < moduleCount - 8 && at.0 == 6
                then Drawn(at.1 % 2 == 0)
                else Get(old(modules), at)
    {
      var r := 8;
      while r < moduleCount - 8
        invariant Valid() && 8 <= r
        invariant forall at: (int, int) :: Get(modules, at) ==
                    if Get(old(modules), at) == Null && 8 <= at.0 < r && at.0 < moduleCount - 8 && at.1 == 6
                    then Drawn(at.0 % 2 == 0)
                    else Get(old(modules), at)
      {
        if Get(modules, (r, 6)) == Null {
          modules := Put(modules, (r, 6), Drawn(r % 2 == 0));
        }
        r := r + 1;
      }
      ghost var half := modules;
      var c := 8;
      while c < moduleCount - 8
        invariant Valid() && 8 <= c
        invariant forall at: (int, int) :: Get(modules, at) ==
                    if Get(half, at) == Null && 8 <= at.1 < c && at.1 < moduleCount - 8 && at.0 == 6
                    then Drawn(at.1 % 2 == 0)
                    else Get(half, at)
      {
        if Get(modules, (6, c)) == Null {
          modules := Put(modules, (6, c), Drawn(c % 2 == 0));
        }
        c := c + 1;
      }
    }

    /** One visit: a null module takes the next bit, a drawn one is left alone. */
    method DrawModule(data: seq<bv8>, maskPattern: nat, row: int, col: int, byteIndex: nat, bitIndex: int,
                      ghost g0: Grid, ghost path: seq<(int, int)>)
      returns (byteIndex': nat, bitIndex': int)
      requires Valid() && Inside(moduleCount, (row, col)) && (row, col) !in path
      requires Progress(g0, modules, data, MaskFunction(maskPattern), path, byteIndex, bitIndex)
      modifies `modules
      ensures Valid()
      ensures Progress(g0, modules, data, MaskFunction(maskPattern), path + [(row, col)], byteIndex', bitIndex')
    {
      hide MaskAt, SourceBit, Placed, Free;
      byteIndex', bitIndex' := byteIndex, bitIndex;
      ghost var before := modules;
      FreeStep(g0, path, (row, col));
      NotYetDrawn(g0, modules, BitsOf(data), MaskFunction(maskPattern), path, (row, col));
      SourceBitIs(data, byteIndex, bitIndex);
      if Get(modules, (row, col)) == Null {
        var dark := SourceBit(data, byteIndex, bitIndex);
        if MaskAt(maskPattern, row, col) {
          dark := !dark;
        }
        modules := Put(modules, (row, col), Drawn(dark));
        bitIndex' := bitIndex' - 1;
        if bitIndex' == -1 {
          byteIndex' := byteIndex' + 1;
          bitIndex' := 7;
        }
      }
      PlacedStep(g0, before, modules, BitsOf(data), MaskFunction(maskPattern), path, (row, col));
    }

    /** Both modules of one row of a pair, right before left. */
    method WalkRow(data: seq<bv8>, maskPattern: nat, row: int, col: int, startByte: nat, startBit: int,
                   ghost g0: Grid, ghost p: nat, ghost step: nat, ghost path: seq<(int, int)>)
      returns (byteIndex: nat, bitIndex: int, ghost path': seq<(int, int)>)
      requires Valid() && SymbolSize(moduleCount) && p < (moduleCount - 1) / 2 && step < moduleCount
      requires row == if p % 2 == 0 then moduleCount - 1 - step else step
      requires col == RightColumn(moduleCount, p)
      requires path == Visited(moduleCount, p, 2 * step)
      requires Progress(g0, modules, data, MaskFunction(maskPattern), path, startByte, startBit)
      modifies `modules
      ensures Valid() && path' == Visited(moduleCount, p, 2 * (step + 1))
      ensures Progress(g0, modules, data, MaskFunction(maskPattern), path', byteIndex, bitIndex)
    {
      hide Progress, Visited;
      byteIndex, bitIndex, path' := startByte, startBit, path;
      for c := 0 to 2
        invariant Valid()
        invariant path' == Visited(moduleCount, p, 2 * step + c)
        invariant Progress(g0, modules, data, MaskFunction(maskPattern), path', byteIndex, bitIndex)
      {
        NextVisit(moduleCount, p, step, c, path', (row, col - c));
        byteIndex, bitIndex := DrawModule(data, maskPattern, row, col - c, byteIndex, bitIndex, g0, path');
        path' := path' + [(row, col - c)];
      }
      assert 2 * step + 2 == 2 * (step + 1);
    }

    /** One pair of columns, up or down, turning round at the edge. */
    method WalkPair(data: seq<bv8>, maskPattern: nat, startRow: int, startInc: int, col: int,
                    startByte: nat, startBit: int, ghost g0: Grid, ghost p: nat, ghost path: seq<(int, int)>)
      returns (row: int, inc: int, byteIndex: nat, bitIndex: int, ghost path': seq<(int, int)>)
      requires Valid() && SymbolSize(moduleCount) && p < (moduleCount - 1) / 2
      requires startRow == if p % 2 == 0 then moduleCount - 1 else 0
      requires startInc == if p % 2 == 0 then -1 else 1
      requires col == RightColumn(moduleCount, p)
      requires path == PathBefore(moduleCount, p)
      requires Progress(g0, modules, data, MaskFunction(maskPattern), path, startByte, startBit)
      modifies `modules
      ensures Valid() && path' == PathBefore(moduleCount, p + 1)
      ensures row == (if p % 2 == 0 then 0 else moduleCount - 1) && inc == -startInc
      ensures Progress(g0, modules, data, MaskFunction(maskPattern), path', byteIndex, bitIndex)
    {
      row, inc, byteIndex, bitIndex, path' := startRow, startInc, startByte, startBit, path;
      ghost var step := 0;
      assert path' == Visited(moduleCount, p, 0);
      while true
        invariant Valid() && 0 <= step < moduleCount && inc == startInc
        invariant row == startRow + step * startInc
        invariant path' == Visited(moduleCount, p, 2 * step)
        invariant Progress(g0, modules, data, MaskFunction(maskPattern), path', byteIndex, bitIndex)
        decreases moduleCount - step
      {
        byteIndex, bitIndex, path' := WalkRow(data, maskPattern, row, col, byteIndex, bitIndex, g0, p, step, path');
        step := step + 1;
        row := row + inc;
        if row < 0 || moduleCount <= row {
          row := row - inc;
          inc := -inc;
          break;
        }
      }
      PairDone(moduleCount, p, step, path');
    }

    /** Writes the data under the mask along the zigzag. */
    method MapData(data: seq<bv8>, maskPattern: nat)
      requires Valid() && SymbolSize(moduleCount) && maskPattern < 8
      modifies `modules
      ensures Valid()
      ensures Placed(old(modules), modules, BitsOf(data), MaskFunction(maskPattern), Path(moduleCount))
      ensures ColumnSixDrawn(old(modules), moduleCount) ==> Full(modules, moduleCount) && Covers(old(modules), modules)
    {
      hide Progress, PathBefore, Placed, Free, ColumnSixDrawn, Full;
      var inc: int := -1;
      var row: int := moduleCount - 1;
      var bitIndex: int := 7;
      var byteIndex := 0;
      var col: int := moduleCount - 1;
      ghost var g0, p: nat, path := modules, 0, [];
      WalkStarts(modules, data, MaskFunction(maskPattern), moduleCount);
      while col > 0
        invariant Valid() && p <= (moduleCount - 1) / 2
        invariant col == ColumnBefore(moduleCount, p)
        invariant inc == if p % 2 == 0 then -1 else 1
        invariant row == if p % 2 == 0 then moduleCount - 1 else 0
        invariant path == PathBefore(moduleCount, p)
        invariant Progress(g0, modules, data, MaskFunction(maskPattern), path, byteIndex, bitIndex)
        decreases col
      {
        ColumnSteps(moduleCount, p);
        if col == 6 {
          col := col - 1;
        }
        row, inc, byteIndex, bitIndex, path :=
          WalkPair(data, maskPattern, row, inc, col, byteIndex, bitIndex, g0, p, path);
        p := p + 1;
        col := col - 2;
      }
      ColumnSteps(moduleCount, p);
      assert path == Path(moduleCount);
      WalkEnds(g0, modules, data, MaskFunction(maskPattern), path, byteIndex, bitIndex);
      assert Placed(g0, modules, BitsOf(data), MaskFunction(maskPattern), Path(moduleCount));
      PlacedFillsAll(moduleCount, g0, modules, BitsOf(data), MaskFunction(maskPattern));
    }

    /** Alignment patterns go where their centre is still null, which leaves out the three corners. */
    method SetupPositionAdjustPattern(pos: seq<nat>)
      requires Valid() && moduleCount >= 21 && PositionTable(pos, moduleCount) && DrawsFinders(modules, moduleCount)
      modifies `modules
      ensures Valid() && DrawsAlignment(modules, moduleCount, pos, |pos|, 0)
    {
      hide DrawsAlignment, DrawsFinders, InFinder, AdjustDark;
      AlignmentStarts(modules, moduleCount, pos);
      for i := 0 to |pos|
        invariant Valid() && DrawsAlignment(modules, moduleCount, pos, i, 0)
      {
        for j := 0 to |pos|
          invariant Valid() && DrawsAlignment(modules, moduleCount, pos, i, j)
        {
          ghost var before := modules;
          CentreNull(modules, moduleCount, pos, i, j);
          if Get(modules, (pos[i], pos[j])) == Null {
            DrawAdjustPattern(pos[i], pos[j]);
          }
          AlignmentStep(before, modules, moduleCount, pos, i, j);
        }
        AlignmentRow(modules, moduleCount, pos, i);
      }
    }

    method DrawAdjustPattern(row: int, col: int)
      requires Valid() && 2 <= row < moduleCount - 2 && 2 <= col < moduleCount - 2
      modifies `modules
      ensures Valid()
      ensures forall at: (int, int) :: Get(modules, at) ==
                if InSquare(row, col, -2, 2, at) then Drawn(AdjustDark(at.0 - row, at.1 - col))
                else Get(old(modules), at)
    {
      for r := -2 to 3
        invariant Valid()
        invariant forall at: (int, int) :: Get(modules, at) ==
                    if InSquare(row, col, -2, 2, at) && at.0 < row + r then Drawn(AdjustDark(at.0 - row, at.1 - col))
                    else Get(old(modules), at)
      {
        for c := -2 to 3
          invariant Valid()
          invariant forall at: (int, int) :: Get(modules, at) ==
                      if InSquare(row, col, -2, 2, at) && (at.0 < row + r || (at.0 == row + r && at.1 < col + c))
                      then Drawn(AdjustDark(at.0 - row, at.1 - col)) else Get(old(modules), at)
        {
          modules := Put(modules, (row + r, col + c), Drawn(AdjustDark(r, c)));
        }
      }
    }

    method DrawFormatColumn(test: bool, bits: seq<bool>)
      requires Valid() && moduleCount >= 21 && |bits| == 15
      modifies `modules
      ensures Valid()
      ensures forall k :: 0 <= k < 15 ==> Get(modules, FormatV(moduleCount, k)) == Drawn(!test && bits[k])
      ensures forall at: (int, int) :: !FormatCell(moduleCount, at) ==> Get(modules, at) == Get(old(modules), at)
    {
      for i := 0 to 15
        invariant Valid()
        invariant forall k :: 0 <= k < i ==> Get(modules, FormatV(moduleCount, k)) == Drawn(!test && bits[k])
        invariant forall at: (int, int) :: !FormatCell(moduleCount, at) ==> Get(modules, at) == Get(old(modules), at)
      {
        modules := Put(modules, FormatV(moduleCount, i), Drawn(!test && bits[i]));
      }
    }

    method DrawFormatRow(test: bool, bits: seq<bool>)
      requires Valid() && moduleCount >= 21 && |bits| == 15
      requires forall k :: 0 <= k < 15 ==> Get(modules, FormatV(moduleCount, k)) == Drawn(!test && bits[k])
      modifies `modules
      ensures Valid()
      ensures forall k :: 0 <= k < 15 ==> Get(modules, FormatV(moduleCount, k)) == Drawn(!test && bits[k])
      ensures forall k :: 0 <= k < 15 ==> Get(modules, FormatH(moduleCount, k)) == Drawn(!test && bits[k])
      ensures forall at: (int, int) :: !FormatCell(moduleCount, at) ==> Get(modules, at) == Get(old(modules), at)
    {
      for i := 0 to 15
        invariant Valid()
        invariant forall k :: 0 <= k < 15 ==> Get(modules, FormatV(moduleCount, k)) == Drawn(!test && bits[k])
        invariant forall k :: 0 <= k < i ==> Get(modules, FormatH(moduleCount, k)) == Drawn(!test && bits[k])
        invariant forall at: (int, int) :: !FormatCell(moduleCount, at) ==> Get(modules, at) == Get(old(modules), at)
      {
        modules := Put(modules, FormatH(moduleCount, i), Drawn(!test && bits[i]));
      }
    }

    /** Both copies of the 15 format bits, and the fixed module; light while a mask is being tried. */
    method SetupTypeInfo(test: bool, bits: seq<bool>)
      requires Valid() && moduleCount >= 21 && |bits| == 15
      modifies `modules
      ensures Valid() && FormatDrawn(modules, moduleCount, test, bits)
      ensures forall at: (int, int) :: !FormatCell(moduleCount, at) ==> Get(modules, at) == Get(old(modules), at)
    {
      DrawFormatColumn(test, bits);
      DrawFormatRow(test, bits);
      modules := Put(modules, (moduleCount - 8, 8), Drawn(!test));
    }

    method DrawVersionA(test: bool, bits: seq<bool>)
      requires Valid() && moduleCount >= 45 && |bits| == 18
      modifies `modules
      ensures Valid() && Covers(old(modules), modules)
      ensures forall k :: 0 <= k < 18 ==> Get(modules, VersionA(moduleCount, k)) == Drawn(!test && bits[k])
      ensures forall at: (int, int) :: !VersionCell(moduleCount, at) ==> Get(modules, at) == Get(old(modules), at)
    {
      for i := 0 to 18
        invariant Valid() && Covers(old(modules), modules)
        invariant forall k :: 0 <= k < i ==> Get(modules, VersionA(moduleCount, k)) == Drawn(!test && bits[k])
        invariant forall at: (int, int) :: !VersionCell(moduleCount, at) ==> Get(modules, at) == Get(old(modules), at)
      {
        modules := Put(modules, VersionA(moduleCount, i), Drawn(!test && bits[i]));
      }
    }

    /** Both copies of the 18 version bits. */
    method SetupTypeNumber(test: bool, bits: seq<bool>)
      requires Valid() && moduleCount >= 45 && |bits| == 18
      modifies `modules
      ensures Valid() && Covers(old(modules), modules) && VersionDrawn(modules, moduleCount, test, bits)
      ensures forall at: (int, int) :: !VersionCell(moduleCount, at) ==> Get(modules, at) == Get(old(modules), at)
    {
      DrawVersionA(test, bits);
      for i := 0 to 18
        invariant Valid() && Covers(old(modules), modules)
        invariant forall k :: 0 <= k < 18 ==> Get(modules, VersionA(moduleCount, k)) == Drawn(!test && bits[k])
        invariant forall k :: 0 <= k < i ==> Get(modules, VersionB(moduleCount, k)) == Drawn(!test && bits[k])
        invariant forall at: (int, int) :: !VersionCell(moduleCount, at) ==> Get(modules, at) == Get(old(modules), at)
      {
        modules := Put(modules, VersionB(moduleCount, i), Drawn(!test && bits[i]));
      }
    }

    /** The three probe patterns, which do not overlap. */
    method SetupFinders()
      requires Valid() && moduleCount >= 21 && forall at: (int, int) :: Get(modules, at) == Null
      modifies `modules
      ensures Valid() && DrawsFinders(modules, moduleCount)
    {
      SetupPositionProbePattern(0, 0);
      SetupPositionProbePattern(moduleCount - 7, 0);
      SetupPositionProbePattern(0, moduleCount - 7);
    }

    /** What is drawn before the type bits. */
    method SetupFixedPatterns(pos: seq<nat>)
      requires Valid() && moduleCount >= 21 && PositionTable(pos, moduleCount)
      requires forall at: (int, int) :: Get(modules, at) == Null
      modifies `modules
      ensures Valid() && DrawsFixed(modules, moduleCount, pos)
    {
      hide DrawsFinders, DrawsAlignment, DrawsFixed, PositionTable;
      SetupFinders();
      SetupPositionAdjustPattern(pos);
      ghost var before := modules;
      SetupTimingPattern();
      TimingStage(before, modules, moduleCount, pos);
    }

    /** The patterns of makeImpl: exactly the pattern modules of the version are drawn, each as it should be. */
    method SetupPatterns(test: bool, pos: seq<nat>, formatBits: seq<bool>, versionBits: seq<bool>)
      requires Valid() && moduleCount >= 21 && |formatBits| == 15 && |versionBits| == 18
      requires PositionTable(pos, moduleCount) && forall at: (int, int) :: Get(modules, at) == Null
      modifies `modules
      ensures Valid() && DrawsPatternModules(modules, moduleCount, pos)
      ensures ShowsPatterns(modules, moduleCount, pos, test, formatBits, versionBits)
    {
      hide DrawsFixed, ShowsFixed, FormatDrawn, VersionDrawn, PositionTable, InFinder, InAlignment, InTiming,
           FormatCell, VersionCell;
      SetupFixedPatterns(pos);
      ghost var before := modules;
      SetupTypeInfo(test, formatBits);
      FormatStage(before, modules, moduleCount, pos, test, formatBits);
      if moduleCount >= 45 {
        ghost var half := modules;
        SetupTypeNumber(test, versionBits);
        VersionStage(half, modules, moduleCount, pos, test, formatBits, versionBits);
      }
    }

    /**
      makeImpl on a blank grid: every module is drawn, every pattern of the version shows what it should,
      and a reader who knows the version and the mask finds the codewords on the other modules.
    */
    method MakeImpl(test: bool, maskPattern: nat, pos: seq<nat>, formatBits: seq<bool>, versionBits: seq<bool>,
                    data: seq<bv8>)
      requires Valid() && SymbolSize(moduleCount) && moduleCount >= 21 && maskPattern < 8
      requires forall at: (int, int) :: Get(modules, at) == Null
      requires |formatBits| == 15 && |versionBits| == 18 && PositionTable(pos, moduleCount)
      modifies `modules
      ensures Valid() && Full(modules, moduleCount)
      ensures ShowsPatterns(modules, moduleCount, pos, test, formatBits, versionBits)
      ensures 8 * |data| <= FreeModules(moduleCount, pos) ==>
                Carries(Reserved(moduleCount, pos), modules, MaskFunction(maskPattern), moduleCount, data)
    {
      hide Placed, ShowsPatterns, PatternModule, Free;
      SetupPatterns(test, pos, formatBits, versionBits);
      ghost var patterns := modules;
      ColumnSixFull(patterns, moduleCount, pos);
      MapData(data, maskPattern);
      PlacedKeeps(patterns, modules, BitsOf(data), MaskFunction(maskPattern), Path(moduleCount));
      PatternsSurvive(patterns, modules, moduleCount, pos, test, formatBits, versionBits);
      ReservedCarries(patterns, modules, MaskFunction(maskPattern), moduleCount, pos, data);
    }
  }

  /** A zigzag reader who knows the patterns and the mask reads off the data. */
  ghost predicate Carries(patterns: Grid, g: Grid, mask: (int, int) -> bool, n: nat, data: seq<bv8>)
    requires SymbolSize(n)
  {
    var bits := ReadBits(patterns, g, mask, Path(n));
    8 * |data| <= |bits| && forall j :: 0 <= j < |data| ==> ByteAt(bits, j) == data[j]
  }

  lemma ColumnSixFull(g: Grid, n: nat, pos: seq<nat>)
    requires n >= 21 && DrawsPatternModules(g, n, pos)
    ensures ColumnSixDrawn(g, n)
  {
    forall r | 0 <= r < n ensures Get(g, (r, 6)) != Null {
      ColumnSixIsPattern(n, pos, r);
    }
  }

  lemma PlacedKeeps(g: Grid, g': Grid, bit: nat -> bool, mask: (int, int) -> bool, path: seq<(int, int)>)
    requires Placed(g, g', bit, mask, path)
    ensures forall at: (int, int) :: Get(g, at) != Null ==> Get(g', at) == Get(g, at)
  {
  }

  /** The reader does not need the drawn patterns, only which modules they take up. */
  lemma ReservedCarries(patterns: Grid, g: Grid, mask: (int, int) -> bool, n: nat, pos: seq<nat>, data: seq<bv8>)
    requires SymbolSize(n) && DrawsPatternModules(patterns, n, pos) && Placed(patterns, g, BitsOf(data), mask, Path(n))
    ensures 8 * |data| <= FreeModules(n, pos) ==> Carries(Reserved(n, pos), g, mask, n, data)
  {
    hide PatternModule, Placed, Free;
    FreeDependsOnNulls(patterns, Reserved(n, pos), Path(n));
    ReadDependsOnNulls(patterns, Reserved(n, pos), g, mask, Path(n));
    if 8 * |data| <= FreeModules(n, pos) {
      ReaderRecovers(patterns, g, data, mask, Path(n));
    }
  }
}
