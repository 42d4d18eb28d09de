/**
  The symbol as the figures of ISO/IEC 18004:2015 show it: probe patterns with their separators, alignment
  patterns, the timing lines, the module that is always dark, the mask patterns and the order of the zigzag,
  each written down here once more and compared with what is drawn.
*/
module QrFigures {
  import opened QrCapacity
  import opened QrPatterns
  import opened SymbolPath

  type Figure = seq<string>

  predicate DarkIn(figure: Figure, r: nat, c: nat) {
    r < |figure| && c < |figure[r]| && figure[r][c] == '#'
  }

  /** The figure stands in the grid with its corner at (top, left). */
  ghost predicate Shows(g: Grid, top: int, left: int, height: nat, width: nat, figure: Figure) {
    forall r: nat, c: nat :: r < height && c < width ==> Get(g, (top + r, left + c)) == Drawn(DarkIn(figure, r, c))
  }

  /** A probe pattern inside its light border. */
  const PROBE: Figure := [
    ".........",
    ".#######.",
    ".#.....#.",
    ".#.###.#.",
    ".#.###.#.",
    ".#.###.#.",
    ".#.....#.",
    ".#######.",
    "........."]

  const ALIGNMENT: Figure := [
    "#####",
    "#...#",
    "#.#.#",
    "#...#",
    "#####"]

  lemma ProbeFigure(r: nat, c: nat)
    requires r < 9 && c < 9
    ensures DarkIn(PROBE, r, c) == ProbeDark(r - 1, c - 1)
  {
  }

  lemma AlignmentFigure(r: nat, c: nat)
    requires r < 5 && c < 5
    ensures DarkIn(ALIGNMENT, r, c) == AdjustDark(r - 2, c - 2)
  {
  }

  // ---- the masks

  /** What each mask pattern repeats; a dark module of it is turned over. */
  function Tile(pattern: nat): Figure {
    match pattern
    case 0 => ["#.", ".#"]
    case 1 => ["#", "."]
    case 2 => ["#.."]
    case 3 => ["#..", "..#", ".#."]
    case 4 => ["###...", "###...", "...###", "...###"]
    case 5 => ["######", "#.....", "#..#..", "#.#.#.", "#..#..", "#....."]
    case 6 => ["######", "###...", "##.##.", "#.#.#.", "#.##.#", "#...##"]
    case _ => ["#.#.#.", "...###", "#...##", ".#.#.#", "###...", ".###.."]
  }

  function Height(pattern: nat): nat {
    match pattern
    case 0 => 2
    case 1 => 2
    case 2 => 1
    case 3 => 3
    case 4 => 4
    case _ => 6
  }

  function Width(pattern: nat): nat {
    match pattern
    case 0 => 2
    case 1 => 1
    case 2 => 3
    case 3 => 3
    case _ => 6
  }

  function Product2(i: nat, j: nat): nat {
    if i % 2 == 1 && j % 2 == 1 then 1 else 0
  }

  function Product3(i: nat, j: nat): nat {
    if i % 3 == 0 || j % 3 == 0 then 0 else if i % 3 == j % 3 then 1 else 2
  }

  lemma Distributed(i: nat, j: nat, m: nat, q: nat, r: nat)
    requires i == m * q + r
    ensures i * j == m * (q * j) + r * j
  {
    assert m * q * j == m * (q * j);
  }

  lemma SameRemainders(i: nat, j: nat)
    ensures Product2(i % 2, j) == Product2(i, j) && Product3(i % 3, j) == Product3(i, j)
  {
  }

  /** Products modulo 2 and 3, from the remainders of the factors. */
  lemma ProductRemainders(i: nat, j: nat)
    ensures (i * j) % 2 == Product2(i, j) && (i * j) % 3 == Product3(i, j)
  {
    hide Product2, Product3;
    Distributed(i, j, 2, i / 2, i % 2);
    Distributed(i, j, 3, i / 3, i % 3);
    Twice(i / 2 * j, i % 2 * j);
    Thrice(i / 3 * j, i % 3 * j);
    SmallProducts(i % 2, i % 3, j);
    SameRemainders(i, j);
  }

  lemma Twice(k: nat, rest: nat)
    ensures (2 * k + rest) % 2 == rest % 2
  {
  }

  lemma Thrice(k: nat, rest: nat)
    ensures (3 * k + rest) % 3 == rest % 3
  {
  }

  lemma SmallProducts(x: nat, y: nat, j: nat)
    requires x < 2 && y < 3
    ensures (x * j) % 2 == Product2(x, j) && (y * j) % 3 == Product3(y, j)
  {
    assert x * j == if x == 0 then 0 else j;
    assert y * j == if y == 0 then 0 else if y == 1 then j else j + j;
  }

  lemma Sixths(i: nat)
    ensures i % 6 % 2 == i % 2 && i % 6 % 3 == i % 3
  {
    var q := i / 6;
    Twice(3 * q, i % 6);
    Thrice(2 * q, i % 6);
  }

  lemma SameProducts(i: nat, j: nat)
    ensures Product2(i % 6, j % 6) == (i * j) % 2 && Product3(i % 6, j % 6) == (i * j) % 3
    ensures (i % 6 + j % 6) % 2 == (i + j) % 2
  {
    ProductRemainders(i, j);
    Sixths(i);
    Sixths(j);
    Twice(3 * (i / 6) + 3 * (j / 6), i % 6 + j % 6);
  }

  lemma Halves(i: nat, j: nat)
    ensures (i / 2 + j / 3) % 2 == (i % 4 / 2 + j % 6 / 3) % 2
  {
    assert i / 2 == 2 * (i / 4) + i % 4 / 2;
    assert j / 3 == 2 * (j / 6) + j % 6 / 3;
    Twice(i / 4 + j / 6, i % 4 / 2 + j % 6 / 3);
  }

  lemma Tile4(x: nat, y: nat)
    requires x < 4 && y < 6
    ensures ((x / 2 + y / 3) % 2 == 0) == DarkIn(Tile(4), x, y)
  {
  }

  lemma Tile5(x: nat, y: nat)
    requires x < 6 && y < 6
    ensures (Product2(x, y) + Product3(x, y) == 0) == DarkIn(Tile(5), x, y)
  {
  }

  lemma Tile6(x: nat, y: nat)
    requires x < 6 && y < 6
    ensures ((Product2(x, y) + Product3(x, y)) % 2 == 0) == DarkIn(Tile(6), x, y)
  {
  }

  lemma UpperTile7(x: nat, y: nat)
    requires x < 3 && y < 6
    ensures ((Product3(x, y) + (x + y) % 2) % 2 == 0) == DarkIn(Tile(7), x, y)
  {
  }

  lemma LowerTile7(x: nat, y: nat)
    requires 3 <= x < 6 && y < 6
    ensures ((Product3(x, y) + (x + y) % 2) % 2 == 0) == DarkIn(Tile(7), x, y)
  {
  }

  lemma Tile7(x: nat, y: nat)
    requires x < 6 && y < 6
    ensures ((Product3(x, y) + (x + y) % 2) % 2 == 0) == DarkIn(Tile(7), x, y)
  {
    hide Product3, Tile, DarkIn;
    if x < 3 {
      UpperTile7(x, y);
    } else {
      LowerTile7(x, y);
    }
  }

  lemma Tile0(i: nat, j: nat)
    ensures MaskAt(0, i, j) == DarkIn(Tile(0), i % Height(0), j % Width(0))
  {
  }

  lemma Tile1(i: nat, j: nat)
    ensures MaskAt(1, i, j) == DarkIn(Tile(1), i % Height(1), j % Width(1))
  {
  }

  lemma Tile2(i: nat, j: nat)
    ensures MaskAt(2, i, j) == DarkIn(Tile(2), i % Height(2), j % Width(2))
  {
  }

  lemma Tile3(i: nat, j: nat)
    ensures MaskAt(3, i, j) == DarkIn(Tile(3), i % Height(3), j % Width(3))
  {
  }

  /** The formulas of the masks give the repeated figures. */
  lemma MaskIsTile(pattern: nat, i: nat, j: nat)
    requires pattern < 8
    ensures MaskAt(pattern, i, j) == DarkIn(Tile(pattern), i % Height(pattern), j % Width(pattern))
  {
    hide Tile, Product2, Product3, DarkIn;
    SameProducts(i, j);
    match pattern
    case 0 => Tile0(i, j);
    case 1 => Tile1(i, j);
    case 2 => Tile2(i, j);
    case 3 => Tile3(i, j);
    case 4 =>
      Halves(i, j);
      Tile4(i % 4, j % 6);
    case 5 => Tile5(i % 6, j % 6);
    case 6 => Tile6(i % 6, j % 6);
    case _ => Tile7(i % 6, j % 6);
  }

  // ---- the order of the zigzag

  /** Pairs of columns go up and down in turn, the rightmost up; a right-hand column is the one a pair starts with. */
  predicate IsRightColumn(c: int) {
    if c > 6 then c % 2 == 0 else c % 2 == 1
  }

  predicate Upwards(n: nat, right: int) {
    if right > 6 then (n - 1 - right) / 2 % 2 == 0 else (n - 2 - right) / 2 % 2 == 0
  }

  /** The module after `at`: the left neighbour, then the right one of the next row; column 6 is passed over. */
  function NextPlace(n: nat, at: (int, int)): (int, int) {
    if IsRightColumn(at.1) then (at.0, at.1 - 1)
    else
      var row := if Upwards(n, at.1 + 1) then at.0 - 1 else at.0 + 1;
      if 0 <= row < n then (row, at.1 + 1)
      else (at.0, if at.1 == 7 then 5 else at.1 - 1)
  }

  lemma PathLength(n: nat, p: nat)
    ensures |PathBefore(n, p)| == 2 * n * p
  {
    if p > 0 {
      PathLength(n, p - 1);
      assert 2 * n * p == 2 * n * (p - 1) + 2 * n;
    }
  }

  lemma {:induction false} PathAt(n: nat, p: nat, q: nat, i: nat)
    requires q < p && i < 2 * n
    ensures 2 * n * q + i < |PathBefore(n, p)| && PathBefore(n, p)[2 * n * q + i] == PairCell(n, q, i)
  {
    PathLength(n, p - 1);
    PathLength(n, p);
    if q < p - 1 {
      PathAt(n, p - 1, q, i);
    } else {
      assert PathBefore(n, p)[2 * n * q + i] == PairPath(n, p - 1, 2 * n)[i];
    }
  }

  /** The right-hand column of a pair is one, the column beside it is none, and the direction alternates. */
  lemma ColumnsOf(n: nat, p: nat)
    requires SymbolSize(n) && p < (n - 1) / 2
    ensures var c := RightColumn(n, p);
            IsRightColumn(c) && !IsRightColumn(c - 1) && (Upwards(n, c) <==> p % 2 == 0)
  {
    var half := (n - 1) / 2;
    assert n - 1 == 2 * half;
    if n - 1 - 2 * p >= 8 {
      assert (n - 1 - (n - 1 - 2 * p)) / 2 == p && n - 1 - 2 * p == 2 * (half - p);
    } else {
      assert (n - 2 - (n - 2 - 2 * p)) / 2 == p && n - 2 - 2 * p == 2 * (half - p - 1) + 1;
    }
  }

  lemma NextInPair(n: nat, p: nat, i: nat)
    requires SymbolSize(n) && p < (n - 1) / 2 && i + 1 < 2 * n
    ensures PairCell(n, p, i + 1) == NextPlace(n, PairCell(n, p, i))
  {
    hide RightColumn, IsRightColumn, Upwards;
    ColumnsOf(n, p);
    if i % 2 == 0 {
      assert (i + 1) / 2 == i / 2 && (i + 1) % 2 == 1;
    } else {
      assert (i + 1) / 2 == i / 2 + 1 && (i + 1) % 2 == 0;
    }
  }

  lemma ColumnsNext(n: nat, p: nat)
    requires SymbolSize(n) && p + 1 < (n - 1) / 2
    ensures var c := RightColumn(n, p) - 1; RightColumn(n, p + 1) == if c == 7 then 5 else c - 1
  {
  }

  lemma NextPair(n: nat, p: nat)
    requires SymbolSize(n) && p + 1 < (n - 1) / 2
    ensures PairCell(n, p + 1, 0) == NextPlace(n, PairCell(n, p, 2 * n - 1))
  {
    hide RightColumn, IsRightColumn, Upwards;
    ColumnsOf(n, p);
    ColumnsNext(n, p);
    assert (2 * n - 1) / 2 == n - 1 && (2 * n - 1) % 2 == 1;
    assert (p + 1) % 2 == 1 - p % 2;
  }

  lemma PathSize(n: nat)
    requires SymbolSize(n)
    ensures |Path(n)| == n * (n - 1) == 2 * n * ((n - 1) / 2)
  {
    PathLength(n, (n - 1) / 2);
    assert 2 * ((n - 1) / 2) == n - 1;
    assert 2 * n * ((n - 1) / 2) == n * (2 * ((n - 1) / 2));
  }

  lemma MulGrows(m: nat, p: nat, q: nat)
    ensures p <= q ==> m * p <= m * q
  {
  }

  /** A place within the path, by pair and step. */
  lemma ZigzagStep(n: nat, q: nat, i: nat)
    requires SymbolSize(n) && i < 2 * n && 2 * n * q + i + 1 < |Path(n)|
    ensures Path(n)[2 * n * q + i + 1] == NextPlace(n, Path(n)[2 * n * q + i])
  {
    hide PathBefore, PairCell, NextPlace;
    var pairs := (n - 1) / 2;
    PathSize(n);
    MulGrows(2 * n, pairs, q);
    PathAt(n, pairs, q, i);
    if i + 1 < 2 * n {
      PathAt(n, pairs, q, i + 1);
      NextInPair(n, q, i);
    } else {
      assert 2 * n * q + i + 1 == 2 * n * (q + 1);
      MulGrows(2 * n, pairs, q + 1);
      PathAt(n, pairs, q + 1, 0);
      NextPair(n, q);
    }
  }

  lemma Divided(k: nat, m: nat) returns (q: nat, r: nat)
    requires m > 0
    ensures k == m * q + r && r < m
  {
    q, r := k / m, k % m;
  }

  lemma PathCount(n: nat)
    requires SymbolSize(n)
    ensures |Path(n)| == n * (n - 1)
  {
    hide Path;
    PathSize(n);
  }

  /** The visit starts in the lower right corner and goes on by that rule. */
  lemma ZigzagByRule(n: nat, k: nat)
    requires SymbolSize(n)
    ensures |Path(n)| == n * (n - 1) && |Path(n)| > 0 && Path(n)[0] == (n - 1, n - 1)
    ensures k + 1 < |Path(n)| ==> Path(n)[k + 1] == NextPlace(n, Path(n)[k])
  {
    hide Path, NextPlace;
    PathCount(n);
    FirstPlace(n);
    if k + 1 < |Path(n)| {
      var q, i := Divided(k, 2 * n);
      ZigzagStep(n, q, i);
    }
  }

  lemma FirstPlace(n: nat)
    requires SymbolSize(n)
    ensures |Path(n)| > 0 && Path(n)[0] == (n - 1, n - 1)
  {
    PathAt(n, (n - 1) / 2, 0, 0);
  }

  // ---- the finished symbol

  ghost predicate ShowsProbe(g: Grid, n: nat, top: int, left: int) {
    forall r: nat, c: nat :: r < 9 && c < 9 && Inside(n, (top - 1 + r, left - 1 + c)) ==>
      Get(g, (top - 1 + r, left - 1 + c)) == Drawn(DarkIn(PROBE, r, c))
  }

  /** Covered by the alignment pattern in row 6 or column 6 at x. */
  predicate Beside(pos: seq<nat>, x: int) {
    exists j :: 0 < j < |pos| - 1 && pos[j] - 2 <= x <= pos[j] + 2
  }

  ghost predicate ShowsAlignment(g: Grid, row: int, col: int) {
    Shows(g, row - 2, col - 2, 5, 5, ALIGNMENT)
  }

  /** Every pattern of the symbol looks like its figure. */
  ghost predicate LooksLikeFigures(g: Grid, n: nat, pos: seq<nat>) {
    && ShowsProbe(g, n, 0, 0) && ShowsProbe(g, n, n - 7, 0) && ShowsProbe(g, n, 0, n - 7)
    && (forall i: nat, j: nat :: i < |pos| && j < |pos| && !Corner(|pos|, i, j) ==>
          ShowsAlignment(g, pos[i], pos[j]))
    && (forall x: int :: 8 <= x < n - 8 && !Beside(pos, x) ==>
          Get(g, (6, x)) == Get(g, (x, 6)) == Drawn(x % 2 == 0))
    && Get(g, (n - 8, 8)) == Drawn(true)
  }

  lemma ProbeShown(g: Grid, n: nat, top: int, left: int)
    requires n >= 21 && (forall at: (int, int) :: Inside(n, at) && InFinder(n, at) ==> Get(g, at) == FinderCell(n, at))
    requires (top == 0 && left == 0) || (top == n - 7 && left == 0) || (top == 0 && left == n - 7)
    ensures ShowsProbe(g, n, top, left)
  {
    hide DarkIn;
    forall r: nat, c: nat | r < 9 && c < 9 && Inside(n, (top - 1 + r, left - 1 + c))
      ensures Get(g, (top - 1 + r, left - 1 + c)) == Drawn(DarkIn(PROBE, r, c))
    {
      ProbeFigure(r, c);
      assert InFinder(n, (top - 1 + r, left - 1 + c));
    }
  }

  lemma AlignmentCell(g: Grid, n: nat, pos: seq<nat>, i: nat, j: nat, r: int, c: int)
    requires n >= 25 && SpansSymbol(pos, n) && ShowsFixed(g, n, pos)
    requires i < |pos| && j < |pos| && !Corner(|pos|, i, j) && -2 <= r <= 2 && -2 <= c <= 2
    ensures Get(g, (pos[i] + r, pos[j] + c)) == Drawn(AdjustDark(r, c))
  {
    CornersAreFinders(n, pos, i, j);
    hide PositionTable, InFinder, FinderCell, Get;
    assert InAlignmentAt(n, pos[i], pos[j], (pos[i] + r, pos[j] + c));
  }

  lemma AlignmentShown(g: Grid, n: nat, pos: seq<nat>, i: nat, j: nat)
    requires n >= 25 && SpansSymbol(pos, n) && ShowsFixed(g, n, pos)
    requires i < |pos| && j < |pos| && !Corner(|pos|, i, j)
    ensures ShowsAlignment(g, pos[i], pos[j])
  {
    hide DarkIn, SpansSymbol, ShowsFixed, AdjustDark, Get;
    var row: int, col: int := pos[i], pos[j];
    forall r: nat, c: nat | r < 5 && c < 5
      ensures Get(g, (row - 2 + r, col - 2 + c)) == Drawn(DarkIn(ALIGNMENT, r, c))
    {
      AlignmentFigure(r, c);
      AlignmentCell(g, n, pos, i, j, r - 2, c - 2);
      assert (pos[i] + (r - 2), pos[j] + (c - 2)) == (row - 2 + r, col - 2 + c);
    }
  }

  lemma TimingShown(g: Grid, n: nat, pos: seq<nat>, x: int)
    requires n >= 21 && SpansSymbol(pos, n) && (pos != [] ==> n >= 25) && ShowsFixed(g, n, pos)
    requires 8 <= x < n - 8 && !Beside(pos, x)
    ensures Get(g, (6, x)) == Get(g, (x, 6)) == Drawn(x % 2 == 0)
  {
    if pos != [] {
      CoveredTiming(n, pos, (6, x));
      CoveredTiming(n, pos, (x, 6));
    }
  }

  lemma FiguresShown(g: Grid, n: nat, pos: seq<nat>, formatBits: seq<bool>, versionBits: seq<bool>)
    requires n >= 21 && SpansSymbol(pos, n) && (pos != [] ==> n >= 25)
    requires ShowsPatterns(g, n, pos, false, formatBits, versionBits)
    ensures LooksLikeFigures(g, n, pos)
  {
    hide PositionTable, Corner, InFinder, ShowsProbe, ShowsAlignment, Beside, Get, FinderCell, InAlignmentAt, InTiming;
    ProbeShown(g, n, 0, 0);
    ProbeShown(g, n, n - 7, 0);
    ProbeShown(g, n, 0, n - 7);
    forall i: nat, j: nat | i < |pos| && j < |pos| && !Corner(|pos|, i, j)
      ensures ShowsAlignment(g, pos[i], pos[j])
    {
      AlignmentShown(g, n, pos, i, j);
    }
    forall x: int | 8 <= x < n - 8 && !Beside(pos, x) ensures Get(g, (6, x)) == Get(g, (x, 6)) == Drawn(x % 2 == 0) {
      TimingShown(g, n, pos, x);
    }
  }
}
