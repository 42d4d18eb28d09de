/**
  The zigzag of mapData (section 7.7.3 of ISO/IEC 18004:2015): the order in which the modules of an
  n x n symbol are visited, what is written on the way, and the reader that walks the same path.
*/
module SymbolPath {
  import opened Basics
  import opened Bits

  /** A module is null until a pattern or a data bit is drawn on it. */
  datatype Cell = Null | Drawn(dark: bool)

  type Grid = seq<seq<Cell>>

  ghost predicate Square(g: Grid, n: nat) {
    |g| == n && forall r :: 0 <= r < n ==> |g[r]| == n
  }

  predicate Inside(n: nat, at: (int, int)) {
    0 <= at.0 < n && 0 <= at.1 < n
  }

  function Get(g: Grid, at: (int, int)): Cell {
    if 0 <= at.0 < |g| && 0 <= at.1 < |g[at.0]| then g[at.0][at.1] else Null
  }

  function Put(g: Grid, at: (int, int), cell: Cell): (g': Grid)
    requires 0 <= at.0 < |g| && 0 <= at.1 < |g[at.0]|
    ensures forall n :: Square(g, n) ==> Square(g', n)
    ensures forall other :: Get(g', other) == if other == at then cell else Get(g, other)
  {
    g[at.0 := g[at.0][at.1 := cell]]
  }

  // ---- the order of the visit

  /** The right-hand column of the p-th pair of columns; column 6 is skipped. */
  function RightColumn(n: nat, p: nat): int {
    if n - 1 - 2 * p >= 8 then n - 1 - 2 * p else n - 2 - 2 * p
  }

  /** The i-th module of pair p: upwards in even pairs, downwards in odd ones, right before left. */
  function PairCell(n: nat, p: nat, i: nat): (int, int) {
    (if p % 2 == 0 then n - 1 - i / 2 else i / 2, RightColumn(n, p) - i % 2)
  }

  function PairPath(n: nat, p: nat, length: nat): seq<(int, int)> {
    seq(length, i requires 0 <= i => PairCell(n, p, i))
  }

  function PathBefore(n: nat, p: nat): seq<(int, int)> {
    if p == 0 then [] else PathBefore(n, p - 1) + PairPath(n, p - 1, 2 * n)
  }

  function Path(n: nat): seq<(int, int)>
    requires SymbolSize(n)
  {
    PathBefore(n, (n - 1) / 2)
  }

  predicate SymbolSize(n: nat) {
    n >= 9 && n % 2 == 1
  }

  /** The side of the symbol of a version. */
  function ModuleCount(typeNumber: nat): (n: nat)
    requires 1 <= typeNumber
    ensures n == 4 * typeNumber + 17 && SymbolSize(n)
  {
    OddNumber(2 * typeNumber + 8);
    2 * (2 * typeNumber + 8) + 1
  }

  ghost predicate NoRepeats(path: seq<(int, int)>) {
    forall i, j :: 0 <= i < j < |path| ==> path[i] != path[j]
  }

  /** The pair that holds column c, c != 6. */
  function PairOf(n: nat, c: int): int {
    if c >= 7 then (n - 1 - c) / 2 else (n - 2 - c) / 2
  }

  lemma PairCellBounds(n: nat, p: nat, i: nat)
    requires SymbolSize(n) && p < (n - 1) / 2 && i < 2 * n
    ensures Inside(n, PairCell(n, p, i)) && PairCell(n, p, i).1 != 6
    ensures PairOf(n, PairCell(n, p, i).1) == p
    ensures i == 2 * (if p % 2 == 0 then n - 1 - PairCell(n, p, i).0 else PairCell(n, p, i).0)
                 + (RightColumn(n, p) - PairCell(n, p, i).1)
  {
  }

  lemma {:induction false} PathCells(n: nat, p: nat)
    requires SymbolSize(n) && p <= (n - 1) / 2
    ensures NoRepeats(PathBefore(n, p))
    ensures forall i :: 0 <= i < |PathBefore(n, p)| ==>
              var at := PathBefore(n, p)[i]; Inside(n, at) && at.1 != 6 && PairOf(n, at.1) < p
  {
    if p > 0 {
      var left, right := PathBefore(n, p - 1), PairPath(n, p - 1, 2 * n);
      PathCells(n, p - 1);
      forall i | 0 <= i < 2 * n
        ensures Inside(n, right[i]) && right[i].1 != 6 && PairOf(n, right[i].1) == p - 1
      {
        PairCellBounds(n, p - 1, i);
      }
      forall i, j | 0 <= i < j < 2 * n ensures right[i] != right[j] {
        PairCellBounds(n, p - 1, i);
        PairCellBounds(n, p - 1, j);
      }
      NoRepeatsAppend(left, right);
    }
  }

  lemma NoRepeatsAppend(left: seq<(int, int)>, right: seq<(int, int)>)
    requires NoRepeats(left) && NoRepeats(right)
    requires forall i, j :: 0 <= i < |left| && 0 <= j < |right| ==> left[i] != right[j]
    ensures NoRepeats(left + right)
  {
  }

  lemma {:induction false} PathReaches(n: nat, p: nat, at: (int, int))
    requires SymbolSize(n) && p <= (n - 1) / 2
    requires Inside(n, at) && at.1 != 6 && PairOf(n, at.1) < p
    ensures at in PathBefore(n, p)
  {
    if PairOf(n, at.1) == p - 1 {
      var i := 2 * (if (p - 1) % 2 == 0 then n - 1 - at.0 else at.0) + (RightColumn(n, p - 1) - at.1);
      assert PairCell(n, p - 1, i) == at;
      assert PairPath(n, p - 1, 2 * n)[i] == at;
    } else {
      PathReaches(n, p - 1, at);
    }
  }

  /** The zigzag visits every module outside column 6 exactly once, and no other. */
  lemma PathIsComplete(n: nat)
    requires SymbolSize(n)
    ensures NoRepeats(Path(n))
    ensures forall at: (int, int) :: at in Path(n) <==> Inside(n, at) && at.1 != 6
  {
    PathCells(n, (n - 1) / 2);
    forall at: (int, int) | Inside(n, at) && at.1 != 6 ensures at in Path(n) {
      PathReaches(n, (n - 1) / 2, at);
    }
  }

  // ---- masks

  /** The eight mask patterns. */
  function MaskAt(pattern: nat, i: int, j: int): bool {
    match pattern
    case 0 => (i + j) % 2 == 0
    case 1 => i % 2 == 0
    case 2 => j % 3 == 0
    case 3 => (i + j) % 3 == 0
    case 4 => (i / 2 + j / 3) % 2 == 0
    case 5 => (i * j) % 2 + (i * j) % 3 == 0
    case 6 => ((i * j) % 2 + (i * j) % 3) % 2 == 0
    case _ => ((i * j) % 3 + (i + j) % 2) % 2 == 0
  }

  // ---- placing and reading

  /** How many modules of the path are still null. */
  function Free(g: Grid, path: seq<(int, int)>): nat {
    if path == [] then 0
    else Free(g, path[..|path| - 1]) + if Get(g, path[|path| - 1]) == Null then 1 else 0
  }

  /**
    The grid `after` carries the bits on the modules of the path: the k-th module that was null in
    `before` holds bit k under the mask, and no other module has changed.
  */
  ghost predicate Placed(before: Grid, after: Grid, bit: nat -> bool, mask: (int, int) -> bool, path: seq<(int, int)>) {
    && (forall i {:trigger path[i]} :: 0 <= i < |path| && Get(before, path[i]) == Null ==>
          Get(after, path[i]) == Drawn(bit(Free(before, path[..i])) != mask(path[i].0, path[i].1)))
    && (forall at :: at !in path || Get(before, at) != Null ==> Get(after, at) == Get(before, at))
  }

  /** Walks the path over the modules that carry no pattern and takes the mask off. */
  function ReadBits(pattern: Grid, g: Grid, mask: (int, int) -> bool, path: seq<(int, int)>): seq<bool> {
    if path == [] then []
    else
      var last := path[|path| - 1];
      ReadBits(pattern, g, mask, path[..|path| - 1]) +
      if Get(pattern, last) == Null then [(Get(g, last) == Drawn(true)) != mask(last.0, last.1)] else []
  }

  /** One more module of the path: drawn when it is null, skipped when it carries a pattern. */
  lemma PlacedStep(before: Grid, g: Grid, g': Grid, bit: nat -> bool, mask: (int, int) -> bool,
                   path: seq<(int, int)>, at: (int, int))
    requires Placed(before, g, bit, mask, path) && at !in path
    requires if Get(before, at) == Null
             then forall other :: Get(g', other) ==
                    if other == at then Drawn(bit(Free(before, path)) != mask(at.0, at.1)) else Get(g, other)
             else g' == g
    ensures Placed(before, g', bit, mask, path + [at])
  {
    forall i | 0 <= i < |path| + 1 ensures (path + [at])[..i] == path[..i] {
    }
  }

  lemma NothingRead(pattern: Grid, g: Grid, mask: (int, int) -> bool)
    ensures ReadBits(pattern, g, mask, []) == [] && Free(pattern, []) == 0
  {
  }

  lemma ReadSnoc(pattern: Grid, g: Grid, mask: (int, int) -> bool, path: seq<(int, int)>, i: nat)
    requires i < |path|
    ensures ReadBits(pattern, g, mask, path[..i + 1]) ==
            ReadBits(pattern, g, mask, path[..i]) +
            if Get(pattern, path[i]) == Null then [(Get(g, path[i]) == Drawn(true)) != mask(path[i].0, path[i].1)]
            else []
    ensures Free(pattern, path[..i + 1]) == Free(pattern, path[..i]) + if Get(pattern, path[i]) == Null then 1 else 0
  {
    assert path[..i + 1][..i] == path[..i];
  }

  lemma PlacedAt(before: Grid, after: Grid, bit: nat -> bool, mask: (int, int) -> bool, path: seq<(int, int)>, i: nat)
    requires Placed(before, after, bit, mask, path) && i < |path| && Get(before, path[i]) == Null
    ensures (Get(after, path[i]) == Drawn(true)) != mask(path[i].0, path[i].1) <==> bit(Free(before, path[..i]))
  {
  }

  /** Reading a prefix of the path gives the first bits, in order. */
  lemma {:induction false} ReadPlaced(before: Grid, after: Grid, bit: nat -> bool, mask: (int, int) -> bool,
                                      path: seq<(int, int)>, i: nat)
    requires Placed(before, after, bit, mask, path) && i <= |path|
    ensures |ReadBits(before, after, mask, path[..i])| == Free(before, path[..i])
    ensures forall k :: 0 <= k < Free(before, path[..i]) ==> ReadBits(before, after, mask, path[..i])[k] == bit(k)
  {
    hide ReadBits, Free, Placed;
    if i == 0 {
      NothingRead(before, after, mask);
    } else {
      ReadPlaced(before, after, bit, mask, path, i - 1);
      ReadSnoc(before, after, mask, path, i - 1);
      if Get(before, path[i - 1]) == Null {
        PlacedAt(before, after, bit, mask, path, i - 1);
      }
    }
  }

  /** A zigzag reader recovers the codewords whenever the symbol has room for them. */
  lemma ReaderRecovers(before: Grid, after: Grid, data: seq<bv8>, mask: (int, int) -> bool, path: seq<(int, int)>)
    requires Placed(before, after, BitsOf(data), mask, path)
    requires 8 * |data| <= Free(before, path)
    ensures var bits := ReadBits(before, after, mask, path);
            |bits| == Free(before, path) && forall j :: 0 <= j < |data| ==> ByteAt(bits, j) == data[j]
  {
    assert path[..|path|] == path;
    ReadPlaced(before, after, BitsOf(data), mask, path, |path|);
    var bits := ReadBits(before, after, mask, path);
    forall j | 0 <= j < |data| ensures ByteAt(bits, j) == data[j] {
      ByteOfBits(data, bits, j);
    }
  }
}
