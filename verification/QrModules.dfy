/**
  What the data modules of a finished symbol show: the zigzag's free modules hold the bits of the codewords, most
  significant first, turned over where the figure of the mask is dark.
*/
module QrModules {
  import opened Bits
  import opened NumberBits
  import opened QrFigures
  import opened QrPatterns
  import opened SymbolPath
  import Symbols = QrSymbol

  /** Bit t of a byte, counted from the most significant one. */
  predicate TopBit(b: bv8, t: nat)
    requires t < 8
  {
    match t
    case 0 => b & 0x80 != 0
    case 1 => b & 0x40 != 0
    case 2 => b & 0x20 != 0
    case 3 => b & 0x10 != 0
    case 4 => b & 0x08 != 0
    case 5 => b & 0x04 != 0
    case 6 => b & 0x02 != 0
    case _ => b & 0x01 != 0
  }

  lemma HighBitIs(b: bv8, t: nat)
    requires t < 4
    ensures ByteBits(b)[t] == TopBit(b, t)
  {
  }

  lemma LowBitIs(b: bv8, t: nat)
    requires 4 <= t < 8
    ensures ByteBits(b)[t] == TopBit(b, t)
  {
  }

  lemma TopBitIs(b: bv8, t: nat)
    requires t < 8
    ensures ByteBits(b)[t] == TopBit(b, t)
  {
    hide ByteBits, TopBit;
    if t < 4 {
      HighBitIs(b, t);
    } else {
      LowBitIs(b, t);
    }
  }

  function One(on: bool): nat {
    if on then 1 else 0
  }

  /** What four bits and eight bits weigh. */
  function Four(a: bool, b: bool, c: bool, d: bool): nat {
    8 * One(a) + 4 * One(b) + 2 * One(c) + One(d)
  }

  function Eight(a: nat, b: nat): nat {
    16 * a + b
  }

  lemma ByteSum(b: bv8)
    ensures b as int == Eight(Four(TopBit(b, 0), TopBit(b, 1), TopBit(b, 2), TopBit(b, 3)),
                              Four(TopBit(b, 4), TopBit(b, 5), TopBit(b, 6), TopBit(b, 7)))
  {
  }

  /** The number the first n bits make. */
  function Leading(bits: seq<bool>, n: nat): nat
    requires n <= |bits|
  {
    ReadNum(bits[..n])
  }

  lemma LeadingStep(bits: seq<bool>, n: nat)
    requires n < |bits|
    ensures Leading(bits, n + 1) == 2 * Leading(bits, n) + One(bits[n])
  {
    assert bits[..n + 1][..n] == bits[..n];
  }

  lemma LeadingEnds(bits: seq<bool>)
    ensures Leading(bits, 0) == 0 && Leading(bits, |bits|) == ReadNum(bits)
  {
    assert bits[..|bits|] == bits;
  }

  lemma LeadingFour(bits: seq<bool>, n: nat)
    requires n + 4 <= |bits|
    ensures Leading(bits, n + 4) == Eight(Leading(bits, n), Four(bits[n], bits[n + 1], bits[n + 2], bits[n + 3]))
  {
    hide Leading, One;
    LeadingStep(bits, n);
    LeadingStep(bits, n + 1);
    LeadingStep(bits, n + 2);
    LeadingStep(bits, n + 3);
  }

  lemma NumberIsWeight(bits: seq<bool>)
    requires |bits| == 8
    ensures ReadNum(bits) == Eight(Four(bits[0], bits[1], bits[2], bits[3]), Four(bits[4], bits[5], bits[6], bits[7]))
  {
    hide ReadNum, Four, Leading;
    LeadingEnds(bits);
    LeadingFour(bits, 0);
    LeadingFour(bits, 4);
  }

  /** Read as a number, the bits of a byte are its value. */
  lemma ByteIsNumber(b: bv8)
    ensures ReadNum(ByteBits(b)) == b as int
  {
    hide ReadNum, ByteBits, TopBit, Four, Eight;
    NumberIsWeight(ByteBits(b));
    ByteSum(b);
    TopBitIs(b, 0);
    TopBitIs(b, 1);
    TopBitIs(b, 2);
    TopBitIs(b, 3);
    TopBitIs(b, 4);
    TopBitIs(b, 5);
    TopBitIs(b, 6);
    TopBitIs(b, 7);
  }

  /** The mask figure is dark here. */
  predicate TurnedOver(pattern: nat, at: (int, int)) {
    DarkIn(Tile(pattern), at.0 % Height(pattern), at.1 % Width(pattern))
  }

  /** The module at place i of the zigzag shows bit k of the data. */
  ghost predicate ShowsBit(g: Grid, n: nat, pattern: nat, data: seq<bv8>, i: nat, k: nat)
    requires SymbolSize(n) && i < |Path(n)| && k < 8 * |data|
  {
    Get(g, Path(n)[i]) == Drawn(TopBit(data[k / 8], k % 8) != TurnedOver(pattern, Path(n)[i]))
  }

  /** How many modules the patterns leave free before place i. */
  ghost function FreeBefore(n: nat, pos: seq<nat>, i: nat): nat
    requires SymbolSize(n) && i <= |Path(n)|
  {
    Free(Reserved(n, pos), Path(n)[..i])
  }

  ghost predicate ShowsData(g: Grid, n: nat, pos: seq<nat>, pattern: nat, data: seq<bv8>)
    requires SymbolSize(n)
  {
    forall i: nat :: i < |Path(n)| && !PatternModule(n, pos, Path(n)[i]) && FreeBefore(n, pos, i) < 8 * |data| ==>
      ShowsBit(g, n, pattern, data, i, FreeBefore(n, pos, i))
  }

  /** What the reader takes from one module. */
  lemma {:induction false} ReadAt(patterns: Grid, g: Grid, mask: (int, int) -> bool, path: seq<(int, int)>, i: nat)
    requires i < |path| && Get(patterns, path[i]) == Null
    ensures |ReadBits(patterns, g, mask, path)| == Free(patterns, path)
    ensures Free(patterns, path[..i]) < Free(patterns, path)
    ensures ReadBits(patterns, g, mask, path)[Free(patterns, path[..i])]
            == ((Get(g, path[i]) == Drawn(true)) != mask(path[i].0, path[i].1))
    decreases |path|
  {
    var front := path[..|path| - 1];
    ReadSize(patterns, g, mask, front);
    if i < |path| - 1 {
      ReadAt(patterns, g, mask, front, i);
      assert front[..i] == path[..i];
    }
  }

  lemma {:induction false} ReadSize(patterns: Grid, g: Grid, mask: (int, int) -> bool, path: seq<(int, int)>)
    ensures |ReadBits(patterns, g, mask, path)| == Free(patterns, path)
  {
    if path != [] {
      ReadSize(patterns, g, mask, path[..|path| - 1]);
    }
  }

  lemma BitRead(bits: seq<bool>, data: seq<bv8>, k: nat)
    requires k < 8 * |data| <= |bits| && forall j :: 0 <= j < |data| ==> ByteAt(bits, j) == data[j]
    ensures bits[k] == TopBit(data[k / 8], k % 8)
  {
    hide JoinByte, ByteBits;
    var j, t := k / 8, k % 8;
    assert ByteAt(bits, j) == data[j];
    BitsJoined(bits[8 * j..8 * j + 8]);
    TopBitIs(data[j], t);
    assert bits[8 * j..8 * j + 8][t] == bits[k];
  }

  lemma PlacesInside(n: nat, i: nat)
    requires SymbolSize(n) && i < |Path(n)|
    ensures Inside(n, Path(n)[i])
  {
    PathIsComplete(n);
    assert Path(n)[i] in Path(n);
  }

  /** A full symbol that carries the data shows them. */
  lemma CarriedIsShown(g: Grid, n: nat, pos: seq<nat>, pattern: nat, data: seq<bv8>)
    requires SymbolSize(n) && pattern < 8 && Symbols.Full(g, n)
    requires Symbols.Carries(Reserved(n, pos), g, Symbols.MaskFunction(pattern), n, data)
    ensures ShowsData(g, n, pos, pattern, data)
  {
    hide PatternModule, ReadBits, Free, TopBit, ByteAt, Tile, MaskAt, Path, DarkIn, Inside;
    var mask, path, patterns := Symbols.MaskFunction(pattern), Path(n), Reserved(n, pos);
    var bits := ReadBits(patterns, g, mask, path);
    forall i: nat | i < |path| && !PatternModule(n, pos, path[i]) && FreeBefore(n, pos, i) < 8 * |data|
      ensures ShowsBit(g, n, pattern, data, i, FreeBefore(n, pos, i))
    {
      var at, k := path[i], FreeBefore(n, pos, i);
      PlacesInside(n, i);
      ReadAt(patterns, g, mask, path, i);
      BitRead(bits, data, k);
      InsideIsNat(n, at);
      MaskIsTile(pattern, at.0, at.1);
      assert Get(g, at) != Null;
    }
  }

  lemma InsideIsNat(n: nat, at: (int, int))
    requires Inside(n, at)
    ensures at.0 >= 0 && at.1 >= 0
  {
  }
}
