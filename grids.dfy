/** The 4x4 board as a value, what each of the four moves does to it, and the
    properties the rules promise: every line read in the direction of travel is
    slid, the directions mirror each other, the sum of the tiles is kept, and a
    full board is stuck exactly when no two neighbours are equal. */
module Grids {
  import opened Lines

  /** The board, row by row: `g[r][c]` is the cell in row r, column c; 0 is empty. */
  type Grid = seq<seq<int>>

  datatype Direction = Up | Down | Left | Right

  predicate IsGrid(g: Grid)
  {
    |g| == Size && forall r :: 0 <= r < Size ==> |g[r]| == Size
  }

  function EmptyGrid(): (g: Grid)
    ensures IsGrid(g)
  {
    seq(Size, _ => Zeros(Size))
  }

  function Column(g: Grid, c: nat): seq<int>
    requires IsGrid(g) && c < Size
  {
    seq(Size, r requires 0 <= r < Size => g[r][c])
  }

  /** Line k of the board read in the direction of travel, so that the move
      always pushes the tiles toward index 0 of the line. */
  function Line(g: Grid, d: Direction, k: nat): (line: seq<int>)
    requires IsGrid(g) && k < Size
    ensures |line| == Size
  {
    match d
    case Left => g[k]
    case Right => Reverse(g[k])
    case Up => Column(g, k)
    case Down => Reverse(Column(g, k))
  }

  /** The compacted line that move_* hands to its merge scan. RIGHT compacts
      the row and then reverses it; DOWN reads the column bottom to top and
      then compacts it. */
  function MergeInput(g: Grid, d: Direction, k: nat): (m: seq<int>)
    requires IsGrid(g) && k < Size
    ensures |m| <= Size
  {
    match d
    case Left => Compact(g[k])
    case Right => Reverse(Compact(g[k]))
    case Up => Compact(Column(g, k))
    case Down => Compact(Reverse(Column(g, k)))
  }

  /** The merged and zero-padded line before it is written back. */
  function Padded(g: Grid, d: Direction, k: nat): (p: seq<int>)
    requires IsGrid(g) && k < Size
    ensures |p| == Size
  {
    Pad(Merged(MergeInput(g, d, k)))
  }

  /** The board after one move, written back as move_up, move_down,
      move_left and move_right write it: LEFT stores the padded row, RIGHT its
      reverse, UP stores the padded column top down, DOWN bottom up. */
  function MoveGrid(g: Grid, d: Direction): (moved: Grid)
    requires IsGrid(g)
    ensures IsGrid(moved)
  {
    match d
    case Left => seq(Size, r requires 0 <= r < Size => Padded(g, Left, r))
    case Right => seq(Size, r requires 0 <= r < Size => Reverse(Padded(g, Right, r)))
    case Up => seq(Size, r requires 0 <= r < Size =>
                 seq(Size, c requires 0 <= c < Size => Padded(g, Up, c)[r]))
    case Down => seq(Size, r requires 0 <= r < Size =>
                   seq(Size, c requires 0 <= c < Size => Padded(g, Down, c)[Size - 1 - r]))
  }

  /** The points of each line's merge scan, line by line. */
  function Gains(g: Grid, d: Direction): (gains: seq<int>)
    requires IsGrid(g)
    ensures |gains| == Size
  {
    seq(Size, k requires 0 <= k < Size => MergeScore(MergeInput(g, d, k)))
  }

  /** The score delta of one move. */
  function MoveGain(g: Grid, d: Direction): int
    requires IsGrid(g)
  {
    Sum(Gains(g, d))
  }

  function Transpose(g: Grid): (t: Grid)
    requires IsGrid(g)
    ensures IsGrid(t)
  {
    seq(Size, c requires 0 <= c < Size => Column(g, c))
  }

  /** Every row reversed: the board seen in a vertical mirror. */
  function MirrorRows(g: Grid): (m: Grid)
    requires IsGrid(g)
    ensures IsGrid(m)
  {
    seq(Size, r requires 0 <= r < Size => Reverse(g[r]))
  }

  /** The rows in reverse order: the board upside down. */
  function FlipRows(g: Grid): (f: Grid)
    requires IsGrid(g)
    ensures IsGrid(f)
  {
    seq(Size, r requires 0 <= r < Size => g[Size - 1 - r])
  }

  /** The board with value v written into cell (r, c). */
  function Place(g: Grid, r: nat, c: nat, v: int): (p: Grid)
    requires IsGrid(g) && r < Size && c < Size
    ensures IsGrid(p)
  {
    g[r := g[r][c := v]]
  }

  /** Some row holds an empty cell. */
  predicate HasEmpty(g: Grid)
  {
    exists r :: 0 <= r < |g| && 0 in g[r]
  }

  /** Cell (r, c) equals the cell below it or the cell to its right. */
  predicate EqualNeighbourAt(g: Grid, r: nat, c: nat)
    requires IsGrid(g) && r < Size && c < Size
  {
    (r < Size - 1 && g[r][c] == g[r + 1][c]) || (c < Size - 1 && g[r][c] == g[r][c + 1])
  }

  /** Some horizontally or vertically adjacent pair of cells is equal. */
  predicate HasAdjacentEqual(g: Grid)
    requires IsGrid(g)
  {
    exists r: nat, c: nat :: r < Size && c < Size && EqualNeighbourAt(g, r, c)
  }

  predicate AllTilesGrid(g: Grid)
  {
    forall r :: 0 <= r < |g| ==> AllTiles(g[r])
  }

  function Identity(x: int): int { x }

  function Occupied(x: int): int { if x == 0 then 0 else 1 }

  function Weighted(s: seq<int>, w: int -> int): seq<int>
  {
    seq(|s|, i requires 0 <= i < |s| => w(s[i]))
  }

  /** The sum of w over line k, for each of the four lines of direction d. */
  function LineTotals(g: Grid, d: Direction, w: int -> int): (t: seq<int>)
    requires IsGrid(g)
    ensures |t| == Size
  {
    seq(Size, k requires 0 <= k < Size => Sum(Weighted(Line(g, d, k), w)))
  }

  /** The sum of w over all sixteen cells, added up row by row. */
  function Total(g: Grid, w: int -> int): int
    requires IsGrid(g)
  {
    Sum(LineTotals(g, Left, w))
  }

  /** The sum of all tile values on the board. */
  function GridSum(g: Grid): int
    requires IsGrid(g)
  {
    Total(g, Identity)
  }

  /** The number of non-empty cells. */
  function TileCount(g: Grid): int
    requires IsGrid(g)
  {
    Total(g, Occupied)
  }

  // ---------------------------------------------------------------------------
  // Helpers over lines of four

  lemma Sum4(s: seq<int>)
    requires |s| == 4
    ensures Sum(s) == s[0] + s[1] + s[2] + s[3]
  {
    assert Sum(s) == s[0] + Sum(s[1..]);
    assert Sum(s[1..]) == s[1] + Sum(s[1..][1..]);
    assert s[1..][1..] == s[2..];
    assert Sum(s[2..]) == s[2] + Sum(s[2..][1..]);
    assert s[2..][1..] == s[3..];
    assert Sum(s[3..]) == s[3] + Sum(s[3..][1..]);
    assert s[3..][1..] == [];
  }

  lemma {:induction false} WeightedIdentity(s: seq<int>)
    ensures Weighted(s, Identity) == s
  {
    forall i | 0 <= i < |s| ensures Weighted(s, Identity)[i] == s[i] {
      assert Identity(s[i]) == s[i];
    }
  }

  lemma {:induction false} WeightedOccupied(s: seq<int>)
    ensures Sum(Weighted(s, Occupied)) == |Compact(s)|
  {
    if s != [] {
      assert Weighted(s, Occupied)[1..] == Weighted(s[1..], Occupied);
      WeightedOccupied(s[1..]);
    }
  }

  lemma LineOf4Total(s: seq<int>, w: int -> int)
    requires |s| == Size
    ensures Sum(Weighted(s, w)) == w(s[0]) + w(s[1]) + w(s[2]) + w(s[3])
  {
    Sum4(Weighted(s, w));
  }

  /** Line k, cell p of direction d is the board cell it was read from. */
  lemma LineCell(g: Grid, d: Direction, k: nat, p: nat)
    requires IsGrid(g) && k < Size && p < Size
    ensures Line(g, d, k)[p] == match d
      case Left => g[k][p]
      case Right => g[k][Size - 1 - p]
      case Up => g[p][k]
      case Down => g[Size - 1 - p][k]
  {
  }

  /** Adding w up column by column gives the same total as row by row. */
  lemma ColumnsTotal(g: Grid, w: int -> int)
    requires IsGrid(g)
    ensures Sum(LineTotals(g, Up, w)) == Sum(LineTotals(g, Left, w))
  {
    var rows := LineTotals(g, Left, w);
    var cols := LineTotals(g, Up, w);
    Sum4(rows);
    Sum4(cols);
    forall r | 0 <= r < Size
      ensures rows[r] == w(g[r][0]) + w(g[r][1]) + w(g[r][2]) + w(g[r][3])
    {
      LineOf4Total(g[r], w);
    }
    forall k | 0 <= k < Size
      ensures cols[k] == w(g[0][k]) + w(g[1][k]) + w(g[2][k]) + w(g[3][k])
    {
      LineOf4Total(Column(g, k), w);
    }
  }

  lemma ReverseTotal(s: seq<int>, w: int -> int)
    requires |s| == Size
    ensures Sum(Weighted(Reverse(s), w)) == Sum(Weighted(s, w))
  {
    LineOf4Total(s, w);
    LineOf4Total(Reverse(s), w);
  }

  /** Reading every line backwards does not change its total. */
  lemma ReversedLineTotals(g: Grid, d: Direction, w: int -> int)
    requires IsGrid(g) && (d == Left || d == Up)
    ensures LineTotals(g, if d == Left then Right else Down, w) == LineTotals(g, d, w)
  {
    var e := if d == Left then Right else Down;
    forall k | 0 <= k < Size ensures LineTotals(g, e, w)[k] == LineTotals(g, d, w)[k] {
      assert Line(g, e, k) == Reverse(Line(g, d, k));
      ReverseTotal(Line(g, d, k), w);
    }
  }

  /** The four lines of any direction cover the board, so adding w up line by
      line gives the same total as adding it up row by row. */
  lemma TotalByLines(g: Grid, d: Direction, w: int -> int)
    requires IsGrid(g)
    ensures Total(g, w) == Sum(LineTotals(g, d, w))
  {
    match d
    case Left =>
    case Right => ReversedLineTotals(g, Left, w);
    case Up => ColumnsTotal(g, w);
    case Down => ReversedLineTotals(g, Up, w); ColumnsTotal(g, w);
  }

  /** Two boards with the same lines in one direction are the same board. */
  lemma LinesDetermineGrid(a: Grid, b: Grid, d: Direction)
    requires IsGrid(a) && IsGrid(b)
    requires forall k :: 0 <= k < Size ==> Line(a, d, k) == Line(b, d, k)
    ensures a == b
  {
    forall r, c | 0 <= r < Size && 0 <= c < Size ensures a[r][c] == b[r][c] {
      match d
      case Left => assert Line(a, d, r)[c] == Line(b, d, r)[c];
      case Right => assert Line(a, d, r)[Size - 1 - c] == Line(b, d, r)[Size - 1 - c];
      case Up => assert Line(a, d, c)[r] == Line(b, d, c)[r];
      case Down => assert Line(a, d, c)[Size - 1 - r] == Line(b, d, c)[Size - 1 - r];
    }
    forall r | 0 <= r < Size ensures a[r] == b[r] {
    }
  }

  // ---------------------------------------------------------------------------
  // The moves

  /** Every move does one and the same thing to each line read in its
      direction of travel: compact it, merge it once, pad it with zeros; and
      it scores what those merges score. */
  lemma MoveIsUniform(g: Grid, d: Direction, k: nat)
    requires IsGrid(g) && k < Size
    ensures Line(MoveGrid(g, d), d, k) == Slide(Line(g, d, k))
    ensures Gains(g, d)[k] == MergeScore(Compact(Line(g, d, k)))
  {
    var m := MoveGrid(g, d);
    match d
    case Left =>
    case Right =>
      CompactReverse(g[k]);
      ReverseReverse(Padded(g, Right, k));
    case Up =>
      assert Column(m, k) == Padded(g, Up, k);
    case Down =>
      assert Reverse(Column(m, k)) == Padded(g, Down, k);
  }

  /** move_right is move_left seen in a mirror, with the same score. */
  lemma MirrorRight(g: Grid)
    requires IsGrid(g)
    ensures MoveGrid(g, Right) == MirrorRows(MoveGrid(MirrorRows(g), Left))
    ensures MoveGain(g, Right) == MoveGain(MirrorRows(g), Left)
  {
    forall r | 0 <= r < Size ensures MergeInput(g, Right, r) == MergeInput(MirrorRows(g), Left, r) {
      CompactReverse(g[r]);
    }
    assert Gains(g, Right) == Gains(MirrorRows(g), Left);
  }

  /** move_down is move_up on the board turned upside down, with the same score. */
  lemma MirrorDown(g: Grid)
    requires IsGrid(g)
    ensures MoveGrid(g, Down) == FlipRows(MoveGrid(FlipRows(g), Up))
    ensures MoveGain(g, Down) == MoveGain(FlipRows(g), Up)
  {
    forall c | 0 <= c < Size ensures MergeInput(g, Down, c) == MergeInput(FlipRows(g), Up, c) {
      assert Column(FlipRows(g), c) == Reverse(Column(g, c));
    }
    assert Gains(g, Down) == Gains(FlipRows(g), Up);
    var a := MoveGrid(g, Down);
    var b := FlipRows(MoveGrid(FlipRows(g), Up));
    forall r | 0 <= r < Size ensures a[r] == b[r] {
      forall c | 0 <= c < Size ensures a[r][c] == b[r][c] {
        assert Padded(g, Down, c) == Padded(FlipRows(g), Up, c);
      }
    }
  }

  /** move_up is move_left on the transposed board, with the same score. */
  lemma UpIsTransposedLeft(g: Grid)
    requires IsGrid(g)
    ensures MoveGrid(g, Up) == Transpose(MoveGrid(Transpose(g), Left))
    ensures MoveGain(g, Up) == MoveGain(Transpose(g), Left)
  {
    assert Gains(g, Up) == Gains(Transpose(g), Left);
    var a := MoveGrid(g, Up);
    var b := Transpose(MoveGrid(Transpose(g), Left));
    forall r | 0 <= r < Size ensures a[r] == b[r] {
    }
  }

  /** After a move every line, read in the direction of travel, has its tiles
      first and its empty cells last: LEFT and UP pack at the start, RIGHT and
      DOWN at the end. */
  lemma MoveShape(g: Grid, d: Direction, k: nat)
    requires IsGrid(g) && k < Size
    ensures PackedLeft(Line(MoveGrid(g, d), d, k))
  {
    MoveIsUniform(g, d, k);
    SlideProperties(Line(g, d, k));
  }

  lemma MoveKeepsLineSum(g: Grid, d: Direction, k: nat)
    requires IsGrid(g) && k < Size
    ensures Sum(Weighted(Line(MoveGrid(g, d), d, k), Identity)) == Sum(Weighted(Line(g, d, k), Identity))
  {
    MoveIsUniform(g, d, k);
    SlideProperties(Line(g, d, k));
    WeightedIdentity(Line(MoveGrid(g, d), d, k));
    WeightedIdentity(Line(g, d, k));
  }

  lemma MoveLineTiles(g: Grid, d: Direction, k: nat)
    requires IsGrid(g) && k < Size
    ensures Sum(Weighted(Line(MoveGrid(g, d), d, k), Occupied)) <= Sum(Weighted(Line(g, d, k), Occupied))
  {
    MoveIsUniform(g, d, k);
    SlideProperties(Line(g, d, k));
    WeightedOccupied(Line(MoveGrid(g, d), d, k));
    WeightedOccupied(Line(g, d, k));
  }

  /** A move keeps the sum of all tile values: each merge turns v, v into 2v. */
  lemma MoveConservesSum(g: Grid, d: Direction)
    requires IsGrid(g)
    ensures GridSum(MoveGrid(g, d)) == GridSum(g)
  {
    var m := MoveGrid(g, d);
    TotalByLines(g, d, Identity);
    TotalByLines(m, d, Identity);
    forall k | 0 <= k < Size
      ensures LineTotals(m, d, Identity)[k] == LineTotals(g, d, Identity)[k]
    {
      MoveKeepsLineSum(g, d, k);
    }
    assert LineTotals(m, d, Identity) == LineTotals(g, d, Identity);
  }

  /** A move never adds a tile: merging removes one, sliding keeps them. */
  lemma MoveNeverAddsTiles(g: Grid, d: Direction)
    requires IsGrid(g)
    ensures TileCount(MoveGrid(g, d)) <= TileCount(g)
  {
    var m := MoveGrid(g, d);
    TotalByLines(g, d, Occupied);
    TotalByLines(m, d, Occupied);
    var after := LineTotals(m, d, Occupied);
    var before := LineTotals(g, d, Occupied);
    forall k | 0 <= k < Size ensures after[k] <= before[k] {
      MoveLineTiles(g, d, k);
    }
    Sum4(after);
    Sum4(before);
  }

  /** Every cell's value shows up in the line that holds it. */
  lemma AllTilesByLines(g: Grid, d: Direction)
    requires IsGrid(g)
    ensures AllTilesGrid(g) <==> forall k :: 0 <= k < Size ==> AllTiles(Line(g, d, k))
  {
    if AllTilesGrid(g) {
      forall k, x | 0 <= k < Size && x in Line(g, d, k) ensures IsTile(x) {
        var p :| 0 <= p < Size && Line(g, d, k)[p] == x;
        LineCell(g, d, k, p);
        match d
        case Left => assert g[k][p] in g[k];
        case Right => assert g[k][Size - 1 - p] in g[k];
        case Up => assert g[p][k] in g[p];
        case Down => assert g[Size - 1 - p][k] in g[Size - 1 - p];
      }
    }
    if forall k :: 0 <= k < Size ==> AllTiles(Line(g, d, k)) {
      forall r, x | 0 <= r < Size && x in g[r] ensures IsTile(x) {
        var c :| 0 <= c < Size && g[r][c] == x;
        match d
        case Left => assert Line(g, d, r)[c] in Line(g, d, r);
        case Right =>
          LineCell(g, d, r, Size - 1 - c);
          assert Line(g, d, r)[Size - 1 - c] in Line(g, d, r);
        case Up =>
          LineCell(g, d, c, r);
          assert Line(g, d, c)[r] in Line(g, d, c);
        case Down =>
          LineCell(g, d, c, Size - 1 - r);
          assert Line(g, d, c)[Size - 1 - r] in Line(g, d, c);
      }
    }
  }

  /** A move turns a board of tiles into a board of tiles (0 or a power of two). */
  lemma MoveKeepsTiles(g: Grid, d: Direction)
    requires IsGrid(g) && AllTilesGrid(g)
    ensures AllTilesGrid(MoveGrid(g, d))
  {
    AllTilesByLines(g, d);
    forall k | 0 <= k < Size ensures AllTiles(Line(MoveGrid(g, d), d, k)) {
      MoveIsUniform(g, d, k);
      SlideProperties(Line(g, d, k));
    }
    AllTilesByLines(MoveGrid(g, d), d);
  }

  lemma SumNonNegative(s: seq<int>)
    requires forall i :: 0 <= i < |s| ==> 0 <= s[i]
    ensures 0 <= Sum(s)
  {
  }

  /** On a board of tiles a move never loses points. */
  lemma MoveGainNonNegative(g: Grid, d: Direction)
    requires IsGrid(g) && AllTilesGrid(g)
    ensures 0 <= MoveGain(g, d)
  {
    AllTilesByLines(g, d);
    forall k | 0 <= k < Size ensures 0 <= Gains(g, d)[k] {
      MoveIsUniform(g, d, k);
      var m := Compact(Line(g, d, k));
      forall i | 0 <= i < |m| ensures 0 <= m[i] {
        assert m[i] in Line(g, d, k);
      }
    }
    SumNonNegative(Gains(g, d));
  }

  // ---------------------------------------------------------------------------
  // The game-over test

  lemma FullLine(g: Grid, d: Direction, k: nat)
    requires IsGrid(g) && k < Size && !HasEmpty(g)
    ensures 0 !in Line(g, d, k)
  {
    forall p | 0 <= p < Size ensures Line(g, d, k)[p] != 0 {
      LineCell(g, d, k, p);
      match d
      case Left => assert g[k][p] in g[k];
      case Right => assert g[k][Size - 1 - p] in g[k];
      case Up => assert g[p][k] in g[p];
      case Down => assert g[Size - 1 - p][k] in g[Size - 1 - p];
    }
  }

  /** Neighbours along a line are neighbours on the board. */
  lemma LineNeighbours(g: Grid, d: Direction, k: nat)
    requires IsGrid(g) && k < Size && !HasAdjacentEqual(g)
    ensures !HasEqualNeighbours(Line(g, d, k))
  {
    forall i | 0 <= i && i + 1 < Size ensures Line(g, d, k)[i] != Line(g, d, k)[i + 1] {
      LineCell(g, d, k, i);
      LineCell(g, d, k, i + 1);
      match d
      case Left => assert !EqualNeighbourAt(g, k, i);
      case Right => assert !EqualNeighbourAt(g, k, Size - 2 - i);
      case Up => assert !EqualNeighbourAt(g, i, k);
      case Down => assert !EqualNeighbourAt(g, Size - 2 - i, k);
    }
  }

  /** A full board with no two equal neighbours is stuck: no move changes it. */
  lemma FullBlockedIsStuck(g: Grid, d: Direction)
    requires IsGrid(g) && !HasEmpty(g) && !HasAdjacentEqual(g)
    ensures MoveGrid(g, d) == g
  {
    forall k | 0 <= k < Size ensures Line(MoveGrid(g, d), d, k) == Line(g, d, k) {
      MoveIsUniform(g, d, k);
      FullLine(g, d, k);
      LineNeighbours(g, d, k);
      SlideFixed(Line(g, d, k));
    }
    LinesDetermineGrid(MoveGrid(g, d), g, d);
  }

  /** A full board with two equal neighbours is not stuck: LEFT or UP empties a cell. */
  lemma FullMergeableMoves(g: Grid)
    requires IsGrid(g) && !HasEmpty(g) && HasAdjacentEqual(g)
    ensures MoveGrid(g, Left) != g || MoveGrid(g, Up) != g
  {
    var r: nat, c: nat :| r < Size && c < Size && EqualNeighbourAt(g, r, c);
    if c < Size - 1 && g[r][c] == g[r][c + 1] {
      FullLine(g, Left, r);
      assert Line(g, Left, r)[c] == Line(g, Left, r)[c + 1];
      SlideFreesLastCell(Line(g, Left, r));
      MoveIsUniform(g, Left, r);
      assert MoveGrid(g, Left)[r][Size - 1] == 0;
      assert g[r][Size - 1] in g[r];
    } else {
      FullLine(g, Up, c);
      LineCell(g, Up, c, r);
      LineCell(g, Up, c, r + 1);
      assert Line(g, Up, c)[r] == Line(g, Up, c)[r + 1];
      SlideFreesLastCell(Line(g, Up, c));
      MoveIsUniform(g, Up, c);
      assert MoveGrid(g, Up)[Size - 1][c] == 0;
      assert g[Size - 1][c] in g[Size - 1];
    }
  }

  // ---------------------------------------------------------------------------
  // Spawning

  /** Writing v into an empty cell changes the total of w by w(v) - w(0). */
  lemma PlaceTotal(g: Grid, r: nat, c: nat, v: int, w: int -> int)
    requires IsGrid(g) && r < Size && c < Size && g[r][c] == 0
    ensures Total(Place(g, r, c, v), w) == Total(g, w) + w(v) - w(0)
  {
    var p := Place(g, r, c, v);
    var before := LineTotals(g, Left, w);
    var after := LineTotals(p, Left, w);
    LineOf4Total(g[r], w);
    LineOf4Total(p[r], w);
    assert after == before[r := before[r] + w(v) - w(0)];
    Sum4(before);
    Sum4(after);
  }

  /** Writing a tile v into an empty cell adds v to the sum and one to the
      number of tiles, and keeps the board a board of tiles. */
  lemma PlaceAddsTile(g: Grid, r: nat, c: nat, v: int)
    requires IsGrid(g) && r < Size && c < Size && g[r][c] == 0 && (v == 2 || v == 4)
    ensures GridSum(Place(g, r, c, v)) == GridSum(g) + v
    ensures TileCount(Place(g, r, c, v)) == TileCount(g) + 1
    ensures AllTilesGrid(g) ==> AllTilesGrid(Place(g, r, c, v))
  {
    var p := Place(g, r, c, v);
    PlaceTotal(g, r, c, v, Identity);
    PlaceTotal(g, r, c, v, Occupied);
    if AllTilesGrid(g) {
      assert IsPowerOfTwo(v / 2);
      forall k, x | 0 <= k < Size && x in p[k] ensures IsTile(x) {
        if k != r || x != v {
          var i :| 0 <= i < Size && p[k][i] == x;
          assert g[k][i] in g[k];
        }
      }
    }
  }

  /** A move followed by a spawn adds exactly the spawned value to the tile sum. */
  lemma MoveThenSpawnSum(g: Grid, d: Direction, r: nat, c: nat, v: int)
    requires IsGrid(g) && r < Size && c < Size && MoveGrid(g, d)[r][c] == 0 && (v == 2 || v == 4)
    ensures GridSum(Place(MoveGrid(g, d), r, c, v)) == GridSum(g) + v
  {
    MoveConservesSum(g, d);
    PlaceAddsTile(MoveGrid(g, d), r, c, v);
  }
}
