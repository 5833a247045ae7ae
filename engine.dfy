/** The in-place game logic on the board array: the four move functions with
    their merge loop, the spawn of a new tile and the can-move scan. The board
    is an array of four rows; a row is a value, as each Python row list is
    never shared between two places. */
module Engine {
  import opened Lines
  import opened Grids

  predicate IsBoard(board: array<seq<int>>)
    reads board
  {
    board.Length == Size && IsGrid(board[..])
  }

  /** The merge loop of every move_* function: one left-to-right scan with a
      `skip` flag, appending to the merged list and adding each doubled tile to
      the gain. */
  method MergeLine(line: seq<int>) returns (merged: seq<int>, gain: int)
    ensures merged == Merged(line)
    ensures gain == MergeScore(line)
  {
    merged := [];
    gain := 0;
    var skip := false;
    // `next` is the first position the scan has not consumed yet.
    ghost var next := 0;
    for i := 0 to |line|
      invariant next == if skip then i + 1 else i
      invariant next <= |line|
      invariant merged + Merged(line[next..]) == Merged(line)
      invariant gain + MergeScore(line[next..]) == MergeScore(line)
    {
      if skip {
        skip := false;
        continue;
      }
      if i + 1 < |line| && line[i] == line[i + 1] {
        assert line[i..][2..] == line[i + 2..];
        assert Merged(line[i..]) == [line[i] * 2] + Merged(line[i + 2..]);
        assert MergeScore(line[i..]) == line[i] * 2 + MergeScore(line[i + 2..]);
        merged := merged + [line[i] * 2];
        gain := gain + line[i] * 2;
        skip := true;
        next := i + 2;
      } else {
        assert line[i..][1..] == line[i + 1..];
        assert Merged(line[i..]) == [line[i]] + Merged(line[i + 1..]);
        assert MergeScore(line[i..]) == MergeScore(line[i + 1..]);
        merged := merged + [line[i]];
        next := i + 1;
      }
    }
  }

  lemma SumPrefix(s: seq<int>, k: nat)
    requires k < |s|
    ensures Sum(s[..k + 1]) == Sum(s[..k]) + s[k]
  {
    assert s[..k + 1] == s[..k] + [s[k]];
    SumAppend(s[..k], [s[k]]);
  }

  /** move_left: each row in turn is compacted, merged, padded and stored. */
  method MoveLeft(board: array<seq<int>>, score: int) returns (newScore: int)
    requires IsBoard(board)
    modifies board
    ensures IsBoard(board)
    ensures board[..] == MoveGrid(old(board[..]), Left)
    ensures newScore == score + MoveGain(old(board[..]), Left)
  {
    ghost var g := board[..];
    var size := board.Length;
    newScore := score;
    for row := 0 to size
      invariant forall r :: 0 <= r < row ==> board[r] == Padded(g, Left, r)
      invariant forall r :: row <= r < Size ==> board[r] == g[r]
      invariant newScore == score + Sum(Gains(g, Left)[..row])
    {
      var newRow := Compact(board[row]);
      var mergedRow, gain := MergeLine(newRow);
      SumPrefix(Gains(g, Left), row);
      newScore := newScore + gain;
      mergedRow := mergedRow + Zeros(size - |mergedRow|);
      board[row] := mergedRow;
    }
    assert Gains(g, Left)[..Size] == Gains(g, Left);
  }

  /** The body of move_right's loop for one row: compact, reverse, merge,
      pad, and reverse back. */
  method SlideRowRight(board: array<seq<int>>, row: nat) returns (gain: int)
    requires IsBoard(board) && row < Size
    modifies board
    ensures IsBoard(board)
    ensures board[row] == Reverse(Pad(Merged(Reverse(Compact(old(board[row]))))))
    ensures gain == MergeScore(Reverse(Compact(old(board[row]))))
    ensures forall r :: 0 <= r < Size && r != row ==> board[r] == old(board[r])
  {
    var size := board.Length;
    var newRow := Reverse(Compact(board[row]));
    var mergedRow;
    mergedRow, gain := MergeLine(newRow);
    mergedRow := mergedRow + Zeros(size - |mergedRow|);
    board[row] := Reverse(mergedRow);
  }

  /** move_right: each row is compacted, reversed, merged, padded, and stored
      reversed again. */
  method MoveRight(board: array<seq<int>>, score: int) returns (newScore: int)
    requires IsBoard(board)
    modifies board
    ensures IsBoard(board)
    ensures board[..] == MoveGrid(old(board[..]), Right)
    ensures newScore == score + MoveGain(old(board[..]), Right)
  {
    ghost var g := board[..];
    var size := board.Length;
    newScore := score;
    for row := 0 to size
      invariant IsBoard(board)
      invariant forall r :: 0 <= r < row ==> board[r] == Reverse(Padded(g, Right, r))
      invariant forall r :: row <= r < Size ==> board[r] == g[r]
      invariant newScore == score + Sum(Gains(g, Right)[..row])
    {
      var gain := SlideRowRight(board, row);
      assert board[row] == Reverse(Padded(g, Right, row));
      SumPrefix(Gains(g, Right), row);
      newScore := newScore + gain;
    }
    assert Gains(g, Right)[..Size] == Gains(g, Right);
    forall r | 0 <= r < Size ensures board[r] == MoveGrid(g, Right)[r] {
    }
  }

  /** The write-back loop of move_up: `board[row][col] = merged[row]`. */
  method StoreColumnTopDown(board: array<seq<int>>, col: nat, line: seq<int>)
    requires IsBoard(board) && col < Size && |line| == Size
    modifies board
    ensures IsBoard(board)
    ensures forall r, c :: 0 <= r < Size && 0 <= c < Size ==>
      board[r][c] == if c == col then line[r] else old(board[r][c])
  {
    var size := board.Length;
    for row := 0 to size
      invariant IsBoard(board)
      invariant forall r, c :: 0 <= r < row && 0 <= c < Size ==>
        board[r][c] == if c == col then line[r] else old(board[r][c])
      invariant forall r :: row <= r < Size ==> board[r] == old(board[r])
    {
      board[row] := board[row][col := line[row]];
    }
  }

  /** The write-back loop of move_down: `board[size - 1 - row][col] = merged[row]`. */
  method StoreColumnBottomUp(board: array<seq<int>>, col: nat, line: seq<int>)
    requires IsBoard(board) && col < Size && |line| == Size
    modifies board
    ensures IsBoard(board)
    ensures forall r, c :: 0 <= r < Size && 0 <= c < Size ==>
      board[r][c] == if c == col then line[Size - 1 - r] else old(board[r][c])
  {
    var size := board.Length;
    for row := 0 to size
      invariant IsBoard(board)
      invariant forall r, c :: Size - row <= r < Size && 0 <= c < Size ==>
        board[r][c] == if c == col then line[Size - 1 - r] else old(board[r][c])
      invariant forall r :: 0 <= r < Size - row ==> board[r] == old(board[r])
    {
      board[size - 1 - row] := board[size - 1 - row][col := line[row]];
    }
  }

  /** move_up: each column, read top down, is compacted, merged, padded and
      written back cell by cell from the top. */
  method MoveUp(board: array<seq<int>>, score: int) returns (newScore: int)
    requires IsBoard(board)
    modifies board
    ensures IsBoard(board)
    ensures board[..] == MoveGrid(old(board[..]), Up)
    ensures newScore == score + MoveGain(old(board[..]), Up)
  {
    ghost var g := board[..];
    var size := board.Length;
    newScore := score;
    for col := 0 to size
      invariant IsBoard(board)
      invariant forall r, c :: 0 <= r < Size && 0 <= c < col ==> board[r][c] == Padded(g, Up, c)[r]
      invariant forall r, c :: 0 <= r < Size && col <= c < Size ==> board[r][c] == g[r][c]
      invariant newScore == score + Sum(Gains(g, Up)[..col])
    {
      assert Column(board[..], col) == Column(g, col);
      var newCol := Compact(Column(board[..], col));
      var mergedCol, gain := MergeLine(newCol);
      SumPrefix(Gains(g, Up), col);
      newScore := newScore + gain;
      mergedCol := mergedCol + Zeros(size - |mergedCol|);
      StoreColumnTopDown(board, col, mergedCol);
    }
    assert Gains(g, Up)[..Size] == Gains(g, Up);
    forall r | 0 <= r < Size ensures board[r] == MoveGrid(g, Up)[r] {
    }
  }

  /** move_down: each column, read bottom up, is compacted, merged, padded and
      written back cell by cell from the bottom. */
  method MoveDown(board: array<seq<int>>, score: int) returns (newScore: int)
    requires IsBoard(board)
    modifies board
    ensures IsBoard(board)
    ensures board[..] == MoveGrid(old(board[..]), Down)
    ensures newScore == score + MoveGain(old(board[..]), Down)
  {
    ghost var g := board[..];
    var size := board.Length;
    newScore := score;
    for col := 0 to size
      invariant IsBoard(board)
      invariant forall r, c :: 0 <= r < Size && 0 <= c < col ==> board[r][c] == Padded(g, Down, c)[Size - 1 - r]
      invariant forall r, c :: 0 <= r < Size && col <= c < Size ==> board[r][c] == g[r][c]
      invariant newScore == score + Sum(Gains(g, Down)[..col])
    {
      assert Reverse(Column(board[..], col)) == Reverse(Column(g, col));
      var newCol := Compact(Reverse(Column(board[..], col)));
      var mergedCol, gain := MergeLine(newCol);
      SumPrefix(Gains(g, Down), col);
      newScore := newScore + gain;
      mergedCol := mergedCol + Zeros(size - |mergedCol|);
      StoreColumnBottomUp(board, col, mergedCol);
    }
    assert Gains(g, Down)[..Size] == Gains(g, Down);
    forall r | 0 <= r < Size ensures board[r] == MoveGrid(g, Down)[r] {
    }
  }

  /** can_move_check: scans the cells row by row and answers as soon as one
      equals its neighbour below or to its right. */
  method CanMoveCheck(board: array<seq<int>>) returns (canMove: bool)
    requires IsBoard(board)
    ensures canMove <==> HasAdjacentEqual(board[..])
  {
    ghost var g := board[..];
    var size := board.Length;
    for i := 0 to size
      invariant forall r: nat, c: nat :: r < i && c < Size ==> !EqualNeighbourAt(g, r, c)
    {
      for j := 0 to size
        invariant forall r: nat, c: nat :: (r < i && c < Size) || (r == i && c < j) ==> !EqualNeighbourAt(g, r, c)
      {
        if i < size - 1 && board[i][j] == board[i + 1][j] {
          assert EqualNeighbourAt(g, i, j);
          return true;
        }
        if j < size - 1 && board[i][j] == board[i][j + 1] {
          assert EqualNeighbourAt(g, i, j);
          return true;
        }
      }
    }
    return false;
  }

  /** The board after spawn_piece placed value v into the empty cell (r, c). */
  ghost predicate SpawnedAt(before: Grid, after: Grid, r: nat, c: nat, v: int)
  {
    IsGrid(before) && r < Size && c < Size && before[r][c] == 0
    && (v == 2 || v == 4) && after == Place(before, r, c, v)
  }

  /** spawn_piece: when the board has an empty cell, one of them, chosen at
      random, receives a 2 or a 4 and the game goes on. When it has none, the
      board is left alone and the game is over exactly when no two neighbours
      are equal. The random cell and value are a nondeterministic choice here. */
  method SpawnPiece(board: array<seq<int>>) returns (gameOver: bool)
    requires IsBoard(board)
    modifies board
    ensures IsBoard(board)
    ensures HasEmpty(old(board[..])) ==>
      !gameOver && exists r: nat, c: nat, v :: SpawnedAt(old(board[..]), board[..], r, c, v)
    ensures !HasEmpty(old(board[..])) ==>
      board[..] == old(board[..]) && (gameOver <==> !HasAdjacentEqual(board[..]))
    ensures AllTilesGrid(old(board[..])) ==> AllTilesGrid(board[..])
  {
    ghost var g := board[..];
    var count := 0;
    if HasEmpty(board[..]) {
      var row: nat, col: nat :| row < Size && col < Size && board[row][col] == 0;
      var four: bool :| true;
      count := count + 1;
      var v := if four then 4 else 2;
      board[row] := board[row][col := v];
      assert SpawnedAt(g, board[..], row, col, v);
      PlaceAddsTile(g, row, col, v);
    }
    if count == 0 {
      var canMove := CanMoveCheck(board);
      if !canMove {
        return true;
      }
    }
    return false;
  }
}
