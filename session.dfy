/** The state of one game session, which the source keeps in module globals:
    the board, the classic and timed scores, the undo cooldown and the stack of
    earlier boards, with the operations that change them together. */
module Session {
  import opened Lines
  import opened Grids
  import Engine

  /** Moves to wait before an undo is possible again; also the starting value. */
  const UndoCooldown: int := 10

  /** Which score a move adds to: `score` in the classic game, `timed_score` in the timed one. */
  datatype Mode = Classic | Timed

  class Game {
    var board: array<seq<int>>
    var score: int
    var timedScore: int
    var cooldown: int
    /** Deep copies of earlier boards, the most recent last. */
    var history: seq<Grid>

    ghost predicate Valid()
      reads this, board
    {
      && Engine.IsBoard(board)
      && AllTilesGrid(board[..])
      && 0 <= score && 0 <= timedScore
      && 0 <= cooldown <= UndoCooldown
      && forall k :: 0 <= k < |history| ==> IsGrid(history[k]) && AllTilesGrid(history[k])
    }

    /** The globals as the program starts: an empty board, no score, the
        full cooldown and no history. */
    constructor ()
      ensures Valid() && fresh(board)
      ensures board[..] == EmptyGrid()
      ensures score == 0 && timedScore == 0 && cooldown == UndoCooldown && history == []
    {
      board := new seq<int>[Size](_ => Zeros(Size));
      score, timedScore := 0, 0;
      cooldown := UndoCooldown;
      history := [];
      new;
      assert board[..] == EmptyGrid();
    }

    /** move_board: while the cooldown is 0 the board is pushed onto the
        history before every move; otherwise the cooldown counts down by one.
        Then the move is applied in place and its points go to the score of
        the mode being played. */
    method MoveBoard(d: Direction, mode: Mode)
      requires Valid()
      modifies this, board
      ensures Valid() && board == old(board)
      ensures old(cooldown) == 0 ==> cooldown == 0 && history == old(history) + [old(board[..])]
      ensures old(cooldown) != 0 ==> cooldown == old(cooldown) - 1 && history == old(history)
      ensures board[..] == MoveGrid(old(board[..]), d)
      ensures mode == Classic ==>
        score == old(score) + MoveGain(old(board[..]), d) && timedScore == old(timedScore)
      ensures mode == Timed ==>
        timedScore == old(timedScore) + MoveGain(old(board[..]), d) && score == old(score)
      ensures old(score) <= score && old(timedScore) <= timedScore
    {
      ghost var g := board[..];
      if cooldown == 0 {
        history := history + [board[..]];
      } else {
        cooldown := if cooldown - 1 < 0 then 0 else cooldown - 1;
      }
      match mode {
        case Classic =>
          match d {
            case Up => score := Engine.MoveUp(board, score);
            case Down => score := Engine.MoveDown(board, score);
            case Left => score := Engine.MoveLeft(board, score);
            case Right => score := Engine.MoveRight(board, score);
          }
        case Timed =>
          match d {
            case Up => timedScore := Engine.MoveUp(board, timedScore);
            case Down => timedScore := Engine.MoveDown(board, timedScore);
            case Left => timedScore := Engine.MoveLeft(board, timedScore);
            case Right => timedScore := Engine.MoveRight(board, timedScore);
          }
      }
      MoveKeepsTiles(g, d);
      MoveGainNonNegative(g, d);
    }

    /** return_one_move: only when there is a saved board and the cooldown
        is 0, the last saved board becomes the board again and the cooldown
        restarts; otherwise nothing changes. */
    method ReturnOneMove() returns (undone: bool)
      requires Valid()
      modifies this
      ensures Valid()
      ensures undone <==> old(history) != [] && old(cooldown) == 0
      ensures undone ==>
        && fresh(board)
        && board[..] == old(history)[|old(history)| - 1]
        && history == old(history)[..|old(history)| - 1]
        && cooldown == UndoCooldown
      ensures !undone ==> board == old(board) && history == old(history) && cooldown == old(cooldown)
      ensures score == old(score) && timedScore == old(timedScore)
    {
      if history != [] && cooldown == 0 {
        var last := history[|history| - 1];
        history := history[..|history| - 1];
        board := new seq<int>[Size](i requires 0 <= i < Size => last[i]);
        assert board[..] == last;
        cooldown := UndoCooldown;
        return true;
      }
      return false;
    }

    /** reset_game_data: a new empty board, no score, the full cooldown and
        no history. The timed score is not touched. */
    method ResetGameData()
      requires Valid()
      modifies this
      ensures Valid() && fresh(board)
      ensures board[..] == EmptyGrid()
      ensures score == 0 && cooldown == UndoCooldown && history == []
      ensures timedScore == old(timedScore)
    {
      board := new seq<int>[Size](_ => Zeros(Size));
      assert board[..] == EmptyGrid();
      score := 0;
      cooldown := UndoCooldown;
      history := [];
    }

    /** reset_timed_game_data: reset_game_data, and the timed score too. */
    method ResetTimedGameData()
      requires Valid()
      modifies this
      ensures Valid() && fresh(board)
      ensures board[..] == EmptyGrid()
      ensures score == 0 && timedScore == 0 && cooldown == UndoCooldown && history == []
    {
      ResetGameData();
      timedScore := 0;
    }
  }

  /** A move made while the cooldown is 0, in either mode, followed by an
      undo: the undo succeeds, the board is the one the move started from, the
      history is what it was before the move, and the cooldown restarts. */
  method MoveThenUndo(g: Game, d: Direction, mode: Mode) returns (undone: bool)
    requires g.Valid() && g.cooldown == 0
    modifies g, g.board
    ensures g.Valid() && undone
    ensures g.board[..] == old(g.board[..])
    ensures g.cooldown == UndoCooldown && g.history == old(g.history)
  {
    g.MoveBoard(d, mode);
    undone := g.ReturnOneMove();
  }

  /** The board after the moves ds, made one after the other. */
  function Played(b: Grid, ds: seq<Direction>): (r: Grid)
    requires IsGrid(b)
    ensures IsGrid(r)
  {
    if ds == [] then b else MoveGrid(Played(b, ds[..|ds| - 1]), ds[|ds| - 1])
  }

  /** The undo gate over the first moves of a fresh session, in either mode
      and in any directions: during the first ten moves the cooldown only
      counts down, nothing is saved and every undo fails; the eleventh move
      saves the board it starts from, and undo then restores exactly that
      board (the board after the first ten moves) and restarts the cooldown. */
  method UndoAfterCooldown(g: Game, ds: seq<Direction>, mode: Mode) returns (earlyUndo: bool, undone: bool)
    requires g.Valid() && g.cooldown == UndoCooldown && g.history == []
    requires |ds| == UndoCooldown + 1
    modifies g, g.board
    ensures g.Valid()
    ensures !earlyUndo && undone
    ensures g.board[..] == Played(old(g.board[..]), ds[..UndoCooldown])
    ensures g.cooldown == UndoCooldown && g.history == []
  {
    ghost var start := g.board[..];
    earlyUndo := false;
    for i := 0 to UndoCooldown
      invariant g.Valid() && g.board == old(g.board)
      invariant g.cooldown == UndoCooldown - i && g.history == []
      invariant g.board[..] == Played(start, ds[..i])
      invariant !earlyUndo
    {
      assert ds[..i + 1][..i] == ds[..i];
      g.MoveBoard(ds[i], mode);
      var ok := g.ReturnOneMove();
      earlyUndo := earlyUndo || ok;
    }
    undone := MoveThenUndo(g, ds[UndoCooldown], mode);
  }
}
