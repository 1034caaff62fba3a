/**
 * The game state machine. The engine's state lives in one object whose
 * fields are reassigned by reset, spawn, the four piece commands and the
 * descent tick. The random choice of the next kind is an argument `draw`.
 */
module Engine {
  import opened Wrappers
  import opened Shapes
  import opened Board
  import opened Controller
  import opened Scoring

  class Game {
    var board: Grid
    var score: int
    var lines: int
    var current: Option<Piece>
    var next: Kind
    var gameOver: bool
    var intervalMs: int
    var playing: bool

    /**
     * The invariant every step keeps: a full-size board with no full row
     * (each lock is followed by a clear), non-negative counters, a fall
     * interval between 100 and 550 ms, an active piece in a valid rotation,
     * and a game that is over is not playing.
     */
    ghost predicate Valid()
      reads this
    {
      WellFormed(board) && NoFullRow(board)
      && 0 <= score && 0 <= lines
      && MIN_INTERVAL_MS <= intervalMs <= INITIAL_INTERVAL_MS
      && (current.Some? ==> HasRotation(current.value))
      && (gameOver ==> !playing)
    }

    /** Whether piece commands are listened to: playing, a piece in play, and not over. */
    predicate Accepting()
      reads this
    {
      playing && current.Some? && !gameOver
    }

    /** The state before the first start: empty board, idle, `first` queued as the next kind. */
    constructor (first: Kind)
      ensures Valid()
      ensures board == EmptyBoard() && score == 0 && lines == 0 && current == None
      ensures next == first && !gameOver && intervalMs == INITIAL_INTERVAL_MS && !playing
    {
      board := EmptyBoard();
      score := 0;
      lines := 0;
      current := None;
      next := first;
      gameOver := false;
      intervalMs := INITIAL_INTERVAL_MS;
      playing := false;
    }

    /** resetGame: start (or restart) with an empty board and the initial interval. */
    method Reset(draw: Kind)
      modifies this
      ensures Valid()
      ensures board == EmptyBoard() && score == 0 && lines == 0 && current == None
      ensures next == draw && !gameOver && intervalMs == INITIAL_INTERVAL_MS && playing
    {
      board := EmptyBoard();
      score := 0;
      lines := 0;
      current := None;
      next := draw;
      gameOver := false;
      intervalMs := INITIAL_INTERVAL_MS;
      playing := true;
    }

    /**
     * spawnTetromino: if the queued kind collides at row 0 the game is over
     * and nothing is spawned; otherwise it becomes the active piece at its
     * spawn position (row -1) and `draw` is queued.
     */
    method Spawn(draw: Kind)
      requires Valid()
      modifies this
      ensures Valid()
      ensures board == old(board) && score == old(score) && lines == old(lines)
      ensures intervalMs == old(intervalMs)
      ensures Collides(board, SpawnProbe(old(next))) ==>
        gameOver && !playing && current == old(current) && next == old(next)
      ensures !Collides(board, SpawnProbe(old(next))) ==>
        current == Some(SpawnPiece(old(next))) && next == draw
        && gameOver == old(gameOver) && playing == old(playing)
    {
      var t := next;
      if Collides(board, SpawnProbe(t)) {
        gameOver := true;
        playing := false;
        return;
      }
      current := Some(SpawnPiece(t));
      next := draw;
    }

    /** The effect that spawns the queued kind whenever a game is running without a piece. */
    method SpawnIfIdle(draw: Kind)
      requires Valid()
      modifies this
      ensures Valid()
      ensures board == old(board) && score == old(score) && lines == old(lines)
      ensures intervalMs == old(intervalMs)
      ensures !(old(playing) && old(current).None? && !old(gameOver)) ==> unchanged(this)
      ensures old(playing) && old(current).None? && !old(gameOver) ==>
        if Collides(board, SpawnProbe(old(next))) then
          gameOver && !playing && current == None && next == old(next)
        else
          current == Some(SpawnPiece(old(next))) && next == draw && !gameOver && playing
    {
      if playing && current.None? && !gameOver {
        Spawn(draw);
      }
    }

    /** Move the active piece by (dRow, dCol) if the moved piece does not collide. */
    method Shift(dRow: int, dCol: int)
      requires Valid()
      modifies this`current
      ensures Valid()
      ensures old(Accepting()) && !Collides(board, Shifted(old(current).value, dRow, dCol)) ==>
        current == Some(Shifted(old(current).value, dRow, dCol))
      ensures !(old(Accepting()) && !Collides(board, Shifted(old(current).value, dRow, dCol))) ==>
        current == old(current)
    {
      if Accepting() {
        var moved := Shifted(current.value, dRow, dCol);
        if !Collides(board, moved) {
          current := Some(moved);
        }
      }
    }

    /** ArrowLeft: one column left, unless that collides. */
    method MoveLeft()
      requires Valid()
      modifies this`current
      ensures Valid()
      ensures old(Accepting()) && !Collides(board, Shifted(old(current).value, 0, -1)) ==>
        current == Some(Shifted(old(current).value, 0, -1))
      ensures !(old(Accepting()) && !Collides(board, Shifted(old(current).value, 0, -1))) ==>
        current == old(current)
    {
      Shift(0, -1);
    }

    /** ArrowRight: one column right, unless that collides. */
    method MoveRight()
      requires Valid()
      modifies this`current
      ensures Valid()
      ensures old(Accepting()) && !Collides(board, Shifted(old(current).value, 0, 1)) ==>
        current == Some(Shifted(old(current).value, 0, 1))
      ensures !(old(Accepting()) && !Collides(board, Shifted(old(current).value, 0, 1))) ==>
        current == old(current)
    {
      Shift(0, 1);
    }

    /** ArrowDown: one row down, unless that collides; a blocked soft drop does not lock. */
    method SoftDrop()
      requires Valid()
      modifies this`current
      ensures Valid()
      ensures old(Accepting()) && !Collides(board, Shifted(old(current).value, 1, 0)) ==>
        current == Some(Shifted(old(current).value, 1, 0))
      ensures !(old(Accepting()) && !Collides(board, Shifted(old(current).value, 1, 0))) ==>
        current == old(current)
    {
      Shift(1, 0);
    }

    /** ArrowUp or space: the next rotation state in place, rejected if it collides (no wall kick). */
    method Rotate()
      requires Valid()
      modifies this`current
      ensures Valid()
      ensures old(Accepting()) && !Collides(board, Rotated(old(current).value)) ==>
        current == Some(Rotated(old(current).value))
      ensures !(old(Accepting()) && !Collides(board, Rotated(old(current).value))) ==>
        current == old(current)
    {
      if Accepting() {
        var moved := Rotated(current.value);
        if !Collides(board, moved) {
          current := Some(moved);
        }
      }
    }

    /**
     * The descent tick. With no piece it spawns one. Otherwise the piece
     * moves down a row if it can; if it cannot, it is locked into the board,
     * full rows are cleared, and for n > 0 cleared rows the score gains the
     * table value for n, the line count grows by n and the interval shrinks
     * by 20 ms per row down to 100 ms. The piece is then gone.
     */
    method Tick(draw: Kind)
      requires Valid()
      modifies this
      ensures Valid()
      ensures score >= old(score) && lines >= old(lines) && intervalMs <= old(intervalMs)
      ensures !old(playing) || old(gameOver) ==> unchanged(this)
      ensures old(playing) && !old(gameOver) && old(current).None? ==>
        board == old(board) && score == old(score) && lines == old(lines)
        && intervalMs == old(intervalMs)
        && if Collides(board, SpawnProbe(old(next))) then
             gameOver && !playing && current == None && next == old(next)
           else
             current == Some(SpawnPiece(old(next))) && next == draw && !gameOver && playing
      ensures (old(playing) && !old(gameOver) && old(current).Some?
               && !Collides(old(board), Shifted(old(current).value, 1, 0))) ==>
        current == Some(Shifted(old(current).value, 1, 0))
        && board == old(board) && score == old(score) && lines == old(lines)
        && intervalMs == old(intervalMs) && next == old(next)
        && gameOver == old(gameOver) && playing == old(playing)
      ensures (old(playing) && !old(gameOver) && old(current).Some?
               && Collides(old(board), Shifted(old(current).value, 1, 0))) ==>
        LockedFrom(old(board), old(score), old(lines), old(intervalMs), old(current).value)
        && current == None && next == old(next) && !gameOver && playing
    {
      if !playing || gameOver {
        return;
      }
      if current.None? {
        Spawn(draw);
        return;
      }
      var p := current.value;
      var moved := Shifted(p, 1, 0);
      if !Collides(board, moved) {
        current := Some(moved);
        return;
      }
      Lock();
    }

    /**
     * The board, score, lines and interval after locking `p` into board `b0`
     * with score `s0`, line count `l0` and interval `ms0`: the piece, painted
     * in its kind's colour, completes n <= 4 rows; those are cleared; for
     * n > 0 the score gains the table value for n, the line count n and the
     * interval shrinks as NextInterval says; for n = 0 all three stay.
     */
    ghost predicate LockedFrom(b0: Grid, s0: int, l0: int, ms0: int, p: Piece)
      requires WellFormed(b0) && HasRotation(p)
      reads this
    {
      var placed := Placed(b0, p, ColorOf(p.kind));
      var n := FullCount(placed);
      n <= 4
      && board == Cleared(placed)
      && score == (if n > 0 then s0 + LINE_SCORES[n] else s0)
      && lines == l0 + n
      && intervalMs == (if n > 0 then NextInterval(ms0, n) else ms0)
    }

    /**
     * The lock branch of the tick: the board becomes the cleared board with
     * the piece painted in, and score, lines and interval follow the count.
     */
    method Lock()
      requires Valid() && current.Some?
      modifies this
      ensures Valid()
      ensures LockedFrom(old(board), old(score), old(lines), old(intervalMs), old(current).value)
      ensures current == None && next == old(next)
      ensures gameOver == old(gameOver) && playing == old(playing)
      ensures score >= old(score) && lines >= old(lines) && intervalMs <= old(intervalMs)
    {
      var p := current.value;
      var withPlaced := PlaceTetromino(board, p, None);
      var afterCleared, clearedLines := ClearLines(withPlaced);
      LockCompletesAtMostFour(board, p, ColorOf(p.kind));
      board := afterCleared;
      if clearedLines > 0 {
        score := ScoreAfter(score, clearedLines);
        lines := lines + clearedLines;
        intervalMs := NextInterval(intervalMs, clearedLines);
      }
      current := None;
    }
  }

  /**
   * Starting a game from the initial screen: the reset followed by the spawn
   * effect puts the queued kind in play at its spawn position on the empty
   * board, with a fresh kind queued behind it.
   */
  method StartGame(first: Kind, onReset: Kind, onSpawn: Kind) returns (game: Game)
    ensures game.Valid() && game.playing && !game.gameOver
    ensures game.board == EmptyBoard() && game.score == 0 && game.lines == 0
    ensures game.intervalMs == INITIAL_INTERVAL_MS
    ensures game.current == Some(SpawnPiece(onReset)) && game.next == onSpawn
  {
    game := new Game(first);
    game.Reset(onReset);
    SpawnFitsEmptyBoard(onReset);
    game.SpawnIfIdle(onSpawn);
  }
}
