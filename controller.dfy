/**
 * The piece controller: candidate moves and rotations of the active piece,
 * the spawn position, and what the collision test makes of them.
 */
module Controller {
  import opened Shapes
  import opened Board

  /** The piece moved by dRow rows and dCol columns, in the same kind and rotation state. */
  function Shifted(p: Piece, dRow: int, dCol: int): (q: Piece)
    ensures q.kind == p.kind && q.rotation == p.rotation
    ensures HasRotation(p) ==> HasRotation(q) && Shape(q) == Shape(p)
  {
    p.(row := p.row + dRow, col := p.col + dCol)
  }

  /** The next rotation state of the table, at the same position (see `StatesAreQuarterTurns`). */
  function Rotated(p: Piece): (q: Piece)
    requires HasRotation(p)
    ensures HasRotation(q) && q.kind == p.kind && q.row == p.row && q.col == p.col
  {
    p.(rotation := (p.rotation + 1) % |Rotations(p.kind)|)
  }

  /** The piece rotated m times. */
  function RotatedTimes(p: Piece, m: nat): (q: Piece)
    requires HasRotation(p)
    ensures HasRotation(q)
  {
    if m == 0 then p else Rotated(RotatedTimes(p, m - 1))
  }

  /** A new piece of kind k: pivot at row -1 (one row above the board), centre column, first state. */
  function SpawnPiece(k: Kind): (p: Piece)
    ensures HasRotation(p)
  {
    Piece(k, -1, BOARD_WIDTH / 2, 0)
  }

  /** The piece the game-over test checks: the spawn piece one row lower, at row 0. */
  function SpawnProbe(k: Kind): (p: Piece)
    ensures HasRotation(p)
  {
    Piece(k, 0, BOARD_WIDTH / 2, 0)
  }

  /** The moved piece covers exactly the cells of the original, moved by (dRow, dCol). */
  lemma ShiftMovesCells(p: Piece, dRow: int, dCol: int)
    requires HasRotation(p)
    ensures forall row, col :: Covers(Shifted(p, dRow, dCol), row, col) <==> Covers(p, row - dRow, col - dCol)
  {
    var q := Shifted(p, dRow, dCol);
    forall row, col
      ensures Covers(q, row, col) <==> Covers(p, row - dRow, col - dCol)
    {
      if Covers(q, row, col) {
        var i :| 0 <= i < 4 && q.row + Shape(q)[i].dr == row && q.col + Shape(q)[i].dc == col;
        assert p.row + Shape(p)[i].dr == row - dRow && p.col + Shape(p)[i].dc == col - dCol;
      }
      if Covers(p, row - dRow, col - dCol) {
        var i :| 0 <= i < 4 && p.row + Shape(p)[i].dr == row - dRow && p.col + Shape(p)[i].dc == col - dCol;
        assert q.row + Shape(q)[i].dr == row && q.col + Shape(q)[i].dc == col;
      }
    }
  }

  /** A move followed by the opposite move gives back the piece: left undoes right. */
  lemma ShiftUndone(p: Piece, dRow: int, dCol: int)
    ensures Shifted(Shifted(p, dRow, dCol), -dRow, -dCol) == p
  {
  }

  /** The game-over probe is the spawn piece moved one row down. */
  lemma SpawnProbeIsOneRowDown(k: Kind)
    ensures SpawnProbe(k) == Shifted(SpawnPiece(k), 1, 0)
    ensures SpawnPiece(k).row == -1 && SpawnPiece(k).col == 5 && SpawnPiece(k).rotation == 0
  {
  }

  /** Rotating m times moves the index m steps round the cycle of states. */
  lemma {:induction false} RotatedTimesIndex(p: Piece, m: nat)
    requires HasRotation(p)
    ensures RotatedTimes(p, m) == p.(rotation := (p.rotation + m) % |Rotations(p.kind)|)
  {
    var n := |Rotations(p.kind)|;
    if m > 0 {
      RotatedTimesIndex(p, m - 1);
      var r := (p.rotation + m - 1) % n;
      assert (r + 1) % n == (p.rotation + m) % n by {
        RotationCounts();
        assert n == 1 || n == 2 || n == 4;
      }
    }
  }

  /** Rotating as many times as the kind has states gives back the original piece. */
  lemma RotationCycle(p: Piece)
    requires HasRotation(p)
    ensures RotatedTimes(p, |Rotations(p.kind)|) == p
  {
    RotatedTimesIndex(p, |Rotations(p.kind)|);
  }

  /** A piece that does not collide lies between the walls, above the floor, and only on empty cells. */
  lemma FreePieceFits(g: Grid, p: Piece)
    requires WellFormed(g) && HasRotation(p) && !Collides(g, p)
    ensures forall row, col :: Covers(p, row, col) ==>
      0 <= col < BOARD_WIDTH && row < BOARD_HEIGHT && (row >= 0 ==> g[row][col] == Empty)
  {
    forall row, col | Covers(p, row, col)
      ensures 0 <= col < BOARD_WIDTH && row < BOARD_HEIGHT && (row >= 0 ==> g[row][col] == Empty)
    {
      var i :| 0 <= i < 4 && p.row + Shape(p)[i].dr == row && p.col + Shape(p)[i].dc == col;
      assert !Blocked(g, row, col);
    }
  }

  /** A piece with a cell past a side wall or below the floor collides, whatever the board holds. */
  lemma OutOfBoundsCollides(g: Grid, p: Piece, row: int, col: int)
    requires WellFormed(g) && HasRotation(p) && Covers(p, row, col)
    requires col < 0 || col >= BOARD_WIDTH || row >= BOARD_HEIGHT
    ensures Collides(g, p)
  {
    var i :| 0 <= i < 4 && p.row + Shape(p)[i].dr == row && p.col + Shape(p)[i].dc == col;
    assert Blocked(g, p.row + Shape(p)[i].dr, p.col + Shape(p)[i].dc);
  }

  /** Cells above the top row never collide: a piece wholly above the board, between the walls, is free. */
  lemma AboveBoardIsFree(g: Grid, p: Piece)
    requires WellFormed(g) && HasRotation(p)
    requires forall i :: 0 <= i < 4 ==>
      p.row + Shape(p)[i].dr < 0 && 0 <= p.col + Shape(p)[i].dc < BOARD_WIDTH
    ensures !Collides(g, p)
  {
  }

  /** On the empty board only the side walls and the floor block. */
  lemma EmptyBoardBlocksOnlyWalls()
    ensures forall row, col :: Blocked(EmptyBoard(), row, col) <==>
      (row >= BOARD_HEIGHT || col < 0 || col >= BOARD_WIDTH)
  {
  }

  /** Every kind fits on an empty board both at its spawn position and at the row-0 probe. */
  lemma SpawnFitsEmptyBoard(k: Kind)
    ensures !Collides(EmptyBoard(), SpawnPiece(k)) && !Collides(EmptyBoard(), SpawnProbe(k))
  {
    StatesAreFourDistinctCells(k, 0);
    EmptyBoardBlocksOnlyWalls();
  }

  /**
   * The game-over test probes row 0, but the piece is spawned at row -1. For
   * an S piece the spawned piece covers (0, 4), a cell the probe does not
   * cover, so a block there lets the spawn through onto an occupied cell.
   */
  lemma SpawnProbeMissesOverlap()
    ensures var g := EmptyBoard()[0 := EmptyRow()[4 := Filled(Charcoal)]];
      WellFormed(g) && !Collides(g, SpawnProbe(3)) && Collides(g, SpawnPiece(3))
  {
    var g := EmptyBoard()[0 := EmptyRow()[4 := Filled(Charcoal)]];
    assert Shape(SpawnPiece(3)) == [Offset(0, 0), Offset(0, 1), Offset(1, -1), Offset(1, 0)];
    assert SpawnPiece(3) == Piece(3, -1, 5, 0) && SpawnProbe(3) == Piece(3, 0, 5, 0);
    assert Blocked(g, 0, 4);
    assert !Blocked(g, 0, 5) && !Blocked(g, 0, 6) && !Blocked(g, 1, 4) && !Blocked(g, 1, 5);
  }

  /**
   * Rotation has no wall kick: a T piece standing against the left wall
   * cannot turn, although the same turn one column to the right is free.
   */
  lemma NoWallKick()
    ensures var p := Piece(2, 5, 0, 1);
      !Collides(EmptyBoard(), p) && Collides(EmptyBoard(), Rotated(p))
      && !Collides(EmptyBoard(), Shifted(Rotated(p), 0, 1))
  {
    var p := Piece(2, 5, 0, 1);
    assert Shape(p) == [Offset(-1, 0), Offset(0, 0), Offset(1, 0), Offset(0, 1)];
    assert Rotated(p) == Piece(2, 5, 0, 2);
    assert Shape(Piece(2, 5, 0, 2)) == [Offset(0, -1), Offset(0, 0), Offset(0, 1), Offset(-1, 0)];
    assert Shifted(Rotated(p), 0, 1) == Piece(2, 5, 1, 2);
    EmptyBoardBlocksOnlyWalls();
  }

  /**
   * On an empty board an O piece dropped from its spawn position can move
   * down while its pivot is above row 18 and comes to rest covering rows 18 and 19.
   */
  lemma ODropsToFloor()
    ensures forall r :: -1 <= r <= 18 ==> !Collides(EmptyBoard(), Piece(1, r, BOARD_WIDTH / 2, 0))
    ensures Collides(EmptyBoard(), Piece(1, 19, BOARD_WIDTH / 2, 0))
  {
    assert forall r :: Shape(Piece(1, r, 5, 0)) == [Offset(0, 0), Offset(0, 1), Offset(1, 0), Offset(1, 1)];
    EmptyBoardBlocksOnlyWalls();
  }
}
