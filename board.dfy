/**
 * The board: a BOARD_HEIGHT x BOARD_WIDTH grid of cells, row 0 at the top,
 * and the three operations the engine performs on it: the collision test,
 * locking a piece into a copy of the grid, and clearing full rows.
 */
module Board {
  import opened Wrappers
  import opened Shapes

  datatype Cell = Empty | Filled(color: Color)

  type Grid = seq<seq<Cell>>

  /** An active piece: its kind, the position of its pivot and its rotation index. */
  datatype Piece = Piece(kind: Kind, row: int, col: int, rotation: nat)

  /** Every board the engine builds has exactly BOARD_HEIGHT rows of BOARD_WIDTH cells. */
  predicate WellFormed(g: Grid)
  {
    |g| == BOARD_HEIGHT && forall r :: 0 <= r < |g| ==> |g[r]| == BOARD_WIDTH
  }

  predicate HasRotation(p: Piece)
  {
    p.rotation < |Rotations(p.kind)|
  }

  /** The four offsets of the piece's current rotation state. */
  function Shape(p: Piece): (offs: seq<Offset>)
    requires HasRotation(p)
    ensures |offs| == 4
  {
    Rotations(p.kind)[p.rotation]
  }

  predicate InBounds(row: int, col: int)
  {
    0 <= row < BOARD_HEIGHT && 0 <= col < BOARD_WIDTH
  }

  /**
   * Whether the absolute cell (row, col) stops a piece: it is past a side
   * wall or below the floor, or it is on the board and occupied. Cells
   * above the top row never stop a piece.
   */
  predicate Blocked(g: Grid, row: int, col: int)
    requires WellFormed(g)
  {
    row >= BOARD_HEIGHT || col < 0 || col >= BOARD_WIDTH || (row >= 0 && g[row][col].Filled?)
  }

  /** The `some` over a list of offsets placed at pivot (row, col). */
  function AnyBlocked(g: Grid, row: int, col: int, offs: seq<Offset>): (b: bool)
    requires WellFormed(g)
    ensures b <==> exists i :: 0 <= i < |offs| && Blocked(g, row + offs[i].dr, col + offs[i].dc)
  {
    if offs == [] then false
    else if Blocked(g, row + offs[0].dr, col + offs[0].dc) then true
    else
      var rest := AnyBlocked(g, row, col, offs[1..]);
      assert forall i :: 1 <= i < |offs| ==> offs[i] == offs[1..][i - 1];
      rest
  }

  /** checkCollision: some cell of the piece's current rotation state is blocked. */
  function Collides(g: Grid, p: Piece): (b: bool)
    requires WellFormed(g) && HasRotation(p)
    ensures b <==> exists i :: 0 <= i < 4 && Blocked(g, p.row + Shape(p)[i].dr, p.col + Shape(p)[i].dc)
  {
    AnyBlocked(g, p.row, p.col, Shape(p))
  }

  /** Some offset of `offs`, placed at pivot (row0, col0), lands on (row, col). */
  predicate CoveredBy(row0: int, col0: int, offs: seq<Offset>, row: int, col: int)
  {
    exists i :: 0 <= i < |offs| && row0 + offs[i].dr == row && col0 + offs[i].dc == col
  }

  /** The piece occupies the absolute cell (row, col). */
  predicate Covers(p: Piece, row: int, col: int)
    requires HasRotation(p)
  {
    CoveredBy(p.row, p.col, Shape(p), row, col)
  }

  /** The board with every in-bounds cell of the piece painted `fill`. */
  function Placed(g: Grid, p: Piece, fill: Color): (r: Grid)
    requires WellFormed(g) && HasRotation(p)
    ensures WellFormed(r)
  {
    seq(BOARD_HEIGHT, i requires 0 <= i < BOARD_HEIGHT =>
      seq(BOARD_WIDTH, j requires 0 <= j < BOARD_WIDTH =>
        if Covers(p, i, j) then Filled(fill) else g[i][j]))
  }

  /**
   * placeTetromino: copy the board, then paint each in-bounds cell of the
   * piece with `color`, or with the kind's colour when none is given.
   * Cells outside the board (row -1 at spawn, say) are skipped.
   */
  method PlaceTetromino(board: Grid, p: Piece, color: Option<Color>) returns (clone: Grid)
    requires WellFormed(board) && HasRotation(p)
    ensures WellFormed(clone)
    ensures forall i, j :: InBounds(i, j) && Covers(p, i, j) ==>
      clone[i][j] == Filled(color.GetOr(ColorOf(p.kind)))
    ensures forall i, j :: InBounds(i, j) && !Covers(p, i, j) ==> clone[i][j] == board[i][j]
    ensures clone == Placed(board, p, color.GetOr(ColorOf(p.kind)))
  {
    var fill := color.GetOr(ColorOf(p.kind));
    var offs := Shape(p);
    clone := board;
    for k := 0 to 4
      invariant WellFormed(clone)
      invariant forall i, j :: InBounds(i, j) ==>
        clone[i][j] == if CoveredBy(p.row, p.col, offs[..k], i, j) then Filled(fill) else board[i][j]
    {
      var row := p.row + offs[k].dr;
      var col := p.col + offs[k].dc;
      if row >= 0 && row < BOARD_HEIGHT && col >= 0 && col < BOARD_WIDTH {
        clone := clone[row := clone[row][col := Filled(fill)]];
      }
      CoveredByExtend(p.row, p.col, offs, k);
    }
    assert offs[..4] == offs;
    PlacedPointwise(board, p, fill, clone);
  }

  /** Placing one more offset covers exactly one more cell: that offset's. */
  lemma CoveredByExtend(row0: int, col0: int, offs: seq<Offset>, k: nat)
    requires k < |offs|
    ensures forall i, j :: CoveredBy(row0, col0, offs[..k + 1], i, j) <==>
      CoveredBy(row0, col0, offs[..k], i, j) || (i == row0 + offs[k].dr && j == col0 + offs[k].dc)
  {
    assert offs[..k + 1] == offs[..k] + [offs[k]];
  }

  /** A full-size board that agrees with the painted board on every cell is the painted board. */
  lemma PlacedPointwise(board: Grid, p: Piece, fill: Color, clone: Grid)
    requires WellFormed(board) && HasRotation(p) && WellFormed(clone)
    requires forall i, j :: InBounds(i, j) ==>
      clone[i][j] == if Covers(p, i, j) then Filled(fill) else board[i][j]
    ensures clone == Placed(board, p, fill)
  {
    var placed := Placed(board, p, fill);
    forall i | 0 <= i < BOARD_HEIGHT
      ensures clone[i] == placed[i]
    {
      assert forall j :: 0 <= j < BOARD_WIDTH ==> clone[i][j] == placed[i][j];
    }
  }

  // ----- Clearing full rows -----

  /** A row is full when every one of its cells is occupied. */
  predicate FullRow(row: seq<Cell>)
  {
    forall c :: 0 <= c < |row| ==> row[c].Filled?
  }

  predicate NoFullRow(g: Grid)
  {
    forall r :: 0 <= r < |g| ==> !FullRow(g[r])
  }

  function EmptyRow(): (row: seq<Cell>)
    ensures |row| == BOARD_WIDTH && !FullRow(row)
  {
    var row := seq(BOARD_WIDTH, _ => Empty);
    assert row[0] == Empty;
    row
  }

  function EmptyRows(n: nat): (g: Grid)
    ensures |g| == n && forall r :: 0 <= r < n ==> g[r] == EmptyRow()
  {
    seq(n, _ => EmptyRow())
  }

  /** The all-empty board of a fresh game. */
  function EmptyBoard(): (g: Grid)
    ensures WellFormed(g) && NoFullRow(g)
    ensures forall i, j :: InBounds(i, j) ==> g[i][j] == Empty
  {
    EmptyRows(BOARD_HEIGHT)
  }

  /** The number of full rows, counted top to bottom. */
  function FullCount(g: Grid): (n: nat)
  {
    if g == [] then 0
    else FullCount(g[..|g| - 1]) + (if FullRow(g[|g| - 1]) then 1 else 0)
  }

  /** The rows that are not full, in their original order. */
  function Kept(g: Grid): (kept: Grid)
  {
    if g == [] then []
    else Kept(g[..|g| - 1]) + (if FullRow(g[|g| - 1]) then [] else [g[|g| - 1]])
  }

  /** The board after a line clear: one empty row on top for every full row removed. */
  function Cleared(g: Grid): (cleared: Grid)
  {
    EmptyRows(FullCount(g)) + Kept(g)
  }

  /**
   * clearLines: walk the rows top to bottom; a full row is dropped and an
   * empty row is put in front of the new board, any other row is appended.
   */
  method ClearLines(board: Grid) returns (newBoard: Grid, lines: nat)
    requires WellFormed(board)
    ensures lines == FullCount(board) && lines <= BOARD_HEIGHT
    ensures newBoard == Cleared(board)
    ensures WellFormed(newBoard) && NoFullRow(newBoard)
    ensures forall r :: 0 <= r < lines ==> newBoard[r] == EmptyRow()
  {
    newBoard := [];
    lines := 0;
    for row := 0 to BOARD_HEIGHT
      invariant lines == FullCount(board[..row])
      invariant newBoard == EmptyRows(lines) + Kept(board[..row])
    {
      ClearStep(board, row);
      if FullRow(board[row]) {
        lines := lines + 1;
        newBoard := [EmptyRow()] + newBoard;
        assert EmptyRows(lines) == [EmptyRow()] + EmptyRows(lines - 1);
      } else {
        newBoard := newBoard + [board[row]];
      }
    }
    assert board[..BOARD_HEIGHT] == board;
    ClearedIsBoard(board);
  }

  /** Taking one more row into the walk counts it if full and keeps it otherwise. */
  lemma ClearStep(g: Grid, row: nat)
    requires row < |g|
    ensures FullCount(g[..row + 1]) == FullCount(g[..row]) + (if FullRow(g[row]) then 1 else 0)
    ensures Kept(g[..row + 1]) == Kept(g[..row]) + (if FullRow(g[row]) then [] else [g[row]])
  {
    assert g[..row + 1][..row] == g[..row];
  }

  /** The kept rows are exactly the non-full ones, so a clear keeps the row count. */
  lemma {:induction false} KeptRows(g: Grid)
    ensures |Kept(g)| + FullCount(g) == |g|
    ensures NoFullRow(Kept(g))
    ensures forall r :: 0 <= r < |Kept(g)| ==> Kept(g)[r] in g
  {
    if g != [] {
      KeptRows(g[..|g| - 1]);
    }
  }

  /** A cleared board has BOARD_HEIGHT full-width rows and no full row. */
  lemma ClearedIsBoard(g: Grid)
    requires WellFormed(g)
    ensures WellFormed(Cleared(g)) && NoFullRow(Cleared(g))
  {
    KeptRows(g);
  }

  /** Dropping the last row of a board with no full row leaves a board with no full row. */
  lemma InitNoFullRow(g: Grid)
    requires g != [] && NoFullRow(g)
    ensures NoFullRow(g[..|g| - 1]) && !FullRow(g[|g| - 1])
  {
    var init := g[..|g| - 1];
    forall r | 0 <= r < |init|
      ensures !FullRow(init[r])
    {
      assert init[r] == g[r];
    }
  }

  /** A board with no full row has no row to count. */
  lemma {:induction false} NoFullRowCountsZero(g: Grid)
    requires NoFullRow(g)
    ensures FullCount(g) == 0
  {
    if g != [] {
      InitNoFullRow(g);
      NoFullRowCountsZero(g[..|g| - 1]);
    }
  }

  /** A board with no full row keeps all its rows. */
  lemma {:induction false} NoFullRowKeepsAll(g: Grid)
    requires NoFullRow(g)
    ensures Kept(g) == g
  {
    if g != [] {
      var init, last := g[..|g| - 1], g[|g| - 1];
      InitNoFullRow(g);
      NoFullRowKeepsAll(init);
      assert init + [last] == g;
    }
  }

  /** A board with no full row clears nothing and comes back unchanged. */
  lemma ClearNoFullRow(g: Grid)
    requires NoFullRow(g)
    ensures FullCount(g) == 0 && Kept(g) == g && Cleared(g) == g
  {
    NoFullRowCountsZero(g);
    NoFullRowKeepsAll(g);
    assert EmptyRows(0) + g == g;
  }

  /** Clearing is idempotent: a second clear removes nothing. */
  lemma ClearTwice(g: Grid)
    requires WellFormed(g)
    ensures FullCount(Cleared(g)) == 0 && Cleared(Cleared(g)) == Cleared(g)
  {
    ClearedIsBoard(g);
    ClearNoFullRow(Cleared(g));
  }

  /** The indices of the rows that are not full, top to bottom. */
  function KeptIndices(g: Grid): (indices: seq<nat>)
  {
    if g == [] then []
    else KeptIndices(g[..|g| - 1]) + (if FullRow(g[|g| - 1]) then [] else [|g| - 1])
  }

  /**
   * The kept rows are the non-full input rows, each one exactly once and in
   * their original relative order: the k-th kept row is row KeptIndices(g)[k],
   * these indices increase strictly, and an index is among them exactly when
   * its row is not full.
   */
  lemma {:induction false} KeptIsOrderedSelection(g: Grid)
    ensures |KeptIndices(g)| == |Kept(g)|
    ensures forall k :: 0 <= k < |Kept(g)| ==>
      KeptIndices(g)[k] < |g| && Kept(g)[k] == g[KeptIndices(g)[k]]
    ensures forall a, b :: 0 <= a < b < |KeptIndices(g)| ==> KeptIndices(g)[a] < KeptIndices(g)[b]
    ensures forall i :: 0 <= i < |g| ==> (i in KeptIndices(g) <==> !FullRow(g[i]))
  {
    if g != [] {
      var init := g[..|g| - 1];
      KeptIsOrderedSelection(init);
      assert forall i :: 0 <= i < |init| ==> g[i] == init[i];
    }
  }

  // ----- At most four rows complete when a piece locks -----

  /** The indices of the full rows. */
  function FullRows(g: Grid): (rows: set<int>)
  {
    set r | 0 <= r < |g| && FullRow(g[r])
  }

  lemma {:induction false} FullCountIsCardinality(g: Grid)
    ensures FullCount(g) == |FullRows(g)|
  {
    if g != [] {
      var init := g[..|g| - 1];
      FullCountIsCardinality(init);
      assert forall r :: 0 <= r < |init| ==> g[r] == init[r];
      if FullRow(g[|g| - 1]) {
        assert FullRows(g) == FullRows(init) + {|g| - 1};
      } else {
        assert FullRows(g) == FullRows(init);
      }
    }
  }

  /** The rows the piece reaches. */
  function PieceRows(p: Piece): (rows: set<int>)
    requires HasRotation(p)
  {
    set i | 0 <= i < 4 :: p.row + Shape(p)[i].dr
  }

  lemma PieceRowsAtMostFour(p: Piece)
    requires HasRotation(p)
    ensures |PieceRows(p)| <= 4
  {
    var s := Shape(p);
    var r0, r1, r2, r3 := p.row + s[0].dr, p.row + s[1].dr, p.row + s[2].dr, p.row + s[3].dr;
    assert PieceRows(p) == {r0} + {r1} + {r2} + {r3};
  }

  lemma SubsetCardinality(a: set<int>, b: set<int>)
    requires a <= b
    ensures |a| <= |b|
  {
    assert b == a + (b - a);
    assert a * (b - a) == {};
  }

  /**
   * Locking a piece into a board without full rows completes at most four
   * rows: a newly full row must contain a cell of the piece, and the piece
   * reaches at most four rows.
   */
  lemma LockCompletesAtMostFour(g: Grid, p: Piece, fill: Color)
    requires WellFormed(g) && NoFullRow(g) && HasRotation(p)
    ensures FullCount(Placed(g, p, fill)) <= 4
  {
    var placed := Placed(g, p, fill);
    forall r | r in FullRows(placed)
      ensures r in PieceRows(p)
    {
      assert !FullRow(g[r]);
      var c :| 0 <= c < |g[r]| && !g[r][c].Filled?;
      assert placed[r][c].Filled?;
      assert Covers(p, r, c);
      var i :| 0 <= i < 4 && p.row + Shape(p)[i].dr == r && p.col + Shape(p)[i].dc == c;
    }
    SubsetCardinality(FullRows(placed), PieceRows(p));
    PieceRowsAtMostFour(p);
    FullCountIsCardinality(placed);
  }

  // ----- A worked line clear -----

  /**
   * The bottom row is filled except at column 5. A vertical I piece dropped
   * into that gap (pivot at row 17, column 5) completes exactly that row;
   * the clear removes it, puts one empty row on top and moves every other row down by one.
   */
  lemma SingleLineScenario()
    ensures var g := EmptyBoard()[19 := GappedRow()];
      var placed := Placed(g, Piece(0, 17, 5, 1), Sky);
      WellFormed(g) && NoFullRow(g)
      && FullCount(placed) == 1
      && Cleared(placed) == [EmptyRow()] + placed[..19]
  {
    var g := EmptyBoard()[19 := GappedRow()];
    var p := Piece(0, 17, 5, 1);
    var placed := Placed(g, p, Sky);
    assert Shape(p) == [Offset(-1, 0), Offset(0, 0), Offset(1, 0), Offset(2, 0)];
    assert NoFullRow(g) by {
      assert g[19][5] == Empty;
    }
    assert NoFullRow(placed[..19]) by {
      forall r | 0 <= r < 19
        ensures !FullRow(placed[..19][r])
      {
        assert !Covers(p, r, 0);
        assert placed[r][0] == Empty;
      }
    }
    assert FullRow(placed[19]) by {
      assert p.row + Shape(p)[3].dr == 19 && p.col + Shape(p)[3].dc == 5;
      assert Covers(p, 19, 5);
      forall j | 0 <= j < BOARD_WIDTH
        ensures placed[19][j].Filled?
      {
      }
    }
    ClearNoFullRow(placed[..19]);
    assert placed[..19] == placed[..|placed| - 1];
  }

  /** The bottom row of the worked example: filled everywhere except column 5. */
  function GappedRow(): (row: seq<Cell>)
    ensures |row| == BOARD_WIDTH && row[5] == Empty
    ensures forall j :: 0 <= j < BOARD_WIDTH && j != 5 ==> row[j] == Filled(Mint)
  {
    seq(BOARD_WIDTH, j => if j == 5 then Empty else Filled(Mint))
  }
}
