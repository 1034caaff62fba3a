/**
 * The static piece table: board dimensions, the seven tetromino kinds,
 * their rotation states as [row, col] offsets from a pivot, and their colours.
 */
module Shapes {

  const BOARD_WIDTH: int := 10
  const BOARD_HEIGHT: int := 20

  /** A piece kind, as an index into the table: 0 = I, 1 = O, 2 = T, 3 = S, 4 = Z, 5 = J, 6 = L. */
  type Kind = k: int | 0 <= k < 7

  /** One cell of a rotation state, relative to the piece's pivot. */
  datatype Offset = Offset(dr: int, dc: int)

  /** The colour tokens of the seven kinds; the gradients themselves are opaque here. */
  datatype Color = Sky | Cream | Orchid | Mint | Tangerine | Charcoal | Lilac

  /**
   * The rotation states of a kind, in the order the rotate command steps
   * through them. On screen, where rows grow downward, each step of T, J and
   * L is the quarter turn `Turned`, which is counterclockwise as drawn.
   */
  function Rotations(k: Kind): (states: seq<seq<Offset>>)
    ensures 1 <= |states| <= 4
    ensures forall i :: 0 <= i < |states| ==> |states[i]| == 4
  {
    if k == 0 then // I
      [ [Offset(0, -1), Offset(0, 0), Offset(0, 1), Offset(0, 2)],
        [Offset(-1, 0), Offset(0, 0), Offset(1, 0), Offset(2, 0)] ]
    else if k == 1 then // O
      [ [Offset(0, 0), Offset(0, 1), Offset(1, 0), Offset(1, 1)] ]
    else if k == 2 then // T
      [ [Offset(0, -1), Offset(0, 0), Offset(0, 1), Offset(1, 0)],
        [Offset(-1, 0), Offset(0, 0), Offset(1, 0), Offset(0, 1)],
        [Offset(0, -1), Offset(0, 0), Offset(0, 1), Offset(-1, 0)],
        [Offset(-1, 0), Offset(0, 0), Offset(1, 0), Offset(0, -1)] ]
    else if k == 3 then // S
      [ [Offset(0, 0), Offset(0, 1), Offset(1, -1), Offset(1, 0)],
        [Offset(-1, 0), Offset(0, 0), Offset(0, 1), Offset(1, 1)] ]
    else if k == 4 then // Z
      [ [Offset(0, -1), Offset(0, 0), Offset(1, 0), Offset(1, 1)],
        [Offset(-1, 1), Offset(0, 0), Offset(0, 1), Offset(1, 0)] ]
    else if k == 5 then // J
      [ [Offset(0, -1), Offset(0, 0), Offset(0, 1), Offset(1, -1)],
        [Offset(-1, 0), Offset(0, 0), Offset(1, 0), Offset(1, 1)],
        [Offset(0, -1), Offset(0, 0), Offset(0, 1), Offset(-1, 1)],
        [Offset(-1, -1), Offset(-1, 0), Offset(0, 0), Offset(1, 0)] ]
    else // L
      [ [Offset(0, -1), Offset(0, 0), Offset(0, 1), Offset(1, 1)],
        [Offset(-1, 0), Offset(0, 0), Offset(1, 0), Offset(-1, 1)],
        [Offset(0, -1), Offset(0, 0), Offset(0, 1), Offset(-1, -1)],
        [Offset(-1, 0), Offset(0, 0), Offset(1, 0), Offset(1, -1)] ]
  }

  /** The colour token a locked piece of kind `k` leaves on the board. */
  function ColorOf(k: Kind): (c: Color)
    ensures (c == Sky <==> k == 0) && (c == Cream <==> k == 1) && (c == Orchid <==> k == 2)
    ensures (c == Mint <==> k == 3) && (c == Tangerine <==> k == 4)
    ensures (c == Charcoal <==> k == 5) && (c == Lilac <==> k == 6)
  {
    if k == 0 then Sky
    else if k == 1 then Cream
    else if k == 2 then Orchid
    else if k == 3 then Mint
    else if k == 4 then Tangerine
    else if k == 5 then Charcoal
    else Lilac
  }

  /** Each kind has its own colour token. */
  lemma ColorsDistinct(j: Kind, k: Kind)
    ensures j != k ==> ColorOf(j) != ColorOf(k)
  {
  }

  /** I, S and Z have two states, O one, and T, J and L four. */
  lemma RotationCounts()
    ensures |Rotations(0)| == 2 && |Rotations(1)| == 1 && |Rotations(2)| == 4
    ensures |Rotations(3)| == 2 && |Rotations(4)| == 2
    ensures |Rotations(5)| == 4 && |Rotations(6)| == 4
  {
  }

  /** Every rotation state is a set of four distinct cells, each within [-1, 2] of the pivot. */
  lemma StatesAreFourDistinctCells(k: Kind, i: nat)
    requires i < |Rotations(k)|
    ensures forall a, b :: 0 <= a < b < 4 ==> Rotations(k)[i][a] != Rotations(k)[i][b]
    ensures forall a :: 0 <= a < 4 ==> -1 <= Rotations(k)[i][a].dr <= 2 && -1 <= Rotations(k)[i][a].dc <= 2
  {
  }

  /** An offset turned a quarter about the pivot: (dr, dc) becomes (-dc, dr). */
  function Turned(o: Offset): (t: Offset)
    ensures t.dr * t.dr + t.dc * t.dc == o.dr * o.dr + o.dc * o.dc
  {
    Offset(-o.dc, o.dr)
  }

  /** The cells of a rotation state, as a set. */
  function Cells(state: seq<Offset>): (cells: set<Offset>)
  {
    set o | o in state
  }

  /** The cells of a rotation state, each turned a quarter. */
  function TurnedCells(state: seq<Offset>): (cells: set<Offset>)
  {
    set o | o in state :: Turned(o)
  }

  /**
   * For T, J and L each state is the previous one turned a quarter, the
   * fourth wrapping round to the first; for S and Z the second state is the
   * first turned. So the table turns these pieces counterclockwise on screen.
   */
  lemma StatesAreQuarterTurns(k: Kind, i: nat)
    requires ((k == 2 || k == 5 || k == 6) && i < 4) || ((k == 3 || k == 4) && i == 0)
    ensures TurnedCells(Rotations(k)[i]) == Cells(Rotations(k)[(i + 1) % |Rotations(k)|])
  {
    if k == 2 || k == 5 || k == 6 {
      TurnsOfFourStates(k, i);
    } else {
      TurnsOfTwoStates(k);
    }
  }

  lemma TurnsOfFourStates(k: Kind, i: nat)
    requires (k == 2 || k == 5 || k == 6) && i < 4
    ensures TurnedCells(Rotations(k)[i]) == Cells(Rotations(k)[(i + 1) % 4])
  {
    var s := Rotations(k)[i];
    var t := Rotations(k)[(i + 1) % 4];
    FourCells(s);
    FourCells(t);
    if k == 2 {
      TurnsOfT(i);
    } else if k == 5 {
      TurnsOfJ(i);
    } else {
      TurnsOfL(i);
    }
  }

  lemma TurnsOfTwoStates(k: Kind)
    requires k == 3 || k == 4
    ensures TurnedCells(Rotations(k)[0]) == Cells(Rotations(k)[1])
  {
    FourCells(Rotations(k)[0]);
    FourCells(Rotations(k)[1]);
    TurnsOfSOrZ(k);
  }

  lemma TurnsOfSOrZ(k: Kind)
    requires k == 3 || k == 4
    ensures var s := Rotations(k)[0]; var t := Rotations(k)[1];
      {Turned(s[0]), Turned(s[1]), Turned(s[2]), Turned(s[3])} == {t[0], t[1], t[2], t[3]}
  {
  }

  lemma TurnsOfT(i: nat)
    requires i < 4
    ensures var s := Rotations(2)[i]; var t := Rotations(2)[(i + 1) % 4];
      {Turned(s[0]), Turned(s[1]), Turned(s[2]), Turned(s[3])} == {t[0], t[1], t[2], t[3]}
  {
  }

  lemma TurnsOfJ(i: nat)
    requires i < 4
    ensures var s := Rotations(5)[i]; var t := Rotations(5)[(i + 1) % 4];
      {Turned(s[0]), Turned(s[1]), Turned(s[2]), Turned(s[3])} == {t[0], t[1], t[2], t[3]}
  {
  }

  lemma TurnsOfL(i: nat)
    requires i < 4
    ensures var s := Rotations(6)[i]; var t := Rotations(6)[(i + 1) % 4];
      {Turned(s[0]), Turned(s[1]), Turned(s[2]), Turned(s[3])} == {t[0], t[1], t[2], t[3]}
  {
  }

  /** The cells of a four-offset state, and of its quarter turn, as set displays. */
  lemma FourCells(s: seq<Offset>)
    requires |s| == 4
    ensures Cells(s) == {s[0], s[1], s[2], s[3]}
    ensures TurnedCells(s) == {Turned(s[0]), Turned(s[1]), Turned(s[2]), Turned(s[3])}
  {
    assert s == [s[0], s[1], s[2], s[3]];
  }
}
