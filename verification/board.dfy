/**
 Board State of the Connect-4 engine: a grid of 6 rows by 7 columns where
 row 0 is the bottom row, together with the legality test, the lowest-free-row
 scan and the single-cell drop/undo operations the search uses in place.
 */
module Board {
  import opened Options

  const Rows: int := 6
  const Cols: int := 7

  /** Occupancy of one cell. */
  datatype Cell = Empty | AI | Human

  /** A piece owner: never Empty. */
  type Player = c: Cell | c != Empty witness AI

  /** The other player, as the window scorer chooses it. */
  function Opponent(p: Player): (q: Player)
    ensures q != p
  {
    if p == AI then Human else AI
  }

  predicate WellShaped(b: seq<seq<Cell>>) {
    |b| == Rows && forall r :: 0 <= r < |b| ==> |b[r]| == Cols
  }

  /** The board indexed as b[row][column]. */
  type Grid = b: seq<seq<Cell>> | WellShaped(b)
    witness seq(6, _ => seq(7, _ => Empty))

  predicate InBounds(r: int, c: int) {
    0 <= r < Rows && 0 <= c < Cols
  }

  /** The board the engine starts from: every cell empty. */
  function EmptyGrid(): Grid {
    seq(Rows, _ => seq(Cols, _ => Empty))
  }

  /** A move is legal iff the column's top cell is empty. */
  predicate IsLegal(b: Grid, c: int)
    requires 0 <= c < Cols
  {
    b[Rows - 1][c] == Empty
  }

  /** Bottom-up scan of column c starting at row r. */
  function ScanFrom(b: Grid, c: int, r: nat): (res: Option<nat>)
    requires 0 <= c < Cols
    requires r <= Rows
    ensures res.Some? ==> r <= res.value < Rows && b[res.value][c] == Empty
    ensures res.Some? ==> forall k :: r <= k < res.value ==> b[k][c] != Empty
    ensures res.None? <==> forall k :: r <= k < Rows ==> b[k][c] != Empty
    decreases Rows - r
  {
    if r == Rows then None
    else if b[r][c] == Empty then Some(r)
    else ScanFrom(b, c, r + 1)
  }

  /** The lowest empty row of column c, or None when the column is full. */
  function LowestEmptyRow(b: Grid, c: int): (res: Option<nat>)
    requires 0 <= c < Cols
    ensures res.Some? ==> res.value < Rows && b[res.value][c] == Empty
    ensures res.Some? ==> forall k :: 0 <= k < res.value ==> b[k][c] != Empty
    ensures res.None? <==> forall k :: 0 <= k < Rows ==> b[k][c] != Empty
    ensures IsLegal(b, c) ==> res.Some?
  {
    ScanFrom(b, c, 0)
  }

  /** Writes piece p into cell (r, c); no legality check, as in the engine. */
  function Drop(b: Grid, r: int, c: int, p: Player): (b': Grid)
    requires InBounds(r, c)
    ensures b'[r][c] == p
    ensures forall i, j :: InBounds(i, j) && (i, j) != (r, c) ==> b'[i][j] == b[i][j]
  {
    b[r := b[r][c := p]]
  }

  /** Resets cell (r, c) to Empty. */
  function Undo(b: Grid, r: int, c: int): (b': Grid)
    requires InBounds(r, c)
    ensures b'[r][c] == Empty
    ensures forall i, j :: InBounds(i, j) && (i, j) != (r, c) ==> b'[i][j] == b[i][j]
  {
    b[r := b[r][c := Empty]]
  }

  /** Two grids that agree on every cell are the same grid. */
  lemma GridExtensionality(a: Grid, b: Grid)
    requires forall i, j :: InBounds(i, j) ==> a[i][j] == b[i][j]
    ensures a == b
  {
    forall i | 0 <= i < Rows
      ensures a[i] == b[i]
    {
      assert forall j :: 0 <= j < Cols ==> a[i][j] == b[i][j];
    }
  }

  /** Undoing a drop into a previously empty cell restores the board exactly. */
  lemma UndoDropRoundTrip(b: Grid, r: int, c: int, p: Player)
    requires InBounds(r, c)
    requires b[r][c] == Empty
    ensures Undo(Drop(b, r, c, p), r, c) == b
  {
    GridExtensionality(Undo(Drop(b, r, c, p), r, c), b);
  }

  /** Gravity: in column c no occupied cell sits above an empty one. */
  predicate ColumnSettled(b: Grid, c: int)
    requires 0 <= c < Cols
  {
    forall r :: 0 < r < Rows && b[r][c] != Empty ==> b[r - 1][c] != Empty
  }

  predicate Settled(b: Grid) {
    forall c :: 0 <= c < Cols ==> ColumnSettled(b, c)
  }

  /** The starting board obeys gravity, and every column is open with its lowest free
      cell on the bottom row. */
  lemma EmptyGridIsOpen()
    ensures Settled(EmptyGrid())
    ensures forall c :: 0 <= c < Cols ==> IsLegal(EmptyGrid(), c) && LowestEmptyRow(EmptyGrid(), c) == Some(0)
  {
    forall c | 0 <= c < Cols
      ensures LowestEmptyRow(EmptyGrid(), c) == Some(0)
    {
      assert EmptyGrid()[0][c] == Empty;
    }
  }

  /** In a settled column, everything at or above the lowest empty row is empty. */
  lemma {:induction false} SettledAboveEmpty(b: Grid, c: int, r: int, k: int)
    requires 0 <= c < Cols && ColumnSettled(b, c)
    requires 0 <= r <= k < Rows && b[r][c] == Empty
    ensures b[k][c] == Empty
    decreases k - r
  {
    if k > r {
      SettledAboveEmpty(b, c, r, k - 1);
    }
  }

  /** Under gravity, a column has a free row exactly when its top cell is free. */
  lemma LegalIffFreeRow(b: Grid, c: int)
    requires 0 <= c < Cols && ColumnSettled(b, c)
    ensures IsLegal(b, c) <==> LowestEmptyRow(b, c).Some?
  {
    var res := LowestEmptyRow(b, c);
    if res.Some? {
      SettledAboveEmpty(b, c, res.value, Rows - 1);
    }
  }

  /** Dropping at the lowest empty row of a settled column keeps the whole board settled. */
  lemma DropKeepsSettled(b: Grid, c: int, p: Player)
    requires 0 <= c < Cols && Settled(b)
    requires LowestEmptyRow(b, c).Some?
    ensures Settled(Drop(b, LowestEmptyRow(b, c).value, c, p))
  {
    var r := LowestEmptyRow(b, c).value;
    var b' := Drop(b, r, c, p);
    forall j | 0 <= j < Cols
      ensures ColumnSettled(b', j)
    {
      assert ColumnSettled(b, j);
      forall k | 0 < k < Rows && b'[k][j] != Empty
        ensures b'[k - 1][j] != Empty
      {
        if j == c && k > r {
          SettledAboveEmpty(b, c, r, k);
        }
      }
    }
  }

  /** The top row is full. */
  predicate TopRowFull(b: Grid) {
    forall c :: 0 <= c < Cols ==> !IsLegal(b, c)
  }

  /** Under gravity, a full top row means every cell is occupied. */
  lemma {:induction false} TopRowFullMeansBoardFull(b: Grid)
    requires Settled(b) && TopRowFull(b)
    ensures forall r, c :: InBounds(r, c) ==> b[r][c] != Empty
  {
    forall r, c | InBounds(r, c)
      ensures b[r][c] != Empty
    {
      if b[r][c] == Empty {
        assert ColumnSettled(b, c);
        SettledAboveEmpty(b, c, r, Rows - 1);
        assert IsLegal(b, c);
      }
    }
  }
}
