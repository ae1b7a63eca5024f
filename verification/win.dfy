/**
 Win Detector: the local check run right after a piece lands on (r, c). For
 each of the four axes it counts the placed piece plus up to three matching
 cells forward and up to three backward, stopping at the board edge or at the
 first cell not holding the player's piece.
 */
module Win {
  import opened Board

  /** The four axes, in the order the engine scans them. */
  datatype Direction = Horizontal | Vertical | Rising | Falling

  /** Row offset of the s-th step along d (Horizontal is (0,1), Vertical (1,0),
      Rising (1,1), Falling (1,-1)). */
  function RowStep(d: Direction, s: int): int {
    match d
    case Horizontal => 0
    case Vertical => s
    case Rising => s
    case Falling => s
  }

  function ColStep(d: Direction, s: int): int {
    match d
    case Horizontal => s
    case Vertical => 0
    case Rising => s
    case Falling => -s
  }

  /** The cell s steps from (r, c) along d lies on the board and holds p. */
  predicate HoldsAt(b: Grid, r: int, c: int, d: Direction, s: int, p: Player) {
    var nr := r + RowStep(d, s);
    var nc := c + ColStep(d, s);
    InBounds(nr, nc) && b[nr][nc] == p
  }

  function Signed(forward: bool, i: int): int {
    if forward then i else -i
  }

  /** Matching cells met at steps i, i+1, ..., 3 in one sense along d, stopping at the first miss. */
  function Run(b: Grid, r: int, c: int, d: Direction, forward: bool, p: Player, i: nat): (n: nat)
    requires 1 <= i <= 4
    ensures n <= 4 - i
    decreases 4 - i
  {
    if i == 4 then 0
    else if HoldsAt(b, r, c, d, Signed(forward, i), p) then 1 + Run(b, r, c, d, forward, p, i + 1)
    else 0
  }

  /** The count the engine compares with 4 for one axis: the placed piece plus both runs. */
  function LineCount(b: Grid, r: int, c: int, d: Direction, p: Player): int {
    1 + Run(b, r, c, d, true, p, 1) + Run(b, r, c, d, false, p, 1)
  }

  /** The local win check; r and c are unconstrained and every read is guarded. */
  predicate LocalWin(b: Grid, r: int, c: int, p: Player) {
    || LineCount(b, r, c, Horizontal, p) >= 4
    || LineCount(b, r, c, Vertical, p) >= 4
    || LineCount(b, r, c, Rising, p) >= 4
    || LineCount(b, r, c, Falling, p) >= 4
  }

  /** Every cell of the 4-cell segment along d covering offsets -k .. 3-k, except (r, c)
      itself, holds p. */
  predicate SegmentBesides(b: Grid, r: int, c: int, d: Direction, p: Player, k: int) {
    forall s :: -k <= s <= 3 - k && s != 0 ==> HoldsAt(b, r, c, d, s, p)
  }

  /** Every cell of that segment, (r, c) included, holds p. */
  predicate Segment(b: Grid, r: int, c: int, d: Direction, p: Player, k: int) {
    forall s :: -k <= s <= 3 - k ==> HoldsAt(b, r, c, d, s, p)
  }

  /** A run from step i reaches length m exactly when the m cells at steps i .. i+m-1 match. */
  lemma {:induction false} RunCovers(b: Grid, r: int, c: int, d: Direction, forward: bool, p: Player, i: nat, m: nat)
    requires 1 <= i && i + m <= 4
    ensures Run(b, r, c, d, forward, p, i) >= m
        <==> forall s :: i <= s < i + m ==> HoldsAt(b, r, c, d, Signed(forward, s), p)
    decreases m
  {
    if m > 0 {
      RunCovers(b, r, c, d, forward, p, i + 1, m - 1);
    }
  }

  /** One axis reports four in a row exactly when some segment of 4 along it through (r, c)
      is filled with p apart from (r, c). */
  lemma AxisCountIff(b: Grid, r: int, c: int, d: Direction, p: Player)
    ensures LineCount(b, r, c, d, p) >= 4
        <==> exists k :: 0 <= k <= 3 && SegmentBesides(b, r, c, d, p, k)
  {
    var g: int := Run(b, r, c, d, false, p, 1);
    if LineCount(b, r, c, d, p) >= 4 {
      RunCovers(b, r, c, d, false, p, 1, g);
      RunCovers(b, r, c, d, true, p, 1, 3 - g);
      forall s | -g <= s <= 3 - g && s != 0
        ensures HoldsAt(b, r, c, d, s, p)
      {
        if s < 0 {
          assert Signed(false, -s) == s;
        } else {
          assert Signed(true, s) == s;
        }
      }
      assert SegmentBesides(b, r, c, d, p, g);
    }
    if k :| 0 <= k <= 3 && SegmentBesides(b, r, c, d, p, k) {
      forall s | 1 <= s < 1 + k
        ensures HoldsAt(b, r, c, d, Signed(false, s), p)
      {
        assert Signed(false, s) == -s;
      }
      forall s | 1 <= s < 1 + (3 - k)
        ensures HoldsAt(b, r, c, d, Signed(true, s), p)
      {
        assert Signed(true, s) == s;
      }
      RunCovers(b, r, c, d, false, p, 1, k);
      RunCovers(b, r, c, d, true, p, 1, 3 - k);
    }
  }

  /** The local check is true iff along some axis a 4-cell segment through (r, c) holds p in
      every cell other than (r, c); the cell (r, c) itself is never read. */
  lemma LocalWinIff(b: Grid, r: int, c: int, p: Player)
    ensures LocalWin(b, r, c, p)
        <==> exists d, k :: 0 <= k <= 3 && SegmentBesides(b, r, c, d, p, k)
  {
    AxisCountIff(b, r, c, Horizontal, p);
    AxisCountIff(b, r, c, Vertical, p);
    AxisCountIff(b, r, c, Rising, p);
    AxisCountIff(b, r, c, Falling, p);
    if d, k :| 0 <= k <= 3 && SegmentBesides(b, r, c, d, p, k) {
      match d
      case Horizontal =>
      case Vertical =>
      case Rising =>
      case Falling =>
    }
  }

  /** Right after p lands on (r, c), the check is true exactly when a line of four p's
      passes through (r, c). */
  lemma LocalWinDetectsLine(b: Grid, r: int, c: int, p: Player)
    requires InBounds(r, c) && b[r][c] == p
    ensures LocalWin(b, r, c, p) <==> exists d, k :: 0 <= k <= 3 && Segment(b, r, c, d, p, k)
  {
    LocalWinIff(b, r, c, p);
    assert HoldsAt(b, r, c, Horizontal, 0, p) && HoldsAt(b, r, c, Vertical, 0, p);
    assert HoldsAt(b, r, c, Rising, 0, p) && HoldsAt(b, r, c, Falling, 0, p);
    forall d, k | 0 <= k <= 3
      ensures SegmentBesides(b, r, c, d, p, k) <==> Segment(b, r, c, d, p, k)
    {
      assert HoldsAt(b, r, c, d, 0, p);
    }
  }
}
