/**
 Positional Evaluator: the static score of a board for one player, used at the
 search horizon. It is a centre-column bonus plus the sum of a fixed window
 score over all 69 windows of four consecutive cells (24 horizontal,
 21 vertical, 12 rising and 12 falling diagonal).
 */
module Evaluation {
  import opened Board

  /** Occurrences of x in w. */
  function Count(w: seq<Cell>, x: Cell): (n: nat)
    ensures n <= |w|
  {
    if w == [] then 0 else Count(w[..|w| - 1], x) + (if w[|w| - 1] == x then 1 else 0)
  }

  /** Every cell holds exactly one of Empty, p and p's opponent. */
  lemma {:induction false} CountPartition(w: seq<Cell>, p: Player)
    ensures Count(w, p) + Count(w, Opponent(p)) + Count(w, Empty) == |w|
  {
    if w != [] {
      CountPartition(w[..|w| - 1], p);
    }
  }

  /** The window table: 4 own pieces 100000, 3 own and 1 empty 100, 2 own and 2 empty 10,
      minus 1000 when the opponent has 3 and 1 is empty. On a window of four cells at most
      one of these rows applies. */
  function WindowScore(w: seq<Cell>, p: Player): (score: int)
    ensures |w| == 4 ==> score in {-1000, 0, 10, 100, 100000}
    ensures |w| == 4 ==> (score == 100000 <==> Count(w, p) == 4)
    ensures |w| == 4 ==> (score == 100 <==> Count(w, p) == 3 && Count(w, Empty) == 1)
    ensures |w| == 4 ==> (score == 10 <==> Count(w, p) == 2 && Count(w, Empty) == 2)
    ensures |w| == 4 ==> (score == -1000 <==> Count(w, Opponent(p)) == 3 && Count(w, Empty) == 1)
  {
    CountPartition(w, p);
    var own := Count(w, p);
    var empty := Count(w, Empty);
    var bonus :=
      if own == 4 then 100000
      else if own == 3 && empty == 1 then 100
      else if own == 2 && empty == 2 then 10
      else 0;
    var penalty := if Count(w, Opponent(p)) == 3 && empty == 1 then 1000 else 0;
    bonus - penalty
  }

  /** Column c read bottom-up. */
  function Column(b: Grid, c: int): seq<Cell>
    requires 0 <= c < Cols
  {
    seq(Rows, r requires 0 <= r < Rows => b[r][c])
  }

  function HorizontalWindow(b: Grid, r: int, c: int): seq<Cell>
    requires 0 <= r < Rows && 0 <= c <= Cols - 4
  {
    b[r][c..c + 4]
  }

  function VerticalWindow(b: Grid, r: int, c: int): seq<Cell>
    requires 0 <= r <= Rows - 4 && 0 <= c < Cols
  {
    Column(b, c)[r..r + 4]
  }

  function RisingWindow(b: Grid, r: int, c: int): seq<Cell>
    requires 0 <= r <= Rows - 4 && 0 <= c <= Cols - 4
  {
    seq(4, i requires 0 <= i < 4 => b[r + i][c + i])
  }

  function FallingWindow(b: Grid, r: int, c: int): seq<Cell>
    requires 0 <= r <= Rows - 4 && 0 <= c <= Cols - 4
  {
    seq(4, i requires 0 <= i < 4 => b[r + 3 - i][c + i])
  }

  /** The 69 windows in the order the evaluator visits them: rows, then columns, then the
      rising/falling diagonal pair of each 4x4 block. */
  function Windows(b: Grid): (ws: seq<seq<Cell>>)
    ensures |ws| == 69
    ensures forall k :: 0 <= k < |ws| ==> |ws[k]| == 4
  {
    seq(24, k requires 0 <= k < 24 => HorizontalWindow(b, k / 4, k % 4))
    + seq(21, k requires 0 <= k < 21 => VerticalWindow(b, k % 3, k / 3))
    + seq(24, k requires 0 <= k < 24 =>
        if k % 2 == 0 then RisingWindow(b, k / 8, (k / 2) % 4)
        else FallingWindow(b, k / 8, (k / 2) % 4))
  }

  function SumScores(ws: seq<seq<Cell>>, p: Player): int {
    if ws == [] then 0 else SumScores(ws[..|ws| - 1], p) + WindowScore(ws[|ws| - 1], p)
  }

  function CenterBonus(b: Grid, p: Player): int {
    3 * Count(Column(b, Cols / 2), p)
  }

  /** The static score of b for p. */
  function Evaluate(b: Grid, p: Player): int {
    CenterBonus(b, p) + SumScores(Windows(b), p)
  }

  /** A sum of n four-cell window scores lies between -1000 n and 100000 n. */
  lemma {:induction false} SumScoresBounds(ws: seq<seq<Cell>>, p: Player)
    requires forall k :: 0 <= k < |ws| ==> |ws[k]| == 4
    ensures -1000 * |ws| <= SumScores(ws, p) <= 100000 * |ws|
  {
    if ws != [] {
      SumScoresBounds(ws[..|ws| - 1], p);
    }
  }

  /** The static score stays within -69 * 1000 and 18 + 69 * 100000. */
  lemma EvaluateBounds(b: Grid, p: Player)
    ensures -69000 <= Evaluate(b, p) <= 18 + 6900000
  {
    SumScoresBounds(Windows(b), p);
  }

  lemma HorizontalAt(b: Grid, r: int, c: int)
    requires 0 <= r < Rows && 0 <= c <= Cols - 4
    ensures Windows(b)[4 * r + c] == HorizontalWindow(b, r, c)
  {
    var k := 4 * r + c;
    assert k / 4 == r && k % 4 == c;
  }

  lemma VerticalAt(b: Grid, r: int, c: int)
    requires 0 <= r <= Rows - 4 && 0 <= c < Cols
    ensures Windows(b)[24 + 3 * c + r] == VerticalWindow(b, r, c)
  {
    var k := 3 * c + r;
    assert k / 3 == c && k % 3 == r;
  }

  lemma DiagonalsAt(b: Grid, r: int, c: int)
    requires 0 <= r <= Rows - 4 && 0 <= c <= Cols - 4
    ensures Windows(b)[45 + 8 * r + 2 * c] == RisingWindow(b, r, c)
    ensures Windows(b)[46 + 8 * r + 2 * c] == FallingWindow(b, r, c)
  {
    var k := 8 * r + 2 * c;
    assert k % 2 == 0 && k / 8 == r && (k / 2) % 4 == c;
    assert (k + 1) % 2 == 1 && (k + 1) / 8 == r && ((k + 1) / 2) % 4 == c;
  }

  lemma SumScoresStep(ws: seq<seq<Cell>>, n: nat, p: Player)
    requires n < |ws|
    ensures SumScores(ws[..n + 1], p) == SumScores(ws[..n], p) + WindowScore(ws[n], p)
  {
    assert ws[..n + 1][..n] == ws[..n];
  }

  /** The evaluator as the engine runs it: the centre bonus, then one nested loop per window
      family, adding each window's score to the running total. The total is the centre bonus
      plus the sum over all 69 windows; EvaluateBounds bounds it. */
  method PositionScore(b: Grid, p: Player) returns (score: int)
    ensures score == Evaluate(b, p)
  {
    var center := Column(b, Cols / 2);
    score := Count(center, p) * 3;
    assert Windows(b)[..0] == [];
    score := AddHorizontals(b, p, score);
    score := AddVerticals(b, p, score);
    score := AddDiagonals(b, p, score);
    assert Windows(b)[..69] == Windows(b);
  }

  /** The horizontal windows, row by row from the bottom, each row left to right. */
  method AddHorizontals(b: Grid, p: Player, start: int) returns (score: int)
    requires start == CenterBonus(b, p) + SumScores(Windows(b)[..0], p)
    ensures score == CenterBonus(b, p) + SumScores(Windows(b)[..24], p)
  {
    var ws := Windows(b);
    score := start;
    var n := 0;
    for r := 0 to Rows
      invariant n == 4 * r
      invariant score == CenterBonus(b, p) + SumScores(ws[..n], p)
    {
      var row := b[r];
      for c := 0 to Cols - 3
        invariant n == 4 * r + c
        invariant score == CenterBonus(b, p) + SumScores(ws[..n], p)
      {
        HorizontalAt(b, r, c);
        SumScoresStep(ws, n, p);
        score := score + WindowScore(row[c..c + 4], p);
        n := n + 1;
      }
    }
  }

  /** The vertical windows, column by column from the left, each column bottom to top. */
  method AddVerticals(b: Grid, p: Player, start: int) returns (score: int)
    requires start == CenterBonus(b, p) + SumScores(Windows(b)[..24], p)
    ensures score == CenterBonus(b, p) + SumScores(Windows(b)[..45], p)
  {
    var ws := Windows(b);
    score := start;
    var n := 24;
    for c := 0 to Cols
      invariant n == 24 + 3 * c
      invariant score == CenterBonus(b, p) + SumScores(ws[..n], p)
    {
      var col := Column(b, c);
      for r := 0 to Rows - 3
        invariant n == 24 + 3 * c + r
        invariant score == CenterBonus(b, p) + SumScores(ws[..n], p)
      {
        VerticalAt(b, r, c);
        SumScoresStep(ws, n, p);
        score := score + WindowScore(col[r..r + 4], p);
        n := n + 1;
      }
    }
  }

  /** The diagonal windows by lower-left anchor, the rising window of each anchor before its
      falling one. */
  method AddDiagonals(b: Grid, p: Player, start: int) returns (score: int)
    requires start == CenterBonus(b, p) + SumScores(Windows(b)[..45], p)
    ensures score == CenterBonus(b, p) + SumScores(Windows(b)[..69], p)
  {
    var ws := Windows(b);
    score := start;
    var n := 45;
    for r := 0 to Rows - 3
      invariant n == 45 + 8 * r
      invariant score == CenterBonus(b, p) + SumScores(ws[..n], p)
    {
      for c := 0 to Cols - 3
        invariant n == 45 + 8 * r + 2 * c
        invariant score == CenterBonus(b, p) + SumScores(ws[..n], p)
      {
        var rising := seq(4, i requires 0 <= i < 4 => b[r + i][c + i]);
        DiagonalsAt(b, r, c);
        assert ws[n] == rising;
        SumScoresStep(ws, n, p);
        score := score + WindowScore(rising, p);
        n := n + 1;
        var falling := seq(4, i requires 0 <= i < 4 => b[r + 3 - i][c + i]);
        assert ws[n] == falling;
        SumScoresStep(ws, n, p);
        score := score + WindowScore(falling, p);
        n := n + 1;
      }
    }
  }
}
