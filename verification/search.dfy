/**
 Search Engine: depth-limited minimax with alpha-beta pruning over the shared
 board. The AI maximises and the Human minimises one score kept from the AI's
 point of view. `Minimax` is the unpruned search the pruning one must agree
 with; `AlphaBeta` is the pruning search with in-place drop and undo.
 */
module Search {
  import opened Options
  import opened ExtInts
  import opened Backups
  import opened Board
  import opened Win
  import opened Evaluation
  import opened Ordering

  /** Base magnitude of a decided game, 10^11. */
  const WinScore: int := 100000000000

  /** The cell of the move that produced the current position. */
  datatype Move = Move(row: int, col: int)

  /** The side to move: the maximising side is always the AI. */
  function Mover(maximizing: bool): Player {
    if maximizing then AI else Human
  }

  /** The side that made `last` has completed four in a row through it. */
  predicate PreviousMoverWon(b: Grid, maximizing: bool, last: Option<Move>) {
    last.Some? && LocalWin(b, last.value.row, last.value.col, Mover(!maximizing))
  }

  /** A node that is expanded: not decided, not full, not at the horizon. */
  predicate Interior(b: Grid, depth: nat, maximizing: bool, last: Option<Move>) {
    !PreviousMoverWon(b, maximizing, last) && LegalMoves(b) != [] && depth > 0
  }

  /** Unpruned minimax value of a node. */
  function Minimax(b: Grid, depth: nat, maximizing: bool, last: Option<Move>): int
    decreases depth, 2
  {
    if PreviousMoverWon(b, maximizing, last) then
      (if maximizing then -WinScore - depth else WinScore + depth)
    else if LegalMoves(b) == [] then 0
    else if depth == 0 then Evaluate(b, AI)
    else
      var vs := Values(b, depth, maximizing);
      Best(maximizing, vs, |vs|).n
  }

  /** Value of the child reached by playing legal column c. */
  function ChildValue(b: Grid, depth: nat, maximizing: bool, c: int): int
    requires depth >= 1 && 0 <= c < Cols && IsLegal(b, c)
    decreases depth, 0
  {
    var r := LowestEmptyRow(b, c).value;
    Minimax(Drop(b, r, c, Mover(maximizing)), depth - 1, !maximizing, Some(Move(r, c)))
  }

  /** The children's values, one per legal move in centre-first order. */
  function Values(b: Grid, depth: nat, maximizing: bool): seq<int>
    requires depth >= 1
    decreases depth, 1
  {
    var ms := LegalMoves(b);
    seq(|ms|, i requires 0 <= i < |ms| => ChildValue(b, depth, maximizing, ms[i]))
  }

  /** The column unpruned minimax plays at an interior node: the first legal move, in
      centre-first order, whose value is the node's value. */
  function BestColumn(b: Grid, depth: nat, maximizing: bool): int
    requires depth >= 1 && LegalMoves(b) != []
  {
    var vs := Values(b, depth, maximizing);
    LegalMoves(b)[BestIndex(maximizing, vs, |vs|)]
  }

  /** The alpha-beta search of one node. The board is passed in and handed back: every drop
      made while exploring is undone, so the board returned is the board received. Terminal
      and horizon nodes return their value with no column; an expanded node returns one of
      its legal moves. Under a window alpha < beta the value agrees with unpruned minimax in
      the sense of WindowSound: exact inside the window, and on the same side of the window
      outside it. Inside the window the column is also the one unpruned minimax picks. */
  method AlphaBeta(b: Grid, depth: nat, alpha: ExtInt, beta: ExtInt, maximizing: bool, last: Option<Move>)
    returns (col: Option<int>, score: int, after: Grid)
    ensures after == b
    ensures col.Some? <==> Interior(b, depth, maximizing, last)
    ensures col.Some? ==> col.value in LegalMoves(b)
    ensures !Interior(b, depth, maximizing, last) ==> score == Minimax(b, depth, maximizing, last)
    ensures Lt(alpha, beta) ==> WindowSound(alpha, beta, Minimax(b, depth, maximizing, last), score)
    ensures var v := Minimax(b, depth, maximizing, last);
      Lt(alpha, Fin(v)) && Lt(Fin(v), beta) && Interior(b, depth, maximizing, last)
      ==> col == Some(BestColumn(b, depth, maximizing))
    decreases depth, 2
  {
    if last.Some? {
      var r, c := last.value.row, last.value.col;
      if maximizing {
        if LocalWin(b, r, c, Human) {
          return None, -WinScore - depth, b;
        }
      } else {
        if LocalWin(b, r, c, AI) {
          return None, WinScore + depth, b;
        }
      }
    }
    var moves := LegalMoves(b);
    if moves == [] {
      return None, 0, b;
    }
    if depth == 0 {
      score := PositionScore(b, AI);
      return None, score, b;
    }
    var c;
    if maximizing {
      c, score, after := MaxNode(b, depth, alpha, beta);
    } else {
      c, score, after := MinNode(b, depth, alpha, beta);
    }
    col := Some(c);
  }

  /** One step of an expanded node: drop the mover's piece on the lowest empty row of c,
      search the child with the other side to move and (row, c) as the last move, then undo
      the drop. The board comes back unchanged and the value obeys the window. */
  method TryMove(b: Grid, depth: nat, alpha: ExtInt, beta: ExtInt, maximizing: bool, i: nat)
    returns (score: int, after: Grid)
    requires depth >= 1 && i < |LegalMoves(b)|
    ensures after == b
    ensures Lt(alpha, beta) ==> WindowSound(alpha, beta, Values(b, depth, maximizing)[i], score)
    decreases depth, 0
  {
    var c := LegalMoves(b)[i];
    var row := LowestEmptyRow(b, c).value;
    var board := Drop(b, row, c, Mover(maximizing));
    var _, childScore, restored := AlphaBeta(board, depth - 1, alpha, beta, !maximizing, Some(Move(row, c)));
    UndoDropRoundTrip(b, row, c, Mover(maximizing));
    ValuesAt(b, depth, maximizing, i);
    score := childScore;
    after := Undo(restored, row, c);
  }

  /** The i-th child value is the minimax value after playing the i-th legal move. */
  lemma ValuesAt(b: Grid, depth: nat, maximizing: bool, i: nat)
    requires depth >= 1 && i < |LegalMoves(b)|
    ensures Values(b, depth, maximizing)[i] == ChildValue(b, depth, maximizing, LegalMoves(b)[i])
  {
  }

  /** The expansion of a maximising (AI) node: children in centre-first order, each dropped,
      searched and undone, the running best replaced on strict improvement, alpha raised to
      it, and the scan stopped once alpha reaches beta. */
  method MaxNode(b: Grid, depth: nat, alpha: ExtInt, beta: ExtInt) returns (col: int, score: int, after: Grid)
    requires depth >= 1 && LegalMoves(b) != []
    ensures after == b
    ensures col in LegalMoves(b)
    ensures var vs := Values(b, depth, true);
      Lt(alpha, beta) ==> WindowSound(alpha, beta, Best(true, vs, |vs|).n, score)
    ensures var vs := Values(b, depth, true);
      Lt(alpha, Best(true, vs, |vs|)) && Lt(Best(true, vs, |vs|), beta) ==> col == BestColumn(b, depth, true)
    decreases depth, 1
  {
    var moves := LegalMoves(b);
    ghost var vs := Values(b, depth, true);
    assert |vs| == |moves|;
    var board := b;
    var a := alpha;
    var best := NegInf;
    col := moves[0];
    ghost var bi := 0;
    var i := 0;
    var cut := false;
    while i < |moves| && !cut
      invariant 0 <= i <= |moves|
      invariant |vs| == |moves|
      invariant board == b
      invariant a == Max(alpha, best)
      invariant 0 <= bi < |moves| && col == moves[bi]
      invariant i == 0 ==> best == NegInf
      invariant i > 0 ==> best.Fin?
      invariant cut ==> Le(beta, a) && i > 0
      invariant Lt(alpha, beta) && !cut ==> Lt(a, beta)
      invariant Lt(alpha, beta) ==> MaxScanInv(alpha, beta, vs, i, best, bi, cut)
    {
      var c := moves[i];
      var childScore;
      childScore, board := TryMove(board, depth, a, beta, true, i);
      var before := best;
      ghost var biBefore := bi;
      if Lt(best, Fin(childScore)) {
        best := Fin(childScore);
        col := c;
        bi := i;
      }
      MaxAbsorbs(alpha, before, best);
      a := Max(a, best);
      if Le(beta, a) {
        cut := true;
      }
      if Lt(alpha, beta) {
        MaxScanStep(alpha, beta, vs, i, before, biBefore, childScore, best, bi, cut);
      }
      i := i + 1;
    }
    score := best.n;
    after := board;
    if Lt(alpha, beta) {
      MaxScanDone(alpha, beta, vs, i, best, bi, cut);
    }
    ghost var p := Best(true, vs, |vs|);
    if Lt(alpha, p) && Lt(p, beta) {
      LtTrans(alpha, p, beta);
    }
  }

  /** The expansion of a minimising (Human) node, the mirror image of MaxNode: beta is
      lowered to the running best and the scan stops once beta reaches alpha. */
  method MinNode(b: Grid, depth: nat, alpha: ExtInt, beta: ExtInt) returns (col: int, score: int, after: Grid)
    requires depth >= 1 && LegalMoves(b) != []
    ensures after == b
    ensures col in LegalMoves(b)
    ensures var vs := Values(b, depth, false);
      Lt(alpha, beta) ==> WindowSound(alpha, beta, Best(false, vs, |vs|).n, score)
    ensures var vs := Values(b, depth, false);
      Lt(alpha, Best(false, vs, |vs|)) && Lt(Best(false, vs, |vs|), beta) ==> col == BestColumn(b, depth, false)
    decreases depth, 1
  {
    var moves := LegalMoves(b);
    ghost var vs := Values(b, depth, false);
    assert |vs| == |moves|;
    var board := b;
    var bt := beta;
    var best := PosInf;
    col := moves[0];
    ghost var bi := 0;
    var i := 0;
    var cut := false;
    while i < |moves| && !cut
      invariant 0 <= i <= |moves|
      invariant |vs| == |moves|
      invariant board == b
      invariant bt == Min(beta, best)
      invariant 0 <= bi < |moves| && col == moves[bi]
      invariant i == 0 ==> best == PosInf
      invariant i > 0 ==> best.Fin?
      invariant cut ==> Le(bt, alpha) && i > 0
      invariant Lt(alpha, beta) && !cut ==> Lt(alpha, bt)
      invariant Lt(alpha, beta) ==> MinScanInv(alpha, beta, vs, i, best, bi, cut)
    {
      var c := moves[i];
      var childScore;
      childScore, board := TryMove(board, depth, alpha, bt, false, i);
      var before := best;
      ghost var biBefore := bi;
      if Lt(Fin(childScore), best) {
        best := Fin(childScore);
        col := c;
        bi := i;
      }
      MinAbsorbs(beta, before, best);
      bt := Min(bt, best);
      if Le(bt, alpha) {
        cut := true;
      }
      if Lt(alpha, beta) {
        MinScanStep(alpha, beta, vs, i, before, biBefore, childScore, best, bi, cut);
      }
      i := i + 1;
    }
    score := best.n;
    after := board;
    if Lt(alpha, beta) {
      MinScanDone(alpha, beta, vs, i, best, bi, cut);
    }
    ghost var p := Best(false, vs, |vs|);
    if Lt(alpha, p) && Lt(p, beta) {
      LtTrans(alpha, p, beta);
    }
  }

  /** The engine's entry point for the AI's turn: a search from the full window with the AI
      to move and no last move. Its value is the unpruned minimax value and, when there is
      a move to make, its column is the one unpruned minimax picks. */
  method ChooseMove(b: Grid, depth: nat) returns (col: Option<int>, score: int)
    ensures score == Minimax(b, depth, true, None)
    ensures col.Some? <==> LegalMoves(b) != [] && depth > 0
    ensures col.Some? ==> col.value == BestColumn(b, depth, true) && col.value in LegalMoves(b)
  {
    var after;
    col, score, after := AlphaBeta(b, depth, NegInf, PosInf, true, None);
  }

  /** Every minimax value lies within WinScore + depth of 0, and the two extremes are reached
      only at a node whose previous mover has just won: the top by an AI win, the bottom by a
      Human win. Heuristic leaves stay far below WinScore. */
  lemma MinimaxBounds(b: Grid, depth: nat, maximizing: bool, last: Option<Move>)
    ensures -WinScore - depth <= Minimax(b, depth, maximizing, last) <= WinScore + depth
    ensures Minimax(b, depth, maximizing, last) == WinScore + depth
      ==> !maximizing && PreviousMoverWon(b, maximizing, last)
    ensures Minimax(b, depth, maximizing, last) == -WinScore - depth
      ==> maximizing && PreviousMoverWon(b, maximizing, last)
  {
    if Interior(b, depth, maximizing, last) {
      InteriorRange(b, depth, maximizing, last);
    } else {
      LeafBounds(b, depth, maximizing, last);
    }
  }

  /** The value of a node that is not expanded: the decided-game score, 0 for a full board,
      or the heuristic at the horizon. */
  lemma LeafBounds(b: Grid, depth: nat, maximizing: bool, last: Option<Move>)
    requires !Interior(b, depth, maximizing, last)
    ensures -WinScore - depth <= Minimax(b, depth, maximizing, last) <= WinScore + depth
    ensures Minimax(b, depth, maximizing, last) == WinScore + depth
      ==> !maximizing && PreviousMoverWon(b, maximizing, last)
    ensures Minimax(b, depth, maximizing, last) == -WinScore - depth
      ==> maximizing && PreviousMoverWon(b, maximizing, last)
  {
    if !PreviousMoverWon(b, maximizing, last) && LegalMoves(b) != [] {
      EvaluateBounds(b, AI);
    }
  }

  /** The range part of MinimaxBounds, by induction on depth. */
  lemma {:induction false} MinimaxRange(b: Grid, depth: nat, maximizing: bool, last: Option<Move>)
    ensures -WinScore - depth <= Minimax(b, depth, maximizing, last) <= WinScore + depth
    decreases depth, 2
  {
    if Interior(b, depth, maximizing, last) {
      InteriorRange(b, depth, maximizing, last);
    } else {
      LeafBounds(b, depth, maximizing, last);
    }
  }

  /** An expanded node takes the value of one of its children, so it stays strictly inside
      the range of its depth. */
  lemma {:induction false} InteriorRange(b: Grid, depth: nat, maximizing: bool, last: Option<Move>)
    requires Interior(b, depth, maximizing, last)
    ensures -WinScore - depth < Minimax(b, depth, maximizing, last) < WinScore + depth
    decreases depth, 1
  {
    var vs := Values(b, depth, maximizing);
    BestIndexIsFirstOptimum(maximizing, vs, |vs|);
    ChildRange(b, depth, maximizing, BestIndex(maximizing, vs, |vs|));
  }

  /** Every child value lies within the range of the child's depth. */
  lemma ChildRange(b: Grid, depth: nat, maximizing: bool, i: nat)
    requires depth >= 1 && i < |LegalMoves(b)|
    ensures -WinScore - (depth - 1) <= Values(b, depth, maximizing)[i] <= WinScore + depth - 1
    decreases depth, 0
  {
    ValuesAt(b, depth, maximizing, i);
    ChildValueRange(b, depth, maximizing, LegalMoves(b)[i]);
  }

  lemma {:induction false} ChildValueRange(b: Grid, depth: nat, maximizing: bool, c: int)
    requires depth >= 1 && 0 <= c < Cols && IsLegal(b, c)
    ensures -WinScore - (depth - 1) <= ChildValue(b, depth, maximizing, c) <= WinScore + depth - 1
    decreases depth - 1, 3
  {
    var r := LowestEmptyRow(b, c).value;
    MinimaxRange(Drop(b, r, c, Mover(maximizing)), depth - 1, !maximizing, Some(Move(r, c)));
  }

  /** Depth-sensitive outcomes: a decided game found with d plies of search left outranks
      every value a node with less search left can take, so a win found sooner scores
      strictly higher than any later one, and a loss found later strictly higher than any
      sooner one. */
  lemma SoonerOutcomesDominate(b: Grid, depth: nat, maximizing: bool, last: Option<Move>, d: nat)
    requires depth < d
    ensures -WinScore - d < Minimax(b, depth, maximizing, last) < WinScore + d
  {
    MinimaxBounds(b, depth, maximizing, last);
  }

  /** Dropping an AI piece into legal column c completes four in a row through it. */
  predicate WinsAt(b: Grid, c: int) {
    && 0 <= c < Cols
    && IsLegal(b, c)
    && var r := LowestEmptyRow(b, c).value;
       LocalWin(Drop(b, r, c, AI), r, c, AI)
  }

  /** A child of an AI node scores the top value of its depth exactly when its column wins
      on the spot. */
  lemma ChildWinsIff(b: Grid, depth: nat, i: nat)
    requires depth >= 1 && i < |LegalMoves(b)|
    ensures Values(b, depth, true)[i] == WinScore + depth - 1 <==> WinsAt(b, LegalMoves(b)[i])
  {
    ValuesAt(b, depth, true, i);
    ChildValueWinsIff(b, depth, LegalMoves(b)[i]);
  }

  lemma ChildValueWinsIff(b: Grid, depth: nat, c: int)
    requires depth >= 1 && 0 <= c < Cols && IsLegal(b, c)
    ensures ChildValue(b, depth, true, c) == WinScore + depth - 1 <==> WinsAt(b, c)
  {
    var r := LowestEmptyRow(b, c).value;
    MinimaxBounds(Drop(b, r, c, AI), depth - 1, false, Some(Move(r, c)));
  }

  /** When the AI can win on the spot, its node value is the immediate-win score. */
  lemma ImmediateWinValue(b: Grid, depth: nat, last: Option<Move>, c: int)
    requires Interior(b, depth, true, last)
    requires WinsAt(b, c)
    ensures Minimax(b, depth, true, last) == WinScore + depth - 1
  {
    var ms := LegalMoves(b);
    var vs := Values(b, depth, true);
    assert |vs| == |ms|;
    LegalMovesSpec(b);
    var i :| 0 <= i < |ms| && ms[i] == c;
    ChildWinsIff(b, depth, i);
    BestIndexIsFirstOptimum(true, vs, |vs|);
    ChildRange(b, depth, true, BestIndex(true, vs, |vs|));
  }

  /** When the AI can win on the spot, the column minimax picks is an immediately winning
      one: the first winning column in centre-first order. */
  lemma TakesImmediateWin(b: Grid, depth: nat, c: int)
    requires depth >= 1 && LegalMoves(b) != []
    requires WinsAt(b, c)
    ensures WinsAt(b, BestColumn(b, depth, true))
    ensures var vs := Values(b, depth, true);
      forall k :: 0 <= k < BestIndex(true, vs, |vs|) ==> !WinsAt(b, LegalMoves(b)[k])
  {
    var ms := LegalMoves(b);
    var vs := Values(b, depth, true);
    LegalMovesSpec(b);
    var i :| 0 <= i < |ms| && ms[i] == c;
    ChildWinsIff(b, depth, i);
    BestIndexIsFirstOptimum(true, vs, |vs|);
    var j := BestIndex(true, vs, |vs|);
    ChildRange(b, depth, true, j);
    ChildWinsIff(b, depth, j);
    forall k | 0 <= k < j
      ensures !WinsAt(b, ms[k])
    {
      ChildWinsIff(b, depth, k);
    }
  }
}
