# Connect-4 alpha-beta engine, modelled in Dafny

This project models the engine class `Connect4AI_Turbo` of a Connect-4 player. Its parts:

- the 6×7 board, where row 0 is the bottom row;
- the legality test, the lowest-free-row scan, and the single-cell drop and undo;
- the local four-in-a-row check around the last piece placed;
- the heuristic position score: a centre-column bonus plus the score of every 4-cell window;
- the centre-first move order;
- the depth-limited minimax search with alpha-beta pruning. The AI maximises and the Human minimises a single score, kept from the AI's point of view.

The search works in place. It drops a piece, recurses, then undoes the drop. The model passes the board in and hands back the board after the search, and proves the two are equal.

Python's `-math.inf` and `math.inf` bounds become the datatype `ExtInts.ExtInt`.

Next to the pruning search `Search.AlphaBeta` sits an unpruned reference search, `Search.Minimax`. It has the same terminal tests, scores and tie-breaking rule, and `Search.BestColumn` is the column it picks. The pruning search is proved to agree with it:

- Under any window alpha < beta, the pruned value is exact inside the window.
- Outside the window, it lies on the same side of the window as the true value.
- Inside the window, the chosen column is also the one minimax picks.
- At the top-level call, with the full window, both value and column are exact.

The engine's functions map to these definitions:

- `Board.IsLegal` is `sprawdz_czy_poprawny_ruch` (lines 28-29), the top-cell test.
- `Win.LocalWin` is `sprawdz_wygrana_lokalna` (lines 43-75). It is a disjunction over the four axes of `Win.LineCount`, which is 1 plus the two capped one-sided scans `Win.Run`.
- `Ordering.SortByDist` is the stable `sorted(range(KOLUMNY), key=lambda k: abs(k - KOLUMNY // 2))` of line 17, written as an insertion sort.
- `Evaluation.Evaluate` is the value `ocena_pozycji` (lines 93-121) computes, written as the centre bonus plus `Evaluation.SumScores` over the list `Evaluation.Windows`.
- `Search.Minimax` is the reference search. It follows `minimax` (lines 129-207) branch for branch but never prunes: win test, then draw test, then the depth-0 evaluation, then the running best over all children.

Files:

| file | contents |
|---|---|
| `option.dfy` | `Option` |
| `board.dfy` | grid, legality, gravity, drop and undo |
| `win.dfy` | local win check |
| `evaluation.dfy` | window score and position score |
| `ordering.dfy` | centre-first order and legal moves |
| `extint.dfy` | integers extended with ±infinity |
| `backup.dfy` | how a node backs up its children's values, and the loop invariants of the pruned scan |
| `search.dfy` | minimax and alpha-beta |

## Model

| member | source | states |
|---|---|---|
| Board.EmptyGridIsOpen | Connect4_AlphaBeta_Agent.py:14 | The starting board obeys gravity, every column is legal, and in every column the first free row is row 0. |
| Board.LowestEmptyRow | Connect4_AlphaBeta_Agent.py:31-35 | A returned row is empty and every row below it is occupied; None is returned exactly when every cell of the column is occupied; a legal column always has a row. |
| Board.LegalIffFreeRow | Connect4_AlphaBeta_Agent.py:28-35 | In a column obeying gravity, the top-cell legality test holds exactly when the scan finds a free row. |
| Board.DropKeepsSettled | Connect4_AlphaBeta_Agent.py:31-38 | Dropping into the lowest free row of a board that obeys gravity leaves a board that obeys gravity. |
| Board.TopRowFullMeansBoardFull | Connect4_AlphaBeta_Agent.py:28-29 | Under gravity, a full top row (no legal move) means every cell is occupied. |
| Board.Drop | Connect4_AlphaBeta_Agent.py:37-38 | The chosen cell holds the piece and every other cell is unchanged. |
| Board.Undo | Connect4_AlphaBeta_Agent.py:40-41 | The chosen cell becomes empty and every other cell is unchanged. |
| Board.UndoDropRoundTrip | Connect4_AlphaBeta_Agent.py:37-41 | Undoing a drop into an empty cell gives back exactly the original board. |
| Board.Opponent | Connect4_AlphaBeta_Agent.py:79 | The opponent is the other player, never the player itself. |
| Win.Run | Connect4_AlphaBeta_Agent.py:58-71 | A one-sided scan from step i adds at most 4 - i cells, so it stops after three steps. |
| Win.RunCovers | Connect4_AlphaBeta_Agent.py:58-71 | A one-sided scan reaches length m exactly when the m cells after (r, c) in that direction are on the board and hold the player. |
| Win.AxisCountIff | Connect4_AlphaBeta_Agent.py:54-74 | One axis counts to 4 or more exactly when some 4-cell segment along it through (r, c) holds the player in every cell other than (r, c). |
| Win.LocalWinIff | Connect4_AlphaBeta_Agent.py:43-75 | The check is true exactly when, on some axis, a 4-cell segment through (r, c) holds the player in every other cell. Cell (r, c) itself is never read. |
| Win.LocalWinDetectsLine | Connect4_AlphaBeta_Agent.py:43-75 | Right after the player's piece lands on (r, c), the check is true exactly when a line of four of that player passes through (r, c). |
| Evaluation.Count | Connect4_AlphaBeta_Agent.py:81-88 | A window count never exceeds the window's length. |
| Evaluation.CountPartition | Connect4_AlphaBeta_Agent.py:79-88 | The counts of the player, the opponent and empty cells in a window add up to its length. |
| Evaluation.WindowScore | Connect4_AlphaBeta_Agent.py:77-91 | A 4-cell window scores one of 100000, 100, 10, -1000 or 0. Each value appears exactly when its condition holds: four own pieces; three own and one empty; two own and two empty; three of the opponent and one empty. |
| Evaluation.Windows | Connect4_AlphaBeta_Agent.py:102-119 | The scan covers 69 windows (24 horizontal, 21 vertical, 12 rising, 12 falling), each of 4 cells. |
| Evaluation.HorizontalAt | Connect4_AlphaBeta_Agent.py:104-107 | Window 4r + c of the scan is the horizontal window at row r starting at column c. |
| Evaluation.VerticalAt | Connect4_AlphaBeta_Agent.py:109-112 | Window 24 + 3c + r is the vertical window of column c starting at row r. |
| Evaluation.DiagonalsAt | Connect4_AlphaBeta_Agent.py:114-119 | Windows 45 + 8r + 2c and 46 + 8r + 2c are the rising and falling diagonals at (r, c), scanned in that order. |
| Evaluation.SumScoresStep | Connect4_AlphaBeta_Agent.py:102-119 | Adding one more window's score to the running sum scores one more window of the scan. |
| Evaluation.SumScoresBounds | Connect4_AlphaBeta_Agent.py:102-119 | A sum over n windows lies between -1000·n and 100000·n. |
| Evaluation.EvaluateBounds | Connect4_AlphaBeta_Agent.py:93-121 | A position score lies between -69000 and 6900018. |
| Evaluation.PositionScore | Connect4_AlphaBeta_Agent.py:93-121 | The loops compute exactly the centre bonus plus the sum of all 69 window scores. |
| Evaluation.AddHorizontals | Connect4_AlphaBeta_Agent.py:103-107 | The horizontal loops add exactly the scores of the 24 horizontal windows. |
| Evaluation.AddVerticals | Connect4_AlphaBeta_Agent.py:108-112 | The vertical loops add exactly the scores of the 21 vertical windows. |
| Evaluation.AddDiagonals | Connect4_AlphaBeta_Agent.py:113-119 | The diagonal loops add exactly the scores of the 24 diagonal windows. |
| Ordering.InsertPermutes | Connect4_AlphaBeta_Agent.py:17 | One insertion step adds exactly one copy of the inserted column. |
| Ordering.SortByDistPermutes | Connect4_AlphaBeta_Agent.py:17 | Sorting by distance from the centre is a permutation of its input. |
| Ordering.ConsCentreSorted | Connect4_AlphaBeta_Agent.py:17 | A column placed in front of a centre-first list that it precedes keeps the list centre-first. |
| Ordering.InsertCentreSorted | Connect4_AlphaBeta_Agent.py:17 | Inserting into a centre-first list keeps it centre-first, with ties left in input order. |
| Ordering.SortByDistCentreSorted | Connect4_AlphaBeta_Agent.py:17 | Sorting increasing columns by distance gives a centre-first order in which equal distances keep the lower column first, as Python's stable sort does. |
| Ordering.SortSevenColumns | Connect4_AlphaBeta_Agent.py:15-17 | Sorting 0..6 by distance from column 3 gives [3, 2, 4, 1, 5, 0, 6]. |
| Ordering.SortedColumnsCover | Connect4_AlphaBeta_Agent.py:17 | The sorted order has 7 entries covering every column. |
| Ordering.ColumnOrder | Connect4_AlphaBeta_Agent.py:15-17 | The visiting order holds each column once, is centre-first, and equals [3, 2, 4, 1, 5, 0, 6]. |
| Ordering.FilterLegal | Connect4_AlphaBeta_Agent.py:126 | Every column the filter keeps is in range and legal. |
| Ordering.FilterLegalMembers | Connect4_AlphaBeta_Agent.py:126 | The filter keeps exactly the legal columns of the order. |
| Ordering.FilterLegalCentreSorted | Connect4_AlphaBeta_Agent.py:126 | Filtering a centre-first order leaves it centre-first. |
| Ordering.FilterKeepsAllLegal | Connect4_AlphaBeta_Agent.py:126 | When every column of the order is legal, the filter returns the order unchanged. |
| Ordering.LegalMoves | Connect4_AlphaBeta_Agent.py:123-126 | Every listed move is a legal column. |
| Ordering.LegalMovesSpec | Connect4_AlphaBeta_Agent.py:123-126 | The list holds exactly the columns whose top cell is empty, each once, in centre-first order. |
| Ordering.NoMovesIffTopRowFull | Connect4_AlphaBeta_Agent.py:148-151 | The move list is empty exactly when the top row is full, which is the draw test. |
| Ordering.OpeningMoves | Connect4_AlphaBeta_Agent.py:14-17 | On the starting board the move list is the whole order [3, 2, 4, 1, 5, 0, 6]. |
| ExtInts.Max | Connect4_AlphaBeta_Agent.py:179 | The result is one of the two arguments and at least both. |
| ExtInts.Min | Connect4_AlphaBeta_Agent.py:204 | The result is one of the two arguments and at most both. |
| ExtInts.MaxAbsorbs | Connect4_AlphaBeta_Agent.py:179 | Raising alpha by a running best that only grows equals raising it once by the final best. |
| ExtInts.MinAbsorbs | Connect4_AlphaBeta_Agent.py:204 | Lowering beta by a running best that only shrinks equals lowering it once by the final best. |
| Backups.Best | Connect4_AlphaBeta_Agent.py:175-176 | The running best stays at its infinite start exactly while no child has been seen, and is finite afterwards. |
| Backups.BestIndexIsFirstOptimum | Connect4_AlphaBeta_Agent.py:159-177 | The running best is the optimum of the values scanned. The column kept is the first child that reaches it: every earlier child is strictly worse. |
| Backups.BestMonotone | Connect4_AlphaBeta_Agent.py:175-177 | The running best never gets worse for the side to move as more children are scanned. |
| Backups.MaxStep | Connect4_AlphaBeta_Agent.py:170-181 | One child of a maximising node, searched under (max(alpha, best), beta), keeps the searched running best related to the exact one. |
| Backups.MinStep | Connect4_AlphaBeta_Agent.py:195-206 | The mirror step for a minimising node under (alpha, min(beta, best)). |
| Backups.MaxScanStep | Connect4_AlphaBeta_Agent.py:175-181 | Updating on strict improvement, raising alpha and cutting off once alpha reaches beta keeps the maximising scan invariant. |
| Backups.MinScanStep | Connect4_AlphaBeta_Agent.py:200-206 | The mirror statement for the minimising scan. |
| Backups.MaxScanDone | Connect4_AlphaBeta_Agent.py:163-182 | After a cut-off or the last child, the maximising value obeys the window, and inside the window the kept column is the first optimal one. |
| Backups.MinScanDone | Connect4_AlphaBeta_Agent.py:188-207 | The mirror statement for a minimising node. |
| Search.AlphaBeta | Connect4_AlphaBeta_Agent.py:129-207 | The board comes back unchanged. A column is returned exactly at an expanded node, and it is a legal move. Terminal and horizon nodes return the minimax value. Under alpha < beta the value is exact inside the window and on the same side of it as minimax's value outside, and inside the window the column is minimax's column. |
| Search.TryMove | Connect4_AlphaBeta_Agent.py:163-173 | Drop, recurse and undo give back the board unchanged, and the child's value obeys the window. |
| Search.MaxNode | Connect4_AlphaBeta_Agent.py:158-182 | A maximising node's value obeys the window, its column is legal and, inside the window, is the first optimal child. The board is restored. |
| Search.MinNode | Connect4_AlphaBeta_Agent.py:184-207 | The mirror statement for a minimising node. |
| Search.ChooseMove | Connect4_AlphaBeta_Agent.py:250 | From the full window with the AI to move, the value is exactly the minimax value. A column is returned exactly when a move exists and depth > 0, and it is the column minimax picks. |
| Search.MinimaxBounds | Connect4_AlphaBeta_Agent.py:136-155 | Every value lies within WinScore + depth of 0, and the extremes occur only where the previous mover has just won (AI for the top, Human for the bottom). |
| Search.LeafBounds | Connect4_AlphaBeta_Agent.py:136-155 | The same bounds at win, draw and horizon nodes. |
| Search.MinimaxRange | Connect4_AlphaBeta_Agent.py:136-207 | Every node value lies within WinScore + depth of 0. |
| Search.InteriorRange | Connect4_AlphaBeta_Agent.py:157-207 | An expanded node's value lies strictly inside ±(WinScore + depth). |
| Search.ChildRange | Connect4_AlphaBeta_Agent.py:163-170 | A child value lies within ±(WinScore + depth - 1). |
| Search.ChildValueRange | Connect4_AlphaBeta_Agent.py:164-170 | The value after dropping into a legal column lies within ±(WinScore + depth - 1). |
| Search.SoonerOutcomesDominate | Connect4_AlphaBeta_Agent.py:141-146 | A decided game found with d plies left outranks every value of a node with fewer plies left, so sooner wins score higher and later losses score higher. |
| Search.ChildWinsIff | Connect4_AlphaBeta_Agent.py:144-170 | Child i of an AI node has the top value for its depth exactly when its column wins on the spot. |
| Search.ChildValueWinsIff | Connect4_AlphaBeta_Agent.py:144-170 | Dropping the AI piece into column c gives the top value exactly when it wins on the spot. |
| Search.ImmediateWinValue | Connect4_AlphaBeta_Agent.py:141-182 | When the AI to move can win on the spot, the node's value is the immediate-win score WinScore + depth - 1. |
| Search.TakesImmediateWin | Connect4_AlphaBeta_Agent.py:158-182 | When the AI can win on the spot, the column minimax picks wins on the spot: the first such column in centre-first order. |

## Left out

- `drukuj_plansze` prints the board and is not modelled.
- `graj` is the interactive loop with console input and is not modelled. The model keeps only its search call at line 250, as `Search.ChooseMove`.
- In `graj`, when the board is full at the AI's turn, the search returns no column and the caller would index the board with it. Because `graj` is not modelled, neither is this path.
- `ZADANIE_3.py` is a separate program and is not part of this model. So are the unused `import copy` and the console messages.
- Python's unbounded integers and `math.inf` are modelled as Dafny `int` and `ExtInts.ExtInt`. No floating-point arithmetic occurs: every finite score is an integer.
- Search.AlphaBeta: the agreement with minimax is stated only for windows with alpha < beta. The engine calls the search only from the full window (-inf, inf), and the recursion passes alpha < beta down.
- Board.LegalIffFreeRow: stated only for columns that obey gravity. On an arbitrary grid the top-cell test and the bottom-up scan can disagree.
- Win.LocalWinIff: the check never reads cell (r, c) and counts it as the placed piece. The model states this, and `Win.LocalWinDetectsLine` adds the stronger form for the case where the piece is really there, which is how the search calls it.
- Mutation of `self.plansza` is modelled by passing the board value in and out. Aliasing of the row lists is not modelled.
