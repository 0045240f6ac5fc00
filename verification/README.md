# Connect Four: board and minimax player, modelled in Dafny

This project models the two pure components of a small Connect Four game:

- the **board** (`board.py`): a 6x7 grid of cells, each `Empty`, `P1` or `P2`.
  It supports gravity drops, the legal-move list, fullness, extraction of
  the rows, columns and diagonals, and winner detection by sliding a
  4-cell window along every line;
- the **computer player** (`ai.py`): a depth-bounded minimax search with
  alpha-beta pruning. A win found with `depth` plies left scores
  10000 + depth and a loss scores -10000 - depth. Positions that are not
  decided are scored by an integer heuristic, which adds a centre-column
  bonus to the window scores of every line.

Boards are immutable values. Python's `drop` mutates the board and returns a
flag; `Boards.Drop` instead returns the flag together with the new board, and
`copy()` becomes plain value equality.

The search is written once over an abstract two-player game
(`GameSearch.Game`: moves, play, decided, leaf score) and then instantiated
with the board (`AI.BoardGame`). Because of this, the alpha-beta proofs
(`AlphaBeta`), the tie-break proof (`FirstBest`) and the score bounds
(`ScoreBounds`) do not depend on how the board is represented.

At depth 0, `_minimax` returns no move (ai.py:23-24), so `best_move` always
takes the random fallback there (ai.py:15); `AI.TerminalFallsBack` states this.

A player created without a depth (ai.py:9) is `AI.NewAI`, which gives it
the default depth 4; a player with another depth is `AI.MinimaxAI` itself.

`math.inf` is the extended integer `ExtInts.ExtInt` (`NegInf | Fin(n) | PosInf`).
`ExtInts.Max` and `ExtInts.Min` return their first argument on a tie, as
Python's `max` and `min` do.

Modules, one per file:

| file | module | contents |
|---|---|---|
| option.dfy | Options | `Option` |
| extint.dfy | ExtInts | extended integers, `max`/`min`, clamping |
| board.dfy | Boards | `board.py` |
| lines.dfy | BoardLines | four in a row on the grid vs. windows of the extracted lines |
| heuristic.dfy | Heuristics | `_evaluate_window`, `_score_line`, `_heuristic` |
| search.dfy | GameSearch | `_minimax` with pruning, and plain minimax as reference |
| alphabeta.dfy | AlphaBeta | pruning does not change the root result |
| firstbest.dfy | FirstBest | ties go to the first move tried |
| bounds.dfy | ScoreBounds | score bounds; an immediate win is always chosen |
| ai.dfy | AI | `MinimaxAI`, `best_move`, board-level guarantees |
| scenarios.dfy | Scenarios | the concrete positions checked by the repository's tests |

## Model

| member | source | states |
|---|---|---|
| Boards.EmptyBoard | board.py:16 | a new board has 6 rows of 7 cells, all empty |
| Boards.Drop | board.py:21-28 | the result stays 6x7; the drop succeeds exactly when 0 <= col < 7 and the top cell of the column is empty, so the final `return False` is unreachable; on failure the board is unchanged |
| Boards.DropScan | board.py:24-28 | the bottom-up scan succeeds exactly when some cell at or above the start row is empty, keeps the shape, and changes nothing when it fails |
| Boards.DropScanLands | board.py:24-27 | when every cell below the start row is taken, a successful scan writes the player into the lowest empty cell and leaves every other cell unchanged |
| Boards.DropLands | board.py:21-27 | a successful drop writes the player into the lowest empty cell of the column and changes no other cell |
| Boards.DropKeepsGravity | board.py:21-28 | if pieces are stacked from the bottom in every column before a drop, they still are afterwards |
| Boards.LegalInMembers | board.py:31 | the columns listed for the top row from column c on are exactly the columns >= c whose top cell is empty |
| Boards.LegalInAscending | board.py:31 | the columns listed from column c on are at least c and strictly ascending |
| Boards.LegalMoves | board.py:30-31 | at most 7 legal moves; weaker on its own, the full meaning is `Boards.LegalMovesSpec` |
| Boards.LegalMovesSpec | board.py:30-31 | a column is a legal move exactly when it is in range with an empty top cell, and the list is strictly ascending |
| Boards.IsFull | board.py:33-34 | the board is full exactly when there is no legal move |
| Boards.CountIsMultiplicity | board.py:41 | `list.count` is the multiplicity of the element in the list |
| Boards.CountAll | board.py:41 | the count of x equals the length exactly when every element is x |
| Boards.WindowWinner | board.py:40-42 | a window reports a winner exactly when its four cells all hold the same non-empty piece, and reports that piece |
| Boards.LineWinnerSpec | board.py:39-42 | scanning one line finds a winner exactly when some window of the line is four equal non-empty pieces, and the winner owns such a window |
| Boards.LinesWinnerSpec | board.py:37-43 | scanning all lines returns None exactly when no window of any line is four equal non-empty pieces; otherwise the piece returned owns such a window |
| Boards.Cols | board.py:48-49 | one line per column, 7 in all; that no vertical run is missed is `BoardLines.VerticalRunIsWindow` |
| Boards.DiagsFromLeft | board.py:53-54 | one down-right diagonal per starting row, 6 in all; see `BoardLines.DownRightRunIsWindow` |
| Boards.DiagsFromTop | board.py:55-56 | one down-right diagonal per starting column 1 to 6, 6 in all; see `BoardLines.DownRightRunIsWindow` |
| Boards.AntiDiagsFromRight | board.py:57-58 | one down-left diagonal per starting row, 6 in all; see `BoardLines.DownLeftRunIsWindow` |
| Boards.AntiDiagsFromTop | board.py:59-60 | one down-left diagonal per starting column 0 to 5, 6 in all; see `BoardLines.DownLeftRunIsWindow` |
| Boards.Diagonals | board.py:51-61 | 24 diagonals; that they cover every diagonal run of four is `BoardLines.RunIsWindow` |
| Boards.Lines | board.py:37 | 37 lines; their meaning (a window of four p exactly when p has four in a row) is `BoardLines.LinesMatchGrid` |
| Boards.Winner | board.py:36-43 | weaker: on its own, only that a reported winner is a piece; the full meaning is `BoardLines.WinnerMeansFour` |
| BoardLines.LineCounts | board.py:45-61 | there are 6 rows, 7 columns and 24 diagonals (6 + 6 in each slope direction), 37 lines in all |
| BoardLines.LineAt | board.py:37 | line k of the concatenated list is the matching row, column or diagonal of its family |
| BoardLines.LineLengths | board.py:45-61 | each extracted line has the length of its family (7 for a row, 6 for a column, 6 down to 1 and 1 up to 6 along the diagonals) and none has more than 7 cells |
| BoardLines.RowWindowIsRun | board.py:45-46 | four equal cells in a row line are a horizontal run on the grid |
| BoardLines.ColWindowIsRun | board.py:48-49 | four equal cells in a column line are a vertical run on the grid |
| BoardLines.DiagFromLeftWindowIsRun | board.py:53-54 | four equal cells in a down-right diagonal starting in column 0 are a down-right run on the grid |
| BoardLines.DiagFromTopWindowIsRun | board.py:55-56 | four equal cells in a down-right diagonal starting in row 0 are a down-right run on the grid |
| BoardLines.AntiDiagFromRightWindowIsRun | board.py:57-58 | four equal cells in a down-left diagonal starting in the last column are a down-left run on the grid |
| BoardLines.AntiDiagFromTopWindowIsRun | board.py:59-60 | four equal cells in a down-left diagonal starting in row 0 are a down-left run on the grid |
| BoardLines.WindowIsRun | board.py:37-61 | every window of four equal cells in any extracted line is four in a row on the grid |
| BoardLines.HorizontalRunIsWindow | board.py:45-46 | every horizontal run of four is a window of its row |
| BoardLines.VerticalRunIsWindow | board.py:48-49 | every vertical run of four is a window of its column |
| BoardLines.DownRightRunIsWindow | board.py:53-56 | every down-right run of four is a window of the diagonal that starts in column 0 or in row 0 |
| BoardLines.DownLeftRunIsWindow | board.py:57-60 | every down-left run of four is a window of the anti-diagonal that starts in the last column or in row 0 |
| BoardLines.RunIsWindow | board.py:51-61 | no run of four in any of the four directions is missed by the line extraction |
| BoardLines.LinesMatchGrid | board.py:37-61 | the extracted lines contain four of p in a window exactly when p has four in a row on the grid |
| BoardLines.WinnerMeansFour | board.py:36-43 | `winner` returns p only if p has four in a row, and returns None exactly when neither player has four in a row, full board included |
| ExtInts.Max | ai.py:35 | `max(alpha, eval_)` is an upper bound of both arguments and is one of them |
| ExtInts.Min | ai.py:48 | `min(beta, eval_)` is a lower bound of both arguments and is one of them |
| Heuristics.Opponent | ai.py:41 | the opponent is a piece, and differs from the player when the player is a piece |
| Heuristics.EvaluateWindow | ai.py:70-83 | a window scores 1000 exactly with 4 own pieces, 5 with 3 own and 1 empty, 2 with 2 own and 2 empty, -4 with 3 opponent and 1 empty when no earlier case applies, and otherwise 0 |
| Heuristics.CenterColumn | ai.py:55 | the centre column is the 6 cells of column 3, top to bottom |
| Heuristics.ScoreWindowsIsSum | ai.py:65-68 | the loop of `_score_line` from window i on adds the scores of windows i, i + 1, ... of the line |
| Heuristics.ScoreLine | ai.py:62-68 | `_score_line` adds the score of each 4-cell window of the line exactly once |
| Heuristics.ScoreLinesIsSum | ai.py:58-59 | the line scores summed over all lines are the scores of all their windows |
| Heuristics.Heuristic | ai.py:53-60 | the heuristic is 3 per own piece in the centre column plus the score of every window of every row, column and diagonal; its bounds are `Heuristics.HeuristicBound` |
| Heuristics.WindowsFromCount | board.py:51-61 | lines k to 36 of the extraction hold the expected number of 4-cell windows, from the length of each line |
| Heuristics.WindowCount | ai.py:58-59 | the heuristic scores 69 windows, the number of runs of four on a 6x7 grid |
| Heuristics.WindowScoreSmall | ai.py:70-83 | a window that is not four own pieces scores between -4 and 5 |
| Heuristics.ScoreWindowsBound | ai.py:62-68 | without four own pieces, each window of a line adds between -4 and 5 |
| Heuristics.ScoreLinesBound | ai.py:58-59 | without four own pieces, lines of at most 7 cells score between -4 and 5 per cell |
| Heuristics.HeuristicBound | ai.py:53-60 | on a board nobody has won, the heuristic lies in [-1036, 1313], far inside the win scores |
| GameSearch.Search | ai.py:17-51 | the search returns a finite score; it returns a move exactly when it does not stop, and the move is legal; when it stops, the score is the leaf score |
| GameSearch.MaxLoop | ai.py:27-38 | the maximizing loop never lowers the best score, returns a finite score and a tried move once a move was tried, and otherwise keeps its starting move |
| GameSearch.MinLoop | ai.py:39-51 | the mirror image for the minimizing loop |
| GameSearch.Minimax | ai.py:17-51 | plain minimax, the same search without pruning, has the same guarantees as the pruned search |
| AlphaBeta.SearchWindow | ai.py:35-37 | inside any window alpha < beta, the pruned and the plain search agree after clamping to [alpha, beta] |
| AlphaBeta.MaxLoopWindow | ai.py:29-38 | the pruned and the plain maximizing loops agree after clamping, including when the loop breaks on beta <= alpha |
| AlphaBeta.MinLoopWindow | ai.py:42-51 | the pruned and the plain minimizing loops agree after clamping |
| AlphaBeta.PlainMaxAccBelow | ai.py:29-34 | plain maximizing runs started from any two scores at or below alpha clamp alike |
| AlphaBeta.PlainMinAccAbove | ai.py:42-47 | plain minimizing runs started from any two scores at or above beta clamp alike |
| AlphaBeta.PlainMaxSameAcc | ai.py:33-34 | the maximizing loop's score does not depend on the move it starts with |
| AlphaBeta.PlainMinSameAcc | ai.py:46-47 | the minimizing loop's score does not depend on the move it starts with |
| AlphaBeta.RootLoopAgrees | ai.py:28-38 | at the root (beta = +inf) the pruned loop returns the same score and move as the plain loop |
| AlphaBeta.AlphaBetaMatchesMinimax | ai.py:14 | called with alpha = -inf and beta = +inf, the pruned search returns the same score and root move as plain minimax |
| FirstBest.PlainMaxLoopPicksFirst | ai.py:29-34 | the maximizing loop returns the first move of greatest value, because only a strictly greater score replaces the best |
| FirstBest.PlainMinLoopPicksFirst | ai.py:42-47 | the minimizing loop returns the first move of least value |
| FirstBest.MinimaxPicksFirstBest | ai.py:26-51 | where the search does not stop, it returns the first legal move whose child is best for the side to move, with that child's value |
| ScoreBounds.ValueBounded | ai.py:17-51 | with leaf scores within W + d, every searched value lies within W + depth, and only a stopped position reaches either end |
| ScoreBounds.FirstTopMove | ai.py:29-34 | when the moves reaching the top value are exactly the winning ones, the search returns the first winning move |
| AI.NewAI | ai.py:9-11 | a player created with only a piece keeps that piece and gets the default depth 4 |
| AI.MinimaxSearch | ai.py:17-51 | `_minimax` on the board returns a finite score, a legal move, and no move exactly when the board is won, full or the depth is 0 |
| AI.SearchMove | ai.py:14 | the root search names a legal column, and names none exactly when the search stops at the root |
| AI.BestMove | ai.py:13-15 | `best_move` returns a legal column whenever there is one; it is the search's move when the search names one |
| AI.TerminalScore | ai.py:18-24 | for a player that is a piece, a terminal score lies within 10000 + depth; the exact cases are `AI.TerminalScoring` and `AI.TerminalScoreRange` |
| AI.TerminalScoring | ai.py:18-24 | an own win scores 10000 + depth, an opponent win -10000 - depth, otherwise depth 0 or a full board scores the heuristic; no move in all three cases |
| AI.TerminalFallsBack | ai.py:13-15 | on a won or full board, or at depth 0, the search names no move and `best_move` takes the fallback pick |
| AI.RootSearchIsMinimax | ai.py:14 | the player's root search equals plain minimax over the same boards |
| AI.SearchMoveIsFirstBest | ai.py:26-38 | ties go to the lowest legal column among those whose child has the greatest minimax value |
| AI.TerminalScoreRange | ai.py:18-24 | a stopped search scores within 10000 + depth, reaching +10000 + depth exactly on an own win and -10000 - depth exactly on an opponent win |
| AI.BoardLeafBounded | ai.py:18-24 | every terminal score of the board game lies within 10000 + depth |
| AI.ValueBounds | ai.py:17-51 | every minimax value lies within 10000 + depth, with the top value exactly on an own win and the bottom exactly on an opponent win |
| AI.ChildTopIffWin | ai.py:30-32 | a child of the root reaches the top score one ply down exactly when its move wins at once |
| AI.ChildrenTopIffWin | ai.py:29-32 | the same for every column at once |
| AI.TakesImmediateWin | ai.py:13-38 | when some legal move wins at once, the search plays the lowest winning column |
| Scenarios.FirstDropLandsAtBottom | tests/test_board.py:14-19 | dropping P1 into column 0 of an empty board succeeds and fills row 5 |
| Scenarios.EmptyBoardMoves | tests/test_board.py:21-26 | the legal moves of an empty board are [0, 1, 2, 3, 4, 5, 6] |
| Scenarios.EmptyBoardNoWinner | board.py:36-43 | the empty board has no winner |
| Scenarios.BottomRowWinsForP1 | tests/test_board.py:28-36 | four P1 pieces in the bottom row win for P1 |
| Scenarios.DefaultPlayer | tests/test_ai.py:8-12 | a player created for P2 with no depth given plays P2 and searches 4 plies |
| Scenarios.DefaultPlayerMovesOnEmptyBoard | tests/test_ai.py:14-20 | the default P2 player at depth 4 names a column in range on the empty board |

## Left out

- `cli.py`: the interactive loop, input parsing, logging and messages are I/O.
- `verify.py`, `run_tests.py` and the test files are harnesses, not modelled as code. The assertions of test_board_creation (tests/test_board.py:7-12) are carried by the ensures of `Boards.EmptyBoard`. The assertions of test_ai_creation (tests/test_ai.py:8-12) are carried by `Scenarios.DefaultPlayer`. The other assertions appear as the lemmas in `Scenarios`, except the blocking assertion of tests/test_ai.py:22-34 (see below).
- `Board.__str__` (board.py:63-66) only formats the board for display.
- `random.choice` (ai.py:15): `AI.BestMove` takes a `choice` index from the caller and picks the legal move at `choice` modulo their number.
- `random.choice` on an empty list raises an error in Python. `AI.BestMove` returns `None` instead, so the error path is an explicit result.
- `math.inf` and float comparison: replaced by `ExtInts.ExtInt`, since infinities are only used as initial bounds. No floating point is modelled.
- Python specifics: `IntEnum` integer identity, the `Cell(...)` conversion in `winner`, the dataclass default factory and list aliasing. `copy()` becomes value equality.
- Negative depths: `depth` is a `nat`. The constructor in ai.py accepts any int.
- Boards of another shape: every operation requires the 6x7 shape (`WellShaped`). The search runs on `AI.Grid`, the 6x7 boards. `Boards.Drop` keeps the shape.
- The blocking scenario of tests/test_ai.py:22-34 is not proved: P2 at depth 4 must answer P1's three in the bottom row with column 3. Deciding it means evaluating a 4-ply search over thousands of positions.
- How many nodes pruning skips: only the result of the pruned search is modelled.
- The heuristic returning the same value on repeated calls needs no lemma: `Heuristics.Heuristic` is a function.
- Boards.LegalMoves states only that there are at most 7 legal moves. Its full meaning is `Boards.LegalMovesSpec`.
- Boards.Winner states only that a reported winner is a piece. Its full meaning is `BoardLines.WinnerMeansFour`.
