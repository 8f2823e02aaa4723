# ChessBot search core in Dafny

ChessBot has two hand-written game-tree searches, each with its own static
evaluator. This project models both and proves what their loops compute.

- **minmax.py.** A material-only evaluator, `evaluate_board`. A fail-soft
  alpha-beta `minimax` that plays each move on the python-chess board with
  `push` and takes it back with `pop`. A root driver, `get_best_move`.
- **main.py.** A second evaluator, built from material, 8×8 piece-square
  tables and a mobility bonus. An alpha-beta variant that builds a fresh
  hypothesis board for every move and remembers the best move. Its `break`
  leaves only the inner of two nested loops. The iterative-deepening driver
  `function_for_ai` keeps the last move found.

The chess rules come from external libraries, so they appear only through an
explicit finite game tree:
- In minmax.py, a position has its 64 squares, whether the game is over, and
  its legal moves in generation order. Each move comes with the position it
  leads to.
- In main.py, a board has the piece lists of both colours, the side to move
  and `game_ended`. Each piece has its kind, coordinates, `SCORE_VALUE` and
  allowed moves. Each move comes with its hypothesis board.

Scores are integers extended with the two infinities (`ExtInt`), in place of
the floats `-inf` and `inf`.

The modules follow the source files:
- `Basics`: shared types.
- `MinMaxBoard` and `MinMax`: minmax.py.
- `MainEval` and `MainSearch`: main.py.

### minmax.py

- **Board.** The python-chess board is a class `Board` with three fields:
  the current position, the move stack, and the position each stacked move was
  played from.
- **Searches.** `minimax` and `get_best_move` are methods with loops. Each
  method is proved equal to a function that mirrors its loop. For `minimax`,
  that function is `AlphaBeta` with `MaxLoop` and `MinLoop`.
- **Fail-soft.** `AlphaBeta` is proved fail-soft against plain minimax
  (`MinimaxValue`).
- **Restoration.** Both methods leave the move stack exactly as they found it.

### main.py

- **Form.** The evaluator and the search are imperative methods.
- **Search.** The method is proved equal to `Search`, `PieceLoop` and
  `MoveLoop`. These functions also record every move the loops examined,
  with its score. The model states only what the loops do; it does not claim
  that this variant computes minimax.
- **Scores.** Scores are counted in integer tenths, so that the `* 0.1`
  mobility bonus stays exact.
- **Clock.** The wall clock is a count of the readings that still fall inside
  the time budget (`ticks`). Every in-time reading uses one up, and once none
  are left every reading says time is up. A clock that never goes back
  always answers in this pattern. This also makes the driver loop of
  `function_for_ai` a terminating loop that the model can include.

## Model

| member | source | states |
|---|---|---|
| MinMaxBoard.EvaluateBoard | minmax.py:4-17 | the loop over the 64 squares returns `Material`: the sum over occupied squares of +value for a White piece and -value for a Black one, with P=1, N=B=3, R=5, Q=9, K=1000 and 0 for an empty square |
| MinMaxBoard.MaterialIsWhiteMinusBlack | minmax.py:6-17 | the score is White's total piece value minus Black's |
| MinMaxBoard.FlipNegatesMaterial | minmax.py:15-16 | changing the colour of every piece negates the score |
| MinMaxBoard.Board.Push | minmax.py:29 | `push` makes the move's position current, stacks the move and saves the position it was played from, and keeps the stack consistent |
| MinMaxBoard.Board.Pop | minmax.py:31 | `pop` returns the last move, restores the saved position and unstacks both |
| MinMax.Minimax | minmax.py:20-47 | the result is `AlphaBeta` of the position searched; at depth 0 or in a finished game it is exactly the evaluation; for alpha < beta it is fail-soft with respect to the minimax value; the board, its move stack and its saved positions are as before |
| MinMax.MaximizingBranch | minmax.py:26-36 | the loop with its push/pop pairs returns `MaxLoop` from the first move with max_eval = -inf, and leaves the board as it was |
| MinMax.MinimizingBranch | minmax.py:37-47 | the mirror loop returns `MinLoop` from the first move with min_eval = +inf, and leaves the board as it was |
| MinMax.AlphaBetaFailSoft | minmax.py:26-47 | for alpha < beta and minimax value v: the result is v when alpha < v < beta; v <= result <= alpha when v <= alpha; beta <= result <= v when v >= beta |
| MinMax.MaxLoopFailSoft | minmax.py:28-35 | from any point of the maximising loop, max_eval stays fail-soft with respect to the maximum of the children's values, for the original window |
| MinMax.MinLoopFailSoft | minmax.py:39-46 | the same for the minimising loop and the minimum of the children's values |
| MinMax.FullWindowIsExact | minmax.py:54-58 | searched with the full window (-inf, +inf) that the root never narrows, a move gets its exact minimax value |
| MinMax.CutoffBoundsResult | minmax.py:33-46 | when the loop stops before the last move, a maximising node has failed high (result >= beta) and a minimising node has failed low (result <= alpha) |
| MinMax.OnlyExaminedMovesMatter | minmax.py:33-46 | moves after the one that closes the window are never looked at: changing or adding moves after the examined ones changes neither the result nor the number of moves examined |
| MinMax.RootChoiceIsFirstMaximum | minmax.py:52-65 | the root loop keeps a score at least every move's score, and the first move reaching it with strict `>`; it keeps no move exactly when every score is -inf, in particular when there are no legal moves |
| MinMax.RootChoiceIsMinimaxValue | minmax.py:56-63 | the root maximises whichever side is to move: the kept score is the minimax value of the root for the maximiser |
| MinMax.WellFormedValueIsFinite | minmax.py:20-47 | in a tree where only finished games lack legal moves, every minimax value is finite |
| MinMax.BestRootMoveFindsMove | minmax.py:52-65 | in such a tree `get_best_move` returns None exactly when there is no legal move |
| MinMax.GetBestMove | minmax.py:50-65 | returns the first move with the strictly greatest minimax score, each move searched with the full window, and leaves the board, its move stack and its saved positions as before |
| MainEval.TablesBounded | main.py:10-84 | every entry of the five tables filed under piece classes, and of the king's table filed under `Check`, lies in -50 .. 50 |
| MainEval.PositionBonus | main.py:77-84 | the bonus is the entry at `[y][x]` of the table filed under the piece's class, at most 50 in size, and the same table serves both colours; a king gets 0, because its table is filed under `Check` (see "Left out") |
| MainEval.EvaluateBoard | main.py:87-103 | the two loops return `Evaluation`: Black's summed worth minus White's, where a piece's worth is material, table bonus and mobility, in tenths |
| MainEval.AddedPieceShiftsEvaluation | main.py:88-101 | adding a White piece anywhere in its list lowers the score by its worth, and adding a Black piece raises it by its worth |
| MainSearch.Search | main.py:108-153 | a call never turns the clock back; a call made with time left uses at least one reading |
| MainSearch.Minimax | main.py:108-153 | returns the score, best move and clock of `Search`; on timeout, at depth 0 or in an ended game it returns the evaluation and None |
| MainSearch.MaximizingBranch | main.py:119-135 | the nested piece and move loops, raising alpha and breaking only the inner loop, return `PieceLoop` from the first piece with max_eval = -inf and best_move = None |
| MainSearch.MinimizingBranch | main.py:137-153 | the mirror loops, lowering beta, return `PieceLoop` from the first piece with min_eval = +inf and best_move = None |
| MainSearch.RecordKeepsBest | main.py:127-131 | keeping a move only when it is strictly better keeps the best score and the earliest move reaching it, or None while the score is still -inf (resp. +inf) |
| MainSearch.SearchReturnsBestExamined | main.py:119-153 | at every node that is searched rather than evaluated, the score is the maximum (resp. minimum) of the examined moves' scores, each of which is what its child search `minimax(hypo_board, depth - 1, alpha, beta, not maximizing)` returned; the move returned is the earliest examined move reaching it, or None while the score is still -inf (resp. +inf), and with none examined the result is (-inf, None) resp. (+inf, None) |
| MainSearch.ExaminedInGenerationOrder | main.py:119-153 | an evaluated node examines no move; at a searched node the examined moves are exactly the moves the loops visit: the first is the first move of the first piece with moves, searched with the node's own window; each next one is searched with the window the previous one left, and is the same piece's next move while that window is open, otherwise the first move of the next piece with moves once the previous piece's moves ran out or the window closed; after the last one no piece with moves remains; each examined move is a child search whose score it records, the first searched with the clock left after the node's own reading, each next one with the clock the previous child left, and the node returns the clock the last child left |
| MainSearch.ExaminedAreChildSearches | main.py:111-153 | at a searched node, every examined move's score is the score of its child search, with the move's hypothesis board, depth - 1, the opposite role, the window and the clock it was searched with; the first child gets the clock after the node's own reading, each next child the clock the previous one left, and the node returns the clock the last one left |
| MainSearch.HandoverIsStepwise | main.py:121-133 | the clock handover, read step by step: the first step's clock, each next step's clock as the previous child's remaining clock, and each score as its child's score |
| MainSearch.MoveLoopHandover | main.py:122-133 | the inner loop records each child search's score and hands its remaining clock to the next move |
| MainSearch.PieceLoopHandover | main.py:121-133 | the outer loop keeps that handover across pieces |
| MainSearch.ChainIsStepwise | main.py:121-133 | the visit order, read step by step: every examined move is a move of its piece, the first is searched with the node's window, and each step follows the one before |
| MainSearch.MoveLoopInOrder | main.py:122-133 | the inner loop, entered at a piece or after an earlier move of it that left the window open, leaves the piece after its last move or after the move that closed the window |
| MainSearch.PieceLoopInOrder | main.py:121-133 | the outer loop visits every remaining piece in list order and ends after the last one |
| MainSearch.MoveLoopExtends | main.py:122-133 | the inner loop only appends to the examined moves |
| MainSearch.PieceLoopExtends | main.py:121-133 | the outer loop only appends to the examined moves |
| MainSearch.ClosedWindowOneMovePerPiece | main.py:121-133 | once beta <= alpha the window stays closed, and every remaining piece with a move has exactly its first move examined |
| MainSearch.ExpiredMovesScoreStatically | main.py:111-153 | expiry does not stop the loops: at any node, the clock readings the examined moves were searched with never go up, and every move examined once no reading was left, cutoffs included, is scored by the evaluation of its hypothesis board |
| MainSearch.FunctionForAi | main.py:163-180 | the returned move is the one the pass sequence `Rounds` retains, and the depth reported as searched is the number of passes |
| MainSearch.RoundsDeepenByOne | main.py:180 | the search depth grows by exactly one per pass |
| MainSearch.RetainedIsLastFound | main.py:177-178 | the kept move is the move found by the last pass that found one, and None only when no pass found a move |

## Left out

- The pygame GUI and the code run on import (main.py:1-3, 188-192) are user interface, not search.
- How python-chess and pygame_chess_api generate the moves of a position or a piece, decide that a game is over, build hypothesis boards, and push and pop moves is not modelled. The explicit game tree gives those answers instead.
- MainSearch.Minimax: reads of `time.time()` are the `ticks` count. The 10-second budget `MAX_TIME` and real durations are not modelled. The count assumes that `time.time()` never goes back; a wall clock that is set back during a search could report time left again after reporting time up, which the model and `ClockRuns` do not allow.
- MainEval.EvaluateBoard: scores are in tenths, 10 × (material + table bonus) + number of moves. This equals ten times the source's score, except for the floating-point rounding of `* 0.1`, which is not modelled.
- The `SCORE_VALUE` constants of the library's piece classes are not given, so each piece carries its own value. It is taken to be an integer; only then is the score in tenths exactly ten times the source's score.
- minmax.py's default `depth=4` and main.py's unused `MAX_DEPTH` are not modelled; depth is a parameter.
- The caller's move through `best_move.piece.move(best_move)` and the `print` in `function_for_ai` (main.py:182-185) are not modelled, because they are side effects after the search.
- MainEval.PositionBonus: assumes that the library's `Check` class is the class of no piece, so that the king's table is never looked up. If `Check` were the king's class, every king's worth would also include its king-table entry.
- In `function_for_ai`, `if move:` is modelled as "a move was found": the library's move objects are taken to be truthy.
- calcElo.py drives a Stockfish process and computes Elo in floating point; test.py's fixtures depend on the real chess rules. Neither is part of this model.
- Aliasing of the python-chess board is not modelled: the board stands alone, and other references to the same python-chess board object are not modelled.
