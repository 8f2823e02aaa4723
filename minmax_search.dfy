/** minmax.py's search: `minimax`, a fail-soft alpha-beta search that plays and
    takes back moves on the board, and the root driver `get_best_move`.

    AlphaBeta, MaxLoop and MinLoop describe the values the search computes, loop
    by loop; MinimaxValue is plain minimax without pruning, the reference the
    search is proved against. */
module MinMax {
  import opened Basics
  import opened MinMaxBoard

  /** The static score of a position, as a search value. */
  function Static(p: Position): ExtInt {
    Fin(Material(p.placement))
  }

  /** Plain minimax to the given depth. A negative depth never reaches 0, so
      the tree is then searched to its end. */
  function MinimaxValue(p: Position, depth: int, maximizing: bool): ExtInt
    decreases p, 1
  {
    if depth == 0 || p.gameOver then Static(p)
    else ChildrenValue(p, 0, depth, maximizing)
  }

  /** The best of the minimax values of the children from the i-th on, for the
      side to move: the maximum for the maximising side, the minimum
      otherwise; -inf resp. +inf when there are none. */
  function ChildrenValue(p: Position, i: nat, depth: int, maximizing: bool): ExtInt
    requires i <= |p.legal|
    decreases p, 0, |p.legal| - i
  {
    if i == |p.legal| then (if maximizing then NegInf else PosInf)
    else
      var v := MinimaxValue(p.legal[i].result, depth - 1, !maximizing);
      var rest := ChildrenValue(p, i + 1, depth, maximizing);
      if maximizing then Max(v, rest) else Min(v, rest)
  }

  /** The value `minimax(board, depth, alpha, beta, maximizing_player)` returns. */
  function AlphaBeta(p: Position, depth: int, alpha: ExtInt, beta: ExtInt, maximizing: bool): ExtInt
    decreases p, 1
  {
    if depth == 0 || p.gameOver then Static(p)
    else if maximizing then MaxLoop(p, 0, depth, alpha, beta, NegInf)
    else MinLoop(p, 0, depth, alpha, beta, PosInf)
  }

  /** The maximising loop from the i-th move on, with the current alpha and
      max_eval. */
  function MaxLoop(p: Position, i: nat, depth: int, alpha: ExtInt, beta: ExtInt, maxEval: ExtInt): ExtInt
    requires i <= |p.legal|
    decreases p, 0, |p.legal| - i
  {
    if i == |p.legal| then maxEval
    else
      var e := AlphaBeta(p.legal[i].result, depth - 1, alpha, beta, false);
      if Le(beta, Max(alpha, e)) then Max(maxEval, e)
      else MaxLoop(p, i + 1, depth, Max(alpha, e), beta, Max(maxEval, e))
  }

  /** The minimising loop from the i-th move on, with the current beta and
      min_eval. */
  function MinLoop(p: Position, i: nat, depth: int, alpha: ExtInt, beta: ExtInt, minEval: ExtInt): ExtInt
    requires i <= |p.legal|
    decreases p, 0, |p.legal| - i
  {
    if i == |p.legal| then minEval
    else
      var e := AlphaBeta(p.legal[i].result, depth - 1, alpha, beta, true);
      if Le(Min(beta, e), alpha) then Min(minEval, e)
      else MinLoop(p, i + 1, depth, alpha, Min(beta, e), Min(minEval, e))
  }

  /** How many moves the node's loop plays before it returns. */
  function Examined(p: Position, depth: int, alpha: ExtInt, beta: ExtInt, maximizing: bool): (n: nat)
    ensures n <= |p.legal|
  {
    if depth == 0 || p.gameOver then 0
    else if maximizing then MaxExamined(p, 0, depth, alpha, beta)
    else MinExamined(p, 0, depth, alpha, beta)
  }

  function MaxExamined(p: Position, i: nat, depth: int, alpha: ExtInt, beta: ExtInt): (n: nat)
    requires i <= |p.legal|
    ensures i <= n <= |p.legal|
    ensures i < |p.legal| ==> i < n
    decreases |p.legal| - i
  {
    if i == |p.legal| then i
    else
      var e := AlphaBeta(p.legal[i].result, depth - 1, alpha, beta, false);
      if Le(beta, Max(alpha, e)) then i + 1
      else MaxExamined(p, i + 1, depth, Max(alpha, e), beta)
  }

  function MinExamined(p: Position, i: nat, depth: int, alpha: ExtInt, beta: ExtInt): (n: nat)
    requires i <= |p.legal|
    ensures i <= n <= |p.legal|
    ensures i < |p.legal| ==> i < n
    decreases |p.legal| - i
  {
    if i == |p.legal| then i
    else
      var e := AlphaBeta(p.legal[i].result, depth - 1, alpha, beta, true);
      if Le(Min(beta, e), alpha) then i + 1
      else MinExamined(p, i + 1, depth, alpha, Min(beta, e))
  }

  /** The fail-soft relation between a search result r and the true value v
      for the window (alpha, beta). */
  predicate FailSoft(r: ExtInt, v: ExtInt, alpha: ExtInt, beta: ExtInt) {
    (Lt(alpha, v) && Lt(v, beta) ==> r == v) &&
    (Le(v, alpha) ==> Le(v, r) && Le(r, alpha)) &&
    (Le(beta, v) ==> Le(beta, r) && Le(r, v))
  }

  /** One step of the maximising loop keeps the fail-soft relation between
      max_eval and the maximum of the children seen so far. */
  lemma FailSoftMaxStep(best: ExtInt, seen: ExtInt, e: ExtInt, v: ExtInt, alpha0: ExtInt, beta: ExtInt)
    requires Lt(alpha0, beta) && Lt(Max(alpha0, best), beta)
    requires FailSoft(best, seen, alpha0, beta)
    requires FailSoft(e, v, Max(alpha0, best), beta)
    ensures FailSoft(Max(best, e), Max(seen, v), alpha0, beta)
  {
  }

  lemma FailSoftMinStep(best: ExtInt, seen: ExtInt, e: ExtInt, v: ExtInt, alpha: ExtInt, beta0: ExtInt)
    requires Lt(alpha, beta0) && Lt(alpha, Min(beta0, best))
    requires FailSoft(best, seen, alpha, beta0)
    requires FailSoft(e, v, alpha, Min(beta0, best))
    ensures FailSoft(Min(best, e), Min(seen, v), alpha, beta0)
  {
  }

  /** Fail-soft correctness of the search: for alpha < beta, a true value
      inside the window is returned exactly, and one outside it is bounded on
      the side of the window it falls on. */
  lemma {:induction false} AlphaBetaFailSoft(p: Position, depth: int, alpha: ExtInt, beta: ExtInt, maximizing: bool)
    requires Lt(alpha, beta)
    ensures FailSoft(AlphaBeta(p, depth, alpha, beta, maximizing), MinimaxValue(p, depth, maximizing), alpha, beta)
    decreases p, 1
  {
    if depth == 0 || p.gameOver {
    } else if maximizing {
      MaxLoopFailSoft(p, 0, depth, alpha, alpha, beta, NegInf, NegInf);
    } else {
      MinLoopFailSoft(p, 0, depth, alpha, beta, beta, PosInf, PosInf);
    }
  }

  /** The maximising loop from move i: alpha is the window's original lower
      edge raised to max_eval, and max_eval is fail-soft for `seen`, the
      maximum of the true values of the moves before i. */
  lemma {:induction false} MaxLoopFailSoft(p: Position, i: nat, depth: int, alpha0: ExtInt, alpha: ExtInt,
                                           beta: ExtInt, best: ExtInt, seen: ExtInt)
    requires i <= |p.legal| && depth != 0 && !p.gameOver
    requires Lt(alpha0, beta) && alpha == Max(alpha0, best) && Lt(alpha, beta)
    requires FailSoft(best, seen, alpha0, beta)
    ensures FailSoft(MaxLoop(p, i, depth, alpha, beta, best), Max(seen, ChildrenValue(p, i, depth, true)), alpha0, beta)
    decreases p, 0, |p.legal| - i
  {
    if i < |p.legal| {
      var child := p.legal[i].result;
      var e := AlphaBeta(child, depth - 1, alpha, beta, false);
      var v := MinimaxValue(child, depth - 1, false);
      AlphaBetaFailSoft(child, depth - 1, alpha, beta, false);
      FailSoftMaxStep(best, seen, e, v, alpha0, beta);
      var rest := ChildrenValue(p, i + 1, depth, true);
      assert Max(seen, ChildrenValue(p, i, depth, true)) == Max(Max(seen, v), rest);
      if !Le(beta, Max(alpha, e)) {
        MaxLoopFailSoft(p, i + 1, depth, alpha0, Max(alpha, e), beta, Max(best, e), Max(seen, v));
      }
    }
  }

  /** The mirror image of MaxLoopFailSoft for the minimising loop. */
  lemma {:induction false} MinLoopFailSoft(p: Position, i: nat, depth: int, alpha: ExtInt, beta0: ExtInt,
                                           beta: ExtInt, best: ExtInt, seen: ExtInt)
    requires i <= |p.legal| && depth != 0 && !p.gameOver
    requires Lt(alpha, beta0) && beta == Min(beta0, best) && Lt(alpha, beta)
    requires FailSoft(best, seen, alpha, beta0)
    ensures FailSoft(MinLoop(p, i, depth, alpha, beta, best), Min(seen, ChildrenValue(p, i, depth, false)), alpha, beta0)
    decreases p, 0, |p.legal| - i
  {
    if i < |p.legal| {
      var child := p.legal[i].result;
      var e := AlphaBeta(child, depth - 1, alpha, beta, true);
      var v := MinimaxValue(child, depth - 1, true);
      AlphaBetaFailSoft(child, depth - 1, alpha, beta, true);
      FailSoftMinStep(best, seen, e, v, alpha, beta0);
      var rest := ChildrenValue(p, i + 1, depth, false);
      assert Min(seen, ChildrenValue(p, i, depth, false)) == Min(Min(seen, v), rest);
      if !Le(Min(beta, e), alpha) {
        MinLoopFailSoft(p, i + 1, depth, alpha, beta0, Min(beta, e), Min(best, e), Min(seen, v));
      }
    }
  }

  /** With the full window (-inf, +inf) the search returns the exact minimax
      value. */
  lemma FullWindowIsExact(p: Position, depth: int, maximizing: bool)
    ensures AlphaBeta(p, depth, NegInf, PosInf, maximizing) == MinimaxValue(p, depth, maximizing)
  {
    AlphaBetaFailSoft(p, depth, NegInf, PosInf, maximizing);
  }

  /** A cutoff at a maximising node means the search failed high (its result
      is at least beta); at a minimising node it failed low (at most alpha). */
  lemma CutoffBoundsResult(p: Position, depth: int, alpha: ExtInt, beta: ExtInt, maximizing: bool)
    requires Lt(alpha, beta) && depth != 0 && !p.gameOver
    requires Examined(p, depth, alpha, beta, maximizing) < |p.legal|
    ensures maximizing ==> Le(beta, AlphaBeta(p, depth, alpha, beta, maximizing))
    ensures !maximizing ==> Le(AlphaBeta(p, depth, alpha, beta, maximizing), alpha)
  {
    if maximizing {
      MaxCutoff(p, 0, depth, alpha, alpha, beta, NegInf);
    } else {
      MinCutoff(p, 0, depth, alpha, beta, beta, PosInf);
    }
  }

  lemma {:induction false} MaxCutoff(p: Position, i: nat, depth: int, alpha0: ExtInt, alpha: ExtInt,
                                     beta: ExtInt, best: ExtInt)
    requires i <= |p.legal| && Lt(alpha0, beta) && alpha == Max(alpha0, best)
    requires MaxExamined(p, i, depth, alpha, beta) < |p.legal|
    ensures Le(beta, MaxLoop(p, i, depth, alpha, beta, best))
    decreases |p.legal| - i
  {
    var e := AlphaBeta(p.legal[i].result, depth - 1, alpha, beta, false);
    if !Le(beta, Max(alpha, e)) {
      MaxCutoff(p, i + 1, depth, alpha0, Max(alpha, e), beta, Max(best, e));
    }
  }

  lemma {:induction false} MinCutoff(p: Position, i: nat, depth: int, alpha: ExtInt, beta0: ExtInt,
                                     beta: ExtInt, best: ExtInt)
    requires i <= |p.legal| && Lt(alpha, beta0) && beta == Min(beta0, best)
    requires MinExamined(p, i, depth, alpha, beta) < |p.legal|
    ensures Le(MinLoop(p, i, depth, alpha, beta, best), alpha)
    decreases |p.legal| - i
  {
    var e := AlphaBeta(p.legal[i].result, depth - 1, alpha, beta, true);
    if !Le(Min(beta, e), alpha) {
      MinCutoff(p, i + 1, depth, alpha, beta0, Min(beta, e), Min(best, e));
    }
  }

  /** No move after the one that closes the window is looked at: a position q
      that agrees with p on everything up to the last examined move, and has
      more moves only where p was cut off, gets the same result. */
  lemma OnlyExaminedMovesMatter(p: Position, q: Position, depth: int, alpha: ExtInt, beta: ExtInt, maximizing: bool)
    requires q.placement == p.placement && q.gameOver == p.gameOver
    requires Examined(p, depth, alpha, beta, maximizing) <= |q.legal|
    requires q.legal[..Examined(p, depth, alpha, beta, maximizing)] == p.legal[..Examined(p, depth, alpha, beta, maximizing)]
    requires Examined(p, depth, alpha, beta, maximizing) == |p.legal| ==> |q.legal| == |p.legal|
    ensures AlphaBeta(q, depth, alpha, beta, maximizing) == AlphaBeta(p, depth, alpha, beta, maximizing)
    ensures Examined(q, depth, alpha, beta, maximizing) == Examined(p, depth, alpha, beta, maximizing)
  {
    var n := Examined(p, depth, alpha, beta, maximizing);
    forall j | 0 <= j < n
      ensures q.legal[j] == p.legal[j]
    {
      assert q.legal[..n][j] == p.legal[..n][j];
    }
    if depth == 0 || p.gameOver {
    } else if maximizing {
      MaxLoopPrefix(p, q, 0, depth, alpha, beta, NegInf);
    } else {
      MinLoopPrefix(p, q, 0, depth, alpha, beta, PosInf);
    }
  }

  lemma {:induction false} MaxLoopPrefix(p: Position, q: Position, i: nat, depth: int, alpha: ExtInt,
                                         beta: ExtInt, best: ExtInt)
    requires i <= |p.legal| && i <= |q.legal|
    requires MaxExamined(p, i, depth, alpha, beta) <= |q.legal|
    requires forall j :: i <= j < MaxExamined(p, i, depth, alpha, beta) ==> q.legal[j] == p.legal[j]
    requires MaxExamined(p, i, depth, alpha, beta) == |p.legal| ==> |q.legal| == |p.legal|
    ensures MaxLoop(q, i, depth, alpha, beta, best) == MaxLoop(p, i, depth, alpha, beta, best)
    ensures MaxExamined(q, i, depth, alpha, beta) == MaxExamined(p, i, depth, alpha, beta)
    decreases |p.legal| - i
  {
    if i < |p.legal| {
      var e := AlphaBeta(p.legal[i].result, depth - 1, alpha, beta, false);
      if !Le(beta, Max(alpha, e)) {
        MaxLoopPrefix(p, q, i + 1, depth, Max(alpha, e), beta, Max(best, e));
      }
    }
  }

  lemma {:induction false} MinLoopPrefix(p: Position, q: Position, i: nat, depth: int, alpha: ExtInt,
                                         beta: ExtInt, best: ExtInt)
    requires i <= |p.legal| && i <= |q.legal|
    requires MinExamined(p, i, depth, alpha, beta) <= |q.legal|
    requires forall j :: i <= j < MinExamined(p, i, depth, alpha, beta) ==> q.legal[j] == p.legal[j]
    requires MinExamined(p, i, depth, alpha, beta) == |p.legal| ==> |q.legal| == |p.legal|
    ensures MinLoop(q, i, depth, alpha, beta, best) == MinLoop(p, i, depth, alpha, beta, best)
    ensures MinExamined(q, i, depth, alpha, beta) == MinExamined(p, i, depth, alpha, beta)
    decreases |p.legal| - i
  {
    if i < |p.legal| {
      var e := AlphaBeta(p.legal[i].result, depth - 1, alpha, beta, true);
      if !Le(Min(beta, e), alpha) {
        MinLoopPrefix(p, q, i + 1, depth, alpha, Min(beta, e), Min(best, e));
      }
    }
  }

  /** The value get_best_move gives a root move: the opponent minimises below
      it, searched one ply shallower. */
  function RootScore(m: Move, depth: int): ExtInt {
    MinimaxValue(m.result, depth - 1, false)
  }

  /** max_eval and best_move after the root loop has gone through ms. */
  datatype Choice = Choice(score: ExtInt, move: Option<Move>)

  function RootChoice(ms: seq<Move>, depth: int): Choice {
    if ms == [] then Choice(NegInf, None)
    else
      var c := RootChoice(ms[..|ms| - 1], depth);
      var m := ms[|ms| - 1];
      if Lt(c.score, RootScore(m, depth)) then Choice(RootScore(m, depth), Some(m)) else c
  }

  /** The move get_best_move returns. */
  function BestRootMove(p: Position, depth: int): Option<Move> {
    RootChoice(p.legal, depth).move
  }

  /** The root keeps the first move with the strictly greatest score, and no
      move at all when every score is -inf (in particular when there are no
      moves). */
  lemma {:induction false} RootChoiceIsFirstMaximum(ms: seq<Move>, depth: int)
    ensures forall j :: 0 <= j < |ms| ==> Le(RootScore(ms[j], depth), RootChoice(ms, depth).score)
    ensures RootChoice(ms, depth).move.None? <==> RootChoice(ms, depth).score == NegInf
    ensures RootChoice(ms, depth).move.None? <==> forall j :: 0 <= j < |ms| ==> RootScore(ms[j], depth) == NegInf
    ensures RootChoice(ms, depth).move.Some? ==>
              exists k :: 0 <= k < |ms| && ms[k] == RootChoice(ms, depth).move.value
                       && RootScore(ms[k], depth) == RootChoice(ms, depth).score
                       && forall j :: 0 <= j < k ==> Lt(RootScore(ms[j], depth), RootChoice(ms, depth).score)
  {
    if ms != [] {
      var init := ms[..|ms| - 1];
      RootChoiceIsFirstMaximum(init, depth);
      var c := RootChoice(init, depth);
      assert forall j :: 0 <= j < |init| ==> init[j] == ms[j];
      if Lt(c.score, RootScore(ms[|ms| - 1], depth)) {
        assert RootChoice(ms, depth).move == Some(ms[|ms| - 1]);
      } else {
        assert RootChoice(ms, depth) == c;
        if c.move.Some? {
          var k :| 0 <= k < |init| && init[k] == c.move.value && RootScore(init[k], depth) == c.score
                   && forall j :: 0 <= j < k ==> Lt(RootScore(init[j], depth), c.score);
          assert ms[k] == c.move.value;
        }
      }
    }
  }

  /** ChildrenValue at a maximising node is the greatest root score of the
      moves from the i-th on. */
  lemma {:induction false} ChildrenValueIsMax(p: Position, i: nat, depth: int)
    requires i <= |p.legal|
    ensures forall j :: i <= j < |p.legal| ==> Le(RootScore(p.legal[j], depth), ChildrenValue(p, i, depth, true))
    ensures i == |p.legal| ==> ChildrenValue(p, i, depth, true) == NegInf
    ensures i < |p.legal| ==> exists j :: i <= j < |p.legal| && ChildrenValue(p, i, depth, true) == RootScore(p.legal[j], depth)
    decreases |p.legal| - i
  {
    if i < |p.legal| {
      ChildrenValueIsMax(p, i + 1, depth);
    }
  }

  /** The root is a maximising node whichever side is to move: the score of
      the move it keeps is the minimax value of the root for the maximiser. */
  lemma RootChoiceIsMinimaxValue(p: Position, depth: int)
    requires depth != 0 && !p.gameOver
    ensures RootChoice(p.legal, depth).score == MinimaxValue(p, depth, true)
  {
    RootChoiceIsFirstMaximum(p.legal, depth);
    ChildrenValueIsMax(p, 0, depth);
  }

  /** In a tree where only finished games have no legal move, every position
      has a finite minimax value. */
  ghost predicate WellFormed(p: Position)
    decreases p
  {
    (!p.gameOver ==> p.legal != []) &&
    forall k :: 0 <= k < |p.legal| ==> WellFormed(p.legal[k].result)
  }

  lemma {:induction false} WellFormedValueIsFinite(p: Position, depth: int, maximizing: bool)
    requires WellFormed(p)
    ensures MinimaxValue(p, depth, maximizing).Fin?
    decreases p, 1
  {
    if depth != 0 && !p.gameOver {
      ChildrenValueIsFinite(p, 0, depth, maximizing);
    }
  }

  lemma {:induction false} ChildrenValueIsFinite(p: Position, i: nat, depth: int, maximizing: bool)
    requires WellFormed(p) && i < |p.legal|
    ensures ChildrenValue(p, i, depth, maximizing).Fin?
    decreases p, 0, |p.legal| - i
  {
    WellFormedValueIsFinite(p.legal[i].result, depth - 1, !maximizing);
    if i + 1 < |p.legal| {
      ChildrenValueIsFinite(p, i + 1, depth, maximizing);
    }
  }

  /** In such a tree get_best_move returns None exactly when there is no
      legal move. */
  lemma BestRootMoveFindsMove(p: Position, depth: int)
    requires forall k :: 0 <= k < |p.legal| ==> WellFormed(p.legal[k].result)
    ensures BestRootMove(p, depth).None? <==> p.legal == []
  {
    RootChoiceIsFirstMaximum(p.legal, depth);
    if p.legal != [] {
      WellFormedValueIsFinite(p.legal[0].result, depth - 1, false);
    }
  }

  /** `minimax(board, depth, alpha, beta, maximizing_player)`. Every move it
      plays is taken back, so the board is left as it was found. */
  method Minimax(board: Board, depth: int, alpha: ExtInt, beta: ExtInt, maximizingPlayer: bool)
    returns (value: ExtInt)
    requires board.Valid()
    modifies board
    ensures board.Valid()
    ensures board.current == old(board.current)
    ensures board.moveStack == old(board.moveStack) && board.saved == old(board.saved)
    ensures value == AlphaBeta(old(board.current), depth, alpha, beta, maximizingPlayer)
    ensures depth == 0 || old(board.current).gameOver ==> value == Static(old(board.current))
    ensures Lt(alpha, beta) ==>
              FailSoft(value, MinimaxValue(old(board.current), depth, maximizingPlayer), alpha, beta)
    decreases board.current, 1
  {
    var p := board.current;
    if depth == 0 || p.gameOver {
      var score := EvaluateBoard(board);
      return Fin(score);
    }
    if maximizingPlayer {
      value := MaximizingBranch(board, depth, alpha, beta);
    } else {
      value := MinimizingBranch(board, depth, alpha, beta);
    }
    if Lt(alpha, beta) {
      AlphaBetaFailSoft(p, depth, alpha, beta, maximizingPlayer);
    }
  }

  /** The `if maximizing_player:` branch of `minimax`: the loop over the
      legal moves, raising alpha, with each move pushed and popped again. */
  method MaximizingBranch(board: Board, depth: int, alpha: ExtInt, beta: ExtInt) returns (maxEval: ExtInt)
    requires board.Valid()
    modifies board
    ensures board.Valid()
    ensures board.current == old(board.current)
    ensures board.moveStack == old(board.moveStack) && board.saved == old(board.saved)
    ensures maxEval == MaxLoop(old(board.current), 0, depth, alpha, beta, NegInf)
    decreases board.current, 0
  {
    var p := board.current;
    var legalMoves := p.legal;
    maxEval := NegInf;
    var a := alpha;
    var i := 0;
    while i < |legalMoves|
      invariant i <= |legalMoves|
      invariant board.Valid() && board.current == p
      invariant board.moveStack == old(board.moveStack) && board.saved == old(board.saved)
      invariant MaxLoop(p, i, depth, a, beta, maxEval) == MaxLoop(p, 0, depth, alpha, beta, NegInf)
      decreases |legalMoves| - i
    {
      board.Push(legalMoves[i]);
      var evalScore := Minimax(board, depth - 1, a, beta, false);
      var _ := board.Pop();
      maxEval := Max(maxEval, evalScore);
      a := Max(a, evalScore);
      if Le(beta, a) {
        break;
      }
      i := i + 1;
    }
  }

  /** The `else` branch of `minimax`: the same loop for the minimiser,
      lowering beta. */
  method MinimizingBranch(board: Board, depth: int, alpha: ExtInt, beta: ExtInt) returns (minEval: ExtInt)
    requires board.Valid()
    modifies board
    ensures board.Valid()
    ensures board.current == old(board.current)
    ensures board.moveStack == old(board.moveStack) && board.saved == old(board.saved)
    ensures minEval == MinLoop(old(board.current), 0, depth, alpha, beta, PosInf)
    decreases board.current, 0
  {
    var p := board.current;
    var legalMoves := p.legal;
    minEval := PosInf;
    var b := beta;
    var i := 0;
    while i < |legalMoves|
      invariant i <= |legalMoves|
      invariant board.Valid() && board.current == p
      invariant board.moveStack == old(board.moveStack) && board.saved == old(board.saved)
      invariant MinLoop(p, i, depth, alpha, b, minEval) == MinLoop(p, 0, depth, alpha, beta, PosInf)
      decreases |legalMoves| - i
    {
      board.Push(legalMoves[i]);
      var evalScore := Minimax(board, depth - 1, alpha, b, true);
      var _ := board.Pop();
      minEval := Min(minEval, evalScore);
      b := Min(b, evalScore);
      if Le(b, alpha) {
        break;
      }
      i := i + 1;
    }
  }

  /** `get_best_move(board, depth)`: every root move is searched with the full
      window, which the root never narrows, so each gets its exact minimax
      value; the board is left as it was found. */
  method GetBestMove(board: Board, depth: int) returns (bestMove: Option<Move>)
    requires board.Valid()
    modifies board
    ensures board.Valid()
    ensures board.current == old(board.current)
    ensures board.moveStack == old(board.moveStack) && board.saved == old(board.saved)
    ensures bestMove == BestRootMove(old(board.current), depth)
  {
    bestMove := None;
    var maxEval := NegInf;
    var alpha, beta := NegInf, PosInf;
    var p := board.current;
    var legalMoves := p.legal;
    for i := 0 to |legalMoves|
      invariant board.Valid() && board.current == p
      invariant board.moveStack == old(board.moveStack) && board.saved == old(board.saved)
      invariant RootChoice(legalMoves[..i], depth) == Choice(maxEval, bestMove)
    {
      board.Push(legalMoves[i]);
      var evalScore := Minimax(board, depth - 1, alpha, beta, false);
      var _ := board.Pop();
      FullWindowIsExact(legalMoves[i].result, depth - 1, false);
      assert legalMoves[..i + 1][..i] == legalMoves[..i];
      if Lt(maxEval, evalScore) {
        maxEval := evalScore;
        bestMove := Some(legalMoves[i]);
      }
    }
    assert legalMoves[..|legalMoves|] == legalMoves;
  }
}
