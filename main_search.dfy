/** main.py's search: `minimax`, an alpha-beta variant that builds a fresh
    hypothesis board for every move and remembers the best move, and the
    retention rule of the iterative-deepening driver `function_for_ai`.

    The wall clock is modelled by the number of further clock readings that
    still fall inside the time budget (`ticks`): every check of the clock
    while time remains uses one up, and once none are left every check
    reports that time is up. A clock that never goes back always answers in
    this shape; a wall clock that is set back is not modelled.

    Search, PieceLoop and MoveLoop describe what the nested loops compute;
    their results also list every move the loops examined, with the score its
    search returned. */
module MainSearch {
  import opened Basics
  import opened MainEval

  /** An alpha-beta window. */
  datatype Window = Window(alpha: ExtInt, beta: ExtInt)

  /** A move the loops examined: the index of its piece in the side's list,
      its index in that piece's moves, the move, the window and the clock its
      search was called with, and the score that search returned. */
  datatype Step = Step(piece: nat, index: nat, move: Move, window: Window, ticks: nat, score: ExtInt)

  /** What a call of `minimax` returns, with the clock readings left over and
      the moves it examined. */
  datatype Outcome = Outcome(score: ExtInt, bestMove: Option<Move>, ticks: nat, examined: seq<Step>)

  /** The loop variables: alpha, beta, max_eval (resp. min_eval), best_move,
      the clock, and the moves examined so far. */
  datatype LoopState = LoopState(alpha: ExtInt, beta: ExtInt, best: ExtInt, bestMove: Option<Move>,
                                 ticks: nat, examined: seq<Step>)

  /** `board.pieces_by_color[board.cur_color_turn]`. */
  function Side(b: Board): seq<Piece> {
    PiecesOf(b, b.turn)
  }

  /** The score a side starts from: -inf for the maximiser, +inf otherwise. */
  function Worst(maximizing: bool): ExtInt {
    if maximizing then NegInf else PosInf
  }

  /** `minimax(board, depth, alpha, beta, maximizing, start_time)`. */
  function Search(b: Board, depth: int, alpha: ExtInt, beta: ExtInt, maximizing: bool, ticks: nat): (r: Outcome)
    ensures r.ticks <= ticks && (ticks > 0 ==> r.ticks < ticks)
    decreases b, 2
  {
    if ticks == 0 then Outcome(Fin(Evaluation(b)), None, 0, [])
    else if depth == 0 || b.gameEnded then Outcome(Fin(Evaluation(b)), None, ticks - 1, [])
    else
      var st := PieceLoop(b, 0, depth, maximizing, LoopState(alpha, beta, Worst(maximizing), None, ticks - 1, []));
      Outcome(st.best, st.bestMove, st.ticks, st.examined)
  }

  /** The outer loop over the pieces of the side to move, from the k-th on. */
  function PieceLoop(b: Board, k: nat, depth: int, maximizing: bool, st: LoopState): (r: LoopState)
    requires k <= |Side(b)|
    ensures r.ticks <= st.ticks
    decreases b, 1, |Side(b)| - k
  {
    if k == |Side(b)| then st
    else PieceLoop(b, k + 1, depth, maximizing, MoveLoop(b, k, 0, depth, maximizing, st))
  }

  /** The inner loop over the moves of the k-th piece, from the j-th on; its
      `break` leaves only this loop. */
  function MoveLoop(b: Board, k: nat, j: nat, depth: int, maximizing: bool, st: LoopState): (r: LoopState)
    requires k < |Side(b)| && j <= |Side(b)[k].moves|
    ensures r.ticks <= st.ticks
    decreases b, 0, |Side(b)[k].moves| - j
  {
    var moves := Side(b)[k].moves;
    if j == |moves| then st
    else
      var o := Search(moves[j].next, depth - 1, st.alpha, st.beta, !maximizing, st.ticks);
      var st' := Record(st, maximizing, Step(k, j, moves[j], Window(st.alpha, st.beta), st.ticks, o.score), o.ticks);
      if Le(st'.beta, st'.alpha) then st'
      else MoveLoop(b, k, j + 1, depth, maximizing, st')
  }

  /** One turn of the inner loop, as the methods take it. */
  lemma MoveLoopStep(b: Board, k: nat, j: nat, depth: int, maximizing: bool, st: LoopState, score: ExtInt, ticks: nat)
    requires k < |Side(b)| && j < |Side(b)[k].moves|
    requires var o := Search(Side(b)[k].moves[j].next, depth - 1, st.alpha, st.beta, !maximizing, st.ticks);
             score == o.score && ticks == o.ticks
    ensures var st' := Record(st, maximizing, Step(k, j, Side(b)[k].moves[j], Window(st.alpha, st.beta), st.ticks, score), ticks);
            MoveLoop(b, k, j, depth, maximizing, st) ==
              if Le(st'.beta, st'.alpha) then st' else MoveLoop(b, k, j + 1, depth, maximizing, st')
  {
  }

  /** The body of the inner loop after the child search: keep the move if it
      is strictly better, then raise alpha (resp. lower beta). */
  function Record(st: LoopState, maximizing: bool, s: Step, ticks: nat): LoopState {
    if maximizing then
      var better := Lt(st.best, s.score);
      LoopState(Max(st.alpha, s.score), st.beta,
                if better then s.score else st.best,
                if better then Some(s.move) else st.bestMove,
                ticks, st.examined + [s])
    else
      var better := Lt(s.score, st.best);
      LoopState(st.alpha, Min(st.beta, s.score),
                if better then s.score else st.best,
                if better then Some(s.move) else st.bestMove,
                ticks, st.examined + [s])
  }

  /** `score` is the best of the steps' scores for the side (the maximum, or
      the minimum), the side's starting infinity when there are no steps; and
      `bestMove` is the move of the earliest step reaching it, or None when
      no step beat the starting infinity. */
  predicate IsBestOf(steps: seq<Step>, score: ExtInt, bestMove: Option<Move>, maximizing: bool) {
    (forall i :: 0 <= i < |steps| ==>
       if maximizing then Le(steps[i].score, score) else Le(score, steps[i].score)) &&
    (score == Worst(maximizing) || exists i :: 0 <= i < |steps| && steps[i].score == score) &&
    (bestMove.None? <==> score == Worst(maximizing)) &&
    (bestMove.Some? ==>
       exists i :: 0 <= i < |steps| && steps[i].move == bestMove.value && steps[i].score == score &&
                   forall j :: 0 <= j < i ==> steps[j].score != score)
  }

  lemma RecordKeepsBest(st: LoopState, maximizing: bool, s: Step, ticks: nat)
    requires IsBestOf(st.examined, st.best, st.bestMove, maximizing)
    ensures var st' := Record(st, maximizing, s, ticks);
            IsBestOf(st'.examined, st'.best, st'.bestMove, maximizing)
  {
    var st' := Record(st, maximizing, s, ticks);
    var n := |st.examined|;
    assert forall i :: 0 <= i < n ==> st'.examined[i] == st.examined[i];
    assert st'.examined[n] == s;
    if st'.best == st.best {
      if st.best != Worst(maximizing) {
        var i :| 0 <= i < n && st.examined[i].score == st.best;
        assert st'.examined[i].score == st'.best;
      }
      if st'.bestMove.Some? {
        assert st'.bestMove == st.bestMove;
        var i :| 0 <= i < n && st.examined[i].move == st.bestMove.value && st.examined[i].score == st.best &&
                 forall j :: 0 <= j < i ==> st.examined[j].score != st.best;
        assert st'.examined[i].move == st'.bestMove.value;
      }
    } else {
      assert forall j :: 0 <= j < n ==> st'.examined[j].score != st'.best;
    }
  }

  lemma {:induction false} MoveLoopKeepsBest(b: Board, k: nat, j: nat, depth: int, maximizing: bool, st: LoopState)
    requires k < |Side(b)| && j <= |Side(b)[k].moves|
    requires IsBestOf(st.examined, st.best, st.bestMove, maximizing)
    ensures var r := MoveLoop(b, k, j, depth, maximizing, st);
            IsBestOf(r.examined, r.best, r.bestMove, maximizing)
    decreases |Side(b)[k].moves| - j
  {
    var moves := Side(b)[k].moves;
    if j < |moves| {
      var o := Search(moves[j].next, depth - 1, st.alpha, st.beta, !maximizing, st.ticks);
      var s := Step(k, j, moves[j], Window(st.alpha, st.beta), st.ticks, o.score);
      RecordKeepsBest(st, maximizing, s, o.ticks);
      var st' := Record(st, maximizing, s, o.ticks);
      if !Le(st'.beta, st'.alpha) {
        MoveLoopKeepsBest(b, k, j + 1, depth, maximizing, st');
      }
    }
  }

  lemma {:induction false} PieceLoopKeepsBest(b: Board, k: nat, depth: int, maximizing: bool, st: LoopState)
    requires k <= |Side(b)|
    requires IsBestOf(st.examined, st.best, st.bestMove, maximizing)
    ensures var r := PieceLoop(b, k, depth, maximizing, st);
            IsBestOf(r.examined, r.best, r.bestMove, maximizing)
    decreases |Side(b)| - k
  {
    if k < |Side(b)| {
      MoveLoopKeepsBest(b, k, 0, depth, maximizing, st);
      PieceLoopKeepsBest(b, k + 1, depth, maximizing, MoveLoop(b, k, 0, depth, maximizing, st));
    }
  }

  /** The child search of step s: `minimax(hypo_board, depth - 1, alpha, beta,
      not maximizing)` with the step's window and clock. */
  function Child(s: Step, depth: int, maximizing: bool): Outcome {
    Search(s.move.next, depth - 1, s.window.alpha, s.window.beta, !maximizing, s.ticks)
  }

  /** The steps are the child searches the loops made, handing the clock on:
      each step's score is what its child search returned, the first step is
      searched with the clock t0, each next step with the clock the previous
      child search left, and t is the clock the last one left (t0 when there
      is no step). */
  predicate Handover(steps: seq<Step>, depth: int, maximizing: bool, t0: nat, t: nat)
    decreases |steps|
  {
    if steps == [] then t == t0
    else
      var s := steps[|steps| - 1];
      s.score == Child(s, depth, maximizing).score && t == Child(s, depth, maximizing).ticks &&
      Handover(steps[..|steps| - 1], depth, maximizing, t0, s.ticks)
  }

  /** Handover, step by step. */
  lemma {:induction false} HandoverIsStepwise(steps: seq<Step>, depth: int, maximizing: bool, t0: nat, t: nat)
    requires Handover(steps, depth, maximizing, t0, t)
    ensures forall i :: 0 <= i < |steps| ==> steps[i].score == Child(steps[i], depth, maximizing).score
    ensures steps != [] ==> steps[0].ticks == t0 && t == Child(steps[|steps| - 1], depth, maximizing).ticks
    ensures forall i :: 0 <= i < |steps| - 1 ==> steps[i + 1].ticks == Child(steps[i], depth, maximizing).ticks
    ensures steps == [] ==> t == t0
    decreases |steps|
  {
    if steps != [] {
      var init := steps[..|steps| - 1];
      var s := steps[|steps| - 1];
      HandoverIsStepwise(init, depth, maximizing, t0, s.ticks);
      assert forall i :: 0 <= i < |init| ==> init[i] == steps[i];
    }
  }

  lemma {:induction false} MoveLoopHandover(b: Board, k: nat, j: nat, depth: int, maximizing: bool, t0: nat, st: LoopState)
    requires k < |Side(b)| && j <= |Side(b)[k].moves|
    requires Handover(st.examined, depth, maximizing, t0, st.ticks)
    ensures var r := MoveLoop(b, k, j, depth, maximizing, st);
            Handover(r.examined, depth, maximizing, t0, r.ticks)
    decreases |Side(b)[k].moves| - j
  {
    var moves := Side(b)[k].moves;
    if j < |moves| {
      var o := Search(moves[j].next, depth - 1, st.alpha, st.beta, !maximizing, st.ticks);
      var s := Step(k, j, moves[j], Window(st.alpha, st.beta), st.ticks, o.score);
      var st' := Record(st, maximizing, s, o.ticks);
      RecordAppends(st, maximizing, s, o.ticks);
      assert st'.examined[..|st'.examined| - 1] == st.examined;
      assert Child(s, depth, maximizing) == o;
      if !Le(st'.beta, st'.alpha) {
        MoveLoopHandover(b, k, j + 1, depth, maximizing, t0, st');
      }
    }
  }

  lemma {:induction false} PieceLoopHandover(b: Board, k: nat, depth: int, maximizing: bool, t0: nat, st: LoopState)
    requires k <= |Side(b)|
    requires Handover(st.examined, depth, maximizing, t0, st.ticks)
    ensures var r := PieceLoop(b, k, depth, maximizing, st);
            Handover(r.examined, depth, maximizing, t0, r.ticks)
    decreases |Side(b)| - k
  {
    if k < |Side(b)| {
      MoveLoopHandover(b, k, 0, depth, maximizing, t0, st);
      PieceLoopHandover(b, k + 1, depth, maximizing, t0, MoveLoop(b, k, 0, depth, maximizing, st));
    }
  }

  /** At a searched node the examined steps are the node's child searches:
      each score is what `minimax(hypo_board, depth - 1, ...)` returned for
      the step's move, window and clock, and the clock is handed on from the
      first reading, `ticks - 1`, through every child to the clock returned. */
  lemma ExaminedAreChildSearches(b: Board, depth: int, alpha: ExtInt, beta: ExtInt, maximizing: bool, ticks: nat)
    requires ticks > 0 && depth != 0 && !b.gameEnded
    ensures var o := Search(b, depth, alpha, beta, maximizing, ticks);
            Handover(o.examined, depth, maximizing, ticks - 1, o.ticks)
  {
    PieceLoopHandover(b, 0, depth, maximizing, ticks - 1, LoopState(alpha, beta, Worst(maximizing), None, ticks - 1, []));
  }

  /** At every node that is searched rather than evaluated, the score returned
      is the maximum (resp. minimum) of the scores of the moves actually
      examined, which are their child searches' scores; it is -inf (resp.
      +inf) with None when none was examined. The move returned is the
      earliest examined one reaching that score, or None while the score is
      still -inf (resp. +inf). */
  lemma SearchReturnsBestExamined(b: Board, depth: int, alpha: ExtInt, beta: ExtInt, maximizing: bool, ticks: nat)
    requires ticks > 0 && depth != 0 && !b.gameEnded
    ensures var o := Search(b, depth, alpha, beta, maximizing, ticks);
            IsBestOf(o.examined, o.score, o.bestMove, maximizing) &&
            Handover(o.examined, depth, maximizing, ticks - 1, o.ticks)
  {
    PieceLoopKeepsBest(b, 0, depth, maximizing, LoopState(alpha, beta, Worst(maximizing), None, ticks - 1, []));
    ExaminedAreChildSearches(b, depth, alpha, beta, maximizing, ticks);
  }

  /** A step names a move of the side to move, by its piece and its index. */
  predicate StepOf(b: Board, s: Step) {
    s.piece < |Side(b)| && s.index < |Side(b)[s.piece].moves| && s.move == Side(b)[s.piece].moves[s.index]
  }

  /** The window the loops hand on after a step: alpha raised (resp. beta
      lowered) to the step's score. */
  function After(s: Step, maximizing: bool): Window {
    if maximizing then Window(Max(s.window.alpha, s.score), s.window.beta)
    else Window(s.window.alpha, Min(s.window.beta, s.score))
  }

  /** `beta <= alpha`: the condition of the `break`. */
  predicate Closed(w: Window) {
    Le(w.beta, w.alpha)
  }

  function WindowOf(st: LoopState): Window {
    Window(st.alpha, st.beta)
  }

  /** The pieces lo .. hi-1 of the side to move have no moves. */
  predicate NoMovesBetween(b: Board, lo: nat, hi: nat) {
    hi <= |Side(b)| && forall p :: lo <= p < hi ==> Side(b)[p].moves == []
  }

  /** t is the step the loops take right after s. It is searched with the
      window s left behind. While that window is open it is the next move of
      the same piece; it is the first move of the next piece that has moves
      once s was its piece's last move or the window closed. */
  predicate Follows(b: Board, maximizing: bool, s: Step, t: Step) {
    s.piece < |Side(b)| &&
    t.window == After(s, maximizing) &&
    ((t.piece == s.piece && t.index == s.index + 1 && !Closed(t.window)) ||
     (s.piece < t.piece && t.index == 0 && NoMovesBetween(b, s.piece + 1, t.piece) &&
      (s.index + 1 == |Side(b)[s.piece].moves| || Closed(t.window))))
  }

  /** The steps are what the loops do when started with window w: the first
      is the first move of the first piece that has moves, searched with w,
      and each next step follows the one before. */
  predicate Chain(b: Board, maximizing: bool, w: Window, steps: seq<Step>)
    decreases |steps|
  {
    if steps == [] then true
    else
      var init := steps[..|steps| - 1];
      var s := steps[|steps| - 1];
      Chain(b, maximizing, w, init) && StepOf(b, s) &&
      (init == [] ==> s.index == 0 && NoMovesBetween(b, 0, s.piece) && s.window == w) &&
      (init != [] ==> Follows(b, maximizing, init[|init| - 1], s))
  }

  /** Chain, step by step: every step is a move of the side to move, the
      first one is searched with w, and each step follows the one before. */
  lemma {:induction false} ChainIsStepwise(b: Board, maximizing: bool, w: Window, steps: seq<Step>)
    requires Chain(b, maximizing, w, steps)
    ensures forall i :: 0 <= i < |steps| ==> StepOf(b, steps[i])
    ensures forall i :: 0 <= i < |steps| - 1 ==> Follows(b, maximizing, steps[i], steps[i + 1])
    ensures steps != [] ==> steps[0].index == 0 && NoMovesBetween(b, 0, steps[0].piece) && steps[0].window == w
    decreases |steps|
  {
    if steps != [] {
      var init := steps[..|steps| - 1];
      ChainIsStepwise(b, maximizing, w, init);
      assert forall i :: 0 <= i < |init| ==> init[i] == steps[i];
    }
  }

  /** After the steps, the outer loop stands at piece `next` with the window
      `cur`: every piece between the last step's piece and `next` has no
      moves, and the last step's piece was left because its moves ran out or
      the window closed. */
  predicate AtPiece(b: Board, maximizing: bool, w: Window, steps: seq<Step>, cur: Window, next: nat) {
    next <= |Side(b)| &&
    (steps == [] ==> NoMovesBetween(b, 0, next) && cur == w) &&
    (steps != [] ==>
       var s := steps[|steps| - 1];
       s.piece < next && NoMovesBetween(b, s.piece + 1, next) && cur == After(s, maximizing) &&
       (s.index + 1 == |Side(b)[s.piece].moves| || Closed(cur)))
  }

  /** The examined moves are exactly the moves the nested loops visit, in
      generation order: they form a Chain from the window w, and after the
      last step no later piece has moves and the last piece was left because
      its moves ran out or the window closed. With no step at all, no piece
      has a move. */
  predicate InGenerationOrder(b: Board, maximizing: bool, w: Window, steps: seq<Step>) {
    Chain(b, maximizing, w, steps) &&
    (steps == [] ==> NoMovesBetween(b, 0, |Side(b)|)) &&
    (steps != [] ==>
       var s := steps[|steps| - 1];
       s.piece < |Side(b)| && NoMovesBetween(b, s.piece + 1, |Side(b)|) &&
       (s.index + 1 == |Side(b)[s.piece].moves| || Closed(After(s, maximizing))))
  }

  /** What Record does to the list of examined moves, the clock and, for a
      step searched with the current window, the window. */
  lemma RecordAppends(st: LoopState, maximizing: bool, s: Step, ticks: nat)
    ensures var st' := Record(st, maximizing, s, ticks);
            st'.examined == st.examined + [s] && st'.ticks == ticks &&
            (s.window == WindowOf(st) ==> WindowOf(st') == After(s, maximizing))
  {
  }

  /** Appending the step that follows the last one extends the chain. */
  lemma AppendChain(b: Board, maximizing: bool, w: Window, steps: seq<Step>, s: Step)
    requires Chain(b, maximizing, w, steps) && StepOf(b, s)
    requires steps == [] ==> s.index == 0 && NoMovesBetween(b, 0, s.piece) && s.window == w
    requires steps != [] ==> Follows(b, maximizing, steps[|steps| - 1], s)
    ensures Chain(b, maximizing, w, steps + [s])
  {
    assert (steps + [s])[..|steps|] == steps;
  }

  /** The move the inner loop takes next, searched with the current window,
      extends the chain. */
  lemma NextStepExtendsChain(b: Board, k: nat, j: nat, maximizing: bool, w: Window, st: LoopState, s: Step)
    requires k < |Side(b)| && j < |Side(b)[k].moves|
    requires s.piece == k && s.index == j && s.move == Side(b)[k].moves[j] && s.window == WindowOf(st)
    requires Chain(b, maximizing, w, st.examined)
    requires j == 0 ==> AtPiece(b, maximizing, w, st.examined, WindowOf(st), k)
    requires j > 0 ==> st.examined != [] && st.examined[|st.examined| - 1].piece == k &&
                       st.examined[|st.examined| - 1].index == j - 1 &&
                       WindowOf(st) == After(st.examined[|st.examined| - 1], maximizing) && !Closed(WindowOf(st))
    ensures Chain(b, maximizing, w, st.examined + [s])
  {
    AppendChain(b, maximizing, w, st.examined, s);
  }

  /** The outer loop leaves piece k after its step s when s was the last move
      of the piece or the window closed. */
  lemma LeavePiece(b: Board, maximizing: bool, w: Window, steps: seq<Step>, k: nat)
    requires k < |Side(b)| && steps != []
    requires steps[|steps| - 1].piece == k && steps[|steps| - 1].index < |Side(b)[k].moves|
    requires steps[|steps| - 1].index + 1 == |Side(b)[k].moves| || Closed(After(steps[|steps| - 1], maximizing))
    ensures AtPiece(b, maximizing, w, steps, After(steps[|steps| - 1], maximizing), k + 1)
  {
  }

  /** A piece without moves is passed over. */
  lemma SkipPiece(b: Board, maximizing: bool, w: Window, steps: seq<Step>, cur: Window, k: nat)
    requires k < |Side(b)| && Side(b)[k].moves == []
    requires AtPiece(b, maximizing, w, steps, cur, k)
    ensures AtPiece(b, maximizing, w, steps, cur, k + 1)
  {
    if steps == [] {
      assert forall p :: 0 <= p < k + 1 ==> Side(b)[p].moves == [] by {
        assert forall p :: 0 <= p < k ==> Side(b)[p].moves == [];
      }
    }
  }

  /** What the inner loop may assume when it stands at move j of piece k:
      the steps so far form a chain, and either the piece is just entered or
      its previous move was the last step and left the window open. */
  predicate AtMove(b: Board, k: nat, j: nat, maximizing: bool, w: Window, st: LoopState) {
    k < |Side(b)| && j <= |Side(b)[k].moves| &&
    Chain(b, maximizing, w, st.examined) &&
    (j == 0 ==> AtPiece(b, maximizing, w, st.examined, WindowOf(st), k)) &&
    (j > 0 ==> st.examined != [] && st.examined[|st.examined| - 1].piece == k &&
               st.examined[|st.examined| - 1].index == j - 1 &&
               WindowOf(st) == After(st.examined[|st.examined| - 1], maximizing) && !Closed(WindowOf(st)))
  }

  /** The inner loop has left piece k in order: the steps form a chain and
      the outer loop stands at piece k + 1. */
  predicate Left(b: Board, k: nat, maximizing: bool, w: Window, st: LoopState) {
    Chain(b, maximizing, w, st.examined) && AtPiece(b, maximizing, w, st.examined, WindowOf(st), k + 1)
  }

  /** One move of the inner loop keeps AtMove while the window stays open,
      and leaves piece k in order when it closes the window. */
  lemma TakeMove(b: Board, k: nat, j: nat, maximizing: bool, w: Window, st: LoopState, s: Step, ticks: nat)
    requires AtMove(b, k, j, maximizing, w, st) && j < |Side(b)[k].moves|
    requires s.piece == k && s.index == j && s.move == Side(b)[k].moves[j] && s.window == WindowOf(st)
    ensures var st' := Record(st, maximizing, s, ticks);
            (Closed(WindowOf(st')) ==> Left(b, k, maximizing, w, st')) &&
            (!Closed(WindowOf(st')) ==> AtMove(b, k, j + 1, maximizing, w, st'))
  {
    var st' := Record(st, maximizing, s, ticks);
    RecordAppends(st, maximizing, s, ticks);
    NextStepExtendsChain(b, k, j, maximizing, w, st, s);
    assert st'.examined[|st'.examined| - 1] == s;
    if Closed(WindowOf(st')) {
      LeavePiece(b, maximizing, w, st'.examined, k);
    }
  }

  /** The inner loop leaves piece k in order when its moves run out. */
  lemma EndMoves(b: Board, k: nat, maximizing: bool, w: Window, st: LoopState)
    requires k < |Side(b)| && AtMove(b, k, |Side(b)[k].moves|, maximizing, w, st)
    ensures Left(b, k, maximizing, w, st)
  {
    if Side(b)[k].moves == [] {
      SkipPiece(b, maximizing, w, st.examined, WindowOf(st), k);
    } else {
      LeavePiece(b, maximizing, w, st.examined, k);
    }
  }

  /** The inner loop, started at move j of piece k as AtMove describes,
      leaves piece k in order. */
  lemma {:induction false} MoveLoopInOrder(b: Board, k: nat, j: nat, depth: int, maximizing: bool, w: Window, st: LoopState)
    requires AtMove(b, k, j, maximizing, w, st)
    ensures Left(b, k, maximizing, w, MoveLoop(b, k, j, depth, maximizing, st))
    decreases |Side(b)[k].moves| - j
  {
    var moves := Side(b)[k].moves;
    if j < |moves| {
      var o := Search(moves[j].next, depth - 1, st.alpha, st.beta, !maximizing, st.ticks);
      var s := Step(k, j, moves[j], Window(st.alpha, st.beta), st.ticks, o.score);
      TakeMove(b, k, j, maximizing, w, st, s, o.ticks);
      if !Closed(WindowOf(Record(st, maximizing, s, o.ticks))) {
        MoveLoopInOrder(b, k, j + 1, depth, maximizing, w, Record(st, maximizing, s, o.ticks));
      }
    } else {
      EndMoves(b, k, maximizing, w, st);
    }
  }

  /** The outer loop, started at piece k in order, ends after the last piece
      with the steps still a chain. */
  lemma {:induction false} PieceLoopInOrder(b: Board, k: nat, depth: int, maximizing: bool, w: Window, st: LoopState)
    requires k <= |Side(b)|
    requires Chain(b, maximizing, w, st.examined) && AtPiece(b, maximizing, w, st.examined, WindowOf(st), k)
    ensures var r := PieceLoop(b, k, depth, maximizing, st);
            Chain(b, maximizing, w, r.examined) && AtPiece(b, maximizing, w, r.examined, WindowOf(r), |Side(b)|)
    decreases |Side(b)| - k
  {
    if k < |Side(b)| {
      MoveLoopInOrder(b, k, 0, depth, maximizing, w, st);
      PieceLoopInOrder(b, k + 1, depth, maximizing, w, MoveLoop(b, k, 0, depth, maximizing, st));
    }
  }

  /** A call that is evaluated examines no move; a call that is searched
      examines exactly the moves its nested loops visit, in generation order,
      starting from its own window, and each of them is a child search that
      takes over the clock the previous one left. */
  lemma ExaminedInGenerationOrder(b: Board, depth: int, alpha: ExtInt, beta: ExtInt, maximizing: bool, ticks: nat)
    ensures var o := Search(b, depth, alpha, beta, maximizing, ticks);
            (ticks == 0 || depth == 0 || b.gameEnded ==> o.examined == []) &&
            (ticks > 0 && depth != 0 && !b.gameEnded ==>
               InGenerationOrder(b, maximizing, Window(alpha, beta), o.examined) &&
               Handover(o.examined, depth, maximizing, ticks - 1, o.ticks))
  {
    if ticks > 0 && depth != 0 && !b.gameEnded {
      PieceLoopInOrder(b, 0, depth, maximizing, Window(alpha, beta),
                       LoopState(alpha, beta, Worst(maximizing), None, ticks - 1, []));
      ExaminedAreChildSearches(b, depth, alpha, beta, maximizing, ticks);
    }
  }

  /** The indices, from the k-th on, of the pieces that have at least one move. */
  function PiecesWithMoves(ps: seq<Piece>, k: nat): (r: seq<nat>)
    requires k <= |ps|
    ensures forall i :: 0 <= i < |r| ==> k <= r[i] < |ps|
    decreases |ps| - k
  {
    if k == |ps| then []
    else if ps[k].moves == [] then PiecesWithMoves(ps, k + 1)
    else [k] + PiecesWithMoves(ps, k + 1)
  }

  /** With the window closed, the inner loop examines the first move of the
      piece, if it has one, and leaves: the window stays closed. */
  lemma ClosedMoveLoop(b: Board, k: nat, depth: int, maximizing: bool, st: LoopState)
    requires k < |Side(b)| && Le(st.beta, st.alpha)
    ensures var r := MoveLoop(b, k, 0, depth, maximizing, st);
            var n := |st.examined|;
            Le(r.beta, r.alpha) &&
            |r.examined| == n + (if Side(b)[k].moves == [] then 0 else 1) &&
            (Side(b)[k].moves != [] ==> r.examined[n].piece == k && r.examined[n].index == 0)
  {
    var moves := Side(b)[k].moves;
    if moves != [] {
      var o := Search(moves[0].next, depth - 1, st.alpha, st.beta, !maximizing, st.ticks);
      var s := Step(k, 0, moves[0], Window(st.alpha, st.beta), st.ticks, o.score);
      var st' := Record(st, maximizing, s, o.ticks);
      RecordAppends(st, maximizing, s, o.ticks);
      assert st'.examined[|st.examined|] == s;
      if maximizing {
        assert Le(st.alpha, st'.alpha);
      } else {
        assert Le(st'.beta, st.beta);
      }
    }
  }

  /** The inner loop only appends to the examined moves. */
  lemma {:induction false} MoveLoopExtends(b: Board, k: nat, j: nat, depth: int, maximizing: bool, st: LoopState)
    requires k < |Side(b)| && j <= |Side(b)[k].moves|
    ensures st.examined <= MoveLoop(b, k, j, depth, maximizing, st).examined
    decreases |Side(b)[k].moves| - j
  {
    var moves := Side(b)[k].moves;
    if j < |moves| {
      var o := Search(moves[j].next, depth - 1, st.alpha, st.beta, !maximizing, st.ticks);
      var s := Step(k, j, moves[j], Window(st.alpha, st.beta), st.ticks, o.score);
      var st' := Record(st, maximizing, s, o.ticks);
      RecordAppends(st, maximizing, s, o.ticks);
      if !Le(st'.beta, st'.alpha) {
        MoveLoopExtends(b, k, j + 1, depth, maximizing, st');
      }
    }
  }

  /** The outer loop only appends to the examined moves. */
  lemma {:induction false} PieceLoopExtends(b: Board, k: nat, depth: int, maximizing: bool, st: LoopState)
    requires k <= |Side(b)|
    ensures st.examined <= PieceLoop(b, k, depth, maximizing, st).examined
    decreases |Side(b)| - k
  {
    if k < |Side(b)| {
      MoveLoopExtends(b, k, 0, depth, maximizing, st);
      PieceLoopExtends(b, k + 1, depth, maximizing, MoveLoop(b, k, 0, depth, maximizing, st));
    }
  }

  /** From index n on, the steps are exactly the first moves of the given
      pieces, in that order. */
  predicate FirstMovesFrom(steps: seq<Step>, n: nat, pieces: seq<nat>) {
    |steps| == n + |pieces| &&
    forall i :: 0 <= i < |pieces| ==> steps[n + i].piece == pieces[i] && steps[n + i].index == 0
  }

  /** `break` leaves only the inner loop: once beta <= alpha, the window stays
      closed, and every remaining piece that has a move gets exactly its first
      move examined. */
  lemma {:induction false} ClosedWindowOneMovePerPiece(b: Board, k: nat, depth: int, maximizing: bool, st: LoopState)
    requires k <= |Side(b)| && Le(st.beta, st.alpha)
    ensures var r := PieceLoop(b, k, depth, maximizing, st);
            Le(r.beta, r.alpha) && FirstMovesFrom(r.examined, |st.examined|, PiecesWithMoves(Side(b), k))
    decreases |Side(b)| - k
  {
    if k < |Side(b)| {
      var st1 := MoveLoop(b, k, 0, depth, maximizing, st);
      var n := |st.examined|;
      ClosedMoveLoop(b, k, depth, maximizing, st);
      ClosedWindowOneMovePerPiece(b, k + 1, depth, maximizing, st1);
      var r := PieceLoop(b, k + 1, depth, maximizing, st1);
      var later' := PiecesWithMoves(Side(b), k + 1);
      if Side(b)[k].moves != [] {
        assert PiecesWithMoves(Side(b), k) == [k] + later';
        PieceLoopExtends(b, k + 1, depth, maximizing, st1);
        assert r.examined[n] == st1.examined[n];
        FirstMovesShift(r.examined, n, k, later');
      }
    }
  }

  /** A first move of piece k just before the first moves of later pieces. */
  lemma FirstMovesShift(steps: seq<Step>, n: nat, k: nat, later: seq<nat>)
    requires FirstMovesFrom(steps, n + 1, later)
    requires steps[n].piece == k && steps[n].index == 0
    ensures FirstMovesFrom(steps, n, [k] + later)
  {
    var pieces := [k] + later;
    forall i | 0 <= i < |pieces|
      ensures steps[n + i].piece == pieces[i] && steps[n + i].index == 0
    {
      if i > 0 {
        assert steps[n + i] == steps[n + 1 + (i - 1)] && pieces[i] == later[i - 1];
      }
    }
  }

  /** The clock readings the examined steps were searched with never go up
      and are all at least t, and a step searched once no reading was left
      scores the evaluation of its hypothesis board. */
  predicate ClockRuns(steps: seq<Step>, t: nat) {
    (forall i :: 0 <= i < |steps| ==>
       t <= steps[i].ticks && (steps[i].ticks == 0 ==> steps[i].score == Fin(Evaluation(steps[i].move.next)))) &&
    (forall i :: 0 <= i < |steps| - 1 ==> steps[i + 1].ticks <= steps[i].ticks)
  }

  lemma {:induction false} MoveLoopClock(b: Board, k: nat, j: nat, depth: int, maximizing: bool, st: LoopState)
    requires k < |Side(b)| && j <= |Side(b)[k].moves|
    requires ClockRuns(st.examined, st.ticks)
    ensures var r := MoveLoop(b, k, j, depth, maximizing, st);
            ClockRuns(r.examined, r.ticks)
    decreases |Side(b)[k].moves| - j
  {
    var moves := Side(b)[k].moves;
    if j < |moves| {
      var o := Search(moves[j].next, depth - 1, st.alpha, st.beta, !maximizing, st.ticks);
      var s := Step(k, j, moves[j], Window(st.alpha, st.beta), st.ticks, o.score);
      var st' := Record(st, maximizing, s, o.ticks);
      RecordAppends(st, maximizing, s, o.ticks);
      assert forall i :: 0 <= i < |st.examined| ==> st'.examined[i] == st.examined[i];
      assert st'.examined[|st.examined|] == s;
      if !Le(st'.beta, st'.alpha) {
        MoveLoopClock(b, k, j + 1, depth, maximizing, st');
      }
    }
  }

  lemma {:induction false} PieceLoopClock(b: Board, k: nat, depth: int, maximizing: bool, st: LoopState)
    requires k <= |Side(b)|
    requires ClockRuns(st.examined, st.ticks)
    ensures var r := PieceLoop(b, k, depth, maximizing, st);
            ClockRuns(r.examined, r.ticks)
    decreases |Side(b)| - k
  {
    if k < |Side(b)| {
      MoveLoopClock(b, k, 0, depth, maximizing, st);
      PieceLoopClock(b, k + 1, depth, maximizing, MoveLoop(b, k, 0, depth, maximizing, st));
    }
  }

  /** Running out of time does not stop the loops, which keep the same
      visiting rule (ExaminedInGenerationOrder); the scores, and so where the
      cutoffs fall, can differ. Every move examined once the clock has run
      out, cutoffs included, scores the evaluation of its hypothesis board.
      The clock readings the examined moves were searched with never go up,
      so once one move has been searched out of time, all later ones are. */
  lemma ExpiredMovesScoreStatically(b: Board, depth: int, alpha: ExtInt, beta: ExtInt, maximizing: bool, ticks: nat)
    ensures var o := Search(b, depth, alpha, beta, maximizing, ticks);
            ClockRuns(o.examined, o.ticks)
  {
    if ticks > 0 && depth != 0 && !b.gameEnded {
      PieceLoopClock(b, 0, depth, maximizing, LoopState(alpha, beta, Worst(maximizing), None, ticks - 1, []));
    }
  }

  /** `minimax(board, depth, alpha, beta, maximizing, start_time)`, with the
      clock readings still in time as `ticks`. The board is a value: the
      search works on fresh hypothesis boards and has nothing to undo. */
  method Minimax(board: Board, depth: int, alpha: ExtInt, beta: ExtInt, maximizing: bool, ticks: nat)
    returns (score: ExtInt, bestMove: Option<Move>, ticksLeft: nat)
    ensures var o := Search(board, depth, alpha, beta, maximizing, ticks);
            score == o.score && bestMove == o.bestMove && ticksLeft == o.ticks
    ensures ticks == 0 || depth == 0 || board.gameEnded ==> score == Fin(Evaluation(board)) && bestMove == None
    decreases board, 1
  {
    if ticks == 0 {
      var e := EvaluateBoard(board);
      return Fin(e), None, 0;
    }
    var clock: nat := ticks - 1;
    if depth == 0 || board.gameEnded {
      var e := EvaluateBoard(board);
      return Fin(e), None, clock;
    }
    if maximizing {
      score, bestMove, ticksLeft := MaximizingBranch(board, depth, alpha, beta, clock);
    } else {
      score, bestMove, ticksLeft := MinimizingBranch(board, depth, alpha, beta, clock);
    }
  }

  /** The `if maximizing:` branch of `minimax`: the nested loops over the
      pieces of the side to move and their moves, raising alpha. */
  method MaximizingBranch(board: Board, depth: int, alpha: ExtInt, beta: ExtInt, ticks: nat)
    returns (maxEval: ExtInt, bestMove: Option<Move>, ticksLeft: nat)
    ensures var r := PieceLoop(board, 0, depth, true, LoopState(alpha, beta, NegInf, None, ticks, []));
            maxEval == r.best && bestMove == r.bestMove && ticksLeft == r.ticks
    decreases board, 0
  {
    var clock := ticks;
    bestMove := None;
    maxEval := NegInf;
    var a := alpha;
    var pieces := Side(board);
    ghost var examined: seq<Step> := [];
    ghost var init := LoopState(alpha, beta, NegInf, None, ticks, []);
    var k := 0;
    while k < |pieces|
      invariant k <= |pieces|
      invariant PieceLoop(board, k, depth, true, LoopState(a, beta, maxEval, bestMove, clock, examined))
                == PieceLoop(board, 0, depth, true, init)
      decreases |pieces| - k
    {
      var moves := pieces[k].moves;
      ghost var start := LoopState(a, beta, maxEval, bestMove, clock, examined);
      var j := 0;
      while j < |moves|
        invariant j <= |moves|
        invariant MoveLoop(board, k, j, depth, true, LoopState(a, beta, maxEval, bestMove, clock, examined)) == MoveLoop(board, k, 0, depth, true, start)
        decreases |moves| - j
      {
        var hypoBoard := moves[j].next;
        var evaluation, _, left := Minimax(hypoBoard, depth - 1, a, beta, false, clock);
        MoveLoopStep(board, k, j, depth, true, LoopState(a, beta, maxEval, bestMove, clock, examined), evaluation, left);
        examined := examined + [Step(k, j, moves[j], Window(a, beta), clock, evaluation)];
        clock := left;
        if Lt(maxEval, evaluation) {
          maxEval := evaluation;
          bestMove := Some(moves[j]);
        }
        a := Max(a, evaluation);
        if Le(beta, a) {
          break;
        }
        j := j + 1;
      }
      k := k + 1;
    }
    ticksLeft := clock;
  }

  /** The `else` branch of `minimax`: the same loops for the minimiser,
      lowering beta. */
  method MinimizingBranch(board: Board, depth: int, alpha: ExtInt, beta: ExtInt, ticks: nat)
    returns (minEval: ExtInt, bestMove: Option<Move>, ticksLeft: nat)
    ensures var r := PieceLoop(board, 0, depth, false, LoopState(alpha, beta, PosInf, None, ticks, []));
            minEval == r.best && bestMove == r.bestMove && ticksLeft == r.ticks
    decreases board, 0
  {
    var clock := ticks;
    bestMove := None;
    minEval := PosInf;
    var b := beta;
    var pieces := Side(board);
    ghost var examined: seq<Step> := [];
    ghost var init := LoopState(alpha, beta, PosInf, None, ticks, []);
    var k := 0;
    while k < |pieces|
      invariant k <= |pieces|
      invariant PieceLoop(board, k, depth, false, LoopState(alpha, b, minEval, bestMove, clock, examined))
                == PieceLoop(board, 0, depth, false, init)
      decreases |pieces| - k
    {
      var moves := pieces[k].moves;
      ghost var start := LoopState(alpha, b, minEval, bestMove, clock, examined);
      var j := 0;
      while j < |moves|
        invariant j <= |moves|
        invariant MoveLoop(board, k, j, depth, false, LoopState(alpha, b, minEval, bestMove, clock, examined)) == MoveLoop(board, k, 0, depth, false, start)
        decreases |moves| - j
      {
        var hypoBoard := moves[j].next;
        var evaluation, _, left := Minimax(hypoBoard, depth - 1, alpha, b, true, clock);
        MoveLoopStep(board, k, j, depth, false, LoopState(alpha, b, minEval, bestMove, clock, examined), evaluation, left);
        examined := examined + [Step(k, j, moves[j], Window(alpha, b), clock, evaluation)];
        clock := left;
        if Lt(evaluation, minEval) {
          minEval := evaluation;
          bestMove := Some(moves[j]);
        }
        b := Min(b, evaluation);
        if Le(b, alpha) {
          break;
        }
        j := j + 1;
      }
      k := k + 1;
    }
    ticksLeft := clock;
  }

  /** One pass of the iterative-deepening loop: its depth and the move it
      found. */
  datatype Round = Round(depth: int, found: Option<Move>)

  /** The passes of `function_for_ai`'s loop from the given depth on, until a
      reading of the clock says time is up. Each pass searches the root with
      the full window as the maximiser. */
  function Rounds(b: Board, depth: int, ticks: nat): seq<Round>
    decreases ticks
  {
    if ticks == 0 then []
    else
      var o := Search(b, depth, NegInf, PosInf, true, ticks - 1);
      [Round(depth, o.bestMove)] + Rounds(b, depth + 1, o.ticks)
  }

  /** The search depth grows by exactly one per pass. */
  lemma {:induction false} RoundsDeepenByOne(b: Board, depth: int, ticks: nat)
    ensures forall k :: 0 <= k < |Rounds(b, depth, ticks)| ==> Rounds(b, depth, ticks)[k].depth == depth + k
    decreases ticks
  {
    if ticks > 0 {
      var o := Search(b, depth, NegInf, PosInf, true, ticks - 1);
      RoundsDeepenByOne(b, depth + 1, o.ticks);
    }
  }

  /** The move kept after a list of passes: a pass replaces it only when it
      found a move. */
  function Retained(rounds: seq<Round>): Option<Move> {
    if rounds == [] then None
    else if rounds[|rounds| - 1].found.Some? then rounds[|rounds| - 1].found
    else Retained(rounds[..|rounds| - 1])
  }

  /** The kept move is the one found by the last pass that found one, and
      None only when no pass found a move. */
  lemma {:induction false} RetainedIsLastFound(rounds: seq<Round>)
    ensures Retained(rounds).None? <==> forall i :: 0 <= i < |rounds| ==> rounds[i].found.None?
    ensures Retained(rounds).Some? ==>
              exists i :: 0 <= i < |rounds| && rounds[i].found == Retained(rounds) &&
                          forall j :: i < j < |rounds| ==> rounds[j].found.None?
  {
    if rounds != [] {
      var init := rounds[..|rounds| - 1];
      RetainedIsLastFound(init);
      assert forall i :: 0 <= i < |init| ==> init[i] == rounds[i];
      if rounds[|rounds| - 1].found.None? && Retained(init).Some? {
        var i :| 0 <= i < |init| && init[i].found == Retained(init) &&
                 forall j :: i < j < |init| ==> init[j].found.None?;
        assert rounds[i].found == Retained(rounds);
      }
    }
  }

  /** `function_for_ai(board)` up to the move it would play: it deepens one
      ply per pass until the clock runs out, keeping the last move found.
      `searched` is the depth it reports as searched. */
  method FunctionForAi(board: Board, ticks: nat) returns (bestMove: Option<Move>, searched: nat)
    ensures bestMove == Retained(Rounds(board, 1, ticks))
    ensures searched == |Rounds(board, 1, ticks)|
  {
    var clock := ticks;
    bestMove := None;
    var depth := 1;
    ghost var rounds: seq<Round> := [];
    while true
      invariant rounds + Rounds(board, depth, clock) == Rounds(board, 1, ticks)
      invariant bestMove == Retained(rounds) && depth == 1 + |rounds|
      decreases clock
    {
      if clock == 0 {
        break;
      }
      clock := clock - 1;
      var _, move, left := Minimax(board, depth, NegInf, PosInf, true, clock);
      clock := left;
      if move.Some? {
        bestMove := move;
      }
      assert (rounds + [Round(depth, move)])[..|rounds|] == rounds;
      rounds := rounds + [Round(depth, move)];
      depth := depth + 1;
    }
    assert rounds + [] == rounds;
    searched := depth - 1;
  }
}
