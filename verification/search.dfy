/** The depth-bounded minimax search with alpha-beta pruning of ai.py's
    `_minimax`, written over an abstract two-player game so that the search
    and its proofs do not depend on how positions are represented. Module AI
    instantiates it with the board of board.py. Plain minimax over the same
    game tree, with no pruning, is the reference the pruned search must match. */
module GameSearch {
  import opened Options
  import opened ExtInts

  /** What the search needs to know about a game:
      - moves(p): the legal moves at p, in the order the search tries them;
      - play(p, m, mine): the position after move m, made by the searching
        side when `mine` holds and by its opponent otherwise;
      - decided(p): somebody has already won at p;
      - leaf(p, depth): the score of p where the search stops with `depth`
        plies left. */
  datatype Game<!P> = Game(moves: P -> seq<int>, play: (P, int, bool) -> P,
                          decided: P -> bool, leaf: (P, nat) -> int)

  /** The search stops at p: somebody has won, the depth is used up, or no
      move is left (the full board). */
  predicate Stops<P>(g: Game<P>, p: P, depth: nat) {
    g.decided(p) || depth == 0 || g.moves(p) == []
  }

  /** The score of p searched `depth` plies ahead inside the window
      (alpha, beta), and the move that attains it; no move where the search
      stops. `maximizing` says whether the searching side is to move. */
  function Search<P>(g: Game<P>, p: P, depth: nat, alpha: ExtInt, beta: ExtInt, maximizing: bool)
    : (r: (ExtInt, Option<int>))
    ensures r.0.Fin?
    ensures r.1.Some? ==> r.1.value in g.moves(p)
    ensures r.1.None? <==> Stops(g, p, depth)
    ensures Stops(g, p, depth) ==> r.0 == Fin(g.leaf(p, depth))
    decreases depth, 1, 0
  {
    if Stops(g, p, depth) then
      (Fin(g.leaf(p, depth)), None)
    else if maximizing then
      MaxLoop(g, p, depth, g.moves(p), alpha, beta, NegInf, None)
    else
      MinLoop(g, p, depth, g.moves(p), alpha, beta, PosInf, None)
  }

  /** The maximizing `for move in legal_moves` loop over the moves not yet
      tried, with the running alpha and the best score and move so far. A
      later move replaces the best only with a strictly greater score, and
      the loop breaks as soon as beta <= alpha. */
  function MaxLoop<P>(g: Game<P>, p: P, depth: nat, moves: seq<int>, alpha: ExtInt, beta: ExtInt,
                      best: ExtInt, bestMove: Option<int>): (r: (ExtInt, Option<int>))
    requires depth > 0
    ensures LessEq(best, r.0)
    ensures best.Fin? || (best.NegInf? && moves != []) ==> r.0.Fin?
    ensures r.1 == bestMove || (r.1.Some? && r.1.value in moves)
    ensures best.NegInf? && moves != [] ==> r.1.Some?
    decreases depth, 0, |moves|
  {
    if moves == [] then (best, bestMove)
    else
      var v := Search(g, g.play(p, moves[0], true), depth - 1, alpha, beta, false).0;
      var (best', bestMove') := if Less(best, v) then (v, Some(moves[0])) else (best, bestMove);
      var alpha' := Max(alpha, v);
      if LessEq(beta, alpha') then (best', bestMove')
      else MaxLoop(g, p, depth, moves[1..], alpha', beta, best', bestMove')
  }

  /** The minimizing loop: the opponent moves, a strictly smaller score
      replaces the best, and beta is narrowed. */
  function MinLoop<P>(g: Game<P>, p: P, depth: nat, moves: seq<int>, alpha: ExtInt, beta: ExtInt,
                      best: ExtInt, bestMove: Option<int>): (r: (ExtInt, Option<int>))
    requires depth > 0
    ensures LessEq(r.0, best)
    ensures best.Fin? || (best.PosInf? && moves != []) ==> r.0.Fin?
    ensures r.1 == bestMove || (r.1.Some? && r.1.value in moves)
    ensures best.PosInf? && moves != [] ==> r.1.Some?
    decreases depth, 0, |moves|
  {
    if moves == [] then (best, bestMove)
    else
      var v := Search(g, g.play(p, moves[0], false), depth - 1, alpha, beta, true).0;
      var (best', bestMove') := if Less(v, best) then (v, Some(moves[0])) else (best, bestMove);
      var beta' := Min(beta, v);
      if LessEq(beta', alpha) then (best', bestMove')
      else MinLoop(g, p, depth, moves[1..], alpha, beta', best', bestMove')
  }

  /* ---------- plain minimax: the same tree, nothing pruned ---------- */

  function Minimax<P>(g: Game<P>, p: P, depth: nat, maximizing: bool): (r: (ExtInt, Option<int>))
    ensures r.0.Fin?
    ensures r.1.Some? ==> r.1.value in g.moves(p)
    ensures r.1.None? <==> Stops(g, p, depth)
    ensures Stops(g, p, depth) ==> r.0 == Fin(g.leaf(p, depth))
    decreases depth, 1, 0
  {
    if Stops(g, p, depth) then
      (Fin(g.leaf(p, depth)), None)
    else if maximizing then
      PlainMaxLoop(g, p, depth, g.moves(p), NegInf, None)
    else
      PlainMinLoop(g, p, depth, g.moves(p), PosInf, None)
  }

  /** The minimax value of the position after move m. */
  function ChildValue<P>(g: Game<P>, p: P, depth: nat, m: int, maximizing: bool): (v: ExtInt)
    requires depth > 0
    ensures v.Fin?
    decreases depth, 0, 0
  {
    Minimax(g, g.play(p, m, maximizing), depth - 1, !maximizing).0
  }

  function PlainMaxLoop<P>(g: Game<P>, p: P, depth: nat, moves: seq<int>, best: ExtInt, bestMove: Option<int>)
    : (r: (ExtInt, Option<int>))
    requires depth > 0
    ensures LessEq(best, r.0)
    ensures best.Fin? || (best.NegInf? && moves != []) ==> r.0.Fin?
    ensures r.1 == bestMove || (r.1.Some? && r.1.value in moves)
    ensures best.NegInf? && moves != [] ==> r.1.Some?
    decreases depth, 0, |moves|
  {
    if moves == [] then (best, bestMove)
    else
      var v := ChildValue(g, p, depth, moves[0], true);
      if Less(best, v) then PlainMaxLoop(g, p, depth, moves[1..], v, Some(moves[0]))
      else PlainMaxLoop(g, p, depth, moves[1..], best, bestMove)
  }

  function PlainMinLoop<P>(g: Game<P>, p: P, depth: nat, moves: seq<int>, best: ExtInt, bestMove: Option<int>)
    : (r: (ExtInt, Option<int>))
    requires depth > 0
    ensures LessEq(r.0, best)
    ensures best.Fin? || (best.PosInf? && moves != []) ==> r.0.Fin?
    ensures r.1 == bestMove || (r.1.Some? && r.1.value in moves)
    ensures best.PosInf? && moves != [] ==> r.1.Some?
    decreases depth, 0, |moves|
  {
    if moves == [] then (best, bestMove)
    else
      var v := ChildValue(g, p, depth, moves[0], false);
      if Less(v, best) then PlainMinLoop(g, p, depth, moves[1..], v, Some(moves[0]))
      else PlainMinLoop(g, p, depth, moves[1..], best, bestMove)
  }
}
