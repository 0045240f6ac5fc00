/** Bounds on minimax values. When every stopped position with d plies left
    scores within W + d of zero, every searched value with `depth` plies left
    does too, and only a stopped position can reach either end: one ply of
    search always moves a value strictly inside. */
module ScoreBounds {
  import opened Options
  import opened ExtInts
  import opened GameSearch
  import opened FirstBest

  /** Every stopped position with d plies left scores within W + d of zero. */
  ghost predicate LeafBounded<P(!new)>(g: Game<P>, w: int) {
    forall q: P, d: nat :: -(w + d) <= g.leaf(q, d) <= w + d
  }

  lemma {:induction false} ValueBounded<P(!new)>(g: Game<P>, w: int, p: P, depth: nat, maximizing: bool)
    requires LeafBounded(g, w)
    ensures var v := Minimax(g, p, depth, maximizing).0.n;
            && -(w + depth) <= v <= w + depth
            && (v == w + depth ==> Stops(g, p, depth) && g.leaf(p, depth) == w + depth)
            && (v == -(w + depth) ==> Stops(g, p, depth) && g.leaf(p, depth) == -(w + depth))
    decreases depth
  {
    if !Stops(g, p, depth) {
      var moves := g.moves(p);
      MinimaxPicksFirstBest(g, p, depth, maximizing);
      var i :| && IsFirstBest(g, p, depth, moves, i, maximizing)
               && Minimax(g, p, depth, maximizing) == (ChildValue(g, p, depth, moves[i], maximizing), Some(moves[i]));
      ValueBounded(g, w, g.play(p, moves[i], maximizing), depth - 1, !maximizing);
    }
  }

  /** When the moves whose children reach the top value possible one ply
      down are exactly those leading to a `won` position, and there is one,
      the maximizing search returns the first such move. */
  lemma FirstTopMove<P(!new)>(g: Game<P>, w: int, p: P, depth: nat, won: P -> bool) returns (i: nat)
    requires LeafBounded(g, w) && !Stops(g, p, depth)
    requires forall m :: ChildValue(g, p, depth, m, true) == Fin(w + depth - 1) <==> won(g.play(p, m, true))
    requires exists k :: 0 <= k < |g.moves(p)| && won(g.play(p, g.moves(p)[k], true))
    ensures i < |g.moves(p)|
    ensures Minimax(g, p, depth, true) == (Fin(w + depth - 1), Some(g.moves(p)[i]))
    ensures won(g.play(p, g.moves(p)[i], true))
    ensures forall j :: 0 <= j < i ==> !won(g.play(p, g.moves(p)[j], true))
  {
    var moves := g.moves(p);
    MinimaxPicksFirstBest(g, p, depth, true);
    i :| && IsFirstBest(g, p, depth, moves, i, true)
         && Minimax(g, p, depth, true) == (ChildValue(g, p, depth, moves[i], true), Some(moves[i]));
    var k :| 0 <= k < |moves| && won(g.play(p, moves[k], true));
    ValueBounded(g, w, g.play(p, moves[i], true), depth - 1, false);
  }
}
