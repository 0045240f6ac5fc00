/** Which move the search returns: because a later move replaces the best
    only with a strictly better score, the move chosen is the first one, in
    the order the moves are tried, whose score is best for the side to move. */
module FirstBest {
  import opened Options
  import opened ExtInts
  import opened GameSearch

  /** Score x is strictly better than y for the maximizing side (larger) or
      for the minimizing side (smaller). */
  predicate Better(maximizing: bool, x: ExtInt, y: ExtInt) {
    if maximizing then Less(y, x) else Less(x, y)
  }

  /** moves[i] is the first of `moves` whose position scores best for the
      side to move: no move scores better, and every earlier move scores
      strictly worse. */
  ghost predicate IsFirstBest<P>(g: Game<P>, p: P, depth: nat, moves: seq<int>, i: int, maximizing: bool)
    requires depth > 0
  {
    && 0 <= i < |moves|
    && forall j :: 0 <= j < |moves| ==>
         && !Better(maximizing, ChildValue(g, p, depth, moves[j], maximizing),
                                ChildValue(g, p, depth, moves[i], maximizing))
         && (j < i ==> Better(maximizing, ChildValue(g, p, depth, moves[i], maximizing),
                                          ChildValue(g, p, depth, moves[j], maximizing)))
  }

  /** The plain maximizing loop either keeps its starting best, when no move
      beats it, or returns the first move of greatest value together with
      that value. */
  lemma {:induction false} PlainMaxLoopPicksFirst<P>(g: Game<P>, p: P, depth: nat, moves: seq<int>,
                                                     best: ExtInt, bestMove: Option<int>)
    requires depth > 0
    ensures var r := PlainMaxLoop(g, p, depth, moves, best, bestMove);
            || (&& r == (best, bestMove)
                && forall j :: 0 <= j < |moves| ==> LessEq(ChildValue(g, p, depth, moves[j], true), best))
            || (exists i :: && IsFirstBest(g, p, depth, moves, i, true)
                            && Less(best, r.0)
                            && r == (ChildValue(g, p, depth, moves[i], true), Some(moves[i])))
    decreases |moves|
  {
    if moves != [] {
      var v := ChildValue(g, p, depth, moves[0], true);
      var rest := moves[1..];
      assert forall j :: 0 < j < |moves| ==> moves[j] == rest[j - 1];
      if Less(best, v) {
        PlainMaxLoopPicksFirst(g, p, depth, rest, v, Some(moves[0]));
        var r := PlainMaxLoop(g, p, depth, rest, v, Some(moves[0]));
        if r == (v, Some(moves[0])) && forall j :: 0 <= j < |rest| ==> LessEq(ChildValue(g, p, depth, rest[j], true), v) {
          assert IsFirstBest(g, p, depth, moves, 0, true);
        } else {
          var i :| IsFirstBest(g, p, depth, rest, i, true) && Less(v, r.0)
                   && r == (ChildValue(g, p, depth, rest[i], true), Some(rest[i]));
          assert IsFirstBest(g, p, depth, moves, i + 1, true);
        }
      } else {
        PlainMaxLoopPicksFirst(g, p, depth, rest, best, bestMove);
        var r := PlainMaxLoop(g, p, depth, rest, best, bestMove);
        if r != (best, bestMove) || exists j :: 0 <= j < |rest| && !LessEq(ChildValue(g, p, depth, rest[j], true), best) {
          var i :| IsFirstBest(g, p, depth, rest, i, true) && Less(best, r.0)
                   && r == (ChildValue(g, p, depth, rest[i], true), Some(rest[i]));
          assert IsFirstBest(g, p, depth, moves, i + 1, true);
        }
      }
    }
  }

  /** The mirror image for the minimizing loop: the first move of least value. */
  lemma {:induction false} PlainMinLoopPicksFirst<P>(g: Game<P>, p: P, depth: nat, moves: seq<int>,
                                                     best: ExtInt, bestMove: Option<int>)
    requires depth > 0
    ensures var r := PlainMinLoop(g, p, depth, moves, best, bestMove);
            || (&& r == (best, bestMove)
                && forall j :: 0 <= j < |moves| ==> LessEq(best, ChildValue(g, p, depth, moves[j], false)))
            || (exists i :: && IsFirstBest(g, p, depth, moves, i, false)
                            && Less(r.0, best)
                            && r == (ChildValue(g, p, depth, moves[i], false), Some(moves[i])))
    decreases |moves|
  {
    if moves != [] {
      var v := ChildValue(g, p, depth, moves[0], false);
      var rest := moves[1..];
      assert forall j :: 0 < j < |moves| ==> moves[j] == rest[j - 1];
      if Less(v, best) {
        PlainMinLoopPicksFirst(g, p, depth, rest, v, Some(moves[0]));
        var r := PlainMinLoop(g, p, depth, rest, v, Some(moves[0]));
        if r == (v, Some(moves[0])) && forall j :: 0 <= j < |rest| ==> LessEq(v, ChildValue(g, p, depth, rest[j], false)) {
          assert IsFirstBest(g, p, depth, moves, 0, false);
        } else {
          var i :| IsFirstBest(g, p, depth, rest, i, false) && Less(r.0, v)
                   && r == (ChildValue(g, p, depth, rest[i], false), Some(rest[i]));
          assert IsFirstBest(g, p, depth, moves, i + 1, false);
        }
      } else {
        PlainMinLoopPicksFirst(g, p, depth, rest, best, bestMove);
        var r := PlainMinLoop(g, p, depth, rest, best, bestMove);
        if r != (best, bestMove) || exists j :: 0 <= j < |rest| && !LessEq(best, ChildValue(g, p, depth, rest[j], false)) {
          var i :| IsFirstBest(g, p, depth, rest, i, false) && Less(r.0, best)
                   && r == (ChildValue(g, p, depth, rest[i], false), Some(rest[i]));
          assert IsFirstBest(g, p, depth, moves, i + 1, false);
        }
      }
    }
  }

  /** Where the search does not stop, plain minimax returns the first legal
      move whose position is best for the side to move, with its value. */
  lemma MinimaxPicksFirstBest<P>(g: Game<P>, p: P, depth: nat, maximizing: bool)
    requires !Stops(g, p, depth)
    ensures exists i :: && IsFirstBest(g, p, depth, g.moves(p), i, maximizing)
                        && Minimax(g, p, depth, maximizing)
                           == (ChildValue(g, p, depth, g.moves(p)[i], maximizing), Some(g.moves(p)[i]))
  {
    var moves := g.moves(p);
    if maximizing {
      PlainMaxLoopPicksFirst(g, p, depth, moves, NegInf, None);
      assert LessEq(ChildValue(g, p, depth, moves[0], true), NegInf) == false;
    } else {
      PlainMinLoopPicksFirst(g, p, depth, moves, PosInf, None);
      assert LessEq(PosInf, ChildValue(g, p, depth, moves[0], false)) == false;
    }
  }
}
