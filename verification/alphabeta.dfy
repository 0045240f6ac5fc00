/** What pruning does to the search of ai.py: inside any window the pruned
    search and plain minimax agree after clamping to the window, and at the
    root, called with -inf and +inf, they return the same score and move. */
module AlphaBeta {
  import opened Options
  import opened ExtInts
  import opened GameSearch

  /* ---------- alpha-beta within a window equals plain minimax ---------- */

  /** Two runs of the plain maximizing loop whose accumulators both lie at or
      below alpha end at values that clamp alike to (alpha, beta). */
  lemma {:induction false} PlainMaxAccBelow<P>(g: Game<P>, p: P, depth: nat, moves: seq<int>,
                                            acc1: ExtInt, m1: Option<int>, acc2: ExtInt, m2: Option<int>,
                                            alpha: ExtInt, beta: ExtInt)
    requires depth > 0 && Less(alpha, beta)
    requires LessEq(acc1, alpha) && LessEq(acc2, alpha)
    ensures Clamp(PlainMaxLoop(g, p, depth, moves, acc1, m1).0, alpha, beta)
         == Clamp(PlainMaxLoop(g, p, depth, moves, acc2, m2).0, alpha, beta)
    decreases |moves|
  {
    if moves != [] {
      var v := ChildValue(g, p, depth, moves[0], true);
      var a1, n1 := if Less(acc1, v) then v else acc1, if Less(acc1, v) then Some(moves[0]) else m1;
      var a2, n2 := if Less(acc2, v) then v else acc2, if Less(acc2, v) then Some(moves[0]) else m2;
      if LessEq(v, alpha) {
        PlainMaxAccBelow(g, p, depth, moves[1..], a1, n1, a2, n2, alpha, beta);
      } else {
        assert a1 == a2 == v;
        var r1 := PlainMaxLoop(g, p, depth, moves[1..], a1, n1);
        var r2 := PlainMaxLoop(g, p, depth, moves[1..], a2, n2);
        ClampCases(r1.0, alpha, beta);
        ClampCases(r2.0, alpha, beta);
        if Less(r1.0, beta) || Less(r2.0, beta) {
          PlainMaxSameAcc(g, p, depth, moves[1..], v, n1, n2);
        }
      }
    }
  }

  /** The plain maximizing loop's score does not depend on the move it
      starts with. */
  lemma {:induction false} PlainMaxSameAcc<P>(g: Game<P>, p: P, depth: nat, moves: seq<int>,
                                           acc: ExtInt, m1: Option<int>, m2: Option<int>)
    requires depth > 0
    ensures PlainMaxLoop(g, p, depth, moves, acc, m1).0 == PlainMaxLoop(g, p, depth, moves, acc, m2).0
    decreases |moves|
  {
    if moves != [] {
      var v := ChildValue(g, p, depth, moves[0], true);
      if !Less(acc, v) {
        PlainMaxSameAcc(g, p, depth, moves[1..], acc, m1, m2);
      }
    }
  }

  /** The plain minimizing loop's score does not depend on the move it
      starts with. */
  lemma {:induction false} PlainMinSameAcc<P>(g: Game<P>, p: P, depth: nat, moves: seq<int>,
                                           acc: ExtInt, m1: Option<int>, m2: Option<int>)
    requires depth > 0
    ensures PlainMinLoop(g, p, depth, moves, acc, m1).0 == PlainMinLoop(g, p, depth, moves, acc, m2).0
    decreases |moves|
  {
    if moves != [] {
      var v := ChildValue(g, p, depth, moves[0], false);
      if !Less(v, acc) {
        PlainMinSameAcc(g, p, depth, moves[1..], acc, m1, m2);
      }
    }
  }

  /** Two runs of the plain minimizing loop whose accumulators both lie at or
      above beta end at values that clamp alike to (alpha, beta). */
  lemma {:induction false} PlainMinAccAbove<P>(g: Game<P>, p: P, depth: nat, moves: seq<int>,
                                            acc1: ExtInt, m1: Option<int>, acc2: ExtInt, m2: Option<int>,
                                            alpha: ExtInt, beta: ExtInt)
    requires depth > 0 && Less(alpha, beta)
    requires LessEq(beta, acc1) && LessEq(beta, acc2)
    ensures Clamp(PlainMinLoop(g, p, depth, moves, acc1, m1).0, alpha, beta)
         == Clamp(PlainMinLoop(g, p, depth, moves, acc2, m2).0, alpha, beta)
    decreases |moves|
  {
    if moves != [] {
      var v := ChildValue(g, p, depth, moves[0], false);
      var a1, n1 := if Less(v, acc1) then v else acc1, if Less(v, acc1) then Some(moves[0]) else m1;
      var a2, n2 := if Less(v, acc2) then v else acc2, if Less(v, acc2) then Some(moves[0]) else m2;
      if LessEq(beta, v) {
        PlainMinAccAbove(g, p, depth, moves[1..], a1, n1, a2, n2, alpha, beta);
      } else {
        assert a1 == a2 == v;
        var r1 := PlainMinLoop(g, p, depth, moves[1..], a1, n1);
        var r2 := PlainMinLoop(g, p, depth, moves[1..], a2, n2);
        ClampCases(r1.0, alpha, beta);
        ClampCases(r2.0, alpha, beta);
        if Less(alpha, r1.0) || Less(alpha, r2.0) {
          PlainMinSameAcc(g, p, depth, moves[1..], v, n1, n2);
        }
      }
    }
  }

  /** The pruned search and plain minimax agree on every score strictly
      inside (alpha, beta), and on which side of the window any other score
      falls (the classical alpha-beta correctness statement). */
  lemma {:induction false} SearchWindow<P>(g: Game<P>, p: P, depth: nat, alpha: ExtInt, beta: ExtInt, maximizing: bool)
    requires Less(alpha, beta)
    ensures Clamp(Search(g, p, depth, alpha, beta, maximizing).0, alpha, beta)
         == Clamp(Minimax(g, p, depth, maximizing).0, alpha, beta)
    decreases depth, 1, 0
  {
    if !Stops(g, p, depth) {
      if maximizing {
        MaxLoopWindow(g, p, depth, g.moves(p), alpha, beta, NegInf, None);
      } else {
        MinLoopWindow(g, p, depth, g.moves(p), alpha, beta, PosInf, None);
      }
    }
  }

  lemma {:induction false} MaxLoopWindow<P>(g: Game<P>, p: P, depth: nat, moves: seq<int>, alpha: ExtInt, beta: ExtInt,
                                         best: ExtInt, bestMove: Option<int>)
    requires depth > 0
    requires LessEq(best, alpha) && Less(alpha, beta)
    ensures Clamp(MaxLoop(g, p, depth, moves, alpha, beta, best, bestMove).0, alpha, beta)
         == Clamp(PlainMaxLoop(g, p, depth, moves, best, bestMove).0, alpha, beta)
    decreases depth, 0, |moves|
  {
    if moves != [] {
      var d: nat := depth - 1;
      var child := g.play(p, moves[0], true);
      var v := Search(g, child, d, alpha, beta, false).0;
      var w := Minimax(g, child, d, false).0;
      SearchWindow(g, child, d, alpha, beta, false);
      ClampCases(v, alpha, beta);
      ClampCases(w, alpha, beta);
      var best', bestMove' := if Less(best, v) then v else best, if Less(best, v) then Some(moves[0]) else bestMove;
      var wBest, wMove := if Less(best, w) then w else best, if Less(best, w) then Some(moves[0]) else bestMove;
      var alpha' := Max(alpha, v);
      var plainRest := PlainMaxLoop(g, p, depth, moves[1..], wBest, wMove);
      assert PlainMaxLoop(g, p, depth, moves, best, bestMove) == plainRest;
      if LessEq(beta, alpha') {
        assert LessEq(beta, v) && LessEq(beta, w);
        ClampCases(plainRest.0, alpha, beta);
        ClampCases(best', alpha, beta);
      } else if LessEq(v, alpha) {
        assert LessEq(w, alpha);
        MaxLoopWindow(g, p, depth, moves[1..], alpha', beta, best', bestMove');
        PlainMaxAccBelow(g, p, depth, moves[1..], best', bestMove', wBest, wMove, alpha, beta);
      } else {
        assert v == w && best' == wBest == v && alpha' == v;
        MaxLoopWindow(g, p, depth, moves[1..], alpha', beta, best', bestMove');
        PlainMaxSameAcc(g, p, depth, moves[1..], v, bestMove', wMove);
        var ab := MaxLoop(g, p, depth, moves[1..], alpha', beta, best', bestMove');
        ClampWiden(ab.0, plainRest.0, alpha, v, beta);
      }
    }
  }

  lemma {:induction false} MinLoopWindow<P>(g: Game<P>, p: P, depth: nat, moves: seq<int>, alpha: ExtInt, beta: ExtInt,
                                         best: ExtInt, bestMove: Option<int>)
    requires depth > 0
    requires LessEq(beta, best) && Less(alpha, beta)
    ensures Clamp(MinLoop(g, p, depth, moves, alpha, beta, best, bestMove).0, alpha, beta)
         == Clamp(PlainMinLoop(g, p, depth, moves, best, bestMove).0, alpha, beta)
    decreases depth, 0, |moves|
  {
    if moves != [] {
      var d: nat := depth - 1;
      var child := g.play(p, moves[0], false);
      var v := Search(g, child, d, alpha, beta, true).0;
      var w := Minimax(g, child, d, true).0;
      SearchWindow(g, child, d, alpha, beta, true);
      ClampCases(v, alpha, beta);
      ClampCases(w, alpha, beta);
      var best', bestMove' := if Less(v, best) then v else best, if Less(v, best) then Some(moves[0]) else bestMove;
      var wBest, wMove := if Less(w, best) then w else best, if Less(w, best) then Some(moves[0]) else bestMove;
      var beta' := Min(beta, v);
      var plainRest := PlainMinLoop(g, p, depth, moves[1..], wBest, wMove);
      assert PlainMinLoop(g, p, depth, moves, best, bestMove) == plainRest;
      if LessEq(beta', alpha) {
        assert LessEq(v, alpha) && LessEq(w, alpha);
        ClampCases(plainRest.0, alpha, beta);
        ClampCases(best', alpha, beta);
      } else if LessEq(beta, v) {
        assert LessEq(beta, w);
        MinLoopWindow(g, p, depth, moves[1..], alpha, beta', best', bestMove');
        PlainMinAccAbove(g, p, depth, moves[1..], best', bestMove', wBest, wMove, alpha, beta);
      } else {
        assert v == w && best' == wBest == v && beta' == v;
        MinLoopWindow(g, p, depth, moves[1..], alpha, beta', best', bestMove');
        PlainMinSameAcc(g, p, depth, moves[1..], v, bestMove', wMove);
        var ab := MinLoop(g, p, depth, moves[1..], alpha, beta', best', bestMove');
        ClampWidenHigh(ab.0, plainRest.0, alpha, v, beta);
      }
    }
  }

  /* ---------- at the root the pruned search is exact ---------- */

  /** The root loop: alpha starts at the running best and beta is +inf, so
      nothing is pruned and every comparison matches plain minimax. */
  lemma {:induction false} RootLoopAgrees<P>(g: Game<P>, p: P, depth: nat, moves: seq<int>,
                                          best: ExtInt, bestMove: Option<int>)
    requires depth > 0 && best != PosInf
    ensures MaxLoop(g, p, depth, moves, best, PosInf, best, bestMove)
         == PlainMaxLoop(g, p, depth, moves, best, bestMove)
    decreases |moves|
  {
    if moves != [] {
      var d: nat := depth - 1;
      var child := g.play(p, moves[0], true);
      var v := Search(g, child, d, best, PosInf, false).0;
      var w := Minimax(g, child, d, false).0;
      SearchWindow(g, child, d, best, PosInf, false);
      ClampAbove(v, w, best);
      if Less(best, v) {
        assert MaxLoop(g, p, depth, moves, best, PosInf, best, bestMove)
            == MaxLoop(g, p, depth, moves[1..], v, PosInf, v, Some(moves[0]));
        assert PlainMaxLoop(g, p, depth, moves, best, bestMove)
            == PlainMaxLoop(g, p, depth, moves[1..], v, Some(moves[0]));
        RootLoopAgrees(g, p, depth, moves[1..], v, Some(moves[0]));
      } else {
        assert MaxLoop(g, p, depth, moves, best, PosInf, best, bestMove)
            == MaxLoop(g, p, depth, moves[1..], best, PosInf, best, bestMove);
        assert PlainMaxLoop(g, p, depth, moves, best, bestMove)
            == PlainMaxLoop(g, p, depth, moves[1..], best, bestMove);
        RootLoopAgrees(g, p, depth, moves[1..], best, bestMove);
      }
    }
  }

  /** Called with alpha = -inf and beta = +inf, the pruned search returns
      the same score and the same root move as plain minimax. */
  lemma AlphaBetaMatchesMinimax<P>(g: Game<P>, p: P, depth: nat)
        ensures Search(g, p, depth, NegInf, PosInf, true) == Minimax(g, p, depth, true)
  {
    if !Stops(g, p, depth) {
      RootLoopAgrees(g, p, depth, g.moves(p), NegInf, None);
    }
  }
}
