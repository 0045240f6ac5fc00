/** The computer player of ai.py: the search of module GameSearch played on
    the board of board.py, with terminal scores weighted by the remaining
    depth, and what that guarantees about the move it picks. Every child
    position is a fresh board value, so the search is a pure function. */
module AI {
  import opened Options
  import opened Boards
  import opened ExtInts
  import opened Heuristics
  import opened GameSearch
  import opened AlphaBeta
  import opened FirstBest
  import opened ScoreBounds

  /** A win found with `depth` plies left scores WIN_SCORE + depth. */
  const WIN_SCORE: int := 10000
  /** The search depth a new player gets when none is given. */
  const DEFAULT_DEPTH: nat := 4

  /** The piece the computer plays and how many plies it searches. */
  datatype MinimaxAI = MinimaxAI(player: Cell, depth: nat)

  /** Python `MinimaxAI(player)`: the depth argument left at its default. */
  function NewAI(player: Cell): (ai: MinimaxAI)
    ensures ai.player == player && ai.depth == 4
  {
    MinimaxAI(player, DEFAULT_DEPTH)
  }

  /** Boards of the proper 6x7 shape: the positions the search visits. */
  type Grid = b: Board | WellShaped(b) witness EmptyBoard()

  /** Python `_minimax` stops here: someone has won, the depth is used up,
      or the board is full. */
  predicate Terminal(b: Board, depth: nat)
    requires WellShaped(b)
  {
    Winner(b).Some? || depth == 0 || IsFull(b)
  }

  /** The score of a stopped search, in this order: own win (10000 + depth),
      opponent win (-10000 - depth), otherwise the heuristic. */
  function TerminalScore(b: Board, me: Cell, depth: nat): (score: int)
    requires WellShaped(b)
    ensures me != Empty ==> -(WIN_SCORE + depth) <= score <= WIN_SCORE + depth
  {
    var w := Winner(b);
    if w == Some(me) then WIN_SCORE + depth
    else if w.Some? then -WIN_SCORE - depth
    else
      assert me != Empty ==> -(WIN_SCORE + depth) <= Heuristic(b, me) <= WIN_SCORE + depth by {
        if me != Empty { HeuristicBound(b, me); }
      }
      Heuristic(b, me)
  }

  /** A child of the search: a copy of the board with `player`'s piece
      dropped into `col`. */
  function Play(b: Grid, col: int, player: Cell): Grid {
    Drop(b, col, player).board
  }

  /** The board as a game for the searching player `me`: the legal moves in
      ascending column order, drops by `me` on maximizing plies and by the
      opponent on minimizing ones, the winner test, and the terminal score. */
  function BoardGame(me: Cell): Game<Grid> {
    Game((b: Grid) => LegalMoves(b),
         (b: Grid, col: int, mine: bool) => Play(b, col, if mine then me else Opponent(me)),
         (b: Grid) => Winner(b).Some?,
         (b: Grid, depth: nat) => TerminalScore(b, me, depth))
  }

  /** Python `_minimax(board, depth, alpha, beta, maximizing)` for `me`. */
  function MinimaxSearch(me: Cell, b: Grid, depth: nat, alpha: ExtInt, beta: ExtInt, maximizing: bool)
    : (r: (ExtInt, Option<int>))
    ensures r.0.Fin?
    ensures r.1.Some? ==> r.1.value in LegalMoves(b)
    ensures r.1.None? <==> Terminal(b, depth)
  {
    Search(BoardGame(me), b, depth, alpha, beta, maximizing)
  }

  /** The move the search picks at the root: maximizing, with the full window. */
  function SearchMove(ai: MinimaxAI, b: Grid): (r: Option<int>)
    ensures r.Some? ==> r.value in LegalMoves(b)
    ensures r.None? <==> Terminal(b, ai.depth)
  {
    MinimaxSearch(ai.player, b, ai.depth, NegInf, PosInf, true).1
  }

  /** Python `best_move`: the search's move, or else the legal move at
      position `choice` (modulo their number), standing in for the random
      pick; None where the random pick would fail on an empty list. */
  function BestMove(ai: MinimaxAI, b: Grid, choice: nat): (r: Option<int>)
    ensures r.Some? ==> r.value in LegalMoves(b)
    ensures r.None? <==> LegalMoves(b) == []
    ensures SearchMove(ai, b).Some? ==> r == SearchMove(ai, b)
  {
    var m := SearchMove(ai, b);
    if m.Some? then m
    else
      var legal := LegalMoves(b);
      if legal == [] then None else Some(legal[choice % |legal|])
  }

  /* ---------- what the search guarantees on the board ---------- */

  /** Terminal scoring: a stopped search returns no move, and scores an own
      win 10000 + depth, an opponent win -10000 - depth, and otherwise (depth
      used up or board full) the heuristic. */
  lemma TerminalScoring(me: Cell, b: Grid, depth: nat, alpha: ExtInt, beta: ExtInt, maximizing: bool)
    ensures Winner(b) == Some(me) ==>
              MinimaxSearch(me, b, depth, alpha, beta, maximizing) == (Fin(WIN_SCORE + depth), None)
    ensures Winner(b).Some? && Winner(b) != Some(me) ==>
              MinimaxSearch(me, b, depth, alpha, beta, maximizing) == (Fin(-WIN_SCORE - depth), None)
    ensures Winner(b).None? && (depth == 0 || IsFull(b)) ==>
              MinimaxSearch(me, b, depth, alpha, beta, maximizing) == (Fin(Heuristic(b, me)), None)
  {
  }

  /** On a board already won or full, or with depth 0, the search names no
      move and `best_move` takes the fallback pick among the legal moves. */
  lemma TerminalFallsBack(ai: MinimaxAI, b: Grid, choice: nat)
    requires Terminal(b, ai.depth) && LegalMoves(b) != []
    ensures SearchMove(ai, b) == None
    ensures BestMove(ai, b, choice) == Some(LegalMoves(b)[choice % |LegalMoves(b)|])
  {
  }

  /** At the root, the pruned search returns the same score and move as
      plain minimax over the same boards, depth and scores. */
  lemma RootSearchIsMinimax(ai: MinimaxAI, b: Grid)
    ensures MinimaxSearch(ai.player, b, ai.depth, NegInf, PosInf, true)
         == Minimax(BoardGame(ai.player), b, ai.depth, true)
  {
    AlphaBetaMatchesMinimax(BoardGame(ai.player), b, ai.depth);
  }

  /** Ties go to the lowest column: the search's move is the first legal
      column, in ascending order, whose child board has the greatest
      minimax value. */
  lemma SearchMoveIsFirstBest(ai: MinimaxAI, b: Grid)
    requires !Terminal(b, ai.depth)
    ensures exists i :: && 0 <= i < |LegalMoves(b)| && SearchMove(ai, b) == Some(LegalMoves(b)[i])
                        && IsFirstBest(BoardGame(ai.player), b, ai.depth, LegalMoves(b), i, true)
  {
    RootSearchIsMinimax(ai, b);
    MinimaxPicksFirstBest(BoardGame(ai.player), b, ai.depth, true);
  }

  /** A stopped search scores within WIN_SCORE + depth of zero, reaching the
      top exactly on an own win and the bottom exactly on an opponent win,
      because the heuristic of an undecided board stays far inside. */
  lemma TerminalScoreRange(me: Cell, b: Grid, depth: nat)
    requires me != Empty
    ensures -(WIN_SCORE + depth) <= TerminalScore(b, me, depth) <= WIN_SCORE + depth
    ensures TerminalScore(b, me, depth) == WIN_SCORE + depth <==> Winner(b) == Some(me)
    ensures TerminalScore(b, me, depth) == -(WIN_SCORE + depth) <==> Winner(b) == Some(Opponent(me))
  {
    if Winner(b).None? {
      HeuristicBound(b, me);
    }
  }

  /** Every terminal score of the board game lies within WIN_SCORE + depth. */
  lemma BoardLeafBounded(me: Cell)
    requires me != Empty
    ensures LeafBounded(BoardGame(me), WIN_SCORE)
  {
    forall b: Grid, depth: nat
      ensures -(WIN_SCORE + depth) <= BoardGame(me).leaf(b, depth) <= WIN_SCORE + depth
    {
      TerminalScoreRange(me, b, depth);
    }
  }

  /** With `depth` plies left every score lies within WIN_SCORE + depth of
      zero, and reaches the top (bottom) exactly on a board the searching
      player (the opponent) has already won: a win found sooner outscores
      every later win and every heuristic value. */
  lemma ValueBounds(me: Cell, b: Grid, depth: nat, maximizing: bool)
    requires me != Empty
    ensures var v := Minimax(BoardGame(me), b, depth, maximizing).0.n;
            && -(WIN_SCORE + depth) <= v <= WIN_SCORE + depth
            && (v == WIN_SCORE + depth <==> Winner(b) == Some(me))
            && (v == -(WIN_SCORE + depth) <==> Winner(b) == Some(Opponent(me)))
  {
    BoardLeafBounded(me);
    ValueBounded(BoardGame(me), WIN_SCORE, b, depth, maximizing);
    TerminalScoreRange(me, b, depth);
  }

  /** Dropping `me`'s piece into column `col` wins the game at once. */
  predicate WinsAtOnce(b: Grid, col: int, me: Cell) {
    Winner(Play(b, col, me)) == Some(me)
  }

  /** A child of the root reaches the top score one ply down exactly when
      its move wins at once. */
  lemma ChildTopIffWin(me: Cell, b: Grid, depth: nat, col: int)
    requires me != Empty && depth > 0
    ensures ChildValue(BoardGame(me), b, depth, col, true) == Fin(WIN_SCORE + depth - 1)
        <==> WinsAtOnce(b, col, me)
  {
    ValueBounds(me, Play(b, col, me), depth - 1, false);
  }

  /** The same for every column at once, phrased for the search game. */
  lemma ChildrenTopIffWin(me: Cell, b: Grid, depth: nat)
    requires me != Empty && depth > 0
    ensures forall col :: ChildValue(BoardGame(me), b, depth, col, true) == Fin(WIN_SCORE + depth - 1)
                      <==> OwnWin(me)(BoardGame(me).play(b, col, true))
  {
    forall col
      ensures ChildValue(BoardGame(me), b, depth, col, true) == Fin(WIN_SCORE + depth - 1)
          <==> OwnWin(me)(BoardGame(me).play(b, col, true))
    {
      ChildTopIffWin(me, b, depth, col);
    }
  }

  /** The test "`me` has won this board", as a function value. */
  function OwnWin(me: Cell): Grid -> bool {
    (q: Grid) => Winner(q) == Some(me)
  }

  /** When some legal move wins at once, the search plays a winning move,
      and the lowest winning column. */
  lemma TakesImmediateWin(ai: MinimaxAI, b: Grid)
    requires ai.player != Empty && !Terminal(b, ai.depth)
    requires exists col :: col in LegalMoves(b) && WinsAtOnce(b, col, ai.player)
    ensures exists i :: && 0 <= i < |LegalMoves(b)|
                        && SearchMove(ai, b) == Some(LegalMoves(b)[i])
                        && WinsAtOnce(b, LegalMoves(b)[i], ai.player)
                        && forall j :: 0 <= j < i ==> !WinsAtOnce(b, LegalMoves(b)[j], ai.player)
  {
    var me, depth, g, moves := ai.player, ai.depth, BoardGame(ai.player), LegalMoves(b);
    assert g.moves(b) == moves;
    var col :| col in moves && WinsAtOnce(b, col, me);
    var k :| 0 <= k < |moves| && moves[k] == col;
    assert OwnWin(me)(g.play(b, moves[k], true));
    ChildrenTopIffWin(me, b, depth);
    BoardLeafBounded(me);
    var i := FirstTopMove(g, WIN_SCORE, b, depth, OwnWin(me));
    RootSearchIsMinimax(ai, b);
  }
}
