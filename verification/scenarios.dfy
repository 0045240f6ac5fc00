/** Concrete positions of the game: a new board, the first drop, the legal
    moves of the empty board, and winner detection on an empty board and on
    a completed bottom row. */
module Scenarios {
  import opened Options
  import opened Boards
  import opened BoardLines
  import opened AI

  /** The board with P1 in the four leftmost cells of the bottom row. */
  function BottomRowFour(): (b: Board)
    ensures WellShaped(b)
  {
    Board(seq(ROWS, r requires 0 <= r < ROWS =>
      seq(COLS, c requires 0 <= c < COLS => if r == ROWS - 1 && c < FOUR then P1 else Empty)))
  }

  /** A piece dropped into an empty column lands in the bottom row. */
  lemma FirstDropLandsAtBottom()
    ensures Drop(EmptyBoard(), 0, P1).ok
    ensures Drop(EmptyBoard(), 0, P1).board.grid[ROWS - 1][0] == P1
  {
  }

  /** Every column of the empty board is a legal move, in order. */
  lemma EmptyBoardMoves()
    ensures LegalMoves(EmptyBoard()) == [0, 1, 2, 3, 4, 5, 6]
  {
    var b := EmptyBoard();
    var top := b.grid[0];
    assert LegalIn(top[7..], 7) == [];
    assert LegalIn(top[6..], 6) == [6];
    assert LegalIn(top[5..], 5) == [5, 6];
    assert LegalIn(top[4..], 4) == [4, 5, 6];
    assert LegalIn(top[3..], 3) == [3, 4, 5, 6];
    assert LegalIn(top[2..], 2) == [2, 3, 4, 5, 6];
    assert LegalIn(top[1..], 1) == [1, 2, 3, 4, 5, 6];
    assert top[0..] == top;
  }

  /** Nobody has won on the empty board. */
  lemma EmptyBoardNoWinner()
    ensures Winner(EmptyBoard()) == None
  {
    var b := EmptyBoard();
    WinnerMeansFour(b);
  }

  /** Four P1 pieces side by side in the bottom row win for P1. */
  lemma BottomRowWinsForP1()
    ensures Winner(BottomRowFour()) == Some(P1)
  {
    var b := BottomRowFour();
    WinnerMeansFour(b);
    assert FourAt(b, P1, ROWS - 1, 0, Horizontal);
    if HasFour(b, P2) {
      var r, c, d :| FourAt(b, P2, r, c, d);
      assert b.grid[r][c] == P2;
    }
  }

  /** A computer player created for P2 alone plays P2 and searches 4 plies. */
  lemma DefaultPlayer()
    ensures NewAI(P2).player == P2 && NewAI(P2).depth == 4
  {
  }

  /** On the empty board the default computer player always names a column
      in range, whatever the fallback pick. */
  lemma DefaultPlayerMovesOnEmptyBoard(choice: nat)
    ensures var m := BestMove(NewAI(P2), EmptyBoard(), choice);
            m.Some? && 0 <= m.value < COLS
  {
    EmptyBoardMoves();
    LegalMovesSpec(EmptyBoard());
  }
}
