/** Four in a row, stated on the grid itself (a start cell and a direction),
    and the proof that the rows, columns and diagonals of board.py's line
    extraction contain exactly those runs as 4-cell windows. From this,
    `winner` finds a piece exactly when that piece has four in a row. */
module BoardLines {
  import opened Boards

  /** The four directions a run of four can take. */
  datatype Dir = Horizontal | Vertical | DownRight | DownLeft

  function RowStep(d: Dir): int {
    if d == Horizontal then 0 else 1
  }

  function ColStep(d: Dir): int {
    match d
    case Horizontal => 1
    case Vertical => 0
    case DownRight => 1
    case DownLeft => -1
  }

  /** The run of four cells from (r, c) in direction d lies on the grid. */
  predicate RunOnGrid(r: int, c: int, d: Dir) {
    OnGrid(r, c) && OnGrid(r + 3 * RowStep(d), c + 3 * ColStep(d))
  }

  /** Player p owns the four cells from (r, c) in direction d. */
  ghost predicate FourAt(b: Board, p: Cell, r: int, c: int, d: Dir)
    requires WellShaped(b)
  {
    RunOnGrid(r, c, d)
    && b.grid[r][c] == p
    && b.grid[r + RowStep(d)][c + ColStep(d)] == p
    && b.grid[r + 2 * RowStep(d)][c + 2 * ColStep(d)] == p
    && b.grid[r + 3 * RowStep(d)][c + 3 * ColStep(d)] == p
  }

  /** Player p has four in a row somewhere on the board. */
  ghost predicate HasFour(b: Board, p: Cell)
    requires WellShaped(b)
  {
    exists r, c, d :: FourAt(b, p, r, c, d)
  }

  /** Player p owns some 4-cell window of some line in `lines`. */
  ghost predicate LinesHaveFour(lines: seq<seq<Cell>>, p: Cell) {
    exists k, i :: 0 <= k < |lines| && WindowIs(lines[k], i, p)
  }

  /* ---------- the five line families, cell by cell ---------- */

  lemma LineCounts(b: Board)
    requires WellShaped(b)
    ensures |Rows(b)| == ROWS && |Cols(b)| == COLS
    ensures |DiagsFromLeft(b)| == ROWS && |DiagsFromTop(b)| == COLS - 1
    ensures |AntiDiagsFromRight(b)| == ROWS && |AntiDiagsFromTop(b)| == COLS - 1
    ensures |Diagonals(b)| == 2 * ROWS + 2 * (COLS - 1)
    ensures |Lines(b)| == LINE_COUNT
  {
  }

  /** Line k of `Lines(b)`, family by family: index arithmetic on the concatenation. */
  lemma LineAt(b: Board, k: int)
    requires WellShaped(b) && 0 <= k < |Lines(b)|
    ensures k < COLS_AT ==> Lines(b)[k] == Rows(b)[k]
    ensures COLS_AT <= k < DIAGS_LEFT_AT ==> Lines(b)[k] == Cols(b)[k - COLS_AT]
    ensures DIAGS_LEFT_AT <= k < DIAGS_TOP_AT ==> Lines(b)[k] == DiagsFromLeft(b)[k - DIAGS_LEFT_AT]
    ensures DIAGS_TOP_AT <= k < ANTI_RIGHT_AT ==> Lines(b)[k] == DiagsFromTop(b)[k - DIAGS_TOP_AT]
    ensures ANTI_RIGHT_AT <= k < ANTI_TOP_AT ==> Lines(b)[k] == AntiDiagsFromRight(b)[k - ANTI_RIGHT_AT]
    ensures ANTI_TOP_AT <= k ==> Lines(b)[k] == AntiDiagsFromTop(b)[k - ANTI_TOP_AT]
  {
    LineCounts(b);
    var d := Diagonals(b);
    var f1, f2, f3, f4 := DiagsFromLeft(b), DiagsFromTop(b), AntiDiagsFromRight(b), AntiDiagsFromTop(b);
    assert d == f1 + f2 + f3 + f4;
    if k >= DIAGS_LEFT_AT {
      assert Lines(b)[k] == d[k - DIAGS_LEFT_AT];
    }
  }

  /** The length of line k of `Lines(b)`, read off its family: a full row
      or column, or the diagonal's length from its starting cell. */
  function LineLength(k: int): int {
    if k < COLS_AT then COLS
    else if k < DIAGS_LEFT_AT then ROWS
    else if k < DIAGS_TOP_AT then MinInt(ROWS - (k - DIAGS_LEFT_AT), COLS)
    else if k < ANTI_RIGHT_AT then MinInt(ROWS, COLS - (k - DIAGS_TOP_AT + 1))
    else if k < ANTI_TOP_AT then MinInt(ROWS - (k - ANTI_RIGHT_AT), COLS)
    else MinInt(ROWS, k - ANTI_TOP_AT + 1)
  }

  /** Each line has the length of its family, and none is longer than a row. */
  lemma LineLengths(b: Board)
    requires WellShaped(b)
    ensures forall k :: 0 <= k < |Lines(b)| ==> |Lines(b)[k]| == LineLength(k) <= COLS
  {
    forall k | 0 <= k < |Lines(b)|
      ensures |Lines(b)[k]| == LineLength(k) <= COLS
    {
      LineAt(b, k);
    }
  }

  lemma RowWindowIsRun(b: Board, r: int, i: int, p: Cell)
    requires WellShaped(b) && 0 <= r < ROWS && WindowIs(Rows(b)[r], i, p)
    ensures FourAt(b, p, r, i, Horizontal)
  {
  }

  lemma ColWindowIsRun(b: Board, c: int, i: int, p: Cell)
    requires WellShaped(b) && 0 <= c < COLS && WindowIs(Cols(b)[c], i, p)
    ensures FourAt(b, p, i, c, Vertical)
  {
  }

  lemma DiagFromLeftWindowIsRun(b: Board, r: int, i: int, p: Cell)
    requires WellShaped(b) && 0 <= r < ROWS && WindowIs(DiagsFromLeft(b)[r], i, p)
    ensures FourAt(b, p, r + i, i, DownRight)
  {
  }

  lemma DiagFromTopWindowIsRun(b: Board, k: int, i: int, p: Cell)
    requires WellShaped(b) && 0 <= k < COLS - 1 && WindowIs(DiagsFromTop(b)[k], i, p)
    ensures FourAt(b, p, i, k + 1 + i, DownRight)
  {
  }

  lemma AntiDiagFromRightWindowIsRun(b: Board, r: int, i: int, p: Cell)
    requires WellShaped(b) && 0 <= r < ROWS && WindowIs(AntiDiagsFromRight(b)[r], i, p)
    ensures FourAt(b, p, r + i, COLS - 1 - i, DownLeft)
  {
  }

  lemma AntiDiagFromTopWindowIsRun(b: Board, c: int, i: int, p: Cell)
    requires WellShaped(b) && 0 <= c < COLS - 1 && WindowIs(AntiDiagsFromTop(b)[c], i, p)
    ensures FourAt(b, p, i, c - i, DownLeft)
  {
  }

  /** Every 4-cell window of every line is a run of four on the grid. */
  lemma WindowIsRun(b: Board, k: int, i: int, p: Cell)
    requires WellShaped(b) && 0 <= k < |Lines(b)| && WindowIs(Lines(b)[k], i, p)
    ensures HasFour(b, p)
  {
    LineCounts(b);
    LineAt(b, k);
    if k < COLS_AT {
      RowWindowIsRun(b, k, i, p);
    } else if k < DIAGS_LEFT_AT {
      ColWindowIsRun(b, k - COLS_AT, i, p);
    } else if k < DIAGS_TOP_AT {
      DiagFromLeftWindowIsRun(b, k - DIAGS_LEFT_AT, i, p);
    } else if k < ANTI_RIGHT_AT {
      DiagFromTopWindowIsRun(b, k - DIAGS_TOP_AT, i, p);
    } else if k < ANTI_TOP_AT {
      AntiDiagFromRightWindowIsRun(b, k - ANTI_RIGHT_AT, i, p);
    } else {
      AntiDiagFromTopWindowIsRun(b, k - ANTI_TOP_AT, i, p);
    }
  }

  /** A horizontal run from (r, c) is the window at c of row r. */
  lemma HorizontalRunIsWindow(b: Board, p: Cell, r: int, c: int)
    requires WellShaped(b) && FourAt(b, p, r, c, Horizontal)
    ensures WindowIs(Lines(b)[r], c, p)
  {
    LineCounts(b);
    LineAt(b, r);
  }

  /** A vertical run from (r, c) is the window at r of column c. */
  lemma VerticalRunIsWindow(b: Board, p: Cell, r: int, c: int)
    requires WellShaped(b) && FourAt(b, p, r, c, Vertical)
    ensures WindowIs(Lines(b)[COLS_AT + c], r, p)
  {
    LineCounts(b);
    LineAt(b, COLS_AT + c);
  }

  /** A down-right run from (r, c) lies on the diagonal starting at
      (r - c, 0) when r >= c, and at (0, c - r) otherwise. */
  lemma DownRightRunIsWindow(b: Board, p: Cell, r: int, c: int)
    requires WellShaped(b) && FourAt(b, p, r, c, DownRight)
    ensures r >= c ==> WindowIs(Lines(b)[DIAGS_LEFT_AT + (r - c)], c, p)
    ensures r < c ==> WindowIs(Lines(b)[DIAGS_TOP_AT + (c - r - 1)], r, p)
  {
    LineCounts(b);
    if r >= c {
      LineAt(b, DIAGS_LEFT_AT + (r - c));
    } else {
      LineAt(b, DIAGS_TOP_AT + (c - r - 1));
    }
  }

  /** A down-left run from (r, c) lies on the anti-diagonal starting at
      (r + c - (COLS - 1), COLS - 1) when r + c >= COLS - 1, and at
      (0, r + c) otherwise. */
  lemma DownLeftRunIsWindow(b: Board, p: Cell, r: int, c: int)
    requires WellShaped(b) && FourAt(b, p, r, c, DownLeft)
    ensures r + c >= COLS - 1 ==> WindowIs(Lines(b)[ANTI_RIGHT_AT + (r + c - (COLS - 1))], COLS - 1 - c, p)
    ensures r + c < COLS - 1 ==> WindowIs(Lines(b)[ANTI_TOP_AT + (r + c)], r, p)
  {
    LineCounts(b);
    if r + c >= COLS - 1 {
      LineAt(b, ANTI_RIGHT_AT + (r + c - (COLS - 1)));
    } else {
      LineAt(b, ANTI_TOP_AT + (r + c));
    }
  }

  /** Every run of four on the grid, in each of the four directions, is a
      4-cell window of some line: the diagonal enumeration misses none. */
  lemma RunIsWindow(b: Board, p: Cell, r: int, c: int, d: Dir)
    requires WellShaped(b) && FourAt(b, p, r, c, d)
    ensures LinesHaveFour(Lines(b), p)
  {
    LineCounts(b);
    match d {
      case Horizontal =>
        HorizontalRunIsWindow(b, p, r, c);
        assert WindowIs(Lines(b)[r], c, p);
      case Vertical =>
        VerticalRunIsWindow(b, p, r, c);
        assert WindowIs(Lines(b)[COLS_AT + c], r, p);
      case DownRight =>
        DownRightRunIsWindow(b, p, r, c);
        if r >= c {
          assert WindowIs(Lines(b)[DIAGS_LEFT_AT + (r - c)], c, p);
        } else {
          assert WindowIs(Lines(b)[DIAGS_TOP_AT + (c - r - 1)], r, p);
        }
      case DownLeft =>
        DownLeftRunIsWindow(b, p, r, c);
        if r + c >= COLS - 1 {
          assert WindowIs(Lines(b)[ANTI_RIGHT_AT + (r + c - (COLS - 1))], COLS - 1 - c, p);
        } else {
          assert WindowIs(Lines(b)[ANTI_TOP_AT + (r + c)], r, p);
        }
    }
  }

  /** The lines hold a window of four p exactly when p has four in a row on the grid. */
  lemma LinesMatchGrid(b: Board, p: Cell)
    requires WellShaped(b)
    ensures LinesHaveFour(Lines(b), p) <==> HasFour(b, p)
  {
    if LinesHaveFour(Lines(b), p) {
      var k, i :| 0 <= k < |Lines(b)| && WindowIs(Lines(b)[k], i, p);
      WindowIsRun(b, k, i, p);
    }
    if HasFour(b, p) {
      var r, c, d :| FourAt(b, p, r, c, d);
      RunIsWindow(b, p, r, c, d);
    }
  }

  /** `winner` reports a player only when that player has four in a row, and
      reports nothing exactly when neither player has. */
  lemma WinnerMeansFour(b: Board)
    requires WellShaped(b)
    ensures Winner(b).Some? ==> Winner(b).value != Empty && HasFour(b, Winner(b).value)
    ensures Winner(b).None? <==> !HasFour(b, P1) && !HasFour(b, P2)
  {
    var lines := Lines(b);
    LinesWinnerSpec(lines);
    LinesMatchGrid(b, P1);
    LinesMatchGrid(b, P2);
    if Winner(b).Some? {
      LinesMatchGrid(b, Winner(b).value);
    } else {
      assert !LinesHaveFour(lines, P1) && !LinesHaveFour(lines, P2);
    }
  }
}
