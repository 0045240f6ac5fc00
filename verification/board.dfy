/** The Connect Four board of board.py: a 6x7 grid of three-valued cells,
    gravity placement, the legal-move list, fullness, the lines scanned for
    four in a row, and winner detection. Boards are values: the Python
    `copy()` is plain equality here, and `drop` returns the new board. */
module Boards {

  import opened Options

  /** A cell of the grid: empty, or holding a piece of player one or two. */
  datatype Cell = Empty | P1 | P2

  const ROWS: int := 6
  const COLS: int := 7
  const FOUR: int := 4

  /** Row 0 is the top row, row ROWS-1 the bottom row. */
  datatype Board = Board(grid: seq<seq<Cell>>)

  function MinInt(a: int, b: int): int {
    if a <= b then a else b
  }

  /** The board has exactly ROWS rows of COLS cells each. */
  predicate WellShaped(b: Board) {
    |b.grid| == ROWS && forall r :: 0 <= r < ROWS ==> |b.grid[r]| == COLS
  }

  predicate OnGrid(r: int, c: int) {
    0 <= r < ROWS && 0 <= c < COLS
  }

  /** The board a new game starts from. */
  function EmptyBoard(): (b: Board)
    ensures WellShaped(b)
    ensures forall r, c :: OnGrid(r, c) ==> b.grid[r][c] == Empty
  {
    Board(seq(ROWS, _ => seq(COLS, _ => Empty)))
  }

  /** Pieces stack from the bottom: a non-empty cell has only non-empty
      cells below it in its column. */
  ghost predicate Gravity(b: Board)
    requires WellShaped(b)
  {
    forall r, r', c :: 0 <= r < r' < ROWS && 0 <= c < COLS && b.grid[r][c] != Empty
      ==> b.grid[r'][c] != Empty
  }

  /** `row` is the lowest empty cell of column `col`. */
  ghost predicate IsLanding(b: Board, col: int, row: int)
    requires WellShaped(b)
  {
    OnGrid(row, col) && b.grid[row][col] == Empty
    && forall k :: row < k < ROWS ==> b.grid[k][col] != Empty
  }

  /** Exactly the cell (row, col) differs between `b` and `b'`, where it holds `p`. */
  ghost predicate SetAt(b: Board, b': Board, row: int, col: int, p: Cell)
    requires WellShaped(b) && WellShaped(b') && OnGrid(row, col)
  {
    b'.grid[row][col] == p
    && forall r, c :: OnGrid(r, c) && (r != row || c != col) ==> b'.grid[r][c] == b.grid[r][c]
  }

  function Place(b: Board, row: int, col: int, p: Cell): (b': Board)
    requires WellShaped(b) && OnGrid(row, col)
    ensures WellShaped(b') && SetAt(b, b', row, col, p)
  {
    Board(b.grid[row := b.grid[row][col := p]])
  }

  /** The outcome of `drop`: whether it succeeded, and the board afterwards. */
  datatype DropResult = DropResult(ok: bool, board: Board)

  /** Python `drop`: fails, leaving the board as it is, when the column is out
      of range or its top cell is taken; otherwise puts `player` into the
      lowest empty cell of the column (DropLands). Because a column whose top
      cell is empty has an empty cell, the loop always finds one, and the
      final `return False` of the source is never reached. */
  function Drop(b: Board, col: int, player: Cell): (r: DropResult)
    requires WellShaped(b)
    ensures WellShaped(r.board)
    ensures r.ok <==> 0 <= col < COLS && b.grid[0][col] == Empty
    ensures !r.ok ==> r.board == b
  {
    if !(0 <= col < COLS) || b.grid[0][col] != Empty then
      DropResult(false, b)
    else
      DropScan(b, col, player, ROWS - 1)
  }

  /** The loop of `drop`: scan the column from `row` upward for an empty cell. */
  function DropScan(b: Board, col: int, player: Cell, row: int): (r: DropResult)
    requires WellShaped(b) && 0 <= col < COLS && -1 <= row < ROWS
    ensures WellShaped(r.board)
    ensures r.ok <==> exists k :: 0 <= k <= row && b.grid[k][col] == Empty
    ensures !r.ok ==> r.board == b
    decreases row + 1
  {
    if row < 0 then
      DropResult(false, b)
    else if b.grid[row][col] == Empty then
      DropResult(true, Place(b, row, col, player))
    else
      DropScan(b, col, player, row - 1)
  }

  /** When every cell below `row` is taken, a successful scan fills the
      lowest empty cell of the column and changes nothing else. */
  lemma {:induction false} DropScanLands(b: Board, col: int, player: Cell, row: int)
    requires WellShaped(b) && 0 <= col < COLS && -1 <= row < ROWS
    requires forall k :: row < k < ROWS ==> b.grid[k][col] != Empty
    ensures var r := DropScan(b, col, player, row);
            r.ok ==> exists k :: IsLanding(b, col, k) && SetAt(b, r.board, k, col, player)
    decreases row + 1
  {
    if row >= 0 {
      if b.grid[row][col] == Empty {
        assert IsLanding(b, col, row);
      } else {
        DropScanLands(b, col, player, row - 1);
      }
    }
  }

  /** A successful drop fills the lowest empty cell of the column with
      `player` and changes no other cell. */
  lemma DropLands(b: Board, col: int, player: Cell)
    requires WellShaped(b)
    ensures var r := Drop(b, col, player);
            r.ok ==> exists row :: IsLanding(b, col, row) && SetAt(b, r.board, row, col, player)
  {
    if 0 <= col < COLS && b.grid[0][col] == Empty {
      DropScanLands(b, col, player, ROWS - 1);
    }
  }

  /** `drop` keeps the pieces stacked from the bottom of every column. */
  lemma DropKeepsGravity(b: Board, col: int, player: Cell)
    requires WellShaped(b) && Gravity(b)
    ensures Gravity(Drop(b, col, player).board)
  {
    var r := Drop(b, col, player);
    DropLands(b, col, player);
    if r.ok {
      var row :| IsLanding(b, col, row) && SetAt(b, r.board, row, col, player);
      var b' := r.board;
      forall r1, r2, c | 0 <= r1 < r2 < ROWS && 0 <= c < COLS && b'.grid[r1][c] != Empty
        ensures b'.grid[r2][c] != Empty
      {
        if c == col && r1 < row {
          assert false;
        }
      }
    }
  }

  /** Python `legal_moves`: the columns whose top cell is empty, ascending. */
  function LegalMoves(b: Board): (moves: seq<int>)
    requires WellShaped(b)
    ensures |moves| <= COLS
  {
    LegalIn(b.grid[0], 0)
  }

  /** The columns c, c + 1, ... whose cell in `top` is empty, ascending, where
      `top` is the top row from column c on. */
  function LegalIn(top: seq<Cell>, c: int): (moves: seq<int>)
    ensures |moves| <= |top|
    decreases |top|
  {
    if top == [] then []
    else (if top[0] == Empty then [c] else []) + LegalIn(top[1..], c + 1)
  }

  lemma {:induction false} LegalInMembers(top: seq<Cell>, c: int)
    ensures forall x :: x in LegalIn(top, c) <==> c <= x < c + |top| && top[x - c] == Empty
    decreases |top|
  {
    if top != [] {
      LegalInMembers(top[1..], c + 1);
      assert forall k :: 1 <= k < |top| ==> top[k] == top[1..][k - 1];
    }
  }

  lemma {:induction false} LegalInAscending(top: seq<Cell>, c: int)
    ensures forall i :: 0 <= i < |LegalIn(top, c)| ==> c <= LegalIn(top, c)[i]
    ensures forall i, j :: 0 <= i < j < |LegalIn(top, c)| ==> LegalIn(top, c)[i] < LegalIn(top, c)[j]
    decreases |top|
  {
    if top != [] {
      LegalInAscending(top[1..], c + 1);
      var rest, moves := LegalIn(top[1..], c + 1), LegalIn(top, c);
      if top[0] == Empty {
        assert moves == [c] + rest;
        assert forall j :: 0 < j < |moves| ==> moves[j] == rest[j - 1];
      } else {
        assert moves == rest;
      }
    }
  }

  /** A column is a legal move exactly when it is in range and its top cell
      is empty, and the legal moves come in strictly ascending order. */
  lemma LegalMovesSpec(b: Board)
    requires WellShaped(b)
    ensures forall c :: c in LegalMoves(b) <==> 0 <= c < COLS && b.grid[0][c] == Empty
    ensures forall i, j :: 0 <= i < j < |LegalMoves(b)| ==> LegalMoves(b)[i] < LegalMoves(b)[j]
  {
    LegalInMembers(b.grid[0], 0);
    LegalInAscending(b.grid[0], 0);
  }

  /** Python `is_full`: every top cell is taken, which is the same as having
      no legal move. */
  predicate IsFull(b: Board)
    requires WellShaped(b)
    ensures IsFull(b) <==> LegalMoves(b) == []
  {
    var full := forall c :: 0 <= c < COLS ==> b.grid[0][c] != Empty;
    assert full <==> LegalMoves(b) == [] by {
      LegalMovesSpec(b);
      if LegalMoves(b) != [] {
        assert LegalMoves(b)[0] in LegalMoves(b);
      }
      if !full {
        var c :| 0 <= c < COLS && b.grid[0][c] == Empty;
        assert c in LegalMoves(b);
      }
    }
    full
  }

  /* ---------- Lines (Python `_rows`, `_cols`, `_diagonals`) ---------- */

  function Rows(b: Board): seq<seq<Cell>> {
    b.grid
  }

  function Cols(b: Board): (cols: seq<seq<Cell>>)
    requires WellShaped(b)
    ensures |cols| == COLS
  {
    seq(COLS, c requires 0 <= c < COLS => seq(ROWS, r requires 0 <= r < ROWS => b.grid[r][c]))
  }

  /** Down-right diagonals starting in column 0 at each row r. */
  function DiagsFromLeft(b: Board): (diags: seq<seq<Cell>>)
    requires WellShaped(b)
    ensures |diags| == ROWS
  {
    seq(ROWS, r requires 0 <= r < ROWS =>
      seq(MinInt(ROWS - r, COLS), i requires 0 <= i < MinInt(ROWS - r, COLS) => b.grid[r + i][i]))
  }

  /** Down-right diagonals starting in row 0 at each column c = 1 .. COLS-1. */
  function DiagsFromTop(b: Board): (diags: seq<seq<Cell>>)
    requires WellShaped(b)
    ensures |diags| == COLS - 1
  {
    seq(COLS - 1, k requires 0 <= k < COLS - 1 =>
      var c := k + 1;
      seq(MinInt(ROWS, COLS - c), i requires 0 <= i < MinInt(ROWS, COLS - c) => b.grid[i][c + i]))
  }

  /** Down-left diagonals starting in the last column at each row r. */
  function AntiDiagsFromRight(b: Board): (diags: seq<seq<Cell>>)
    requires WellShaped(b)
    ensures |diags| == ROWS
  {
    seq(ROWS, r requires 0 <= r < ROWS =>
      seq(MinInt(ROWS - r, COLS), i requires 0 <= i < MinInt(ROWS - r, COLS) => b.grid[r + i][COLS - 1 - i]))
  }

  /** Down-left diagonals starting in row 0 at each column c = 0 .. COLS-2. */
  function AntiDiagsFromTop(b: Board): (diags: seq<seq<Cell>>)
    requires WellShaped(b)
    ensures |diags| == COLS - 1
  {
    seq(COLS - 1, c requires 0 <= c < COLS - 1 =>
      seq(MinInt(ROWS, c + 1), i requires 0 <= i < MinInt(ROWS, c + 1) => b.grid[i][c - i]))
  }

  function Diagonals(b: Board): (diags: seq<seq<Cell>>)
    requires WellShaped(b)
    ensures |diags| == 2 * ROWS + 2 * (COLS - 1)
  {
    DiagsFromLeft(b) + DiagsFromTop(b) + AntiDiagsFromRight(b) + AntiDiagsFromTop(b)
  }

  /** Where each family starts in `Lines(b)`: the rows, then the columns,
      then the four diagonal families in the order `_diagonals` builds them. */
  const COLS_AT: int := ROWS
  const DIAGS_LEFT_AT: int := COLS_AT + COLS
  const DIAGS_TOP_AT: int := DIAGS_LEFT_AT + ROWS
  const ANTI_RIGHT_AT: int := DIAGS_TOP_AT + (COLS - 1)
  const ANTI_TOP_AT: int := ANTI_RIGHT_AT + ROWS
  const LINE_COUNT: int := ANTI_TOP_AT + (COLS - 1)

  /** Every line scanned for windows, in the order `winner` and the heuristic use. */
  function Lines(b: Board): (lines: seq<seq<Cell>>)
    requires WellShaped(b)
    ensures |lines| == LINE_COUNT
  {
    Rows(b) + Cols(b) + Diagonals(b)
  }

  /* ---------- Windows and the winner ---------- */

  /** Python `list.count`. */
  function Count(s: seq<Cell>, x: Cell): (n: nat)
    ensures n <= |s|
  {
    if s == [] then 0
    else (if s[0] == x then 1 else 0) + Count(s[1..], x)
  }

  /** The count is the multiplicity of x in the multiset of s. */
  lemma {:induction false} CountIsMultiplicity(s: seq<Cell>, x: Cell)
    ensures Count(s, x) == multiset(s)[x]
  {
    if s != [] {
      assert s == [s[0]] + s[1..];
      CountIsMultiplicity(s[1..], x);
    }
  }

  /** Every element of s is x exactly when the count of x is the length of s. */
  lemma {:induction false} CountAll(s: seq<Cell>, x: Cell)
    ensures Count(s, x) == |s| <==> forall i :: 0 <= i < |s| ==> s[i] == x
  {
    if s != [] {
      CountAll(s[1..], x);
      assert forall i :: 1 <= i < |s| ==> s[i] == s[1..][i - 1];
    }
  }

  /** The four cells of `line` from position i on all hold `p`. */
  ghost predicate WindowIs(line: seq<Cell>, i: int, p: Cell) {
    0 <= i && i + FOUR <= |line|
    && line[i] == p && line[i + 1] == p && line[i + 2] == p && line[i + 3] == p
  }

  /** The test `winner` applies to one window: all four cells equal the first,
      and the first is not empty. */
  function WindowWinner(window: seq<Cell>): (r: Option<Cell>)
    requires |window| == FOUR
    ensures r.Some? <==> window[0] != Empty && WindowIs(window, 0, window[0])
    ensures r.Some? ==> r.value == window[0]
  {
    CountAll(window, window[0]);
    if Count(window, window[0]) == FOUR && window[0] != Empty then Some(window[0]) else None
  }

  /** The first winning window of `line` at position i or later. */
  function LineWinner(line: seq<Cell>, i: nat): (r: Option<Cell>)
    ensures r.Some? ==> r.value != Empty
    decreases |line| - i
  {
    if i + FOUR > |line| then None
    else
      var w := WindowWinner(line[i .. i + FOUR]);
      if w.Some? then w else LineWinner(line, i + 1)
  }

  /** The first winner over a list of lines, scanned in order. */
  function LinesWinner(lines: seq<seq<Cell>>): (r: Option<Cell>)
    ensures r.Some? ==> r.value != Empty
  {
    if lines == [] then None
    else
      var w := LineWinner(lines[0], 0);
      if w.Some? then w else LinesWinner(lines[1..])
  }

  /** The scan of one line finds a window of four equal pieces exactly when
      there is one, and reports the piece of one it found. */
  lemma {:induction false} LineWinnerSpec(line: seq<Cell>, i: nat)
    ensures LineWinner(line, i).Some? ==> exists j :: i <= j && WindowIs(line, j, LineWinner(line, i).value)
    ensures LineWinner(line, i).None? <==> forall j, p :: i <= j && p != Empty ==> !WindowIs(line, j, p)
    decreases |line| - i
  {
    if i + FOUR <= |line| {
      var w := WindowWinner(line[i .. i + FOUR]);
      if w.Some? {
        assert WindowIs(line, i, w.value);
      } else {
        LineWinnerSpec(line, i + 1);
      }
    }
  }

  /** The scan over all lines finds a window of four equal pieces exactly
      when some line has one, and reports the piece of one it found. */
  lemma {:induction false} LinesWinnerSpec(lines: seq<seq<Cell>>)
    ensures LinesWinner(lines).Some? ==>
      exists k, j :: 0 <= k < |lines| && WindowIs(lines[k], j, LinesWinner(lines).value)
    ensures LinesWinner(lines).None? <==>
      forall k, j, p :: 0 <= k < |lines| && p != Empty ==> !WindowIs(lines[k], j, p)
  {
    if lines != [] {
      LineWinnerSpec(lines[0], 0);
      LinesWinnerSpec(lines[1..]);
      assert forall k :: 1 <= k < |lines| ==> lines[k] == lines[1..][k - 1];
      if LineWinner(lines[0], 0).None? && LinesWinner(lines[1..]).Some? {
        var k, j :| 0 <= k < |lines[1..]| && WindowIs(lines[1..][k], j, LinesWinner(lines[1..]).value);
        assert WindowIs(lines[k + 1], j, LinesWinner(lines).value);
      }
    }
  }

  /** Python `winner`: the piece of the first winning window over all rows,
      columns and diagonals, if any. */
  function Winner(b: Board): (r: Option<Cell>)
    requires WellShaped(b)
    ensures r.Some? ==> r.value != Empty
  {
    LinesWinner(Lines(b))
  }
}
