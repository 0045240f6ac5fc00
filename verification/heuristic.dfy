/** The static evaluation of ai.py: every 4-cell window of every row, column
    and diagonal is scored for the searching player, and each of its pieces
    in the centre column earns a bonus. */
module Heuristics {
  import opened Boards
  import opened BoardLines

  /** The other side, as ai.py computes it: P1 when playing P2, else P2. */
  function Opponent(me: Cell): (opp: Cell)
    ensures opp != Empty
    ensures me != Empty ==> opp != me
  {
    if me == P2 then P1 else P2
  }

  /* ---------- the static heuristic ---------- */

  /** Python `_evaluate_window`: the first matching case of four own pieces
      (1000), three own and one empty (5), two own and two empty (2), three
      opponent and one empty (-4), and 0 otherwise. */
  function EvaluateWindow(window: seq<Cell>, player: Cell, opp: Cell): (score: int)
    ensures score == 1000 <==> multiset(window)[player] == 4
    ensures score == 5 <==> multiset(window)[player] == 3 && multiset(window)[Empty] == 1
    ensures score == 2 <==> multiset(window)[player] == 2 && multiset(window)[Empty] == 2
    ensures score == -4 <==> multiset(window)[opp] == 3 && multiset(window)[Empty] == 1
                             && !(multiset(window)[player] == 3 && multiset(window)[Empty] == 1)
                             && multiset(window)[player] != 4
    ensures score in {1000, 5, 2, -4, 0}
  {
    CountIsMultiplicity(window, player);
    CountIsMultiplicity(window, opp);
    CountIsMultiplicity(window, Empty);
    var countP := Count(window, player);
    var countO := Count(window, opp);
    var countE := Count(window, Empty);
    if countP == 4 then 1000
    else if countP == 3 && countE == 1 then 5
    else if countP == 2 && countE == 2 then 2
    else if countO == 3 && countE == 1 then -4
    else 0
  }

  /* The score of a line and of the board as flat sums over their 4-cell
     windows: the reference the loops of `_score_line` and `_heuristic`
     are compared with. */

  /** The 4-cell windows of `line`, left to right. */
  function Windows(line: seq<Cell>): seq<seq<Cell>> {
    if |line| < FOUR then []
    else seq(|line| - FOUR + 1, i requires 0 <= i < |line| - FOUR + 1 => line[i .. i + FOUR])
  }

  /** The windows of every line, line after line. */
  function AllWindows(lines: seq<seq<Cell>>): seq<seq<Cell>> {
    if lines == [] then [] else Windows(lines[0]) + AllWindows(lines[1..])
  }

  /** The number of 4-cell windows in lines k, k + 1, ... of `Lines(b)`. */
  function WindowsFrom(k: nat): nat
    decreases LINE_COUNT - k
  {
    if k >= LINE_COUNT then 0
    else (if LineLength(k) < FOUR then 0 else LineLength(k) - FOUR + 1) + WindowsFrom(k + 1)
  }

  lemma {:induction false} WindowsFromCount(b: Board, k: nat)
    requires WellShaped(b) && k <= LINE_COUNT
    ensures |AllWindows(Lines(b)[k..])| == WindowsFrom(k)
    decreases LINE_COUNT - k
  {
    LineCounts(b);
    if k < LINE_COUNT {
      LineLengths(b);
      assert |Lines(b)[k]| == LineLength(k);
      assert Lines(b)[k..][1..] == Lines(b)[k + 1..];
      WindowsFromCount(b, k + 1);
    }
  }

  /** The heuristic scores 69 windows: 24 in the rows, 21 in the columns and
      12 in each of the two diagonal directions, which is the number of runs
      of four cells on a 6x7 grid. */
  lemma WindowCount(b: Board)
    requires WellShaped(b)
    ensures |AllWindows(Lines(b))| == 69
  {
    WindowsFromCount(b, 0);
    assert Lines(b)[0..] == Lines(b);
    WindowsTotal();
  }

  /** 24 + 21 + 12 + 12 windows in all. */
  lemma WindowsTotal()
    ensures WindowsFrom(0) == 69
  {
    assert COLS_AT == 6 && DIAGS_LEFT_AT == 13 && DIAGS_TOP_AT == 19;
    assert ANTI_RIGHT_AT == 25 && ANTI_TOP_AT == 31 && LINE_COUNT == 37;
    assert WindowsFrom(34) == 6;
    assert WindowsFrom(31) == 6;
    assert WindowsFrom(28) == 6;
    assert WindowsFrom(25) == 12;
    assert WindowsFrom(22) == 12;
    assert WindowsFrom(19) == 18;
    assert WindowsFrom(16) == 18;
    assert WindowsFrom(13) == 24;
    assert WindowsFrom(6) == 45;
  }

  /** The sum of the window scores of `ws` for `me`. */
  function SumEvaluate(ws: seq<seq<Cell>>, me: Cell): int {
    if ws == [] then 0 else EvaluateWindow(ws[0], me, Opponent(me)) + SumEvaluate(ws[1..], me)
  }

  lemma {:induction false} SumEvaluateAppend(ws: seq<seq<Cell>>, vs: seq<seq<Cell>>, me: Cell)
    ensures SumEvaluate(ws + vs, me) == SumEvaluate(ws, me) + SumEvaluate(vs, me)
  {
    if ws == [] {
      assert ws + vs == vs;
    } else {
      assert (ws + vs)[0] == ws[0];
      assert (ws + vs)[1..] == ws[1..] + vs;
      SumEvaluateAppend(ws[1..], vs, me);
    }
  }

  lemma {:induction false} ScoreWindowsIsSum(line: seq<Cell>, me: Cell, i: nat)
    requires |line| >= FOUR && i <= |line| - FOUR + 1
    ensures ScoreWindows(line, me, i) == SumEvaluate(Windows(line)[i..], me)
    decreases |line| - i
  {
    if i + FOUR <= |line| {
      assert Windows(line)[i..][1..] == Windows(line)[i + 1..];
      ScoreWindowsIsSum(line, me, i + 1);
    }
  }

  /** The loop of Python `_score_line`: the window scores of `line` from position i on. */
  function ScoreWindows(line: seq<Cell>, me: Cell, i: nat): int
    decreases |line| - i
  {
    if i + FOUR > |line| then 0
    else EvaluateWindow(line[i .. i + FOUR], me, Opponent(me)) + ScoreWindows(line, me, i + 1)
  }

  /** `_score_line` adds the score of every 4-cell window of the line once. */
  function ScoreLine(line: seq<Cell>, me: Cell): (score: int)
    ensures score == SumEvaluate(Windows(line), me)
  {
    if |line| >= FOUR then
      ScoreWindowsIsSum(line, me, 0);
      assert Windows(line)[0..] == Windows(line);
      ScoreWindows(line, me, 0)
    else
      ScoreWindows(line, me, 0)
  }

  /** The sum of the line scores over a list of lines. */
  function ScoreLines(lines: seq<seq<Cell>>, me: Cell): int {
    if lines == [] then 0 else ScoreLine(lines[0], me) + ScoreLines(lines[1..], me)
  }

  /** The centre column, top to bottom. */
  function CenterColumn(b: Board): (col: seq<Cell>)
    requires WellShaped(b)
    ensures |col| == ROWS
    ensures forall r :: 0 <= r < ROWS ==> col[r] == b.grid[r][COLS / 2]
  {
    seq(ROWS, r requires 0 <= r < ROWS => b.grid[r][COLS / 2])
  }

  /** Python `_heuristic`: three points per own piece in the centre column,
      plus the window scores of every row, column and diagonal. */
  function Heuristic(b: Board, me: Cell): (h: int)
    requires WellShaped(b)
    ensures h == 3 * multiset(CenterColumn(b))[me] + SumEvaluate(AllWindows(Lines(b)), me)
  {
    CountIsMultiplicity(CenterColumn(b), me);
    ScoreLinesIsSum(Lines(b), me);
    Count(CenterColumn(b), me) * 3 + ScoreLines(Lines(b), me)
  }

  /** The line scores summed over a list of lines are the scores of all
      their windows. */
  lemma {:induction false} ScoreLinesIsSum(lines: seq<seq<Cell>>, me: Cell)
    ensures ScoreLines(lines, me) == SumEvaluate(AllWindows(lines), me)
  {
    if lines != [] {
      ScoreLinesIsSum(lines[1..], me);
      SumEvaluateAppend(Windows(lines[0]), AllWindows(lines[1..]), me);
    }
  }

  /* ---------- bounds ---------- */

  /** A window that is not four of `me` scores between -4 and 5. */
  lemma WindowScoreSmall(window: seq<Cell>, me: Cell)
    requires |window| == FOUR && !WindowIs(window, 0, me)
    ensures -4 <= EvaluateWindow(window, me, Opponent(me)) <= 5
  {
    CountAll(window, me);
  }

  /** Without a window of four `me`, each window of the line from position i
      on adds between -4 and 5. */
  lemma {:induction false} ScoreWindowsBound(line: seq<Cell>, me: Cell, i: nat)
    requires i <= |line|
    requires forall j :: !WindowIs(line, j, me)
    ensures -4 * (|line| - i) <= ScoreWindows(line, me, i) <= 5 * (|line| - i)
    decreases |line| - i
  {
    if i + FOUR <= |line| {
      var window := line[i .. i + FOUR];
      assert !WindowIs(line, i, me);
      WindowScoreSmall(window, me);
      ScoreWindowsBound(line, me, i + 1);
    }
  }

  /** Without a window of four `me`, lines of at most COLS cells score
      between -4 and 5 per cell. */
  lemma {:induction false} ScoreLinesBound(lines: seq<seq<Cell>>, me: Cell)
    requires forall k, j :: 0 <= k < |lines| ==> !WindowIs(lines[k], j, me)
    requires forall k :: 0 <= k < |lines| ==> |lines[k]| <= COLS
    ensures -4 * COLS * |lines| <= ScoreLines(lines, me) <= 5 * COLS * |lines|
  {
    if lines != [] {
      assert forall k :: 1 <= k < |lines| ==> lines[k] == lines[1..][k - 1];
      ScoreWindowsBound(lines[0], me, 0);
      ScoreLinesBound(lines[1..], me);
    }
  }

  /** On a board nobody has won, the heuristic of a player stays within
      [-1036, 1313]: no window scores the 1000 of four own pieces, the 37
      lines have at most 7 cells each, and the centre column has 6 cells. */
  lemma HeuristicBound(b: Board, me: Cell)
    requires WellShaped(b) && me != Empty && Winner(b).None?
    ensures -4 * COLS * LINE_COUNT <= Heuristic(b, me) <= 3 * ROWS + 5 * COLS * LINE_COUNT
  {
    var lines := Lines(b);
    LinesWinnerSpec(lines);
    LineCounts(b);
    LineLengths(b);
    ScoreLinesBound(lines, me);
  }
}
