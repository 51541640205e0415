/**
 * Day 04, the printing department: a board of rows where '@' marks a roll
 * of paper and '.' an empty cell. A roll is accessible when its 3x3 window,
 * itself included, holds at most four '@'. Silver counts the accessible
 * non-'.' cells; Gold removes accessible cells pass after pass, in place and
 * in row-major order, and counts the removals.
 */
module PrintingDepartment {

  type Board = seq<string>

  /**
   * What the solvers need not to fail: a first row (its length is the column
   * bound everywhere) and no row shorter than it.
   */
  predicate Wellformed(b: Board) {
    |b| > 0 && forall l :: 0 <= l < |b| ==> |b[l]| >= |b[0]|
  }

  function Width(b: Board): nat
    requires |b| > 0
  {
    |b[0]|
  }

  /** 1 for an in-bounds '@'; out-of-range cells, rows or columns, count 0. */
  function At(b: Board, l: int, c: int): nat
    requires Wellformed(b)
  {
    if 0 <= l < |b| && 0 <= c < Width(b) && b[l][c] == '@' then 1 else 0
  }

  /** The '@' in row l over the columns lo .. hi - 1. */
  function RowWindow(b: Board, l: int, lo: int, hi: int): (n: nat)
    requires Wellformed(b) && lo <= hi
    ensures n <= hi - lo
    decreases hi - lo
  {
    if hi == lo then 0 else RowWindow(b, l, lo, hi - 1) + At(b, l, hi - 1)
  }

  /** The '@' in rows lo .. hi - 1 over the columns column - 1 .. column + 1. */
  function WindowRows(b: Board, column: int, lo: int, hi: int): (n: nat)
    requires Wellformed(b) && lo <= hi
    ensures n <= 3 * (hi - lo)
    decreases hi - lo
  {
    if hi == lo then 0 else WindowRows(b, column, lo, hi - 1) + RowWindow(b, hi - 1, column - 1, column + 2)
  }

  /** The '@' in the 3x3 window around (line, column), the centre included. */
  function WindowCount(b: Board, line: int, column: int): (n: nat)
    requires Wellformed(b)
    ensures n <= 9
  {
    WindowRows(b, column, line - 1, line + 2)
  }

  /** isAccessible: at most four '@' in the window, the centre included. */
  predicate Accessible(b: Board, line: int, column: int)
    requires Wellformed(b)
  {
    WindowCount(b, line, column) <= 4
  }

  /** A count part-way through the window never exceeds the whole window's. */
  lemma {:induction false} PartialBelowCount(b: Board, line: int, column: int, l: int, c: int)
    requires Wellformed(b) && line - 1 <= l < line + 2 && column - 1 <= c <= column + 2
    ensures WindowRows(b, column, line - 1, l) + RowWindow(b, l, column - 1, c) <= WindowCount(b, line, column)
    decreases line + 2 - l
  {
    RowWindowPrefix(b, l, column - 1, c, column + 2);
    if l + 1 < line + 2 {
      PartialBelowCount(b, line, column, l + 1, column - 1);
    }
  }

  lemma {:induction false} RowWindowPrefix(b: Board, l: int, lo: int, mid: int, hi: int)
    requires Wellformed(b) && lo <= mid <= hi
    ensures RowWindow(b, l, lo, mid) <= RowWindow(b, l, lo, hi)
    decreases hi - mid
  {
    if mid < hi {
      RowWindowPrefix(b, l, lo, mid + 1, hi);
    }
  }

  method IsAccessible(line: int, column: int, board: Board) returns (ok: bool)
    requires Wellformed(board)
    ensures ok == Accessible(board, line, column)
  {
    var count := 0;
    for l := line - 1 to line + 2
      invariant count == WindowRows(board, column, line - 1, l)
    {
      for c := column - 1 to column + 2
        invariant count == WindowRows(board, column, line - 1, l) + RowWindow(board, l, column - 1, c)
      {
        if l < 0 || l >= |board| || c < 0 || c >= |board[0]| {
          continue;
        }
        if board[l][c] == '@' {
          count := count + 1;
          if count > 4 {
            PartialBelowCount(board, line, column, l, c + 1);
            return false;
          }
        }
      }
    }
    return true;
  }

  /** The non-'.' cells among the first c columns of row l that are accessible. */
  function RowAccessible(b: Board, l: nat, c: nat): (n: nat)
    requires Wellformed(b) && l < |b| && c <= Width(b)
    ensures n <= c
  {
    if c == 0 then 0
    else RowAccessible(b, l, c - 1) + (if b[l][c - 1] != '.' && Accessible(b, l, c - 1) then 1 else 0)
  }

  /** The accessible non-'.' cells of the first l rows. */
  function AccessibleRows(b: Board, l: nat): nat
    requires Wellformed(b) && l <= |b|
  {
    if l == 0 then 0 else AccessibleRows(b, l - 1) + RowAccessible(b, l - 1, Width(b))
  }

  /** Silver's count. */
  function AccessibleCount(b: Board): nat
    requires Wellformed(b)
  {
    AccessibleRows(b, |b|)
  }

  /** The non-'.' characters among the first m of row s. */
  function RowPapersUpTo(s: string, m: nat): (n: nat)
    requires m <= |s|
    ensures n <= m
  {
    if m == 0 then 0 else RowPapersUpTo(s, m - 1) + (if s[m - 1] != '.' then 1 else 0)
  }

  /** The non-'.' characters of a row. */
  function RowPapers(s: string): nat {
    RowPapersUpTo(s, |s|)
  }

  /** The non-'.' characters of the first n rows, whole rows included. */
  function PapersUpTo(b: Board, n: nat): nat
    requires n <= |b|
  {
    if n == 0 then 0 else PapersUpTo(b, n - 1) + RowPapers(b[n - 1])
  }

  /** n_papers: the non-'.' characters of the whole board. */
  function Papers(b: Board): nat {
    PapersUpTo(b, |b|)
  }

  lemma {:induction false} RowAccessibleBound(b: Board, l: nat, c: nat)
    requires Wellformed(b) && l < |b| && c <= Width(b)
    ensures RowAccessible(b, l, c) <= RowPapersUpTo(b[l], c)
  {
    if c > 0 {
      RowAccessibleBound(b, l, c - 1);
    }
  }

  lemma {:induction false} RowPapersPrefix(s: string, c: nat)
    requires c <= |s|
    ensures RowPapersUpTo(s, c) <= RowPapers(s)
    decreases |s| - c
  {
    if c < |s| {
      RowPapersPrefix(s, c + 1);
    }
  }

  /** Silver never counts more cells than there are rolls. */
  lemma {:induction false} AccessibleAtMostPapers(b: Board, l: nat)
    requires Wellformed(b) && l <= |b|
    ensures AccessibleRows(b, l) <= PapersUpTo(b, l)
  {
    if l > 0 {
      AccessibleAtMostPapers(b, l - 1);
      RowAccessibleBound(b, l - 1, Width(b));
      RowPapersPrefix(b[l - 1], Width(b));
    }
  }

  method SolveSilver(input: Board) returns (rolls: int)
    requires Wellformed(input)
    ensures rolls == AccessibleCount(input)
    ensures rolls <= Papers(input)
  {
    var nLines := |input|;
    var nColumns := |input[0]|;
    rolls := 0;
    for line := 0 to nLines
      invariant rolls == AccessibleRows(input, line)
    {
      for column := 0 to nColumns
        invariant rolls == AccessibleRows(input, line) + RowAccessible(input, line, column)
      {
        if input[line][column] == '.' {
          continue;
        }
        var ok := IsAccessible(line, column, input);
        if ok {
          rolls := rolls + 1;
        }
      }
    }
    AccessibleAtMostPapers(input, |input|);
  }

  /** x is y with some cells turned into '.': same shape, every other cell as in y. */
  predicate Below(x: Board, y: Board) {
    |x| == |y| && forall i :: 0 <= i < |y| ==> RowBelow(x[i], y[i])
  }

  /** Row s is row t with some cells turned into '.'. */
  predicate RowBelow(s: string, t: string) {
    |s| == |t| && forall j :: 0 <= j < |t| ==> s[j] == t[j] || s[j] == '.'
  }

  lemma BelowTrans(x: Board, y: Board, z: Board)
    requires Below(x, y) && Below(y, z)
    ensures Below(x, z)
  {
  }

  /** No roll left in the first Width columns of row l. */
  predicate RowClear(b: Board, l: nat)
    requires Wellformed(b) && l < |b|
  {
    ClearUpTo(b, l, Width(b))
  }

  /** No roll left in the first m columns of row l. */
  predicate ClearUpTo(b: Board, l: nat, m: nat)
    requires l < |b| && m <= |b[l]|
  {
    forall c :: 0 <= c < m ==> b[l][c] == '.'
  }

  lemma {:induction false} RowPapersClear(s: string, c: nat, m: nat)
    requires c < |s| && s[c] != '.' && m <= |s|
    ensures RowPapersUpTo(s[c := '.'], m) + (if c < m then 1 else 0) == RowPapersUpTo(s, m)
  {
    if m > 0 {
      RowPapersClear(s, c, m - 1);
    }
  }

  lemma {:induction false} PapersSet(b: Board, l: nat, row: string, n: nat)
    requires l < |b| && n <= |b|
    ensures PapersUpTo(b[l := row], n) + (if l < n then RowPapers(b[l]) else 0)
         == PapersUpTo(b, n) + (if l < n then RowPapers(row) else 0)
  {
    if n > 0 {
      PapersSet(b, l, row, n - 1);
    }
  }

  /**
   * One cell of Gold's sweep: an accessible roll is removed, which lowers the
   * roll count by one; any other cell leaves the board as it is.
   */
  function Step(b: Board, l: nat, c: nat): (r: Board)
    requires Wellformed(b) && l < |b| && c < Width(b)
    ensures Wellformed(r) && |r| == |b| && Width(r) == Width(b)
    ensures b[l][c] != '.' && Accessible(b, l, c) ==> r[l][c] == '.' && Papers(r) + 1 == Papers(b)
    ensures !(b[l][c] != '.' && Accessible(b, l, c)) ==> r == b
  {
    if b[l][c] != '.' && Accessible(b, l, c) then
      RowPapersClear(b[l], c, |b[l]|);
      PapersSet(b, l, b[l][c := '.'], |b|);
      b[l := b[l][c := '.']]
    else b
  }

  /** A step only clears cell (l, c), if anything. */
  lemma StepFrame(b: Board, l: nat, c: nat)
    requires Wellformed(b) && l < |b| && c < Width(b)
    ensures Below(Step(b, l, c), b)
    ensures forall i :: 0 <= i < |b| && i != l ==> Step(b, l, c)[i] == b[i]
    ensures |Step(b, l, c)[l]| == |b[l]|
    ensures forall j :: 0 <= j < |b[l]| && j != c ==> Step(b, l, c)[l][j] == b[l][j]
  {
  }

  /** Gold's sweep of row l over its first c columns. */
  function SweepRow(b: Board, l: nat, c: nat): (r: Board)
    requires Wellformed(b) && l < |b| && c <= Width(b)
    ensures Wellformed(r) && |r| == |b| && Width(r) == Width(b) && Papers(r) <= Papers(b)
  {
    if c == 0 then b else Step(SweepRow(b, l, c - 1), l, c - 1)
  }

  /** A row sweep only clears cells. */
  lemma {:induction false} SweepRowBelow(b: Board, l: nat, c: nat)
    requires Wellformed(b) && l < |b| && c <= Width(b)
    ensures Below(SweepRow(b, l, c), b)
  {
    if c > 0 {
      var s := SweepRow(b, l, c - 1);
      SweepRowBelow(b, l, c - 1);
      StepFrame(s, l, c - 1);
      BelowTrans(Step(s, l, c - 1), s, b);
    }
  }

  /** A row sweep only changes cells of row l left of column c. */
  lemma {:induction false} SweepRowFrame(b: Board, l: nat, c: nat)
    requires Wellformed(b) && l < |b| && c <= Width(b)
    ensures forall i :: 0 <= i < |b| && i != l ==> SweepRow(b, l, c)[i] == b[i]
    ensures |SweepRow(b, l, c)[l]| == |b[l]|
    ensures forall j :: c <= j < |b[l]| ==> SweepRow(b, l, c)[l][j] == b[l][j]
  {
    if c > 0 {
      var s := SweepRow(b, l, c - 1);
      SweepRowFrame(b, l, c - 1);
      StepFrame(s, l, c - 1);
    }
  }

  /** Gold's sweep of the first l rows. */
  function Sweep(b: Board, l: nat): (r: Board)
    requires Wellformed(b) && l <= |b|
    ensures Wellformed(r) && |r| == |b| && Width(r) == Width(b) && Papers(r) <= Papers(b)
  {
    if l == 0 then b else SweepRow(Sweep(b, l - 1), l - 1, Width(b))
  }

  /** Sweeping the first l rows leaves the later rows as they were. */
  lemma {:induction false} SweepFrame(b: Board, l: nat)
    requires Wellformed(b) && l <= |b|
    ensures Below(Sweep(b, l), b)
    ensures forall i :: l <= i < |b| ==> Sweep(b, l)[i] == b[i]
  {
    if l > 0 {
      var s := Sweep(b, l - 1);
      SweepFrame(b, l - 1);
      SweepRowBelow(s, l - 1, Width(b));
      SweepRowFrame(s, l - 1, Width(b));
      BelowTrans(Sweep(b, l), s, b);
    }
  }

  /** One pass of Gold's do-while loop over the whole board. */
  function Pass(b: Board): (r: Board)
    requires Wellformed(b)
    ensures Wellformed(r) && |r| == |b| && Width(r) == Width(b) && Papers(r) <= Papers(b)
  {
    Sweep(b, |b|)
  }

  /**
   * Gold: the rolls removed by the do-while loop, which repeats passes while
   * rolls remain and the last pass removed some. It never removes more rolls
   * than the board holds.
   */
  function Rounds(b: Board): (n: nat)
    requires Wellformed(b)
    ensures n <= Papers(b)
    decreases Papers(b)
  {
    var b' := Pass(b);
    var removed := Papers(b) - Papers(b');
    if Papers(b') > 0 && removed > 0 then removed + Rounds(b') else removed
  }

  /** A row with no rolls is left as it is by its sweep, so skipping it changes nothing. */
  lemma {:induction false} ClearRowFixed(b: Board, l: nat, c: nat)
    requires Wellformed(b) && l < |b| && c <= Width(b) && RowClear(b, l)
    ensures SweepRow(b, l, c) == b
  {
    if c > 0 {
      ClearRowFixed(b, l, c - 1);
    }
  }

  lemma {:induction false} RowWindowMono(x: Board, y: Board, l: int, lo: int, hi: int)
    requires Wellformed(y) && Below(x, y) && lo <= hi
    ensures Wellformed(x) && RowWindow(x, l, lo, hi) <= RowWindow(y, l, lo, hi)
    decreases hi - lo
  {
    if hi > lo {
      RowWindowMono(x, y, l, lo, hi - 1);
    }
  }

  lemma {:induction false} WindowRowsMono(x: Board, y: Board, column: int, lo: int, hi: int)
    requires Wellformed(y) && Below(x, y) && lo <= hi
    ensures Wellformed(x) && WindowRows(x, column, lo, hi) <= WindowRows(y, column, lo, hi)
    decreases hi - lo
  {
    if hi > lo {
      WindowRowsMono(x, y, column, lo, hi - 1);
      RowWindowMono(x, y, hi - 1, column - 1, column + 2);
    }
  }

  /** Removing rolls never makes a cell less accessible. */
  lemma AccessibleMono(x: Board, y: Board, line: int, column: int)
    requires Wellformed(y) && Below(x, y) && Accessible(y, line, column)
    ensures Wellformed(x) && Accessible(x, line, column)
  {
    WindowRowsMono(x, y, column, line - 1, line + 2);
  }

  lemma {:induction false} SweepRowRemoves(b0: Board, b: Board, l: nat, c: nat)
    requires Wellformed(b0) && Below(b, b0) && l < |b0| && c <= Width(b0)
    requires forall j :: 0 <= j < Width(b0) ==> b[l][j] == b0[l][j]
    ensures Wellformed(b) && Papers(b) - Papers(SweepRow(b, l, c)) >= RowAccessible(b0, l, c)
  {
    if c > 0 {
      SweepRowRemoves(b0, b, l, c - 1);
      SweepRowLastRemoves(b0, b, l, c);
    }
  }

  /**
   * The step at column c - 1 removes the cell when it is an accessible roll
   * on b0: the sweep so far kept that cell and only cleared others.
   */
  lemma SweepRowLastRemoves(b0: Board, b: Board, l: nat, c: nat)
    requires Wellformed(b0) && Below(b, b0) && l < |b0| && 0 < c <= Width(b0)
    requires forall j :: 0 <= j < Width(b0) ==> b[l][j] == b0[l][j]
    ensures Wellformed(b)
    ensures Papers(SweepRow(b, l, c - 1)) - Papers(SweepRow(b, l, c))
         >= if b0[l][c - 1] != '.' && Accessible(b0, l, c - 1) then 1 else 0
  {
    var s := SweepRow(b, l, c - 1);
    SweepRowBelow(b, l, c - 1);
    SweepRowFrame(b, l, c - 1);
    BelowTrans(s, b, b0);
    StepRemoves(b0, s, l, c - 1);
  }

  /**
   * A cell that is an accessible roll on b0 is still one on any board below
   * b0 that kept it, so the step removes it.
   */
  lemma StepRemoves(b0: Board, s: Board, l: nat, c: nat)
    requires Wellformed(b0) && Below(s, b0) && l < |b0| && c < Width(b0) && s[l][c] == b0[l][c]
    ensures Wellformed(s)
    ensures b0[l][c] != '.' && Accessible(b0, l, c) ==> Papers(s) - Papers(Step(s, l, c)) == 1
  {
    if b0[l][c] != '.' && Accessible(b0, l, c) {
      AccessibleMono(s, b0, l, c);
    }
  }

  lemma {:induction false} SweepRemoves(b: Board, l: nat)
    requires Wellformed(b) && l <= |b|
    ensures Papers(b) - Papers(Sweep(b, l)) >= AccessibleRows(b, l)
  {
    if l > 0 {
      SweepRemoves(b, l - 1);
      SweepLastRemoves(b, l);
    }
  }

  /** The sweep of row l - 1, which the first l - 1 rows' sweep left as it was, removes its accessible rolls. */
  lemma SweepLastRemoves(b: Board, l: nat)
    requires Wellformed(b) && 0 < l <= |b|
    ensures Papers(Sweep(b, l - 1)) - Papers(Sweep(b, l)) >= RowAccessible(b, l - 1, Width(b))
  {
    var s := Sweep(b, l - 1);
    SweepFrame(b, l - 1);
    assert s[l - 1] == b[l - 1];
    SweepRowRemoves(b, s, l - 1, Width(b));
  }

  /**
   * Gold removes at least every roll Silver counts: a roll accessible at the
   * start is still accessible when the first pass reaches it.
   */
  lemma GoldAtLeastSilver(b: Board)
    requires Wellformed(b)
    ensures AccessibleCount(b) <= Rounds(b)
  {
    SweepRemoves(b, |b|);
  }

  /** The counting loop of solveGold: n_papers. */
  method CountPapers(board: Board) returns (n: int)
    ensures n == Papers(board)
  {
    n := 0;
    for l := 0 to |board|
      invariant n == PapersUpTo(board, l)
    {
      var row := board[l];
      ghost var base := n;
      for c := 0 to |row|
        invariant n == base + RowPapersUpTo(row, c)
      {
        if row[c] != '.' {
          n := n + 1;
        }
      }
    }
  }

  /** The column loop of solveGold for one row. */
  method SweepLine(board: Board, line: nat, nColumns: nat, rolls: int, nPapers: int, changes: bool)
    returns (board': Board, hasPaper: bool, rolls': int, nPapers': int, changes': bool)
    requires Wellformed(board) && line < |board| && nColumns == Width(board)
    ensures board' == SweepRow(board, line, nColumns)
    ensures rolls' == rolls + (Papers(board) - Papers(board'))
    ensures nPapers' == nPapers - (Papers(board) - Papers(board'))
    ensures changes' == (changes || Papers(board') < Papers(board))
    ensures hasPaper <==> !RowClear(board', line)
  {
    board', hasPaper, rolls', nPapers', changes' := board, false, rolls, nPapers, changes;
    for column := 0 to nColumns
      invariant board' == SweepRow(board, line, column)
      invariant Counted(board, board', rolls, nPapers, changes, rolls', nPapers', changes')
      invariant hasPaper <==> !ClearUpTo(board', line, column)
    {
      board', hasPaper, rolls', nPapers', changes' :=
        SweepCell(board, line, column, rolls, nPapers, changes, board', hasPaper, rolls', nPapers', changes');
    }
  }

  /**
   * Gold's counters after sweeping from board start to board b: every roll
   * removed is counted once in rolls and subtracted once from nPapers, and
   * changes records whether any was removed.
   */
  predicate Counted(start: Board, b: Board, rolls0: int, nPapers0: int, changes0: bool, rolls: int, nPapers: int, changes: bool) {
    && rolls == rolls0 + (Papers(start) - Papers(b))
    && nPapers == nPapers0 - (Papers(start) - Papers(b))
    && changes == (changes0 || Papers(b) < Papers(start))
  }

  /**
   * The body of the column loop: cell (line, column) of a row whose first
   * column cells the sweep has visited, starting from board start.
   */
  method SweepCell(ghost start: Board, line: nat, column: nat, ghost rolls0: int, ghost nPapers0: int, ghost changes0: bool,
                   board: Board, hasPaper: bool, rolls: int, nPapers: int, changes: bool)
    returns (board': Board, hasPaper': bool, rolls': int, nPapers': int, changes': bool)
    requires Wellformed(start) && line < |start| && column < Width(start)
    requires board == SweepRow(start, line, column)
    requires Counted(start, board, rolls0, nPapers0, changes0, rolls, nPapers, changes)
    requires hasPaper <==> !ClearUpTo(board, line, column)
    ensures board' == SweepRow(start, line, column + 1)
    ensures Counted(start, board', rolls0, nPapers0, changes0, rolls', nPapers', changes')
    ensures hasPaper' <==> !ClearUpTo(board', line, column + 1)
  {
    StepFrame(board, line, column);
    board', hasPaper', rolls', nPapers', changes' := board, hasPaper, rolls, nPapers, changes;
    if board[line][column] == '.' {
      return;
    }
    var ok := IsAccessible(line, column, board);
    if ok {
      board' := board[line := board[line][column := '.']];
      nPapers' := nPapers - 1;
      changes' := true;
      rolls' := rolls + 1;
    } else {
      hasPaper' := true;
    }
  }

  /** One pass of solveGold's do-while body: the line loop, skipping inactive rows. */
  method RunPass(board: Board, activeRows: array<bool>, rolls: int, nPapers: int)
    returns (board': Board, changes: bool, rolls': int, nPapers': int)
    modifies activeRows
    requires Wellformed(board) && activeRows.Length == |board|
    requires InactiveClear(board, activeRows[..])
    ensures board' == Pass(board)
    ensures InactiveClear(board', activeRows[..])
    ensures Counted(board, board', rolls, nPapers, false, rolls', nPapers', changes)
  {
    board', changes, rolls', nPapers' := board, false, rolls, nPapers;
    var nColumns := |board[0]|;
    for line := 0 to |board|
      invariant board' == Sweep(board, line)
      invariant InactiveClear(board', activeRows[..])
      invariant Counted(board, board', rolls, nPapers, false, rolls', nPapers', changes)
    {
      board', changes, rolls', nPapers' := PassLine(board, line, nColumns, activeRows, rolls, nPapers, board', changes, rolls', nPapers');
    }
  }

  /** Every row marked inactive holds no roll. */
  predicate InactiveClear(b: Board, active: seq<bool>)
    requires Wellformed(b) && |active| == |b|
  {
    forall l :: 0 <= l < |b| && !active[l] ==> RowClear(b, l)
  }

  /** The body of the line loop: row line, swept unless it is marked inactive. */
  method PassLine(ghost start: Board, line: nat, nColumns: nat, activeRows: array<bool>, ghost rolls0: int, ghost nPapers0: int,
                  board: Board, changes: bool, rolls: int, nPapers: int)
    returns (board': Board, changes': bool, rolls': int, nPapers': int)
    modifies activeRows
    requires Wellformed(start) && line < |start| && nColumns == Width(start) && activeRows.Length == |start|
    requires board == Sweep(start, line)
    requires InactiveClear(board, activeRows[..])
    requires Counted(start, board, rolls0, nPapers0, false, rolls, nPapers, changes)
    ensures board' == Sweep(start, line + 1)
    ensures InactiveClear(board', activeRows[..])
    ensures Counted(start, board', rolls0, nPapers0, false, rolls', nPapers', changes')
  {
    if !activeRows[line] {
      ClearRowFixed(board, line, nColumns);
      return board, changes, rolls, nPapers;
    }
    SweepRowFrame(board, line, nColumns);
    var hasPaper;
    board', hasPaper, rolls', nPapers', changes' := SweepLine(board, line, nColumns, rolls, nPapers, changes);
    activeRows[line] := hasPaper;
    forall l | 0 <= l < |board'| && !activeRows[l] ensures RowClear(board', l) {
      if l != line {
        assert board'[l] == board[l];
      }
    }
  }

  method SolveGold(input: Board) returns (rolls: int)
    requires Wellformed(input)
    ensures rolls == Rounds(input)
  {
    var nLines := |input|;
    rolls := 0;
    var activeRows := new bool[nLines](_ => true);
    var board := input;
    var nPapers := CountPapers(board);
    while true
      invariant Wellformed(board)
      invariant nPapers == Papers(board)
      invariant rolls + nPapers == Papers(input)
      invariant rolls + Rounds(board) == Rounds(input)
      invariant activeRows.Length == |board|
      invariant InactiveClear(board, activeRows[..])
      decreases nPapers
    {
      var next, changes;
      next, changes, rolls, nPapers := RunPass(board, activeRows, rolls, nPapers);
      board := next;
      if !(nPapers > 0 && changes) {
        break;
      }
    }
  }
}
