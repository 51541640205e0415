/**
 * Day 07, the laboratories: a grid of lines in which a beam travels
 * downwards. Silver rewrites every other line of the input in place,
 * marking with '|' the columns the beam reaches and counting the splits at
 * '^' cells. Gold counts the timelines with a dynamic programme: one count
 * per column, carried row by row, where a '.' passes its count straight
 * down and any other cell sends it to both neighbours.
 */
module Laboratories {
  import opened Text

  // ---------------------------------------------------------------------
  // replaceIndexesWithBar

  /** The listed indices that fall inside the string become '|', in list order. */
  function ReplaceBars(s: string, idxs: seq<int>): (r: string)
    ensures |r| == |s|
  {
    if |idxs| == 0 then s
    else
      var t := ReplaceBars(s, idxs[..|idxs| - 1]);
      var i := idxs[|idxs| - 1];
      if 0 <= i < |t| then t[i := '|'] else t
  }

  /** Each character is '|' when its index is listed and is kept otherwise. */
  lemma {:induction false} ReplaceBarsAt(s: string, idxs: seq<int>, k: int)
    requires 0 <= k < |s|
    ensures ReplaceBars(s, idxs)[k] == (if k in idxs then '|' else s[k])
    decreases |idxs|
  {
    if |idxs| > 0 {
      var init := idxs[..|idxs| - 1];
      assert idxs == init + [idxs[|idxs| - 1]];
      ReplaceBarsAt(s, init, k);
    }
  }

  method ReplaceIndexesWithBar(input: string, indexes: seq<int>) returns (r: string)
    ensures r == ReplaceBars(input, indexes)
  {
    var chars := new char[|input|](k requires 0 <= k < |input| => input[k]);
    assert chars[..] == ReplaceBars(input, indexes[..0]);
    var j := 0;
    while j < |indexes|
      invariant 0 <= j <= |indexes|
      invariant chars[..] == ReplaceBars(input, indexes[..j])
    {
      var idx := indexes[j];
      if 0 <= idx < chars.Length {
        chars[idx] := '|';
      }
      assert indexes[..j + 1][..j] == indexes[..j];
      j := j + 1;
    }
    assert indexes[..j] == indexes;
    r := chars[..];
  }

  // ---------------------------------------------------------------------
  // Silver: one step of the beam, from line i - 1 through line i to i + 1

  /**
   * The splits and the indices to mark on the next line, over the columns
   * 0 .. n - 1: a beam above a '^' goes to both neighbours, any other beam
   * goes straight on.
   */
  function Scan(prev: string, curr: string, n: nat): (r: (nat, seq<int>))
    requires n <= |curr| && n <= |prev|
    ensures r.0 <= n
  {
    if n == 0 then (0, [])
    else
      var (splits, idxs) := Scan(prev, curr, n - 1);
      var j := n - 1;
      if prev[j] == '|' then
        if curr[j] == '^' then (splits + 1, idxs + [j - 1, j + 1]) else (splits, idxs + [j])
      else (splits, idxs)
  }

  /** Where a beam standing above column j of curr lands on the next line. */
  predicate Target(curr: string, j: int, x: int)
    requires 0 <= j < |curr|
  {
    if curr[j] == '^' then x == j - 1 || x == j + 1 else x == j
  }

  /** The columns below 'n' where a beam meets a splitter. */
  function Splitters(prev: string, curr: string, n: nat): set<int>
    requires n <= |curr| && n <= |prev|
  {
    set j | 0 <= j < n && prev[j] == '|' && curr[j] == '^'
  }

  /** Scan lists exactly the landing columns of the beams above it. */
  lemma {:induction false} ScanTargets(prev: string, curr: string, n: nat, x: int)
    requires n <= |curr| && n <= |prev|
    ensures x in Scan(prev, curr, n).1 <==>
            exists j :: 0 <= j < n && prev[j] == '|' && Target(curr, j, x)
  {
    if n > 0 {
      ScanTargets(prev, curr, n - 1, x);
      if x in Scan(prev, curr, n).1 && x !in Scan(prev, curr, n - 1).1 {
        assert prev[n - 1] == '|' && Target(curr, n - 1, x);
      }
    }
  }

  /** Scan counts one split per column where a beam meets a '^'. */
  lemma {:induction false} ScanSplits(prev: string, curr: string, n: nat)
    requires n <= |curr| && n <= |prev|
    ensures Scan(prev, curr, n).0 == |Splitters(prev, curr, n)|
  {
    if n > 0 {
      ScanSplits(prev, curr, n - 1);
      var j := n - 1;
      if prev[j] == '|' && curr[j] == '^' {
        assert Splitters(prev, curr, n) == Splitters(prev, curr, n - 1) + {j};
      } else {
        assert Splitters(prev, curr, n) == Splitters(prev, curr, n - 1);
      }
    }
  }

  /**
   * One rewrite of the next line: a column ends up '|' exactly when it was
   * one already or a beam above the current line lands on it.
   */
  lemma {:induction false} BeamStep(prev: string, curr: string, next: string, k: int)
    requires |curr| <= |prev| && 0 <= k < |next|
    ensures ReplaceBars(next, Scan(prev, curr, |curr|).1)[k] == '|' <==>
            next[k] == '|' || exists j :: 0 <= j < |curr| && prev[j] == '|' && Target(curr, j, k)
  {
    ReplaceBarsAt(next, Scan(prev, curr, |curr|).1, k);
    ScanTargets(prev, curr, |curr|, k);
  }

  // ---------------------------------------------------------------------
  // Silver over the whole input

  /** The split count, None when the solver throws, and the lines it leaves. */
  datatype Outcome = Outcome(splits: Option<nat>, lines: seq<string>)

  function Shifted(k: nat, o: Outcome): Outcome {
    Outcome(if o.splits.Some? then Some(k + o.splits.value) else None, o.lines)
  }

  /**
   * The loop from line i on. A previous line shorter than the current one
   * throws on charAt before anything of that step is written.
   */
  function SilverFrom(ls: seq<string>, i: nat): (o: Outcome)
    requires i >= 1
    ensures |o.lines| == |ls|
    decreases |ls| - i
  {
    if i + 1 >= |ls| then Outcome(Some(0), ls)
    else if |ls[i - 1]| < |ls[i]| then Outcome(None, ls)
    else
      var (s, idxs) := Scan(ls[i - 1], ls[i], |ls[i]|);
      Shifted(s, SilverFrom(ls[i + 1 := ReplaceBars(ls[i + 1], idxs)], i + 2))
  }

  /** solveSilver: seed line 1 at the middle of line 0, then step from line 2. */
  function Silver(ls: seq<string>): (o: Outcome) {
    if |ls| < 2 then Outcome(None, ls)
    else SilverFrom(ls[1 := ReplaceBars(ls[1], [|ls[0]| / 2])], 2)
  }

  lemma {:induction false} SilverFromFrame(ls: seq<string>, i: nat)
    requires i >= 1
    ensures forall k :: 0 <= k < |ls| ==> |SilverFrom(ls, i).lines[k]| == |ls[k]|
    ensures forall k :: 0 <= k < |ls| && (k <= i || (k - i) % 2 == 0) ==>
              SilverFrom(ls, i).lines[k] == ls[k]
    decreases |ls| - i
  {
    if i + 1 < |ls| && |ls[i - 1]| >= |ls[i]| {
      var idxs := Scan(ls[i - 1], ls[i], |ls[i]|).1;
      SilverFromFrame(ls[i + 1 := ReplaceBars(ls[i + 1], idxs)], i + 2);
    }
  }

  /**
   * Silver rewrites the list in place but only its odd lines, keeps every
   * length, and line 1 holds the seed at column |line 0| / 2.
   */
  lemma {:induction false} SilverOnlyOddLines(ls: seq<string>)
    ensures |Silver(ls).lines| == |ls|
    ensures forall k :: 0 <= k < |ls| ==> |Silver(ls).lines[k]| == |ls[k]|
    ensures forall k :: 0 <= k < |ls| && k % 2 == 0 ==> Silver(ls).lines[k] == ls[k]
    ensures |ls| >= 2 ==> forall c :: 0 <= c < |ls[1]| ==>
              Silver(ls).lines[1][c] == if c == |ls[0]| / 2 then '|' else ls[1][c]
  {
    if |ls| >= 2 {
      var seeded := ls[1 := ReplaceBars(ls[1], [|ls[0]| / 2])];
      SilverFromFrame(seeded, 2);
      forall c | 0 <= c < |ls[1]|
        ensures Silver(ls).lines[1][c] == if c == |ls[0]| / 2 then '|' else ls[1][c]
      {
        ReplaceBarsAt(ls[1], [|ls[0]| / 2], c);
      }
    }
  }

  /** Step j would throw: the line above it is shorter than line j. */
  predicate ShortAbove(ls: seq<string>, j: int) {
    1 <= j && j + 1 < |ls| && |ls[j - 1]| < |ls[j]|
  }

  /** Whether a step throws depends only on the line lengths. */
  lemma {:induction false} ShortAboveLengths(ls: seq<string>, ms: seq<string>)
    requires |ls| == |ms| && forall k :: 0 <= k < |ls| ==> |ls[k]| == |ms[k]|
    ensures forall j :: ShortAbove(ls, j) == ShortAbove(ms, j)
  {
  }

  /** The loop from line i throws exactly when some step meets a longer current line. */
  lemma {:induction false} SilverFromFails(ls: seq<string>, i: nat)
    requires i >= 1
    ensures SilverFrom(ls, i).splits.None? <==>
            exists j :: i <= j && (j - i) % 2 == 0 && ShortAbove(ls, j)
    decreases |ls| - i
  {
    if i + 1 >= |ls| {
    } else if |ls[i - 1]| < |ls[i]| {
      assert ShortAbove(ls, i);
    } else {
      var idxs := Scan(ls[i - 1], ls[i], |ls[i]|).1;
      var next := ls[i + 1 := ReplaceBars(ls[i + 1], idxs)];
      assert SilverFrom(ls, i) == Shifted(Scan(ls[i - 1], ls[i], |ls[i]|).0, SilverFrom(next, i + 2));
      SilverFromFails(next, i + 2);
      ShortAboveLengths(ls, next);
      if SilverFrom(ls, i).splits.None? {
        var j :| i + 2 <= j && (j - (i + 2)) % 2 == 0 && ShortAbove(next, j);
        assert (j - i) % 2 == 0 && ShortAbove(ls, j);
      }
      if exists j :: i <= j && (j - i) % 2 == 0 && ShortAbove(ls, j) {
        var j :| i <= j && (j - i) % 2 == 0 && ShortAbove(ls, j);
        assert i + 2 <= j && (j - (i + 2)) % 2 == 0 && ShortAbove(next, j);
      }
    }
  }

  /**
   * Silver throws when there are fewer than two lines, or when a line at
   * an even index from 2 on is longer than the line above it.
   */
  lemma {:induction false} SilverFails(ls: seq<string>)
    ensures Silver(ls).splits.None? <==>
            |ls| < 2 || exists j :: 2 <= j && j % 2 == 0 && ShortAbove(ls, j)
  {
    if |ls| >= 2 {
      var seeded := ls[1 := ReplaceBars(ls[1], [|ls[0]| / 2])];
      SilverFromFails(seeded, 2);
      if Silver(ls).splits.None? {
        var j :| 2 <= j && (j - 2) % 2 == 0 && ShortAbove(seeded, j);
        assert |seeded[j - 1]| == |ls[j - 1]| && |seeded[j]| == |ls[j]|;
        assert j % 2 == 0 && ShortAbove(ls, j);
      }
      if exists j :: 2 <= j && j % 2 == 0 && ShortAbove(ls, j) {
        var j :| 2 <= j && j % 2 == 0 && ShortAbove(ls, j);
        assert |seeded[j - 1]| == |ls[j - 1]| && |seeded[j]| == |ls[j]|;
        assert (j - 2) % 2 == 0 && ShortAbove(seeded, j);
      }
    }
  }

  /** solveSilver, rewriting the list it is given; None where the source throws. */
  method SolveSilver(input: array<string>) returns (beamSplits: Option<nat>)
    modifies input
    ensures beamSplits == Silver(old(input[..])).splits
    ensures input[..] == Silver(old(input[..])).lines
  {
    if input.Length < 2 {
      return None;
    }
    var seed := ReplaceIndexesWithBar(input[1], [|input[0]| / 2]);
    input[1] := seed;
    var splits: nat := 0;
    var i := 2;
    while i + 1 < input.Length
      invariant 2 <= i
      invariant Silver(old(input[..])) == Shifted(splits, SilverFrom(input[..], i))
      decreases input.Length - i
    {
      var current := input[i];
      var previous := input[i - 1];
      var indexes: seq<int> := [];
      var before := splits;
      var index := 0;
      while index < |current|
        invariant 0 <= index <= |current| && index <= |previous|
        invariant splits == before + Scan(previous, current, index).0
        invariant indexes == Scan(previous, current, index).1
      {
        if index >= |previous| {
          return None;
        }
        if previous[index] == '|' {
          if current[index] == '^' {
            splits := splits + 1;
            indexes := indexes + [index - 1, index + 1];
          } else {
            indexes := indexes + [index];
          }
        }
        index := index + 1;
      }
      var ls := input[..];
      var marked := ReplaceIndexesWithBar(input[i + 1], indexes);
      input[i + 1] := marked;
      assert input[..] == ls[i + 1 := marked];
      i := i + 2;
    }
    return Some(splits);
  }

  // ---------------------------------------------------------------------
  // Gold: the count dynamic programme

  /**
   * The counts of the next row after the columns 0 .. n - 1 of counts have
   * been pushed through line; None when a non-zero count sits beyond the
   * end of line (charAt throws).
   */
  function Spread(counts: seq<int>, line: string, n: nat): (r: Option<seq<int>>)
    requires n <= |counts|
    ensures r.Some? ==> |r.value| == |counts|
  {
    if n == 0 then Some(seq(|counts|, _ => 0))
    else match Spread(counts, line, n - 1)
      case None => None
      case Some(next) =>
        var x := n - 1;
        var c := counts[x];
        if c == 0 then Some(next)
        else if x >= |line| then None
        else Some(Push(next, x, c, line[x]))
  }

  /** One non-zero count c at column x pushed through the cell below it. */
  function Push(next: seq<int>, x: nat, c: int, cell: char): (r: seq<int>)
    requires x < |next|
    ensures |r| == |next|
  {
    if cell == '.' then Add(next, x, c) else Add(Add(next, x - 1, c), x + 1, c)
  }

  /** Adds c at column x when x is in bounds. */
  function Add(s: seq<int>, x: int, c: int): (r: seq<int>)
    ensures |r| == |s|
  {
    if 0 <= x < |s| then s[x := s[x] + c] else s
  }

  lemma {:induction false} SpreadStaysFailed(counts: seq<int>, line: string, n: nat, m: nat)
    requires n <= m <= |counts| && Spread(counts, line, n).None?
    ensures Spread(counts, line, m).None?
    decreases m - n
  {
    if n < m {
      SpreadStaysFailed(counts, line, n + 1, m);
    }
  }

  /** The rows r .. of input applied to counts. */
  function Rows(input: seq<string>, r: nat, counts: seq<int>): (o: Option<seq<int>>)
    ensures o.Some? ==> |o.value| == |counts|
    decreases |input| - r
  {
    if r >= |input| then Some(counts)
    else match Spread(counts, input[r], |counts|)
      case None => None
      case Some(next) => Rows(input, r + 1, next)
  }

  /** A single count of 1 at column cols / 2. */
  function Start(cols: nat): seq<int>
    requires cols > 0
  {
    seq(cols, x => if x == cols / 2 then 1 else 0)
  }

  function Sum(s: seq<int>): int {
    if |s| == 0 then 0 else Sum(s[..|s| - 1]) + s[|s| - 1]
  }

  /** solveGold: None for an empty input or first line, or when charAt throws. */
  function Gold(input: seq<string>): Option<int> {
    if |input| == 0 || |input[0]| == 0 then None
    else match Rows(input, 1, Start(|input[0]|))
      case None => None
      case Some(counts) => Some(Sum(counts))
  }

  predicate NonNegative(s: seq<int>) {
    forall x :: 0 <= x < |s| ==> s[x] >= 0
  }

  lemma {:induction false} SumUpdate(s: seq<int>, x: nat, c: int)
    requires x < |s|
    ensures Sum(s[x := s[x] + c]) == Sum(s) + c
    decreases |s|
  {
    var t := s[x := s[x] + c];
    assert t[..|t| - 1] == if x < |s| - 1 then s[..|s| - 1][x := s[x] + c] else s[..|s| - 1];
    if x < |s| - 1 {
      SumUpdate(s[..|s| - 1], x, c);
    }
  }

  lemma {:induction false} SumNonNegative(s: seq<int>)
    requires NonNegative(s)
    ensures Sum(s) >= 0
    decreases |s|
  {
    if |s| > 0 {
      SumNonNegative(s[..|s| - 1]);
    }
  }

  /** Adding c >= 0 keeps counts non-negative and raises the total by c at most. */
  lemma {:induction false} AddBounds(s: seq<int>, x: int, c: int)
    requires NonNegative(s) && c >= 0
    ensures NonNegative(Add(s, x, c))
    ensures Sum(s) <= Sum(Add(s, x, c)) <= Sum(s) + c
    ensures 0 <= x < |s| ==> Sum(Add(s, x, c)) == Sum(s) + c
  {
    if 0 <= x < |s| {
      SumUpdate(s, x, c);
    }
  }

  /** A push keeps counts non-negative and adds c once or at most twice. */
  lemma {:induction false} PushBounds(next: seq<int>, x: nat, c: int, cell: char)
    requires x < |next| && NonNegative(next) && c >= 0
    ensures NonNegative(Push(next, x, c, cell))
    ensures Sum(Push(next, x, c, cell)) <= Sum(next) + 2 * c
    ensures cell == '.' ==> Sum(Push(next, x, c, cell)) == Sum(next) + c
  {
    AddBounds(next, x, c);
    AddBounds(next, x - 1, c);
    AddBounds(Add(next, x - 1, c), x + 1, c);
  }

  /**
   * Pushing counts through a line keeps every count non-negative and at
   * most doubles the total: a '.' passes a count on once, any other cell at
   * most twice.
   */
  lemma {:induction false} SpreadBounds(counts: seq<int>, line: string, n: nat)
    requires n <= |counts| && NonNegative(counts)
    requires Spread(counts, line, n).Some?
    ensures NonNegative(Spread(counts, line, n).value)
    ensures Sum(Spread(counts, line, n).value) <= 2 * Sum(counts[..n])
  {
    if n == 0 {
      SumZero(|counts|);
    } else {
      SpreadBounds(counts, line, n - 1);
      var next := Spread(counts, line, n - 1).value;
      var x := n - 1;
      assert counts[..n] == counts[..x] + [counts[x]];
      assert Sum(counts[..n]) == Sum(counts[..x]) + counts[x];
      if counts[x] != 0 {
        PushBounds(next, x, counts[x], line[x]);
      }
    }
  }

  lemma {:induction false} SumZero(n: nat)
    ensures Sum(seq(n, _ => 0)) == 0
  {
    if n > 0 {
      assert seq(n, _ => 0)[..n - 1] == seq(n - 1, _ => 0);
      SumZero(n - 1);
    }
  }

  function Pow2(k: nat): (p: nat)
    ensures p >= 1
  {
    if k == 0 then 1 else 2 * Pow2(k - 1)
  }

  lemma {:induction false} RowsBounds(input: seq<string>, r: nat, counts: seq<int>)
    requires r <= |input| && NonNegative(counts)
    requires Rows(input, r, counts).Some?
    ensures NonNegative(Rows(input, r, counts).value)
    ensures Sum(Rows(input, r, counts).value) <= Pow2(|input| - r) * Sum(counts)
    decreases |input| - r
  {
    if r < |input| {
      var next := Spread(counts, input[r], |counts|).value;
      assert counts[..|counts|] == counts;
      SpreadBounds(counts, input[r], |counts|);
      RowsBounds(input, r + 1, next);
      DoubleScale(Pow2(|input| - (r + 1)), Sum(next), Sum(counts));
    }
  }

  lemma {:induction false} DoubleScale(p: nat, a: int, b: int)
    requires a <= 2 * b
    ensures p * a <= (2 * p) * b
  {
    assert p * a <= p * (2 * b);
  }

  lemma {:induction false} SumStart(cols: nat)
    requires cols > 0
    ensures NonNegative(Start(cols)) && Sum(Start(cols)) == 1
  {
    var s := Start(cols);
    var z: seq<int> := seq(cols, _ => 0);
    SumZero(cols);
    assert s == z[cols / 2 := z[cols / 2] + 1];
    SumUpdate(z, cols / 2, 1);
  }

  /** Gold counts at least no timeline and at most one per split choice of every row. */
  lemma {:induction false} GoldBounds(input: seq<string>)
    requires Gold(input).Some?
    ensures 0 <= Gold(input).value <= Pow2(|input| - 1)
  {
    var cols := |input[0]|;
    SumStart(cols);
    RowsBounds(input, 1, Start(cols));
    SumNonNegative(Rows(input, 1, Start(cols)).value);
  }

  /**
   * The count a column collects from the columns below n of the previous
   * row: its own count through a '.', its neighbours' through any other
   * cell.
   */
  function PullUpTo(counts: seq<int>, line: string, n: nat, x: nat): int
    requires n <= |counts| <= |line| && x < |counts|
  {
    (if x < n && line[x] == '.' then counts[x] else 0)
    + (if 1 <= x && x - 1 < n && line[x - 1] != '.' then counts[x - 1] else 0)
    + (if x + 1 < n && line[x + 1] != '.' then counts[x + 1] else 0)
  }

  lemma {:induction false} SpreadPulls(counts: seq<int>, line: string, n: nat)
    requires n <= |counts| <= |line|
    ensures Spread(counts, line, n).Some?
    ensures forall x :: 0 <= x < |counts| ==> Spread(counts, line, n).value[x] == PullUpTo(counts, line, n, x)
  {
    if n > 0 {
      SpreadPulls(counts, line, n - 1);
    }
  }

  /**
   * The push programme agrees with the pull recurrence: where the line
   * covers the row, each new count is the sum of the counts that reach its
   * column from the row above.
   */
  lemma {:induction false} SpreadIsPull(counts: seq<int>, line: string)
    requires |counts| <= |line|
    ensures Spread(counts, line, |counts|) ==
            Some(seq(|counts|, x requires 0 <= x < |counts| => PullUpTo(counts, line, |counts|, x)))
  {
    SpreadPulls(counts, line, |counts|);
    var v := Spread(counts, line, |counts|).value;
    assert v == seq(|counts|, x requires 0 <= x < |counts| => PullUpTo(counts, line, |counts|, x));
  }

  /**
   * The body of solveGold's row loop: pushes every non-zero count through
   * line into a fresh array; false where charAt throws.
   */
  method NextRow(counts: array<int>, line: string) returns (ok: bool, nextCounts: array<int>)
    ensures fresh(nextCounts)
    ensures ok == Spread(counts[..], line, counts.Length).Some?
    ensures ok ==> nextCounts[..] == Spread(counts[..], line, counts.Length).value
  {
    var cols := counts.Length;
    nextCounts := new int[cols](_ => 0);
    assert nextCounts[..] == seq(cols, _ => 0);
    var x := 0;
    while x < cols
      invariant 0 <= x <= cols
      invariant Spread(counts[..], line, x) == Some(nextCounts[..])
      modifies nextCounts
    {
      ghost var before := nextCounts[..];
      var c := counts[x];
      if c != 0 {
        if x >= |line| {
          assert Spread(counts[..], line, x + 1).None?;
          SpreadStaysFailed(counts[..], line, x + 1, cols);
          return false, nextCounts;
        }
        var cell := line[x];
        assert Spread(counts[..], line, x + 1) == Some(Push(before, x, c, cell));
        if cell == '.' {
          nextCounts[x] := nextCounts[x] + c;
          assert nextCounts[..] == Add(before, x, c);
        } else {
          if x - 1 >= 0 {
            nextCounts[x - 1] := nextCounts[x - 1] + c;
          }
          assert nextCounts[..] == Add(before, x - 1, c);
          ghost var left := nextCounts[..];
          if x + 1 < cols {
            nextCounts[x + 1] := nextCounts[x + 1] + c;
          }
          assert nextCounts[..] == Add(left, x + 1, c);
        }
      }
      x := x + 1;
    }
    return true, nextCounts;
  }

  /** solveGold over a fresh array per row; None where the source throws. */
  method SolveGold(input: seq<string>) returns (total: Option<int>)
    ensures total == Gold(input)
  {
    if |input| == 0 || |input[0]| == 0 {
      return None;
    }
    var rows := |input|;
    var cols := |input[0]|;
    var counts := new int[cols](_ => 0);
    counts[cols / 2] := 1;
    assert counts[..] == Start(cols);
    var r := 1;
    while r < rows
      invariant 1 <= r <= rows
      invariant counts.Length == cols
      invariant Rows(input, 1, Start(cols)) == Rows(input, r, counts[..])
    {
      var ok, nextCounts := NextRow(counts, input[r]);
      if !ok {
        return None;
      }
      counts := nextCounts;
      r := r + 1;
    }
    var sum := 0;
    var k := 0;
    while k < cols
      invariant 0 <= k <= cols
      invariant sum == Sum(counts[..k])
    {
      assert counts[..k + 1][..k] == counts[..k];
      sum := sum + counts[k];
      k := k + 1;
    }
    assert counts[..k] == counts[..];
    return Some(sum);
  }
}
