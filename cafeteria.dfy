/**
 * Day 05, the cafeteria: the input lists inclusive ID ranges "start-end" and
 * single IDs. Silver counts the IDs (with repetitions) that fall in some
 * range; Gold counts the distinct IDs the ranges cover. Both first sort the
 * ranges by start and merge overlapping ones; Silver then looks each ID up
 * by binary search.
 */
module Cafeteria {
  import opened Text
  import GiftShop

  /** An inclusive range; nothing forces start <= end. */
  datatype Range = Range(start: int, end: int)

  predicate Contains(r: Range, x: int) {
    r.start <= x <= r.end
  }

  /** Some range of rs holds x. */
  predicate InAny(rs: seq<Range>, x: int) {
    exists i :: 0 <= i < |rs| && Contains(rs[i], x)
  }

  function Max(a: int, b: int): int {
    if a >= b then a else b
  }

  // ---------------------------------------------------------------------
  // Parsing

  /** What one input line holds. */
  datatype Entry = Blank | RangeLine(range: Range) | ValueLine(value: int)

  /**
   * One line of parseInput: trimmed; blank lines are skipped, a line with a
   * '-' is split on '-' and its first two pieces parsed, any other line is
   * one value. None stands for the NumberFormatException or the
   * ArrayIndexOutOfBoundsException the source throws on a malformed line.
   */
  function ParseLine(line: string): (e: Option<Entry>)
    ensures e == Some(Blank) <==> |Trim(line)| == 0
    ensures e.Some? && e.value.RangeLine? ==> '-' in Trim(line)
    ensures e.Some? && e.value.ValueLine? ==> '-' !in Trim(line) && ParseInt(Trim(line)) == Some(e.value.value)
  {
    var t := Trim(line);
    if |t| == 0 then Some(Blank)
    else if '-' in t then
      var bounds := GiftShop.ParseRange(t);
      if bounds.Some? then Some(RangeLine(Range(bounds.value.0, bounds.value.1))) else None
    else
      var v := ParseInt(t);
      if v.Some? then Some(ValueLine(v.value)) else None
  }

  /** A printed range "start-end" of non-negative bounds is read back as that range. */
  lemma ParseRangeLine(a: nat, b: nat)
    ensures ParseLine(ToDecimal(a) + "-" + ToDecimal(b)) == Some(RangeLine(Range(a, b)))
  {
    var s := ToDecimal(a) + "-" + ToDecimal(b);
    assert s[|ToDecimal(a)|] == '-';
    assert IsDigit(s[0]) && IsDigit(s[|s| - 1]);
    TrimKeeps(s);
    GiftShop.ParseRangeRoundTrip(a, b);
  }

  /** A printed non-negative value is read back as that value. */
  lemma ParseValueLine(v: nat)
    ensures ParseLine(ToDecimal(v)) == Some(ValueLine(v))
  {
    var s := ToDecimal(v);
    assert IsDigit(s[0]) && IsDigit(s[|s| - 1]);
    TrimKeeps(s);
    ParseToDecimal(v);
  }

  /**
   * A negative value cannot be given: its minus sign makes the line a range
   * line whose first piece is empty, which parseLong rejects.
   */
  lemma NegativeValueRejected(v: int)
    requires v < 0
    ensures ParseLine(ToDecimal(v)) == None
  {
    var s := ToDecimal(v);
    var digits := NatToDecimal(-v);
    assert s == "-" + digits;
    assert IsDigit(digits[|digits| - 1]);
    TrimKeeps(s);
    assert '-' in s by { assert s[0] == '-'; }
    assert Fields(s, '-')[0] == "";
  }

  /** parseInput: the ranges and the values, each in input order; None if a line is malformed. */
  function Parsed(lines: seq<string>): Option<(seq<Range>, seq<int>)>
  {
    if |lines| == 0 then Some(([], []))
    else
      var init := Parsed(lines[..|lines| - 1]);
      var e := ParseLine(lines[|lines| - 1]);
      if init.None? || e.None? then None
      else match e.value
        case Blank => init
        case RangeLine(r) => Some((init.value.0 + [r], init.value.1))
        case ValueLine(v) => Some((init.value.0, init.value.1 + [v]))
  }

  lemma {:induction false} ParsedStaysFailed(lines: seq<string>, j: nat)
    requires j <= |lines| && Parsed(lines[..j]).None?
    ensures Parsed(lines).None?
    decreases |lines| - j
  {
    if j < |lines| {
      assert lines[..j + 1][..j] == lines[..j];
      ParsedStaysFailed(lines, j + 1);
    } else {
      assert lines[..j] == lines;
    }
  }

  /** Every range line adds one range and every value line one value, in order. */
  lemma {:induction false} ParsedCounts(lines: seq<string>)
    requires Parsed(lines).Some?
    ensures |Parsed(lines).value.0| == CountRangeLines(lines)
    ensures |Parsed(lines).value.1| + CountRangeLines(lines) <= |lines|
  {
    if |lines| > 0 {
      ParsedCounts(lines[..|lines| - 1]);
    }
  }

  /** The lines that parse as a range. */
  function CountRangeLines(lines: seq<string>): nat
  {
    if |lines| == 0 then 0
    else
      var e := ParseLine(lines[|lines| - 1]);
      CountRangeLines(lines[..|lines| - 1]) + (if e.Some? && e.value.RangeLine? then 1 else 0)
  }

  method ParseInput(input: seq<string>) returns (r: Option<(seq<Range>, seq<int>)>)
    ensures r == Parsed(input)
  {
    var ranges: seq<Range> := [];
    var values: seq<int> := [];
    for i := 0 to |input|
      invariant Parsed(input[..i]) == Some((ranges, values))
    {
      assert input[..i + 1][..i] == input[..i];
      var line := Trim(input[i]);
      if |line| == 0 {
        continue;
      }
      if '-' in line {
        var bounds := GiftShop.ParseRange(line);
        if bounds.None? {
          ParsedStaysFailed(input, i + 1);
          return None;
        }
        ranges := ranges + [Range(bounds.value.0, bounds.value.1)];
      } else {
        var v := ParseInt(line);
        if v.None? {
          ParsedStaysFailed(input, i + 1);
          return None;
        }
        values := values + [v.value];
      }
    }
    assert input[..|input|] == input;
    return Some((ranges, values));
  }

  // ---------------------------------------------------------------------
  // Sorting by start

  predicate SortedByStart(s: seq<Range>) {
    forall i, j :: 0 <= i < j < |s| ==> s[i].start <= s[j].start
  }

  /** Inserts x after every element whose start is at most x's. */
  function Insert(s: seq<Range>, x: Range): (r: seq<Range>)
    requires SortedByStart(s)
    ensures SortedByStart(r) && multiset(r) == multiset(s) + multiset{x} && |r| == |s| + 1
  {
    if |s| == 0 || s[|s| - 1].start <= x.start then s + [x]
    else
      var init := s[..|s| - 1];
      var last := s[|s| - 1];
      assert s == init + [last];
      var r0 := Insert(init, x);
      StartsBounded(r0, init, x, last.start);
      r0 + [last]
  }

  /** A permutation of init plus x starts no later than b when they all do. */
  lemma StartsBounded(r: seq<Range>, init: seq<Range>, x: Range, b: int)
    requires multiset(r) == multiset(init) + multiset{x}
    requires x.start <= b && forall i :: 0 <= i < |init| ==> init[i].start <= b
    ensures forall k :: 0 <= k < |r| ==> r[k].start <= b
  {
    forall k | 0 <= k < |r| ensures r[k].start <= b {
      assert r[k] in multiset(r);
      if r[k] != x {
        assert r[k] in multiset(init);
        var i :| 0 <= i < |init| && init[i] == r[k];
      }
    }
  }

  /**
   * ranges.sort(Comparator.comparingLong(a -> a[0])): a stable sort by
   * start. The result is sorted and a permutation of the input.
   */
  function SortByStart(rs: seq<Range>): (r: seq<Range>)
    ensures SortedByStart(r) && multiset(r) == multiset(rs) && |r| == |rs|
  {
    if |rs| == 0 then []
    else
      assert rs == rs[..|rs| - 1] + [rs[|rs| - 1]];
      Insert(SortByStart(rs[..|rs| - 1]), rs[|rs| - 1])
  }

  /** Reordering the ranges does not change which values they cover. */
  lemma PermutationCovers(a: seq<Range>, b: seq<Range>, x: int)
    requires multiset(a) == multiset(b)
    ensures InAny(a, x) <==> InAny(b, x)
  {
    if InAny(a, x) {
      var i :| 0 <= i < |a| && Contains(a[i], x);
      assert a[i] in multiset(b);
      var j :| 0 <= j < |b| && b[j] == a[i];
    }
    if InAny(b, x) {
      var i :| 0 <= i < |b| && Contains(b[i], x);
      assert b[i] in multiset(a);
      var j :| 0 <= j < |a| && a[j] == b[i];
    }
  }

  // ---------------------------------------------------------------------
  // Merging

  /** The merge loop's state: the ranges emitted so far and the range being grown. */
  datatype MergeState = MergeState(merged: seq<Range>, curr: Range)

  /** One step of the loop: r joins curr when it starts within it, otherwise curr is emitted. */
  function MergeStep(st: MergeState, r: Range): MergeState
  {
    if r.start <= st.curr.end then MergeState(st.merged, Range(st.curr.start, Max(st.curr.end, r.end)))
    else MergeState(st.merged + [st.curr], r)
  }

  function MergeFold(s: seq<Range>): MergeState
    requires |s| > 0
  {
    if |s| == 1 then MergeState([], s[0]) else MergeStep(MergeFold(s[..|s| - 1]), s[|s| - 1])
  }

  /** The merged list of an already sorted list. */
  function Merge(s: seq<Range>): seq<Range>
    requires |s| > 0
  {
    var st := MergeFold(s);
    st.merged + [st.curr]
  }

  /** mergeRanges: sort by start, then merge. */
  function MergeRanges(rs: seq<Range>): seq<Range>
    requires |rs| > 0
  {
    Merge(SortByStart(rs))
  }

  /** Ordered by start, and each range ends before the next one starts. */
  predicate Separated(rs: seq<Range>) {
    forall i, j :: 0 <= i < j < |rs| ==> rs[i].start <= rs[j].start && rs[i].end < rs[j].start
  }

  lemma InAnyAppend(rs: seq<Range>, r: Range, x: int)
    ensures InAny(rs + [r], x) <==> InAny(rs, x) || Contains(r, x)
  {
    if InAny(rs + [r], x) {
      var i :| 0 <= i < |rs| + 1 && Contains((rs + [r])[i], x);
      if i < |rs| {
        assert Contains(rs[i], x);
      }
    }
    if InAny(rs, x) {
      var i :| 0 <= i < |rs| && Contains(rs[i], x);
      assert (rs + [r])[i] == rs[i];
    }
    if Contains(r, x) {
      assert (rs + [r])[|rs|] == r;
    }
  }

  /** The invariant of the merge loop on a sorted list. */
  predicate MergeInvariant(s: seq<Range>, st: MergeState)
    requires |s| > 0
  {
    && Separated(st.merged + [st.curr])
    && st.curr.start <= s[|s| - 1].start
  }

  lemma {:induction false} MergeFoldInvariant(s: seq<Range>)
    requires |s| > 0 && SortedByStart(s)
    ensures MergeInvariant(s, MergeFold(s))
  {
    if |s| > 1 {
      var init := s[..|s| - 1];
      MergeFoldInvariant(init);
      var st := MergeFold(init);
      var r := s[|s| - 1];
      assert init[|init| - 1].start <= r.start;
      var m := st.merged + [st.curr];
      var st' := MergeStep(st, r);
      var m' := st'.merged + [st'.curr];
      if r.start <= st.curr.end {
        assert m' == st.merged + [Range(st.curr.start, Max(st.curr.end, r.end))];
        forall i, j | 0 <= i < j < |m'| ensures m'[i].start <= m'[j].start && m'[i].end < m'[j].start {
          assert m[i] == m'[i];
          assert m'[j].start == m[j].start;
        }
      } else {
        assert m' == m + [r];
        forall i, j | 0 <= i < j < |m'| ensures m'[i].start <= m'[j].start && m'[i].end < m'[j].start {
          if j < |m| {
            assert m'[i] == m[i] && m'[j] == m[j];
          } else if i < |m| - 1 {
            assert m'[i] == m[i] && m[|m| - 1] == st.curr;
          }
        }
      }
    }
  }

  /** Growing curr by a range that starts inside it covers exactly the two ranges. */
  lemma JoinCovers(curr: Range, r: Range, x: int)
    requires curr.start <= r.start <= curr.end
    ensures Contains(Range(curr.start, Max(curr.end, r.end)), x) <==> Contains(curr, x) || Contains(r, x)
  {
  }

  lemma {:induction false} MergeFoldCovers(s: seq<Range>, x: int)
    requires |s| > 0 && SortedByStart(s)
    ensures InAny(MergeFold(s).merged + [MergeFold(s).curr], x) <==> InAny(s, x)
  {
    if |s| == 1 {
      assert MergeFold(s).merged + [MergeFold(s).curr] == s;
    } else {
      var init := s[..|s| - 1];
      var r := s[|s| - 1];
      assert s == init + [r];
      MergeFoldCovers(init, x);
      MergeFoldInvariant(init);
      var st := MergeFold(init);
      InAnyAppend(init, r, x);
      InAnyAppend(st.merged, st.curr, x);
      if r.start <= st.curr.end {
        assert init[|init| - 1].start <= r.start;
        JoinCovers(st.curr, r, x);
        InAnyAppend(st.merged, Range(st.curr.start, Max(st.curr.end, r.end)), x);
      } else {
        InAnyAppend(st.merged + [st.curr], r, x);
      }
    }
  }

  /**
   * The merged list is ordered by start with each range ending before the
   * next one starts, and it covers exactly what the input ranges cover.
   */
  lemma MergeRangesCorrect(rs: seq<Range>)
    requires |rs| > 0
    ensures Separated(MergeRanges(rs))
    ensures forall x :: InAny(MergeRanges(rs), x) <==> InAny(rs, x)
  {
    var s := SortByStart(rs);
    MergeFoldInvariant(s);
    forall x ensures InAny(MergeRanges(rs), x) <==> InAny(rs, x) {
      MergeFoldCovers(s, x);
      PermutationCovers(s, rs, x);
    }
  }

  /** The body of mergeRanges' loop, with curr held as a value. */
  method MergeRangesLoop(ranges: seq<Range>) returns (merged: seq<Range>)
    requires |ranges| > 0
    ensures merged == Merge(ranges)
  {
    merged := [];
    var curr := ranges[0];
    for i := 1 to |ranges|
      invariant MergeFold(ranges[..i]) == MergeState(merged, curr)
    {
      assert ranges[..i + 1][..i] == ranges[..i];
      var r := ranges[i];
      if r.start <= curr.end {
        curr := Range(curr.start, Max(curr.end, r.end));
      } else {
        merged := merged + [curr];
        curr := r;
      }
    }
    assert ranges[..|ranges|] == ranges;
    merged := merged + [curr];
  }

  /** mergeRanges: the source's list cannot be empty (ranges.get(0) would throw). */
  method MergeRangesMethod(ranges: seq<Range>) returns (merged: seq<Range>)
    requires |ranges| > 0
    ensures merged == MergeRanges(ranges)
    ensures Separated(merged) && forall x :: InAny(merged, x) <==> InAny(ranges, x)
  {
    var sorted := SortByStart(ranges);
    merged := MergeRangesLoop(sorted);
    MergeRangesCorrect(ranges);
  }

  // ---------------------------------------------------------------------
  // Lookup

  /** isInRanges: binary search over separated ranges. */
  method IsInRanges(ranges: seq<Range>, value: int) returns (found: bool)
    requires Separated(ranges)
    ensures found == InAny(ranges, value)
  {
    var low, high := 0, |ranges| - 1;
    while low <= high
      invariant 0 <= low <= high + 1 <= |ranges|
      invariant forall i :: 0 <= i < low ==> !Contains(ranges[i], value)
      invariant forall i :: high < i < |ranges| ==> !Contains(ranges[i], value)
      decreases high - low
    {
      var mid := (low + high) / 2;
      var r := ranges[mid];
      if value < r.start {
        high := mid - 1;
      } else if value > r.end {
        low := mid + 1;
      } else {
        return true;
      }
    }
    return false;
  }

  // ---------------------------------------------------------------------
  // Solvers

  /** The values, with repetitions, that some range covers. */
  function CountIn(rs: seq<Range>, values: seq<int>): (n: nat)
    ensures n <= |values|
  {
    if |values| == 0 then 0
    else CountIn(rs, values[..|values| - 1]) + (if InAny(rs, values[|values| - 1]) then 1 else 0)
  }

  /** Counting against ranges that cover the same values gives the same count. */
  lemma {:induction false} CountInSameCover(a: seq<Range>, b: seq<Range>, values: seq<int>)
    requires forall x :: InAny(a, x) <==> InAny(b, x)
    ensures CountIn(a, values) == CountIn(b, values)
  {
    if |values| > 0 {
      CountInSameCover(a, b, values[..|values| - 1]);
    }
  }

  /** Silver: None when a line is malformed or there is no range (mergeRanges would throw). */
  function Silver(input: seq<string>): Option<int>
  {
    var p := Parsed(input);
    if p.None? || |p.value.0| == 0 then None
    else Some(CountIn(MergeRanges(p.value.0), p.value.1))
  }

  /** Silver counts the values, with repetitions, that lie in some input range. */
  lemma SilverCountsCovered(input: seq<string>)
    requires Parsed(input).Some? && |Parsed(input).value.0| > 0
    ensures Silver(input) == Some(CountIn(Parsed(input).value.0, Parsed(input).value.1))
  {
    var rs := Parsed(input).value.0;
    MergeRangesCorrect(rs);
    CountInSameCover(MergeRanges(rs), rs, Parsed(input).value.1);
  }

  method SolveSilver(input: seq<string>) returns (r: Option<int>)
    ensures r == Silver(input)
  {
    var parsed := ParseInput(input);
    if parsed.None? || |parsed.value.0| == 0 {
      return None;
    }
    var ranges, values := parsed.value.0, parsed.value.1;
    var merged := MergeRangesMethod(ranges);
    var count := CountFresh(merged, values);
    return Some(count);
  }

  /** The loop of solveSilver: one binary search per available ingredient. */
  method CountFresh(merged: seq<Range>, values: seq<int>) returns (count: nat)
    requires Separated(merged)
    ensures count == CountIn(merged, values)
  {
    count := 0;
    for i := 0 to |values|
      invariant count == CountIn(merged, values[..i])
    {
      assert values[..i + 1][..i] == values[..i];
      var ok := IsInRanges(merged, values[i]);
      if ok {
        count := count + 1;
      }
    }
    assert values[..|values|] == values;
  }

  /** The sum of end - start + 1 over the ranges. */
  function Total(rs: seq<Range>): int
  {
    if |rs| == 0 then 0 else Total(rs[..|rs| - 1]) + (rs[|rs| - 1].end - rs[|rs| - 1].start + 1)
  }

  /** Gold: None when a line is malformed or there is no range. */
  function Gold(input: seq<string>): Option<int>
  {
    var p := Parsed(input);
    if p.None? || |p.value.0| == 0 then None else Some(Total(MergeRanges(p.value.0)))
  }

  method SolveGold(input: seq<string>) returns (r: Option<int>)
    ensures r == Gold(input)
  {
    var parsed := ParseInput(input);
    if parsed.None? || |parsed.value.0| == 0 {
      return None;
    }
    var merged := MergeRangesMethod(parsed.value.0);
    var count := SumLengths(merged);
    return Some(count);
  }

  /** The counting loop of solveGold. */
  method SumLengths(merged: seq<Range>) returns (count: int)
    ensures count == Total(merged)
  {
    count := 0;
    for i := 0 to |merged|
      invariant count == Total(merged[..i])
    {
      assert merged[..i + 1][..i] == merged[..i];
      count := count + (merged[i].end - merged[i].start + 1);
    }
    assert merged[..|merged|] == merged;
  }

  // ---------------------------------------------------------------------
  // Gold counts the distinct covered values

  /** The integers in [lo, hi) that some range of rs covers. */
  function CountCovered(rs: seq<Range>, lo: int, hi: int): (n: nat)
    requires lo <= hi
    ensures n <= hi - lo
    decreases hi - lo
  {
    if lo == hi then 0 else CountCovered(rs, lo, hi - 1) + (if InAny(rs, hi - 1) then 1 else 0)
  }

  lemma {:induction false} CountCoveredSplit(rs: seq<Range>, lo: int, mid: int, hi: int)
    requires lo <= mid <= hi
    ensures CountCovered(rs, lo, hi) == CountCovered(rs, lo, mid) + CountCovered(rs, mid, hi)
    decreases hi - mid
  {
    if mid < hi {
      CountCoveredSplit(rs, lo, mid, hi - 1);
    }
  }

  lemma {:induction false} CountCoveredAgree(a: seq<Range>, b: seq<Range>, lo: int, hi: int)
    requires lo <= hi
    requires forall x :: lo <= x < hi ==> (InAny(a, x) <==> InAny(b, x))
    ensures CountCovered(a, lo, hi) == CountCovered(b, lo, hi)
    decreases hi - lo
  {
    if lo < hi {
      CountCoveredAgree(a, b, lo, hi - 1);
    }
  }

  lemma {:induction false} CountCoveredNone(rs: seq<Range>, lo: int, hi: int)
    requires lo <= hi
    requires forall x :: lo <= x < hi ==> !InAny(rs, x)
    ensures CountCovered(rs, lo, hi) == 0
    decreases hi - lo
  {
    if lo < hi {
      CountCoveredNone(rs, lo, hi - 1);
    }
  }

  lemma {:induction false} CountCoveredAll(rs: seq<Range>, lo: int, hi: int)
    requires lo <= hi
    requires forall x :: lo <= x < hi ==> InAny(rs, x)
    ensures CountCovered(rs, lo, hi) == hi - lo
    decreases hi - lo
  {
    if lo < hi {
      CountCoveredAll(rs, lo, hi - 1);
    }
  }

  predicate NonEmptyRanges(rs: seq<Range>) {
    forall i :: 0 <= i < |rs| ==> rs[i].start <= rs[i].end
  }

  /**
   * For separated non-empty ranges, the sum of the lengths is the number of
   * integers covered between the first start and the last end.
   */
  lemma {:induction false} TotalCountsCovered(m: seq<Range>)
    requires |m| > 0 && Separated(m) && NonEmptyRanges(m)
    ensures Total(m) == CountCovered(m, m[0].start, m[|m| - 1].end + 1)
  {
    if |m| == 1 {
      LastCovered(m);
      CountCoveredAll(m, m[0].start, m[0].end + 1);
    } else {
      PrefixSeparated(m);
      TotalCountsCovered(m[..|m| - 1]);
      GapUncovered(m);
      TotalSnoc(m);
    }
  }

  /** The step of TotalCountsCovered: appending a range after a gap adds its length. */
  lemma TotalSnoc(m: seq<Range>)
    requires |m| > 1
    requires m[0].start <= m[|m| - 2].end < m[|m| - 1].start <= m[|m| - 1].end
    requires Total(m[..|m| - 1]) == CountCovered(m[..|m| - 1], m[0].start, m[|m| - 2].end + 1)
    requires CountCovered(m, m[|m| - 2].end + 1, m[|m| - 1].start) == 0
    ensures Total(m) == CountCovered(m, m[0].start, m[|m| - 1].end + 1)
  {
    var last := m[|m| - 1];
    var a, e := m[0].start, m[|m| - 2].end;
    CountCoveredSplit(m, a, e + 1, last.end + 1);
    CountCoveredSplit(m, e + 1, last.start, last.end + 1);
    InitCoveredSame(m, a, e + 1);
    LastStretch(m);
    TotalLast(m);
  }

  lemma LastStretch(m: seq<Range>)
    requires |m| > 0 && m[|m| - 1].start <= m[|m| - 1].end
    ensures CountCovered(m, m[|m| - 1].start, m[|m| - 1].end + 1) == m[|m| - 1].end + 1 - m[|m| - 1].start
  {
    LastCovered(m);
    CountCoveredAll(m, m[|m| - 1].start, m[|m| - 1].end + 1);
  }

  lemma TotalLast(m: seq<Range>)
    requires |m| > 0
    ensures Total(m) == Total(m[..|m| - 1]) + (m[|m| - 1].end - m[|m| - 1].start + 1)
  {
  }

  lemma PrefixSeparated(m: seq<Range>)
    requires |m| > 1 && Separated(m) && NonEmptyRanges(m)
    ensures Separated(m[..|m| - 1]) && NonEmptyRanges(m[..|m| - 1])
    ensures m[0].start <= m[|m| - 2].end
  {
    assert m[0].start <= m[|m| - 2].start;
  }

  lemma LastCovered(m: seq<Range>)
    requires |m| > 0
    ensures forall x :: m[|m| - 1].start <= x <= m[|m| - 1].end ==> InAny(m, x)
  {
    forall x | m[|m| - 1].start <= x <= m[|m| - 1].end ensures InAny(m, x) {
      assert Contains(m[|m| - 1], x);
    }
  }

  /** Below the last range's start, the ranges cover what the ranges before it cover. */
  lemma InitCoveredSame(m: seq<Range>, lo: int, hi: int)
    requires |m| > 0 && lo <= hi <= m[|m| - 1].start
    ensures CountCovered(m, lo, hi) == CountCovered(m[..|m| - 1], lo, hi)
  {
    var init, last := m[..|m| - 1], m[|m| - 1];
    assert m == init + [last];
    forall x | lo <= x < hi ensures InAny(m, x) <==> InAny(init, x) {
      InAnyAppend(init, last, x);
    }
    CountCoveredAgree(m, init, lo, hi);
  }

  /** Nothing lies between the end of the last but one range and the start of the last one. */
  lemma GapUncovered(m: seq<Range>)
    requires |m| > 1 && Separated(m) && NonEmptyRanges(m)
    ensures m[|m| - 2].end + 1 <= m[|m| - 1].start
    ensures CountCovered(m, m[|m| - 2].end + 1, m[|m| - 1].start) == 0
  {
    var e := m[|m| - 2].end;
    forall x | e + 1 <= x < m[|m| - 1].start ensures !InAny(m, x) {
      forall i | 0 <= i < |m| ensures !Contains(m[i], x) {
        if i < |m| - 2 {
          assert m[i].end < m[|m| - 2].start;
        }
      }
    }
    CountCoveredNone(m, e + 1, m[|m| - 1].start);
  }

  lemma {:induction false} MergeFoldNonEmpty(s: seq<Range>)
    requires |s| > 0 && NonEmptyRanges(s)
    ensures NonEmptyRanges(MergeFold(s).merged + [MergeFold(s).curr])
  {
    if |s| > 1 {
      var init := s[..|s| - 1];
      assert NonEmptyRanges(init) by {
        forall i | 0 <= i < |init| ensures init[i].start <= init[i].end {
          assert init[i] == s[i];
        }
      }
      MergeFoldNonEmpty(init);
      var st := MergeFold(init);
      var m := st.merged + [st.curr];
      var r := s[|s| - 1];
      assert r.start <= r.end;
      assert st.curr == m[|m| - 1];
      if r.start > st.curr.end {
        assert MergeFold(s).merged + [MergeFold(s).curr] == m + [r];
      } else {
        var m' := MergeFold(s).merged + [MergeFold(s).curr];
        forall i | 0 <= i < |m'| ensures m'[i].start <= m'[i].end {
          if i < |m'| - 1 {
            assert m'[i] == m[i];
          }
        }
      }
    }
  }

  /**
   * With no range given backwards (start > end), Gold is the number of
   * distinct integers the input ranges cover: every covered integer lies
   * between lo and hi, and Gold counts the covered integers there.
   */
  lemma GoldCountsCovered(input: seq<string>, rs: seq<Range>, values: seq<int>)
    requires Parsed(input) == Some((rs, values)) && |rs| > 0 && NonEmptyRanges(rs)
    ensures Low(rs) <= High(rs)
    ensures forall x :: InAny(rs, x) ==> Low(rs) <= x <= High(rs)
    ensures Gold(input) == Some(CountCovered(rs, Low(rs), High(rs) + 1))
  {
    MergedTotalCounts(rs);
  }

  /** The smallest start after merging. */
  function Low(rs: seq<Range>): int
    requires |rs| > 0
  {
    MergeRanges(rs)[0].start
  }

  /** The largest end after merging. */
  function High(rs: seq<Range>): int
    requires |rs| > 0
  {
    var m := MergeRanges(rs);
    m[|m| - 1].end
  }

  /** The merged total of ranges none of which is backwards counts the integers they cover. */
  lemma MergedTotalCounts(rs: seq<Range>)
    requires |rs| > 0 && NonEmptyRanges(rs)
    ensures Low(rs) <= High(rs)
    ensures forall x :: InAny(rs, x) ==> Low(rs) <= x <= High(rs)
    ensures Total(MergeRanges(rs)) == CountCovered(rs, Low(rs), High(rs) + 1)
  {
    var m := MergeRanges(rs);
    MergeRangesCorrect(rs);
    MergedNonEmpty(rs);
    MergedBounds(m);
    TotalCountsCovered(m);
    CountCoveredAgree(m, rs, m[0].start, m[|m| - 1].end + 1);
  }

  lemma MergedNonEmpty(rs: seq<Range>)
    requires |rs| > 0 && NonEmptyRanges(rs)
    ensures NonEmptyRanges(MergeRanges(rs))
  {
    var s := SortByStart(rs);
    forall i | 0 <= i < |s| ensures s[i].start <= s[i].end {
      assert s[i] in multiset(rs);
    }
    MergeFoldNonEmpty(s);
  }

  /** Separated non-empty ranges cover nothing before the first start or after the last end. */
  lemma MergedBounds(m: seq<Range>)
    requires |m| > 0 && Separated(m) && NonEmptyRanges(m)
    ensures m[0].start <= m[|m| - 1].end
    ensures forall x :: InAny(m, x) ==> m[0].start <= x <= m[|m| - 1].end
  {
    forall x | InAny(m, x) ensures m[0].start <= x <= m[|m| - 1].end {
      var i :| 0 <= i < |m| && Contains(m[i], x);
      if 0 < i {
        assert m[0].start <= m[i].start;
      }
      if i < |m| - 1 {
        assert m[i].end < m[|m| - 1].start;
      }
    }
  }
}
