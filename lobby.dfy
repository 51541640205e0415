/**
 * Day 03, the lobby: from each line of digits keep k of them, in order, so
 * that the number they spell is as large as possible. The solver pushes the
 * digits on a stack and pops smaller ones while it still may drop some
 * (n - k in all). Silver sums the best 2-digit choices, Gold the best
 * 12-digit ones.
 */
module Lobby {
  import opened Text

  /** The stack of kept characters and the number of pops still allowed. */
  datatype StackState = StackState(stack: string, toRemove: int)

  /**
   * The inner while loop: while pops remain, pop the top while it is smaller
   * than the incoming character. It pops only smaller characters, only as
   * many as it may, and stops at an empty stack, at no pops left, or at a top
   * no smaller than c.
   */
  function Pop(st: string, toRemove: int, c: char): (r: StackState)
    ensures |r.stack| <= |st| && r.stack == st[..|r.stack|]
    ensures r.toRemove == toRemove - (|st| - |r.stack|)
    ensures forall t :: |r.stack| <= t < |st| ==> st[t] < c
    ensures toRemove >= 0 ==> r.toRemove >= 0
    ensures toRemove <= 0 ==> r.stack == st
    ensures |r.stack| == 0 || r.toRemove <= 0 || c <= r.stack[|r.stack| - 1]
    decreases |st|
  {
    if |st| > 0 && toRemove > 0 && st[|st| - 1] < c then Pop(st[..|st| - 1], toRemove - 1, c)
    else StackState(st, toRemove)
  }

  /** The stack after the characters of p, starting with `budget` pops allowed. */
  function Scan(p: string, budget: int): StackState {
    if |p| == 0 then StackState([], budget)
    else
      var s := Scan(p[..|p| - 1], budget);
      var popped := Pop(s.stack, s.toRemove, p[|p| - 1]);
      StackState(popped.stack + [p[|p| - 1]], popped.toRemove)
  }

  /** The digits maxJoltageForLine keeps: the stack, cut to k characters. */
  function Selected(line: string, k: nat): string {
    Cut(Scan(line, |line| - k).stack, k)
  }

  /** The trimming loop: the bottom k characters of the stack. */
  function Cut(s: string, k: nat): (r: string)
    ensures |r| == if |s| > k then k else |s|
    ensures r == s[..|r|]
  {
    if |s| > k then s[..k] else s
  }

  /** maxJoltageForLine: the kept digits read as a number; None where Long.parseLong fails. */
  function MaxJoltage(line: string, k: nat): Option<int> {
    ParseInt(Selected(line, k))
  }

  /** t is a subsequence of p: its characters occur in p in the same order. */
  predicate IsSubseq(t: string, p: string)
    decreases |p|
  {
    if |t| == 0 then true
    else if |p| == 0 then false
    else (t[|t| - 1] == p[|p| - 1] && IsSubseq(t[..|t| - 1], p[..|p| - 1])) || IsSubseq(t, p[..|p| - 1])
  }

  lemma SubseqExtend(t: string, p: string, x: char)
    requires IsSubseq(t, p)
    ensures IsSubseq(t, p + [x])
  {
    assert (p + [x])[..|p|] == p;
  }

  lemma {:induction false} SubseqPrefix(t: string, p: string, m: nat)
    requires IsSubseq(t, p) && m <= |t|
    ensures IsSubseq(t[..m], p)
    decreases |p|
  {
    if m == |t| {
      assert t[..m] == t;
    } else if |p| > 0 {
      var p' := p[..|p| - 1];
      if t[|t| - 1] == p[|p| - 1] && IsSubseq(t[..|t| - 1], p') {
        SubseqPrefix(t[..|t| - 1], p', m);
        assert t[..|t| - 1][..m] == t[..m];
      } else {
        SubseqPrefix(t, p', m);
      }
      SubseqExtend(t[..m], p', p[|p| - 1]);
      assert p' + [p[|p| - 1]] == p;
    }
  }

  lemma {:induction false} SubseqChars(t: string, p: string)
    requires IsSubseq(t, p)
    ensures forall i :: 0 <= i < |t| ==> t[i] in p
    decreases |p|
  {
    if |t| > 0 {
      var p' := p[..|p| - 1];
      if t[|t| - 1] == p[|p| - 1] && IsSubseq(t[..|t| - 1], p') {
        SubseqChars(t[..|t| - 1], p');
        forall i | 0 <= i < |t| - 1 ensures t[i] in p {
          assert t[..|t| - 1][i] in p';
        }
      } else {
        SubseqChars(t, p');
      }
    }
  }

  /** The length of the longest common prefix of a and b. */
  function Common(a: string, b: string): (r: nat)
    ensures r <= |a| && r <= |b| && a[..r] == b[..r]
    ensures r < |a| && r < |b| ==> a[r] != b[r]
  {
    if |a| == 0 || |b| == 0 || a[0] != b[0] then 0
    else
      var r := 1 + Common(a[1..], b[1..]);
      assert a[..r] == [a[0]] + a[1..][..r - 1];
      assert b[..r] == [b[0]] + b[1..][..r - 1];
      r
  }

  /** The common prefix is the only length with Common's properties. */
  lemma CommonIs(a: string, b: string, r: nat)
    requires r <= |a| && r <= |b| && a[..r] == b[..r]
    requires r < |a| && r < |b| ==> a[r] != b[r]
    ensures Common(a, b) == r
  {
  }

  /** a is no greater than b, compared lexicographically on their common length. */
  predicate Le(a: string, b: string) {
    var q := Common(a, b);
    q == |a| || q == |b| || a[q] < b[q]
  }

  /** a is smaller than b at a position where both are defined. */
  predicate Lt(a: string, b: string) {
    var q := Common(a, b);
    q < |a| && q < |b| && a[q] < b[q]
  }

  predicate NonIncreasing(s: string) {
    forall i, j :: 0 <= i < j < |s| ==> s[j] <= s[i]
  }

  /**
   * The stack beats every subsequence of the characters read so far that
   * drops at most `budget` of them, and beats strictly those that are longer.
   */
  ghost predicate Dominates(s: string, p: string, budget: int) {
    forall t :: IsSubseq(t, p) && |t| >= |p| - budget ==> Le(t, s) && (|t| > |s| ==> Lt(t, s))
  }

  /** A candidate that skips the incoming character stays beaten after the pops and the push. */
  lemma KeepBeaten(t: string, s: string, j: nat, c: char)
    requires j <= |s| && forall i :: j <= i < |s| ==> s[i] < c
    requires Le(t, s) && (|t| > |s| ==> Lt(t, s))
    ensures Le(t, s[..j] + [c]) && (|t| > j + 1 ==> Lt(t, s[..j] + [c]))
  {
    var s' := s[..j] + [c];
    var q := Common(t, s);
    if q < j {
      assert t[..q] == s'[..q];
      CommonIs(t, s', q);
    } else {
      assert t[..j] == s'[..j];
      if |t| == j {
        CommonIs(t, s', j);
      } else {
        assert t[j] < c by {
          if j < |s| {
            if q > j {
              assert t[..q][j] == s[..q][j];
            }
          }
        }
        CommonIs(t, s', j);
      }
    }
  }

  /** A candidate that ends with the incoming character is beaten by the new stack. */
  lemma UseBeaten(t: string, s: string, j: nat, c: char)
    requires j <= |s| && forall i :: j <= i < |s| ==> s[i] < c
    requires |t| < j ==> forall i :: |t| <= i < j ==> c <= s[i]
    requires Le(t, s) && (|t| > |s| ==> Lt(t, s))
    ensures Le(t + [c], s[..j] + [c]) && (|t| > j ==> Lt(t + [c], s[..j] + [c]))
  {
    var s' := s[..j] + [c];
    var t' := t + [c];
    var q := Common(t, s);
    if q < j && q < |t| {
      assert t'[..q] == t[..q] == s[..q] == s'[..q];
      CommonIs(t', s', q);
    } else if q == |t| && |t| < j {
      assert t'[..|t|] == t == s[..|t|] == s'[..|t|];
      if s[|t|] == c {
        assert t'[..|t| + 1] == s'[..|t| + 1];
        CommonIs(t', s', |t| + 1);
      } else {
        CommonIs(t', s', |t|);
      }
    } else {
      assert t[..j] == s'[..j];
      if |t| == j {
        assert t' == s';
        CommonIs(t', s', j + 1);
      } else {
        assert t[j] < c by {
          if j < |s| {
            if q > j {
              assert t[..q][j] == s[..q][j];
            }
          }
        }
        assert t'[..j] == s'[..j];
        CommonIs(t', s', j);
      }
    }
  }

  /** When pops remain after popping, every kept character of a sorted stack is at least c. */
  lemma PopStopsAtLarger(s: string, toRemove: int, c: char, n: nat)
    requires NonIncreasing(s)
    requires Pop(s, toRemove, c).toRemove > 0 && n < |Pop(s, toRemove, c).stack|
    ensures forall i :: n <= i < |Pop(s, toRemove, c).stack| ==> c <= s[i]
  {
    var r := Pop(s, toRemove, c);
    var j := |r.stack|;
    assert c <= s[j - 1] by {
      assert r.stack[j - 1] == s[j - 1];
    }
    forall i | n <= i < j - 1 ensures c <= s[i] {
      assert s[j - 1] <= s[i];
    }
  }

  /** One step of the scan keeps the stack ahead of every candidate. */
  lemma DominatesStep(p: string, s: string, budget: int, toRemove: int, c: char)
    requires Dominates(s, p, budget)
    requires |s| + (budget - toRemove) == |p|
    requires toRemove > 0 ==> NonIncreasing(s)
    ensures Dominates(Pop(s, toRemove, c).stack + [c], p + [c], budget)
  {
    var r := Pop(s, toRemove, c);
    var j := |r.stack|;
    var s' := r.stack + [c];
    assert r.stack == s[..j];
    var p' := p + [c];
    assert p'[..|p'| - 1] == p;
    forall t' | IsSubseq(t', p') && |t'| >= |p'| - budget
      ensures Le(t', s') && (|t'| > |s'| ==> Lt(t', s'))
    {
      if |t'| == 0 {
        CommonIs(t', s', 0);
      } else {
        var t := t'[..|t'| - 1];
        if t'[|t'| - 1] == c && IsSubseq(t, p) {
          assert t' == t + [c];
          if |t| < j {
            assert r.toRemove > 0;
            PopStopsAtLarger(s, toRemove, c, |t|);
          }
          UseBeaten(t, s, j, c);
        } else {
          KeepBeaten(t', s, j, c);
        }
      }
    }
  }

  /** The stack and the pops left always account for every character read. */
  lemma {:induction false} ScanCounts(p: string, budget: int)
    ensures var s := Scan(p, budget);
      && |s.stack| + (budget - s.toRemove) == |p|
      && (budget >= 0 ==> 0 <= s.toRemove <= budget)
      && (budget < 0 ==> s.toRemove == budget)
  {
    if |p| > 0 {
      ScanCounts(p[..|p| - 1], budget);
    }
  }

  /** The stack holds characters of the input, in input order. */
  lemma {:induction false} ScanSubseq(p: string, budget: int)
    ensures IsSubseq(Scan(p, budget).stack, p)
  {
    if |p| > 0 {
      var init, c := p[..|p| - 1], p[|p| - 1];
      assert init + [c] == p;
      ScanSubseq(init, budget);
      var prev := Scan(init, budget);
      var popped := Pop(prev.stack, prev.toRemove, c);
      SubseqPrefix(prev.stack, init, |popped.stack|);
      assert (popped.stack + [c])[..|popped.stack|] == popped.stack;
    }
  }

  /** While pops remain, the stack never increases from bottom to top. */
  lemma {:induction false} ScanOrder(p: string, budget: int)
    ensures Scan(p, budget).toRemove > 0 ==> NonIncreasing(Scan(p, budget).stack)
  {
    if |p| > 0 {
      var init, c := p[..|p| - 1], p[|p| - 1];
      ScanOrder(init, budget);
      var prev := Scan(init, budget);
      var popped := Pop(prev.stack, prev.toRemove, c);
      var s := popped.stack + [c];
      if popped.toRemove > 0 {
        forall i, j | 0 <= i < j < |s| ensures s[j] <= s[i] {
          assert s[i] == prev.stack[i];
          if j < |s| - 1 {
            assert s[j] == prev.stack[j];
          } else if i < |popped.stack| - 1 {
            assert prev.stack[|popped.stack| - 1] <= prev.stack[i];
          }
        }
      }
    }
  }

  /** The stack beats every candidate that drops no more characters than allowed. */
  lemma {:induction false} ScanDominates(p: string, budget: int)
    ensures Dominates(Scan(p, budget).stack, p, budget)
  {
    var s := Scan(p, budget);
    if |p| == 0 {
      forall t | IsSubseq(t, p) && |t| >= |p| - budget ensures Le(t, s.stack) && (|t| > |s.stack| ==> Lt(t, s.stack)) {
        CommonIs(t, s.stack, 0);
      }
    } else {
      var init, c := p[..|p| - 1], p[|p| - 1];
      assert init + [c] == p;
      ScanDominates(init, budget);
      ScanCounts(init, budget);
      ScanOrder(init, budget);
      var prev := Scan(init, budget);
      DominatesStep(init, prev.stack, budget, prev.toRemove, c);
    }
  }

  /** For 1 <= k <= n the result keeps exactly k characters of the line, in order. */
  lemma SelectedShape(line: string, k: nat)
    ensures |Selected(line, k)| == if k <= |line| then k else |line|
    ensures IsSubseq(Selected(line, k), line)
  {
    var s := Scan(line, |line| - k).stack;
    assert IsSubseq(s, line) by {
      ScanSubseq(line, |line| - k);
    }
    assert (k <= |line| ==> |s| >= k) && (k > |line| ==> |s| == |line|) by {
      ScanCounts(line, |line| - k);
    }
    CutShape(s, line, k);
  }

  lemma CutShape(s: string, line: string, k: nat)
    requires IsSubseq(s, line)
    requires k <= |line| ==> |s| >= k
    requires k > |line| ==> |s| == |line|
    ensures |Cut(s, k)| == if k <= |line| then k else |line|
    ensures IsSubseq(Cut(s, k), line)
  {
    if |s| > k {
      SubseqPrefix(s, line, k);
    }
  }

  /** No k characters of the line, taken in order, come lexicographically after the selection. */
  lemma SelectedIsBest(line: string, k: nat, t: string)
    requires k <= |line| && IsSubseq(t, line) && |t| == k
    ensures |Selected(line, k)| == k && Le(t, Selected(line, k))
  {
    var s := Scan(line, |line| - k).stack;
    ScanBeats(line, |line| - k, t);
    ScanLongEnough(line, k);
    CutBest(s, k, t);
  }

  /** The stack's lead over one candidate. */
  lemma ScanBeats(p: string, budget: int, t: string)
    requires IsSubseq(t, p) && |t| >= |p| - budget
    ensures Le(t, Scan(p, budget).stack)
  {
    ScanDominates(p, budget);
  }

  lemma ScanLongEnough(line: string, k: nat)
    requires k <= |line|
    ensures |Scan(line, |line| - k).stack| >= k
  {
    ScanCounts(line, |line| - k);
  }

  lemma CutBest(s: string, k: nat, t: string)
    requires Le(t, s) && |s| >= k && |t| == k
    ensures |Cut(s, k)| == k && Le(t, Cut(s, k))
  {
    var q := Common(t, s);
    assert t[..q] == s[..k][..q];
    if q < k {
      CommonIs(t, s[..k], q);
    } else {
      CommonIs(t, s[..k], k);
    }
  }

  /** Among digit strings of one length, the lexicographic order is the numeric one. */
  lemma {:induction false} LtValue(a: string, b: string)
    requires |a| == |b| && AllDigits(a) && AllDigits(b) && Lt(a, b)
    ensures DigitsValue(a) < DigitsValue(b)
  {
    var n := |a|;
    var q := Common(a, b);
    var a', b' := a[..n - 1], b[..n - 1];
    if q < n - 1 {
      assert a'[..q] == a[..q] && b'[..q] == b[..q];
      CommonIs(a', b', q);
      LtValue(a', b');
    } else {
      assert a' == b';
    }
  }

  lemma LeValue(a: string, b: string)
    requires |a| == |b| && AllDigits(a) && AllDigits(b) && Le(a, b)
    ensures DigitsValue(a) <= DigitsValue(b)
  {
    if Common(a, b) == |a| {
      assert a == a[..|a|] == b[..|a|] == b;
    } else {
      LtValue(a, b);
    }
  }

  /**
   * On a line of digits with at least k of them (k >= 1), maxJoltageForLine
   * returns the largest number any k of the digits, kept in order, can form.
   */
  lemma MaxJoltageIsBest(line: string, k: nat, t: string)
    requires AllDigits(line) && 1 <= k <= |line|
    requires IsSubseq(t, line) && |t| == k
    ensures AllDigits(t)
    ensures MaxJoltage(line, k).Some? && DigitsValue(t) <= MaxJoltage(line, k).value
  {
    var best := Selected(line, k);
    SelectedShape(line, k);
    SelectedIsBest(line, k, t);
    SubseqChars(t, line);
    SubseqChars(best, line);
    LeValue(t, best);
  }

  /** The inner while loop of maxJoltageForLine. */
  method PopSmaller(st: string, budget: int, c: char) returns (stack: string, toRemove: int)
    ensures StackState(stack, toRemove) == Pop(st, budget, c)
  {
    stack, toRemove := st, budget;
    while |stack| > 0 && toRemove > 0 && stack[|stack| - 1] < c
      invariant Pop(stack, toRemove, c) == Pop(st, budget, c)
      decreases |stack|
    {
      stack := stack[..|stack| - 1];
      toRemove := toRemove - 1;
    }
  }

  /** The trimming loop of maxJoltageForLine: pop until at most k characters are left. */
  method TrimStack(full: string, k: nat) returns (stack: string)
    ensures stack == Cut(full, k)
  {
    stack := full;
    while |stack| > k
      invariant |stack| <= |full| && stack == full[..|stack|]
      invariant |full| > k ==> |stack| >= k
      invariant |full| <= k ==> stack == full
      decreases |stack|
    {
      stack := stack[..|stack| - 1];
    }
  }

  /** maxJoltageForLine; k must not be negative, as with k < 0 the trimming loop never ends. */
  method MaxJoltageForLine(line: string, k: nat) returns (r: Option<int>)
    ensures r == MaxJoltage(line, k)
  {
    var n := |line|;
    var stack: string := [];
    var toRemove := n - k;
    for i := 0 to n
      invariant StackState(stack, toRemove) == Scan(line[..i], n - k)
    {
      assert line[..i + 1][..i] == line[..i];
      var c := line[i];
      stack, toRemove := PopSmaller(stack, toRemove, c);
      stack := stack + [c];
    }
    assert line[..n] == line;
    stack := TrimStack(stack, k);
    r := ParseInt(stack);
  }

  /** Per-item results added up; None as soon as one item fails. */
  function SumOf<T>(xs: seq<T>, f: T -> Option<int>): Option<int> {
    if |xs| == 0 then Some(0)
    else
      var total := SumOf(xs[..|xs| - 1], f);
      var v := f(xs[|xs| - 1]);
      if total.Some? && v.Some? then Some(total.value + v.value) else None
  }

  lemma {:induction false} SumStaysFailed<T>(xs: seq<T>, f: T -> Option<int>, j: nat)
    requires j <= |xs| && SumOf(xs[..j], f).None?
    ensures SumOf(xs, f).None?
    decreases |xs| - j
  {
    if j < |xs| {
      assert xs[..j + 1][..j] == xs[..j];
      SumStaysFailed(xs, f, j + 1);
    } else {
      assert xs[..j] == xs;
    }
  }

  lemma SumStep<T>(xs: seq<T>, f: T -> Option<int>, i: nat)
    requires i < |xs|
    ensures var total, v := SumOf(xs[..i], f), f(xs[i]);
      SumOf(xs[..i + 1], f) == if total.Some? && v.Some? then Some(total.value + v.value) else None
  {
    assert xs[..i + 1][..i] == xs[..i];
  }

  /** The per-line maxima added up; None as soon as one line fails to parse. */
  function TotalJoltage(lines: seq<string>, k: nat): Option<int> {
    SumOf(lines, LineJoltage(k))
  }

  /** MaxJoltage with the number of digits fixed, as a function of the line. */
  function LineJoltage(k: nat): string -> Option<int> {
    (line: string) => MaxJoltage(line, k)
  }

  /** The loop of solveSilver and solveGold: the per-line maxima added up. */
  method SumJoltage(input: seq<string>, k: nat) returns (r: Option<int>)
    ensures r == TotalJoltage(input, k)
  {
    var f := LineJoltage(k);
    var joltage := 0;
    for i := 0 to |input|
      invariant SumOf(input[..i], f) == Some(joltage)
    {
      var v := MaxJoltageForLine(input[i], k);
      SumStep(input, f, i);
      if v.None? {
        SumStaysFailed(input, f, i + 1);
        return None;
      }
      joltage := joltage + v.value;
    }
    assert input[..|input|] == input;
    return Some(joltage);
  }

  /** Silver: the best two digits of every line. */
  method SolveSilver(input: seq<string>) returns (r: Option<int>)
    ensures r == TotalJoltage(input, 2)
  {
    r := SumJoltage(input, 2);
  }

  /** Gold: the best twelve digits of every line. */
  method SolveGold(input: seq<string>) returns (r: Option<int>)
    ensures r == TotalJoltage(input, 12)
  {
    r := SumJoltage(input, 12);
  }
}
