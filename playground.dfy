/**
 * Day 08, the playground: junction boxes at 3-D points. Every pair of
 * points is listed with its squared distance and the list is sorted by
 * distance. Silver joins the 1000 closest pairs into circuits with a
 * disjoint-set forest and multiplies the three largest circuit sizes; Gold
 * keeps joining, in distance order, until one circuit is left and
 * multiplies the x coordinates of the pair that closed it.
 *
 * Circuits are specified by value: a label per point, where joining a and
 * b gives every point labelled like b the label of a. The solvers' forest
 * is proved to induce the same partition at every step.
 */
module Playground {
  import opened Text
  import opened Sorting
  import opened DisjointSets

  datatype Point = Point(x: int, y: int, z: int)

  // ---------------------------------------------------------------------
  // parsePoints

  /** "x,y,z": None when a coordinate is missing or is not an integer; extra fields are ignored. */
  function ParsePoint(line: string): Option<Point> {
    var p := Split(line, ',');
    if |p| < 3 then None
    else match (ParseInt(p[0]), ParseInt(p[1]), ParseInt(p[2]))
      case (Some(x), Some(y), Some(z)) => Some(Point(x, y, z))
      case _ => None
  }

  /** Every line parsed; None when any line fails. */
  function ParseAll(input: seq<string>): (r: Option<seq<Point>>)
    ensures r.Some? ==> |r.value| == |input|
  {
    if |input| == 0 then Some([])
    else match ParseAll(input[..|input| - 1])
      case None => None
      case Some(pts) =>
        match ParsePoint(input[|input| - 1])
        case None => None
        case Some(p) => Some(pts + [p])
  }

  /** The input parses exactly when every line does, and point i comes from line i. */
  lemma {:induction false} ParseAllLines(input: seq<string>)
    ensures ParseAll(input).Some? <==> forall i :: 0 <= i < |input| ==> ParsePoint(input[i]).Some?
    ensures ParseAll(input).Some? ==>
              forall i :: 0 <= i < |input| ==> ParsePoint(input[i]) == Some(ParseAll(input).value[i])
  {
    if |input| > 0 {
      var init := input[..|input| - 1];
      ParseAllLines(init);
      assert forall i :: 0 <= i < |init| ==> input[i] == init[i];
    }
  }

  method ParsePoints(input: seq<string>) returns (pts: Option<seq<Point>>)
    ensures pts == ParseAll(input)
  {
    var n := |input|;
    var arr := new Point[n];
    var i := 0;
    while i < n
      invariant 0 <= i <= n
      invariant ParseAll(input[..i]) == Some(arr[..i])
    {
      var p := ParsePoint(input[i]);
      if p.None? {
        assert input[..i + 1][..i] == input[..i];
        ParseAllStaysFailed(input, i + 1);
        return None;
      }
      arr[i] := p.value;
      assert input[..i + 1][..i] == input[..i];
      assert arr[..i + 1] == arr[..i] + [p.value];
      i := i + 1;
    }
    assert input[..i] == input;
    assert arr[..i] == arr[..];
    return Some(arr[..]);
  }

  lemma {:induction false} ParseAllStaysFailed(input: seq<string>, m: nat)
    requires m <= |input| && ParseAll(input[..m]).None?
    ensures ParseAll(input).None?
    decreases |input| - m
  {
    if m < |input| {
      assert input[..m + 1][..m] == input[..m];
      ParseAllStaysFailed(input, m + 1);
    } else {
      assert input[..m] == input;
    }
  }

  // ---------------------------------------------------------------------
  // computeSortedPairs

  /** One pair of points: the squared distance and the two indices, i < j. */
  datatype Pair = Pair(d2: int, i: nat, j: nat)

  function Dist2(p: Point, q: Point): int {
    (p.x - q.x) * (p.x - q.x) + (p.y - q.y) * (p.y - q.y) + (p.z - q.z) * (p.z - q.z)
  }

  /** The pairs (i, j) for i < j < m, in order of j. */
  function RowPairs(pts: seq<Point>, i: nat, m: nat): seq<Pair>
    requires i < |pts| && m <= |pts|
  {
    if m <= i + 1 then [] else RowPairs(pts, i, m - 1) + [Pair(Dist2(pts[i], pts[m - 1]), i, m - 1)]
  }

  /** The pairs of the rows 0 .. k - 1, in the order the nested loops add them. */
  function PairsUpTo(pts: seq<Point>, k: nat): seq<Pair>
    requires k <= |pts|
  {
    if k == 0 then [] else PairsUpTo(pts, k - 1) + RowPairs(pts, k - 1, |pts|)
  }

  function AllPairs(pts: seq<Point>): seq<Pair> {
    PairsUpTo(pts, |pts|)
  }

  /** Pair p comes before pair q in the loops' order. */
  predicate Before(p: Pair, q: Pair) {
    p.i < q.i || (p.i == q.i && p.j < q.j)
  }

  /** The pair of points a < b, as the loops record it. */
  function PairOf(pts: seq<Point>, a: nat, b: nat): Pair
    requires a < |pts| && b < |pts|
  {
    Pair(Dist2(pts[a], pts[b]), a, b)
  }

  lemma {:induction false} RowPairsShape(pts: seq<Point>, i: nat, m: nat)
    requires i < |pts| && m <= |pts|
    ensures |RowPairs(pts, i, m)| == if m <= i + 1 then 0 else m - i - 1
    ensures forall k :: 0 <= k < |RowPairs(pts, i, m)| ==> i + 1 + k < m && RowPairs(pts, i, m)[k] == PairOf(pts, i, i + 1 + k)
  {
    if m > i + 1 {
      RowPairsShape(pts, i, m - 1);
    }
  }

  /** Twice the number of pairs of the rows 0 .. k - 1 is k * (2n - k - 1). */
  lemma {:induction false} PairsUpToCount(pts: seq<Point>, k: nat)
    requires k <= |pts|
    ensures 2 * |PairsUpTo(pts, k)| == k * (2 * |pts| - k - 1)
  {
    if k > 0 {
      var n := |pts|;
      PairsUpToCount(pts, k - 1);
      RowPairsShape(pts, k - 1, n);
      CountStep(n, k);
    }
  }

  lemma {:induction false} CountStep(n: int, k: int)
    ensures (k - 1) * (2 * n - (k - 1) - 1) + 2 * (n - k) == k * (2 * n - k - 1)
  {
  }

  /** The rows 0 .. k - 1 hold exactly the pairs a < b with a < k, each with its squared distance. */
  lemma {:induction false} PairsUpToMembers(pts: seq<Point>, k: nat)
    requires k <= |pts|
    ensures forall q :: q in PairsUpTo(pts, k) <==> q.i < k && q.i < q.j < |pts| && q == PairOf(pts, q.i, q.j)
  {
    if k > 0 {
      var n := |pts|;
      var row := RowPairs(pts, k - 1, n);
      PairsUpToMembers(pts, k - 1);
      RowPairsShape(pts, k - 1, n);
      forall q: Pair | q.i < k && q.i < q.j < n && q == PairOf(pts, q.i, q.j)
        ensures q in PairsUpTo(pts, k)
      {
        if q.i == k - 1 {
          assert row[q.j - k] == q;
        }
      }
    }
  }

  /** The loops add the pairs in strictly increasing (i, j) order. */
  lemma {:induction false} PairsUpToOrder(pts: seq<Point>, k: nat)
    requires k <= |pts|
    ensures forall q :: q in PairsUpTo(pts, k) ==> q.i < k
    ensures forall u, v :: 0 <= u < v < |PairsUpTo(pts, k)| ==> Before(PairsUpTo(pts, k)[u], PairsUpTo(pts, k)[v])
  {
    if k > 0 {
      var prev, row := PairsUpTo(pts, k - 1), RowPairs(pts, k - 1, |pts|);
      PairsUpToOrder(pts, k - 1);
      RowPairsShape(pts, k - 1, |pts|);
      forall u, v | 0 <= u < v < |prev + row|
        ensures Before((prev + row)[u], (prev + row)[v])
      {
        if u < |prev| && v >= |prev| {
          assert prev[u] in prev;
        }
      }
    }
  }

  /** Every pair i < j exactly once, with its squared distance; n(n-1)/2 of them. */
  lemma AllPairsShape(pts: seq<Point>)
    ensures 2 * |AllPairs(pts)| == |pts| * (|pts| - 1)
    ensures forall q :: q in AllPairs(pts) <==> q.i < q.j < |pts| && q == PairOf(pts, q.i, q.j)
    ensures forall u, v :: 0 <= u < v < |AllPairs(pts)| ==> AllPairs(pts)[u] != AllPairs(pts)[v]
  {
    PairsUpToCount(pts, |pts|);
    PairsUpToMembers(pts, |pts|);
    PairsUpToOrder(pts, |pts|);
  }

  function Distance(q: Pair): int {
    q.d2
  }

  /** computeSortedPairs: the pairs, stably sorted by squared distance. */
  function SortedPairs(pts: seq<Point>): seq<Pair> {
    SortBy(AllPairs(pts), Distance)
  }

  /** The sorted list is ordered by distance and holds each pair i < j exactly once. */
  lemma SortedPairsShape(pts: seq<Point>)
    ensures SortedBy(SortedPairs(pts), Distance)
    ensures multiset(SortedPairs(pts)) == multiset(AllPairs(pts))
    ensures forall q :: q in SortedPairs(pts) <==> q.i < q.j < |pts| && q == PairOf(pts, q.i, q.j)
  {
    AllPairsShape(pts);
    var s := SortedPairs(pts);
    forall q ensures q in s <==> q in AllPairs(pts) {
      assert q in s <==> q in multiset(s);
    }
  }

  /** Every sorted pair names two of the points. */
  lemma SortedPairsIn(pts: seq<Point>)
    ensures PairsIn(SortedPairs(pts), |pts|)
  {
    SortedPairsShape(pts);
    var s := SortedPairs(pts);
    forall k | 0 <= k < |s| ensures s[k].i < |pts| && s[k].j < |pts| {
      assert s[k] in s;
    }
  }

  method ComputeSortedPairs(pts: seq<Point>) returns (pairs: seq<Pair>)
    ensures pairs == SortedPairs(pts)
  {
    var n := |pts|;
    pairs := [];
    var i := 0;
    while i < n
      invariant 0 <= i <= n
      invariant pairs == PairsUpTo(pts, i)
    {
      var j := i + 1;
      while j < n
        invariant i + 1 <= j <= n
        invariant pairs == PairsUpTo(pts, i) + RowPairs(pts, i, j)
      {
        assert RowPairs(pts, i, j + 1) == RowPairs(pts, i, j) + [PairOf(pts, i, j)];
        pairs := pairs + [PairOf(pts, i, j)];
        j := j + 1;
      }
      i := i + 1;
    }
    pairs := SortBy(pairs, Distance);
  }

  // ---------------------------------------------------------------------
  // Circuits by value

  predicate PairsIn(pairs: seq<Pair>, n: nat) {
    forall k :: 0 <= k < |pairs| ==> pairs[k].i < n && pairs[k].j < n
  }

  function Identity(n: nat): (l: seq<int>)
    ensures |l| == n
  {
    seq(n, k => k)
  }

  /** Joining a and b: every point labelled like b takes a's label. */
  function Relabel(l: seq<int>, a: nat, b: nat): (r: seq<int>)
    requires a < |l| && b < |l|
    ensures |r| == |l|
  {
    seq(|l|, k requires 0 <= k < |l| => if l[k] == l[b] then l[a] else l[k])
  }

  /** The circuits after joining the pairs 0 .. m - 1. */
  function Labels(n: nat, pairs: seq<Pair>, m: nat): (l: seq<int>)
    requires PairsIn(pairs, n) && m <= |pairs|
    ensures |l| == n
  {
    if m == 0 then Identity(n) else Relabel(Labels(n, pairs, m - 1), pairs[m - 1].i, pairs[m - 1].j)
  }

  /** Points i and j are together under c exactly when they are under l. */
  predicate Agree<T(==), U(==)>(c: seq<T>, l: seq<U>, i: nat, j: nat)
    requires i < |c| && j < |c| && |c| == |l|
  {
    c[i] == c[j] <==> l[i] == l[j]
  }

  /** Two labellings that put the same points together. */
  predicate SamePartition<T(==), U(==)>(c: seq<T>, l: seq<U>) {
    |c| == |l| && forall i: nat, j: nat {:trigger Agree(c, l, i, j)} :: i < |c| && j < |c| ==> Agree(c, l, i, j)
  }

  /**
   * A union on x and y, whose roots are those of a and b, joins the forest's
   * sets exactly as Relabel joins the labels.
   */
  lemma {:induction false} UnionRelabels(c0: seq<nat>, s0: seq<int>, c1: seq<nat>, s1: seq<int>,
                                         l: seq<int>, a: nat, b: nat, x: nat, y: nat)
    requires SamePartition(c0, l) && a < |c0| && b < |c0| && x < |c0| && y < |c0| && |s0| == |c0|
    requires c0[x] == c0[a] && c0[y] == c0[b] && c0[a] < |c0| && c0[b] < |c0|
    requires Unioned(c0, s0, x, y, c1, s1)
    ensures SamePartition(c1, Relabel(l, a, b))
  {
    var l1 := Relabel(l, a, b);
    assert Agree(c0, l, a, b);
    if c0[a] == c0[b] {
      assert l1 == l;
      forall i: nat, j: nat | i < |c0| && j < |c0| ensures Agree(c1, l1, i, j) {
        assert Agree(c0, l, i, j);
      }
    } else {
      forall i: nat, j: nat | i < |c0| && j < |c0| ensures Agree(c1, l1, i, j) {
        assert Agree(c0, l, i, j) && Agree(c0, l, i, a) && Agree(c0, l, i, b) && Agree(c0, l, j, a) && Agree(c0, l, j, b);
        LinkedMerges(c0, s0, c0[x], c0[y], c1, s1, i, j);
      }
    }
  }

  // ---------------------------------------------------------------------
  // Circuit sizes

  /** The number of points among 0 .. m - 1 labelled v. */
  function CountUpTo<T(==)>(l: seq<T>, v: T, m: nat): nat
    requires m <= |l|
  {
    if m == 0 then 0 else CountUpTo(l, v, m - 1) + if l[m - 1] == v then 1 else 0
  }

  /** The labels of the points 0 .. m - 1. */
  function Seen<T>(l: seq<T>, m: nat): set<T>
    requires m <= |l|
  {
    set j | 0 <= j < m :: l[j]
  }

  /** The points among 0 .. m - 1 that are the first of their circuit, in order. */
  function FirstIdx<T(==)>(l: seq<T>, m: nat): (f: seq<nat>)
    requires m <= |l|
    ensures forall k :: 0 <= k < |f| ==> f[k] < m
  {
    if m == 0 then []
    else FirstIdx(l, m - 1) + if l[m - 1] !in Seen(l, m - 1) then [m - 1] else []
  }

  /** The size of every circuit, in the order circuits first appear. */
  function ClassSizes<T(==)>(l: seq<T>): (s: seq<nat>)
  {
    var f := FirstIdx(l, |l|);
    seq(|f|, k requires 0 <= k < |f| => CountUpTo(l, l[f[k]], |l|))
  }

  lemma {:induction false} SeenSame<T, U>(c: seq<T>, l: seq<U>, m: nat, i: nat)
    requires SamePartition(c, l) && m <= |c| && i < |c|
    ensures c[i] in Seen(c, m) <==> l[i] in Seen(l, m)
  {
    if c[i] in Seen(c, m) {
      var j :| 0 <= j < m && c[j] == c[i];
      assert Agree(c, l, j, i);
    }
    if l[i] in Seen(l, m) {
      var j :| 0 <= j < m && l[j] == l[i];
      assert Agree(c, l, j, i);
    }
  }

  lemma {:induction false} FirstIdxSame<T, U>(c: seq<T>, l: seq<U>, m: nat)
    requires SamePartition(c, l) && m <= |c|
    ensures FirstIdx(c, m) == FirstIdx(l, m)
  {
    if m > 0 {
      FirstIdxSame(c, l, m - 1);
      SeenSame(c, l, m - 1, m - 1);
    }
  }

  lemma {:induction false} CountSame<T, U>(c: seq<T>, l: seq<U>, i: nat, m: nat)
    requires SamePartition(c, l) && m <= |c| && i < |c|
    ensures CountUpTo(c, c[i], m) == CountUpTo(l, l[i], m)
  {
    if m > 0 {
      CountSame(c, l, i, m - 1);
      assert Agree(c, l, m - 1, i);
    }
  }

  /** The circuit sizes depend only on which points are together. */
  lemma ClassSizesSame<T, U>(c: seq<T>, l: seq<U>)
    requires SamePartition(c, l)
    ensures ClassSizes(c) == ClassSizes(l)
  {
    FirstIdxSame(c, l, |c|);
    var f := FirstIdx(c, |c|);
    forall k | 0 <= k < |f|
      ensures CountUpTo(c, c[f[k]], |c|) == CountUpTo(l, l[f[k]], |l|)
    {
      CountSame(c, l, f[k], |c|);
    }
  }

  function SumOf(s: seq<nat>): nat {
    if |s| == 0 then 0 else SumOf(s[..|s| - 1]) + s[|s| - 1]
  }

  predicate IndicesIn(f: seq<nat>, n: nat) {
    forall k :: 0 <= k < |f| ==> f[k] < n
  }

  /** For each point in f, the number of points among 0 .. m - 1 labelled like it. */
  function Counts<T(==)>(l: seq<T>, f: seq<nat>, m: nat): (r: seq<nat>)
    requires IndicesIn(f, |l|) && m <= |l|
    ensures |r| == |f|
  {
    if |f| == 0 then [] else Counts(l, f[..|f| - 1], m) + [CountUpTo(l, l[f[|f| - 1]], m)]
  }

  /** The number of points in f labelled v. */
  function Hits<T(==)>(l: seq<T>, f: seq<nat>, v: T): nat
    requires IndicesIn(f, |l|)
  {
    if |f| == 0 then 0 else Hits(l, f[..|f| - 1], v) + if l[f[|f| - 1]] == v then 1 else 0
  }

  lemma {:induction false} CountsAt<T>(l: seq<T>, f: seq<nat>, m: nat, k: nat)
    requires IndicesIn(f, |l|) && m <= |l| && k < |f|
    ensures Counts(l, f, m)[k] == CountUpTo(l, l[f[k]], m)
  {
    if k < |f| - 1 {
      CountsAt(l, f[..|f| - 1], m, k);
    }
  }

  /** Counting one more point adds one to the count of every point labelled like it. */
  lemma {:induction false} CountsStep<T>(l: seq<T>, f: seq<nat>, m: nat)
    requires IndicesIn(f, |l|) && 0 < m <= |l|
    ensures SumOf(Counts(l, f, m)) == SumOf(Counts(l, f, m - 1)) + Hits(l, f, l[m - 1])
  {
    if |f| > 0 {
      var g := f[..|f| - 1];
      CountsStep(l, g, m);
      assert Counts(l, f, m)[..|f| - 1] == Counts(l, g, m);
      assert Counts(l, f, m - 1)[..|f| - 1] == Counts(l, g, m - 1);
    }
  }

  /** Among the first points of the circuits, exactly one is labelled v when v has been seen. */
  lemma {:induction false} FirstHits<T>(l: seq<T>, m: nat, v: T)
    requires m <= |l|
    ensures IndicesIn(FirstIdx(l, m), |l|)
    ensures Hits(l, FirstIdx(l, m), v) == if v in Seen(l, m) then 1 else 0
  {
    if m > 0 {
      var f := FirstIdx(l, m - 1);
      FirstHits(l, m - 1, v);
      assert Seen(l, m) == Seen(l, m - 1) + {l[m - 1]};
      if l[m - 1] !in Seen(l, m - 1) {
        assert FirstIdx(l, m) == f + [m - 1];
        assert (f + [m - 1])[..|f|] == f;
      } else {
        assert Seen(l, m) == Seen(l, m - 1);
        assert FirstIdx(l, m) == f;
      }
    }
  }

  lemma {:induction false} SizesUpTo<T>(l: seq<T>, m: nat)
    requires m <= |l|
    ensures IndicesIn(FirstIdx(l, m), |l|)
    ensures SumOf(Counts(l, FirstIdx(l, m), m)) == m
  {
    FirstIdxIn(l, m);
    if m > 0 {
      SizesUpTo(l, m - 1);
      SizesStep(l, m);
    }
  }

  /** Counting point m - 1 adds one to the total, whether it starts a circuit or joins one. */
  lemma {:induction false} SizesStep<T>(l: seq<T>, m: nat)
    requires 0 < m <= |l|
    requires IndicesIn(FirstIdx(l, m - 1), |l|)
    requires SumOf(Counts(l, FirstIdx(l, m - 1), m - 1)) == m - 1
    ensures IndicesIn(FirstIdx(l, m), |l|)
    ensures SumOf(Counts(l, FirstIdx(l, m), m)) == m
  {
    FirstIdxIn(l, m);
    var f := FirstIdx(l, m - 1);
    var v := l[m - 1];
    CountsStep(l, f, m);
    FirstHits(l, m - 1, v);
    if v !in Seen(l, m - 1) {
      NewFirst(l, m);
      NewFirstSum(l, f, m);
    } else {
      SeenAgain(l, m);
    }
  }

  lemma FirstIdxIn<T>(l: seq<T>, m: nat)
    requires m <= |l|
    ensures IndicesIn(FirstIdx(l, m), |l|)
  {
  }

  lemma {:induction false} SeenAgain<T>(l: seq<T>, m: nat)
    requires 0 < m <= |l| && l[m - 1] in Seen(l, m - 1)
    ensures FirstIdx(l, m) == FirstIdx(l, m - 1)
  {
  }

  /** A point with an unseen label starts a circuit of size one. */
  lemma {:induction false} NewFirst<T>(l: seq<T>, m: nat)
    requires 0 < m <= |l| && l[m - 1] !in Seen(l, m - 1)
    ensures FirstIdx(l, m) == FirstIdx(l, m - 1) + [m - 1]
    ensures CountUpTo(l, l[m - 1], m) == 1
  {
    CountUnseen(l, l[m - 1], m - 1);
  }

  /** Adding a circuit of size one to the first points adds one to the total. */
  lemma {:induction false} NewFirstSum<T>(l: seq<T>, f: seq<nat>, m: nat)
    requires 0 < m <= |l| && IndicesIn(f, |l|)
    requires CountUpTo(l, l[m - 1], m) == 1
    ensures SumOf(Counts(l, f + [m - 1], m)) == SumOf(Counts(l, f, m)) + 1
  {
    CountsAppend(l, f, m - 1, m);
    SumAppend(Counts(l, f, m), 1);
  }

  lemma CountsAppend<T>(l: seq<T>, f: seq<nat>, i: nat, m: nat)
    requires IndicesIn(f, |l|) && i < |l| && m <= |l|
    ensures IndicesIn(f + [i], |l|)
    ensures Counts(l, f + [i], m) == Counts(l, f, m) + [CountUpTo(l, l[i], m)]
  {
    assert (f + [i])[..|f|] == f;
  }

  lemma SumAppend(s: seq<nat>, x: nat)
    ensures SumOf(s + [x]) == SumOf(s) + x
  {
    assert (s + [x])[..|s|] == s;
  }

  /** The circuit sizes add up to the number of points. */
  lemma ClassSizesSum<T>(l: seq<T>)
    ensures SumOf(ClassSizes(l)) == |l|
  {
    SizesUpTo(l, |l|);
    var f := FirstIdx(l, |l|);
    forall k | 0 <= k < |f| ensures ClassSizes(l)[k] == Counts(l, f, |l|)[k] {
      CountsAt(l, f, |l|, k);
    }
    assert ClassSizes(l) == Counts(l, f, |l|);
  }

  /** There is one size per circuit. */
  lemma {:induction false} FirstIdxCount<T>(l: seq<T>, m: nat)
    requires m <= |l|
    ensures |FirstIdx(l, m)| == |Seen(l, m)|
  {
    if m > 0 {
      FirstIdxCount(l, m - 1);
      assert Seen(l, m) == Seen(l, m - 1) + {l[m - 1]};
      if l[m - 1] in Seen(l, m - 1) {
        assert Seen(l, m) == Seen(l, m - 1);
      }
    }
  }

  // ---------------------------------------------------------------------
  // Silver

  /** The number of closest pairs Silver joins. */
  const Connections := 1000

  function Descending(v: nat): int {
    -(v as int)
  }

  /** The circuit sizes after joining the closest pairs, at most Connections of them. */
  function CircuitSizes(pts: seq<Point>): seq<nat> {
    SortedPairsIn(pts);
    var pairs := SortedPairs(pts);
    ClassSizes(Labels(|pts|, pairs, Closest(|pairs|, Connections)))
  }

  function Closest(count: nat, limit: nat): nat {
    if count < limit then count else limit
  }

  /** The product of the first three sizes. */
  function Product3(sizes: seq<nat>): int
    requires |sizes| >= 3
  {
    sizes[0] * sizes[1] * sizes[2]
  }

  /**
   * solveSilver: None when a line does not parse or fewer than three
   * circuits remain (sizes.get(2) throws).
   */
  function Silver(input: seq<string>): Option<int> {
    match ParseAll(input)
    case None => None
    case Some(pts) =>
      var sizes := SortBy(CircuitSizes(pts), Descending);
      if |sizes| < 3 then None else Some(Product3(sizes))
  }

  /** One size per circuit left after the joins, and the sizes add up to the number of points. */
  lemma CircuitSizesCount(pts: seq<Point>)
    ensures PairsIn(SortedPairs(pts), |pts|)
    ensures SumOf(CircuitSizes(pts)) == |pts|
    ensures |CircuitSizes(pts)| == NumClasses(Labels(|pts|, SortedPairs(pts), Closest(|SortedPairs(pts)|, Connections)))
  {
    SortedPairsIn(pts);
    var l := Labels(|pts|, SortedPairs(pts), Closest(|SortedPairs(pts)|, Connections));
    ClassSizesSum(l);
    FirstIdxCount(l, |l|);
  }

  /**
   * Silver multiplies the three largest circuit sizes, and fails exactly
   * when there are fewer than three circuits.
   */
  lemma SilverLargest(input: seq<string>, pts: seq<Point>)
    requires ParseAll(input) == Some(pts)
    ensures var s := SortBy(CircuitSizes(pts), Descending);
            multiset(s) == multiset(CircuitSizes(pts)) &&
            (Silver(input).None? <==> |s| < 3) &&
            (|s| >= 3 ==> Silver(input) == Some((s[0] as int) * (s[1] as int) * (s[2] as int)) &&
                          s[0] >= s[1] >= s[2] && forall k :: 2 <= k < |s| ==> s[k] <= s[2])
  {
    var s := SortBy(CircuitSizes(pts), Descending);
    if |s| >= 3 {
      forall k | 2 <= k < |s| ensures s[k] <= s[2] {
        assert Descending(s[2]) <= Descending(s[k]);
      }
      assert Descending(s[0]) <= Descending(s[1]) <= Descending(s[2]);
    }
  }

  method SolveSilver(input: seq<string>) returns (r: Option<int>)
    ensures r == Silver(input)
  {
    var parsed := ParsePoints(input);
    if parsed.None? {
      return None;
    }
    var pts := parsed.value;
    var pairs := ComputeSortedPairs(pts);
    SortedPairsIn(pts);
    var dsu := new DSU(|pts|);
    assert dsu.Components() == Identity(|pts|);
    Join(dsu, |pts|, pairs, Connections);
    var values := Tally(dsu);
    ClassSizesSame(dsu.Components(), Labels(|pts|, pairs, Closest(|pairs|, Connections)));
    var sizes := SortBy(values, Descending);
    if |sizes| < 3 {
      return None;
    }
    return Some(Product3(sizes));
  }

  /**
   * The connection loop: unions pair after pair until limit of them are
   * used or the pairs run out.
   */
  method Join(dsu: DSU, n: nat, pairs: seq<Pair>, limit: nat)
    requires dsu.Valid() && dsu.parent.Length == n && PairsIn(pairs, n)
    requires SamePartition(dsu.Components(), Identity(n))
    modifies dsu, dsu.parent, dsu.size
    ensures dsu.Valid()
    ensures SamePartition(dsu.Components(), Labels(n, pairs, Closest(|pairs|, limit)))
  {
    var used := 0;
    var idx := 0;
    ghost var m := Closest(|pairs|, limit);
    ghost var l := Identity(n);
    while used < limit && idx < |pairs|
      invariant used == idx <= m
      invariant dsu.Valid() && |l| == n
      invariant l == Labels(n, pairs, idx)
      invariant SamePartition(dsu.Components(), l)
    {
      var a, b := pairs[idx].i, pairs[idx].j;
      Unite(dsu, a, b, l);
      l := Relabel(l, a, b);
      used := used + 1;
      idx := idx + 1;
    }
    assert idx == m;
  }

  /** One union, read against the labels: the forest keeps up with Relabel. */
  method Unite(dsu: DSU, a: nat, b: nat, ghost l: seq<int>)
    requires dsu.Valid() && a < dsu.parent.Length && b < dsu.parent.Length
    requires SamePartition(dsu.Components(), l)
    modifies dsu, dsu.parent, dsu.size
    ensures dsu.Valid()
    ensures SamePartition(dsu.Components(), Relabel(l, a, b))
  {
    ghost var c0, s0 := dsu.Components(), dsu.size[..];
    dsu.Union(a, b);
    UnionRelabels(c0, s0, dsu.Components(), dsu.size[..], l, a, b, a, b);
  }

  /** A union of pair k's points keeps the forest in step with the labels. */
  lemma {:induction false} JoinStep(c0: seq<nat>, s0: seq<int>, c1: seq<nat>, s1: seq<int>, pairs: seq<Pair>, k: nat)
    requires k < |pairs| && PairsIn(pairs, |c0|) && |s0| == |c0|
    requires SamePartition(c0, Labels(|c0|, pairs, k))
    requires c0[pairs[k].i] < |c0| && c0[pairs[k].j] < |c0|
    requires Unioned(c0, s0, pairs[k].i, pairs[k].j, c1, s1)
    ensures SamePartition(c1, Labels(|c0|, pairs, k + 1))
  {
    UnionRelabels(c0, s0, c1, s1, Labels(|c0|, pairs, k), pairs[k].i, pairs[k].j, pairs[k].i, pairs[k].j);
  }

  /** The tally loop's state after the points 0 .. i - 1. */
  ghost predicate Tallied(c: seq<nat>, i: nat, comp: map<nat, nat>, keys: seq<nat>, firsts: seq<nat>) {
    i <= |c| && comp.Keys == Seen(c, i) &&
    (forall r :: r in comp ==> comp[r] == CountUpTo(c, r, i)) &&
    firsts == FirstIdx(c, i) && |keys| == |firsts| &&
    (forall k :: 0 <= k < |keys| ==> keys[k] == c[firsts[k]])
  }

  /** Counting point i: its root's count goes up; a root seen for the first time joins the keys. */
  lemma {:induction false} TallyStep(c: seq<nat>, i: nat, comp: map<nat, nat>, keys: seq<nat>, firsts: seq<nat>)
    requires Tallied(c, i, comp, keys, firsts) && i < |c|
    ensures c[i] !in comp ==> Tallied(c, i + 1, comp[c[i] := 1], keys + [c[i]], firsts + [i])
    ensures c[i] in comp ==> Tallied(c, i + 1, comp[c[i] := comp[c[i]] + 1], keys, firsts)
  {
    var r := c[i];
    var comp' := comp[r := (if r in comp then comp[r] else 0) + 1];
    assert Seen(c, i + 1) == Seen(c, i) + {r};
    forall v | v in comp' ensures comp'[v] == CountUpTo(c, v, i + 1) {
      if v !in comp {
        CountUnseen(c, v, i);
      }
      assert CountUpTo(c, v, i + 1) == CountUpTo(c, v, i) + if r == v then 1 else 0;
    }
    assert FirstIdx(c, i + 1) == FirstIdx(c, i) + if r !in Seen(c, i) then [i] else [];
  }

  lemma {:induction false} CountUnseen<T>(l: seq<T>, v: T, m: nat)
    requires m <= |l| && v !in Seen(l, m)
    ensures CountUpTo(l, v, m) == 0
  {
    if m > 0 {
      assert l[m - 1] in Seen(l, m);
      assert Seen(l, m - 1) <= Seen(l, m);
      CountUnseen(l, v, m - 1);
    }
  }

  /** The counts of the keys, in key order. */
  function Values(comp: map<nat, nat>, keys: seq<nat>): (v: seq<nat>)
    requires forall k :: 0 <= k < |keys| ==> keys[k] in comp
    ensures |v| == |keys| && forall k :: 0 <= k < |keys| ==> v[k] == comp[keys[k]]
  {
    if |keys| == 0 then [] else Values(comp, keys[..|keys| - 1]) + [comp[keys[|keys| - 1]]]
  }

  /** After every point, the keys' counts are the circuit sizes. */
  lemma {:induction false} TallyDone(c: seq<nat>, comp: map<nat, nat>, keys: seq<nat>, firsts: seq<nat>)
    requires Tallied(c, |c|, comp, keys, firsts)
    ensures forall k :: 0 <= k < |keys| ==> keys[k] in comp
    ensures Values(comp, keys) == ClassSizes(c)
  {
    forall k | 0 <= k < |keys| ensures keys[k] in comp {
      assert keys[k] == c[firsts[k]];
    }
  }

  /** The root counts and the roots in first-seen order. */
  datatype Tallies = Tallies(comp: map<nat, nat>, keys: seq<nat>)

  /** One more point with root r: its count goes up, and a new root joins the keys. */
  function Count(t: Tallies, r: nat): Tallies {
    if r !in t.comp then Tallies(t.comp[r := 1], t.keys + [r])
    else Tallies(t.comp[r := t.comp[r] + 1], t.keys)
  }

  /** The tally after the points 0 .. i - 1. */
  function TallyOf(c: seq<nat>, i: nat): Tallies
    requires i <= |c|
  {
    if i == 0 then Tallies(map[], []) else Count(TallyOf(c, i - 1), c[i - 1])
  }

  /** The tally counts each root and lists the roots in the order they first appear. */
  lemma {:induction false} TallyOfTallied(c: seq<nat>, i: nat)
    requires i <= |c|
    ensures Tallied(c, i, TallyOf(c, i).comp, TallyOf(c, i).keys, FirstIdx(c, i))
  {
    if i > 0 {
      TallyOfTallied(c, i - 1);
      TallyStep(c, i - 1, TallyOf(c, i - 1).comp, TallyOf(c, i - 1).keys, FirstIdx(c, i - 1));
    }
  }

  /** The tally of every point reads out as the circuit sizes. */
  lemma TallySizes(c: seq<nat>)
    ensures forall k :: 0 <= k < |TallyOf(c, |c|).keys| ==> TallyOf(c, |c|).keys[k] in TallyOf(c, |c|).comp
    ensures Values(TallyOf(c, |c|).comp, TallyOf(c, |c|).keys) == ClassSizes(c)
  {
    TallyOfTallied(c, |c|);
    TallyDone(c, TallyOf(c, |c|).comp, TallyOf(c, |c|).keys, FirstIdx(c, |c|));
  }

  /**
   * The component count loop: one find per point, the count of each root
   * kept in a map. The sizes are read out in the order the roots were first
   * seen, which stands for the map's unspecified iteration order.
   */
  method Tally(dsu: DSU) returns (values: seq<nat>)
    requires dsu.Valid()
    modifies dsu.parent
    ensures dsu.Valid() && dsu.Components() == old(dsu.Components())
    ensures values == ClassSizes(dsu.Components())
  {
    ghost var c := dsu.Components();
    var n := dsu.parent.Length;
    var t := Tallies(map[], []);
    var i := 0;
    while i < n
      invariant 0 <= i <= n
      invariant dsu.Valid() && dsu.Components() == c
      invariant t == TallyOf(c, i)
    {
      var r := dsu.Find(i);
      t := Count(t, r);
      i := i + 1;
    }
    TallySizes(c);
    values := Values(t.comp, t.keys);
  }

  // ---------------------------------------------------------------------
  // Gold

  /** The number of circuits. */
  function NumClasses(l: seq<int>): nat {
    |Seen(l, |l|)|
  }

  /**
   * solveGold's loop from pair k, with the circuits so far and the
   * components counter: the product of the x coordinates of the pair that
   * brings the counter to 1, or 0 when the pairs run out first.
   */
  function GoldFrom(pts: seq<Point>, pairs: seq<Pair>, k: nat, l: seq<int>, components: int): int
    requires PairsIn(pairs, |pts|) && |l| == |pts| && k <= |pairs|
    decreases |pairs| - k
  {
    if k == |pairs| then 0
    else
      var a, b := pairs[k].i, pairs[k].j;
      if l[a] != l[b] then
        if components - 1 == 1 then pts[a].x * pts[b].x
        else GoldFrom(pts, pairs, k + 1, Relabel(l, a, b), components - 1)
      else GoldFrom(pts, pairs, k + 1, l, components)
  }

  lemma {:induction false} GoldStep(pts: seq<Point>, pairs: seq<Pair>, k: nat, l: seq<int>, components: int)
    requires PairsIn(pairs, |pts|) && |l| == |pts| && k < |pairs|
    ensures GoldFrom(pts, pairs, k, l, components) ==
            var a, b := pairs[k].i, pairs[k].j;
            if l[a] == l[b] then GoldFrom(pts, pairs, k + 1, l, components)
            else if components - 1 == 1 then pts[a].x * pts[b].x
            else GoldFrom(pts, pairs, k + 1, Relabel(l, a, b), components - 1)
  {
  }

  /** solveGold: None when a line does not parse. */
  function Gold(input: seq<string>): Option<int> {
    match ParseAll(input)
    case None => None
    case Some(pts) =>
      SortedPairsIn(pts);
      Some(GoldFrom(pts, SortedPairs(pts), 0, Identity(|pts|), |pts|))
  }

  /**
   * The first pair, from k on, whose join leaves a single circuit where
   * there were several.
   */
  function FirstJoin(n: nat, pairs: seq<Pair>, k: nat): (r: Option<nat>)
    requires PairsIn(pairs, n) && k <= |pairs|
    ensures r.Some? ==> k <= r.value < |pairs|
    decreases |pairs| - k
  {
    if k == |pairs| then None
    else if NumClasses(Labels(n, pairs, k)) > 1 && NumClasses(Labels(n, pairs, k + 1)) == 1 then Some(k)
    else FirstJoin(n, pairs, k + 1)
  }

  lemma {:induction false} RelabelSame(l: seq<int>, a: nat, b: nat)
    requires a < |l| && b < |l| && l[a] == l[b]
    ensures Relabel(l, a, b) == l
  {
  }

  /** Joining two different circuits removes exactly one. */
  lemma {:induction false} RelabelJoins(l: seq<int>, a: nat, b: nat)
    requires a < |l| && b < |l| && l[a] != l[b]
    ensures NumClasses(l) >= 2
    ensures NumClasses(Relabel(l, a, b)) == NumClasses(l) - 1
  {
    var r := Relabel(l, a, b);
    assert l[b] in Seen(l, |l|);
    assert l[a] in Seen(r, |r|) by {
      assert r[a] == l[a];
    }
    assert |Seen(r, |r|)| >= 1;
    assert Seen(r, |r|) == Seen(l, |l|) - {l[b]} by {
      forall v | v in Seen(l, |l|) - {l[b]} ensures v in Seen(r, |r|) {
        var j :| 0 <= j < |l| && l[j] == v;
        assert r[j] == v;
      }
    }
  }

  lemma {:induction false} IdentityClasses(n: nat)
    ensures NumClasses(Identity(n)) == n
  {
    forall v | 0 <= v < n ensures v in Seen(Identity(n), n) {
      assert Identity(n)[v] == v;
    }
    assert Seen(Identity(n), n) == Indices(n);
  }

  /** The product of the x coordinates of pair j's points. */
  function XProduct(pts: seq<Point>, pairs: seq<Pair>, j: nat): int
    requires PairsIn(pairs, |pts|) && j < |pairs|
  {
    pts[pairs[j].i].x * pts[pairs[j].j].x
  }

  /** The reference answer from pair k on: the x product of the pair FirstJoin finds, or 0. */
  function GoldRef(pts: seq<Point>, pairs: seq<Pair>, k: nat): int
    requires PairsIn(pairs, |pts|) && k <= |pairs|
  {
    match FirstJoin(|pts|, pairs, k)
    case None => 0
    case Some(j) => XProduct(pts, pairs, j)
  }

  /**
   * The counter walk equals the reference: when the counter is the number
   * of circuits, the walk returns the x product of the first pair that
   * joins everything into one circuit, and 0 if there is none.
   */
  lemma {:induction false} GoldFromFirstJoin(pts: seq<Point>, pairs: seq<Pair>, k: nat)
    requires PairsIn(pairs, |pts|) && k <= |pairs|
    ensures GoldFrom(pts, pairs, k, Labels(|pts|, pairs, k), NumClasses(Labels(|pts|, pairs, k))) == GoldRef(pts, pairs, k)
    decreases |pairs| - k
  {
    if k < |pairs| {
      var n := |pts|;
      var l := Labels(n, pairs, k);
      var a, b := pairs[k].i, pairs[k].j;
      assert Labels(n, pairs, k + 1) == Relabel(l, a, b);
      GoldStep(pts, pairs, k, l, NumClasses(l));
      GoldFromFirstJoin(pts, pairs, k + 1);
      if l[a] != l[b] {
        RelabelJoins(l, a, b);
      } else {
        RelabelSame(l, a, b);
      }
    }
  }

  /** Gold against the reference: the pair that first leaves one circuit, or 0. */
  lemma GoldIsFirstJoin(input: seq<string>, pts: seq<Point>)
    requires ParseAll(input) == Some(pts)
    ensures PairsIn(SortedPairs(pts), |pts|)
    ensures Gold(input) == Some(GoldRef(pts, SortedPairs(pts), 0))
  {
    SortedPairsIn(pts);
    IdentityClasses(|pts|);
    GoldFromFirstJoin(pts, SortedPairs(pts), 0);
  }

  method SolveGold(input: seq<string>) returns (r: Option<int>)
    ensures r == Gold(input)
  {
    var parsed := ParsePoints(input);
    if parsed.None? {
      return None;
    }
    var pts := parsed.value;
    var pairs := ComputeSortedPairs(pts);
    SortedPairsIn(pts);
    var dsu := new DSU(|pts|);
    assert dsu.Components() == Identity(|pts|);
    var product := Connect(dsu, pts, pairs);
    return Some(product);
  }

  /**
   * solveGold's loop: unions the pairs in order, counting the components
   * down, and stops at the pair that leaves one.
   */
  method Connect(dsu: DSU, pts: seq<Point>, pairs: seq<Pair>) returns (product: int)
    requires dsu.Valid() && dsu.parent.Length == |pts| && PairsIn(pairs, |pts|)
    requires SamePartition(dsu.Components(), Identity(|pts|))
    modifies dsu, dsu.parent, dsu.size
    ensures product == GoldFrom(pts, pairs, 0, Identity(|pts|), |pts|)
  {
    var n := |pts|;
    var components := n;
    ghost var l := Identity(n);
    var k := 0;
    while k < |pairs|
      invariant 0 <= k <= |pairs|
      invariant dsu.Valid() && |l| == n
      invariant SamePartition(dsu.Components(), l)
      invariant GoldFrom(pts, pairs, 0, Identity(n), n) == GoldFrom(pts, pairs, k, l, components)
    {
      var a, b := pairs[k].i, pairs[k].j;
      ghost var c0 := dsu.Components();
      var ra := dsu.Find(a);
      dsu.RootIsOwn(ra);
      var rb := dsu.Find(b);
      dsu.RootIsOwn(rb);
      assert Agree(c0, l, a, b);
      GoldStep(pts, pairs, k, l, components);
      if ra != rb {
        ghost var s0 := dsu.size[..];
        dsu.Union(ra, rb);
        UnionRelabels(c0, s0, dsu.Components(), dsu.size[..], l, a, b, ra, rb);
        l := Relabel(l, a, b);
        components := components - 1;
        if components == 1 {
          return pts[a].x * pts[b].x;
        }
      }
      k := k + 1;
    }
    return 0;
  }
}
