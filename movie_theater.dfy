// Day 09: Movie Theater. Red tiles are points on a grid; Silver is the
// largest rectangle spanned by two of them, Gold the largest such rectangle
// that passes a test against the closed polygon the points trace in input
// order: its four corners inside or on the outline, and no edge strictly
// crossing one of its sides. The test does not imply that the rectangle
// lies inside the polygon (AcceptedNotContained).

module MovieTheater {
  import opened Text
  import opened Lines

  datatype Point = Point(x: int, y: int)

  // ---------------------------------------------------------------------
  // parsePoints

  /** A line "x,y": at least two comma-separated fields, the first two numbers. */
  function ParsePoint(line: string): Option<Point> {
    var p := Split(line, ',');
    if |p| < 2 then None
    else match (ParseInt(p[0]), ParseInt(p[1]))
      case (Some(x), Some(y)) => Some(Point(x, y))
      case _ => None
  }

  /** Every line parsed; None when any line fails. */
  function ParseAll(input: seq<string>): (r: Option<seq<Point>>)
    ensures r.Some? ==> |r.value| == |input|
  {
    if |input| == 0 then Some([])
    else match ParseAll(input[..|input| - 1])
      case None => None
      case Some(pts) =>
        match ParsePoint(input[|input| - 1])
        case None => None
        case Some(p) => Some(pts + [p])
  }

  /** The input parses exactly when every line does, and point i comes from line i. */
  lemma {:induction false} ParseAllLines(input: seq<string>)
    ensures ParseAll(input).Some? <==> forall i :: 0 <= i < |input| ==> ParsePoint(input[i]).Some?
    ensures ParseAll(input).Some? ==>
              forall i :: 0 <= i < |input| ==> ParsePoint(input[i]) == Some(ParseAll(input).value[i])
  {
    if |input| > 0 {
      var init := input[..|input| - 1];
      ParseAllLines(init);
      assert forall i :: 0 <= i < |init| ==> input[i] == init[i];
    }
  }

  lemma {:induction false} ParseAllStaysFailed(input: seq<string>, m: nat)
    requires m <= |input| && ParseAll(input[..m]).None?
    ensures ParseAll(input).None?
    decreases |input| - m
  {
    if m < |input| {
      assert input[..m + 1][..m] == input[..m];
      ParseAllStaysFailed(input, m + 1);
    } else {
      assert input[..m] == input;
    }
  }

  method ParsePoints(input: seq<string>) returns (pts: Option<seq<Point>>)
    ensures pts == ParseAll(input)
  {
    var n := |input|;
    var arr := new Point[n];
    var i := 0;
    while i < n
      invariant 0 <= i <= n
      invariant ParseAll(input[..i]) == Some(arr[..i])
    {
      var p := ParsePoint(input[i]);
      if p.None? {
        assert input[..i + 1][..i] == input[..i];
        ParseAllStaysFailed(input, i + 1);
        return None;
      }
      arr[i] := p.value;
      assert input[..i + 1][..i] == input[..i];
      assert arr[..i + 1] == arr[..i] + [p.value];
      i := i + 1;
    }
    assert input[..i] == input;
    assert arr[..i] == arr[..];
    return Some(arr[..]);
  }

  // ---------------------------------------------------------------------
  // calculateArea and solveSilver

  function Abs(v: int): nat {
    if v < 0 then -v else v
  }

  /** The number of tiles in the rectangle with opposite corners a and b, borders included. */
  function Area(a: Point, b: Point): (r: int)
    ensures r >= 1
  {
    (Abs(a.x - b.x) + 1) * (Abs(a.y - b.y) + 1)
  }

  /** The area does not depend on which corner comes first. */
  lemma AreaSymmetric(a: Point, b: Point)
    ensures Area(a, b) == Area(b, a)
  {
    assert Abs(a.x - b.x) == Abs(b.x - a.x);
    assert Abs(a.y - b.y) == Abs(b.y - a.y);
  }

  /**
   * v is the largest area spanned by two distinct points of pts, or 0 when
   * there is no such pair.
   */
  predicate LargestArea(pts: seq<Point>, v: int) {
    (forall p, q :: 0 <= p < q < |pts| ==> Area(pts[p], pts[q]) <= v) &&
    (v == 0 || exists p, q :: 0 <= p < q < |pts| && v == Area(pts[p], pts[q]))
  }

  /** The largest area is 0 exactly when there are fewer than two points, and it is unique. */
  lemma {:induction false} LargestAreaZero(pts: seq<Point>, v: int, w: int)
    requires LargestArea(pts, v) && LargestArea(pts, w)
    ensures v == 0 <==> |pts| < 2
    ensures v == w
  {
    if |pts| >= 2 {
      assert Area(pts[0], pts[1]) <= v;
    }
    if v != 0 {
      var p, q :| 0 <= p < q < |pts| && v == Area(pts[p], pts[q]);
      assert v <= w;
    }
    if w != 0 {
      var p, q :| 0 <= p < q < |pts| && w == Area(pts[p], pts[q]);
      assert w <= v;
    }
  }

  /** The pairs p < q that come before (i, j) in the scan order. */
  predicate Scanned(p: int, q: int, i: int, j: int) {
    p < i || (p == i && q < j)
  }

  /** Every pair scanned before (i, j) that acc accepts has an area of at most v. */
  predicate BoundsScanned(pts: seq<Point>, acc: (Point, Point) -> bool, v: int, i: int, j: int) {
    forall p, q :: 0 <= p < q < |pts| && Scanned(p, q, i, j) && acc(pts[p], pts[q]) ==>
      Area(pts[p], pts[q]) <= v
  }

  /** Every pair in the rows before row i that acc accepts has an area of at most v. */
  predicate BoundsRows(pts: seq<Point>, acc: (Point, Point) -> bool, v: int, i: int) {
    forall p, q :: 0 <= p < q < |pts| && p < i && acc(pts[p], pts[q]) ==> Area(pts[p], pts[q]) <= v
  }

  /** v is 0, or the area of the pair (p, q) that acc accepts. */
  predicate Attained(pts: seq<Point>, acc: (Point, Point) -> bool, v: int, p: int, q: int) {
    v == 0 || (0 <= p < q < |pts| && acc(pts[p], pts[q]) && v == Area(pts[p], pts[q]))
  }

  /** Scanning (i, j0) keeps the bound when the new best covers that pair. */
  lemma {:induction false} BoundsNext(pts: seq<Point>, acc: (Point, Point) -> bool, v: int, w: int,
                                      i: int, j0: int, j: int)
    requires 0 <= i < j0 < |pts| && j == j0 + 1 && v <= w
    requires BoundsScanned(pts, acc, v, i, j0)
    requires acc(pts[i], pts[j0]) ==> Area(pts[i], pts[j0]) <= w
    ensures BoundsScanned(pts, acc, w, i, j)
  {
    forall p, q | 0 <= p < q < |pts| && Scanned(p, q, i, j) && acc(pts[p], pts[q])
      ensures Area(pts[p], pts[q]) <= w
    {
      if !Scanned(p, q, i, j0) {
        assert p == i && q == j0;
      }
    }
  }

  lemma {:induction false} RowStart(pts: seq<Point>, acc: (Point, Point) -> bool, v: int, i: int, j: int)
    requires j == i + 1 && BoundsRows(pts, acc, v, i)
    ensures BoundsScanned(pts, acc, v, i, j)
  {
    forall p, q | 0 <= p < q < |pts| && Scanned(p, q, i, j) && acc(pts[p], pts[q])
      ensures Area(pts[p], pts[q]) <= v
    {
      assert p < i;
    }
  }

  lemma {:induction false} RowEnd(pts: seq<Point>, acc: (Point, Point) -> bool, v: int, i: int, i': int)
    requires i' == i + 1 && BoundsScanned(pts, acc, v, i, |pts|)
    ensures BoundsRows(pts, acc, v, i')
  {
    forall p, q | 0 <= p < q < |pts| && p < i' && acc(pts[p], pts[q])
      ensures Area(pts[p], pts[q]) <= v
    {
      assert Scanned(p, q, i, |pts|);
    }
  }

  /** Every pair qualifies for Silver. */
  predicate AnyPair(a: Point, b: Point) {
    true
  }

  /** One row of the Silver scan: the pairs (i, j) for every j > i. */
  method MaxRow(pts: seq<Point>, i: nat, area0: int, ghost p0: int, ghost q0: int)
    returns (area: int, ghost p: int, ghost q: int)
    requires i < |pts|
    requires BoundsRows(pts, AnyPair, area0, i) && Attained(pts, AnyPair, area0, p0, q0)
    ensures area >= area0
    ensures BoundsRows(pts, AnyPair, area, i + 1) && Attained(pts, AnyPair, area, p, q)
  {
    area, p, q := area0, p0, q0;
    var j := i + 1;
    RowStart(pts, AnyPair, area, i, j);
    while j < |pts|
      invariant i + 1 <= j <= |pts|
      invariant area >= area0
      invariant BoundsScanned(pts, AnyPair, area, i, j) && Attained(pts, AnyPair, area, p, q)
    {
      var before := area;
      var temp := Area(pts[i], pts[j]);
      if temp > area {
        area, p, q := temp, i, j;
      }
      var j0 := j;
      j := j + 1;
      BoundsNext(pts, AnyPair, before, area, i, j0, j);
    }
    RowEnd(pts, AnyPair, area, i, i + 1);
  }

  /** The whole Silver scan: the largest area over all pairs. */
  method MaxArea(pts: seq<Point>) returns (area: int)
    ensures LargestArea(pts, area)
  {
    area := 0;
    ghost var p, q := 0, 0;
    for i := 0 to |pts|
      invariant BoundsRows(pts, AnyPair, area, i) && Attained(pts, AnyPair, area, p, q)
    {
      area, p, q := MaxRow(pts, i, area, p, q);
    }
    assert forall a, b :: AnyPair(a, b);
  }

  /** Silver: the largest rectangle; None when a line does not parse. */
  method SolveSilver(input: seq<string>) returns (r: Option<int>)
    ensures r.None? <==> ParseAll(input).None?
    ensures r.Some? ==> LargestArea(ParseAll(input).value, r.value)
  {
    var parsed := ParsePoints(input);
    if parsed.None? {
      return None;
    }
    var area := MaxArea(parsed.value);
    return Some(area);
  }

  // ---------------------------------------------------------------------
  // buildLines

  function NormLine(a: Point, b: Point): Line {
    MakeLine(a.x, a.y, b.x, b.y)
  }

  /** The polygon's edges: each point to the next, then the last back to the first. */
  function Edges(pts: seq<Point>): (r: seq<Line>)
    requires |pts| > 0
  {
    seq(|pts| - 1, k requires 0 <= k < |pts| - 1 => NormLine(pts[k], pts[k + 1])) +
    [NormLine(pts[|pts| - 1], pts[0])]
  }

  /** There is one edge per point, and edge k joins point k to the point after it, cyclically. */
  lemma {:induction false} EdgesCycle(pts: seq<Point>)
    requires |pts| > 0
    ensures |Edges(pts)| == |pts|
    ensures forall k :: 0 <= k < |pts| ==> Edges(pts)[k] == NormLine(pts[k], pts[Next(k, |pts|)])
  {
  }

  /** The point after point k, wrapping round after the last. */
  function Next(k: nat, n: nat): nat {
    if k + 1 < n then k + 1 else 0
  }

  method BuildLines(pts: seq<Point>) returns (lines: seq<Line>)
    requires |pts| > 0
    ensures lines == Edges(pts)
  {
    var n := |pts|;
    lines := [];
    var i := 1;
    while i < n
      invariant 1 <= i <= n
      invariant lines == seq(i - 1, k requires 0 <= k < i - 1 => NormLine(pts[k], pts[k + 1]))
    {
      lines := lines + [NormLine(pts[i - 1], pts[i])];
      i := i + 1;
    }
    lines := lines + [NormLine(pts[n - 1], pts[0])];
  }

  // ---------------------------------------------------------------------
  // Sorting the edges into horizontal and vertical ones

  predicate IsHorizontal(l: Line) { l.dy == 0 }

  predicate IsVertical(l: Line) { l.dy != 0 && l.dx == 0 }

  /** The elements of s that satisfy f, in order. */
  function Filter<T>(s: seq<T>, f: T -> bool): (r: seq<T>)
    ensures |r| <= |s|
  {
    if |s| == 0 then [] else Filter(s[..|s| - 1], f) + if f(s[|s| - 1]) then [s[|s| - 1]] else []
  }

  /** Filter keeps exactly the elements that satisfy f. */
  lemma {:induction false} FilterMembers<T>(s: seq<T>, f: T -> bool)
    ensures forall x :: x in Filter(s, f) <==> x in s && f(x)
  {
    if |s| > 0 {
      FilterMembers(s[..|s| - 1], f);
      assert s == s[..|s| - 1] + [s[|s| - 1]];
    }
  }

  /** The horizontal and the vertical edges; slanted edges go in neither. */
  method SplitLines(lines: seq<Line>) returns (hs: seq<Line>, vs: seq<Line>)
    ensures hs == Filter(lines, IsHorizontal)
    ensures vs == Filter(lines, IsVertical)
  {
    hs, vs := [], [];
    var i := 0;
    while i < |lines|
      invariant 0 <= i <= |lines|
      invariant hs == Filter(lines[..i], IsHorizontal)
      invariant vs == Filter(lines[..i], IsVertical)
    {
      var l := lines[i];
      assert lines[..i + 1][..i] == lines[..i];
      if l.dy == 0 {
        hs := hs + [l];
      } else if l.dx == 0 {
        vs := vs + [l];
      }
      i := i + 1;
    }
    assert lines[..i] == lines;
  }

  function HLines(pts: seq<Point>): seq<Line>
    requires |pts| > 0
  {
    Filter(Edges(pts), IsHorizontal)
  }

  function VLines(pts: seq<Point>): seq<Line>
    requires |pts| > 0
  {
    Filter(Edges(pts), IsVertical)
  }

  // ---------------------------------------------------------------------
  // isInside

  /** Some segment of ls passes through (x, y). */
  predicate OnSome(ls: seq<Line>, x: int, y: int) {
    exists k :: 0 <= k < |ls| && IsPointOn(ls[k], x, y)
  }

  /** A horizontal edge strictly above-left ray crossing: below y, and x in [h.x, h.x + h.dx). */
  predicate Crosses(h: Line, x: int, y: int) {
    h.y < y && h.x <= x && x < h.x + h.dx
  }

  /** The number of horizontal edges crossed by the ray from (x, y) towards smaller y. */
  function Crossings(hs: seq<Line>, x: int, y: int): (r: nat)
    ensures r <= |hs|
  {
    if |hs| == 0 then 0
    else Crossings(hs[..|hs| - 1], x, y) + if Crosses(hs[|hs| - 1], x, y) then 1 else 0
  }

  /** On the boundary, or strictly inside by the even-odd rule. */
  predicate Inside(hs: seq<Line>, vs: seq<Line>, x: int, y: int) {
    OnSome(vs, x, y) || OnSome(hs, x, y) || Crossings(hs, x, y) % 2 == 1
  }

  /** Every crossing counted belongs to a distinct horizontal edge below the point. */
  lemma {:induction false} CrossingsBelow(hs: seq<Line>, x: int, y: int)
    ensures Crossings(hs, x, y) > 0 <==> exists k :: 0 <= k < |hs| && Crosses(hs[k], x, y)
  {
    if |hs| > 0 {
      var init := hs[..|hs| - 1];
      CrossingsBelow(init, x, y);
      if Crossings(init, x, y) > 0 {
        var k :| 0 <= k < |init| && Crosses(init[k], x, y);
        assert hs[k] == init[k];
      }
      if Crossings(hs, x, y) == 0 {
        forall k | 0 <= k < |hs| ensures !Crosses(hs[k], x, y) {
          if k < |init| {
            assert hs[k] == init[k];
          }
        }
      }
    }
  }

  method IsInside(hs: seq<Line>, vs: seq<Line>, x: int, y: int) returns (inside: bool)
    ensures inside == Inside(hs, vs, x, y)
  {
    for i := 0 to |vs|
      invariant !OnSome(vs[..i], x, y)
    {
      assert vs[..i + 1][..i] == vs[..i];
      if IsPointOn(vs[i], x, y) {
        return true;
      }
    }
    assert vs[..|vs|] == vs;
    for i := 0 to |hs|
      invariant !OnSome(hs[..i], x, y)
    {
      assert hs[..i + 1][..i] == hs[..i];
      if IsPointOn(hs[i], x, y) {
        return true;
      }
    }
    assert hs[..|hs|] == hs;
    var count := 0;
    for i := 0 to |hs|
      invariant count == Crossings(hs[..i], x, y)
    {
      var h := hs[i];
      assert hs[..i + 1][..i] == hs[..i];
      if h.y < y && h.x <= x && x < h.x + h.dx {
        count := count + 1;
      }
    }
    return count % 2 == 1;
  }

  // ---------------------------------------------------------------------
  // intersects

  /**
   * Whether a strictly crosses b: a's own span and b's span each contain the
   * other's fixed coordinate strictly inside.
   */
  predicate Intersects(a: Line, b: Line) {
    if a.dy == 0 then a.x < b.x < a.x + a.dx && b.y < a.y < b.y + b.dy
    else a.y < b.y < a.y + a.dy && b.x < a.x < b.x + b.dx
  }

  /** A point of l that is not one of its endpoints. */
  predicate Interior(l: Line, px: int, py: int) {
    IsPointOn(l, px, py) && (px, py) !in Ends(l)
  }

  /**
   * A horizontal and a vertical segment intersect exactly when they share a
   * point that is an endpoint of neither: touching at an end does not count.
   */
  lemma {:induction false} IntersectsIsInteriorMeet(a: Line, b: Line)
    requires (a.dy == 0 && a.dx > 0 && b.dx == 0 && b.dy > 0) ||
             (a.dx == 0 && a.dy > 0 && b.dy == 0 && b.dx > 0)
    ensures Intersects(a, b) <==> exists px, py :: Interior(a, px, py) && Interior(b, px, py)
  {
    if a.dy == 0 {
      if Intersects(a, b) {
        assert Interior(a, b.x, a.y) && Interior(b, b.x, a.y);
      }
    } else {
      if Intersects(a, b) {
        assert Interior(a, a.x, b.y) && Interior(b, a.x, b.y);
      }
    }
  }

  /** Two parallel axis-aligned segments never intersect, even when they overlap. */
  lemma {:induction false} ParallelNeverIntersect(a: Line, b: Line)
    requires (a.dy == 0 && b.dy == 0) || (a.dx == 0 && a.dy != 0 && b.dx == 0)
    ensures !Intersects(a, b)
  {
    if a.dy == 0 {
      assert !(b.y < a.y < b.y + b.dy);
    } else {
      assert !(b.x < a.x < b.x + b.dx);
    }
  }

  // ---------------------------------------------------------------------
  // solveGold

  function Min(a: int, b: int): int { if a <= b then a else b }

  function Max(a: int, b: int): int { if a <= b then b else a }

  /** The rectangle's top and bottom sides with their corners cut off. */
  function Top(a: Point, b: Point): Line {
    MakeLine(Min(a.x, b.x) + 1, Min(a.y, b.y), Max(a.x, b.x) - 1, Min(a.y, b.y))
  }

  function Bottom(a: Point, b: Point): Line {
    MakeLine(Min(a.x, b.x) + 1, Max(a.y, b.y), Max(a.x, b.x) - 1, Max(a.y, b.y))
  }

  /** The rectangle's left and right sides with their corners cut off. */
  function Left(a: Point, b: Point): Line {
    MakeLine(Min(a.x, b.x), Min(a.y, b.y) + 1, Min(a.x, b.x), Max(a.y, b.y) - 1)
  }

  function Right(a: Point, b: Point): Line {
    MakeLine(Max(a.x, b.x), Min(a.y, b.y) + 1, Max(a.x, b.x), Max(a.y, b.y) - 1)
  }

  /** No segment of ls strictly crosses s1 or s2. */
  predicate Clear(ls: seq<Line>, s1: Line, s2: Line) {
    forall k :: 0 <= k < |ls| ==> !Intersects(ls[k], s1) && !Intersects(ls[k], s2)
  }

  /** All four corners inside, and no edge cutting through a side. */
  predicate Accepted(hs: seq<Line>, vs: seq<Line>, a: Point, b: Point) {
    var fromX, toX, fromY, toY := Min(a.x, b.x), Max(a.x, b.x), Min(a.y, b.y), Max(a.y, b.y);
    Inside(hs, vs, fromX, fromY) && Inside(hs, vs, toX, fromY) &&
    Inside(hs, vs, toX, toY) && Inside(hs, vs, fromX, toY) &&
    Clear(vs, Top(a, b), Bottom(a, b)) && Clear(hs, Left(a, b), Right(a, b))
  }

  /**
   * v is the largest area over the accepted pairs of distinct points, or 0
   * when no pair is accepted.
   */
  predicate LargestAccepted(pts: seq<Point>, hs: seq<Line>, vs: seq<Line>, v: int) {
    (forall p, q :: 0 <= p < q < |pts| && Accepted(hs, vs, pts[p], pts[q]) ==> Area(pts[p], pts[q]) <= v) &&
    (v == 0 || exists p, q :: 0 <= p < q < |pts| && Accepted(hs, vs, pts[p], pts[q]) && v == Area(pts[p], pts[q]))
  }

  /** Gold never exceeds Silver: the accepted pairs are some of all the pairs. */
  lemma {:induction false} GoldAtMostSilver(pts: seq<Point>, hs: seq<Line>, vs: seq<Line>, g: int, s: int)
    requires LargestAccepted(pts, hs, vs, g) && LargestArea(pts, s)
    ensures 0 <= g <= s
  {
    if g != 0 {
      var p, q :| 0 <= p < q < |pts| && Accepted(hs, vs, pts[p], pts[q]) && g == Area(pts[p], pts[q]);
      assert Area(pts[p], pts[q]) <= s;
    }
    if |pts| >= 2 {
      assert Area(pts[0], pts[1]) <= s;
    }
  }

  /**
   * A room with a notch cut into its left wall: the outline of the square
   * (0, 0)-(10, 10) runs in along y = 7 to x = 5 and back out along y = 3.
   */
  predicate NotchedRoom(pts: seq<Point>) {
    |pts| == 8 &&
    pts[0] == Point(0, 0) && pts[1] == Point(10, 0) && pts[2] == Point(10, 10) && pts[3] == Point(0, 10) &&
    pts[4] == Point(0, 7) && pts[5] == Point(5, 7) && pts[6] == Point(5, 3) && pts[7] == Point(0, 3)
  }

  /** The notched room's horizontal and vertical edges. */
  const NotchedH: seq<Line> := [Line(0, 0, 10, 0), Line(0, 10, 10, 0), Line(0, 7, 5, 0), Line(0, 3, 5, 0)]
  const NotchedV: seq<Line> := [Line(10, 0, 0, 10), Line(0, 7, 0, 3), Line(5, 3, 0, 4), Line(0, 0, 0, 3)]

  lemma {:induction false} FilterSnoc<T>(s: seq<T>, x: T, f: T -> bool)
    ensures Filter(s + [x], f) == Filter(s, f) + if f(x) then [x] else []
  {
    assert (s + [x])[..|s|] == s;
  }

  /**
   * Edge k, from a to b, is l when l starts at the lexicographically
   * smaller of the two and reaches the other.
   */
  lemma EdgeIs(pts: seq<Point>, k: nat, a: Point, b: Point, l: Line)
    requires k < |pts| && pts[k] == a && pts[Next(k, |pts|)] == b
    requires LexLe(a.x, a.y, b.x, b.y) ==> l == Line(a.x, a.y, b.x - a.x, b.y - a.y)
    requires !LexLe(a.x, a.y, b.x, b.y) ==> l == Line(b.x, b.y, a.x - b.x, a.y - b.y)
    ensures |Edges(pts)| == |pts| && Edges(pts)[k] == l
  {
    EdgesCycle(pts);
  }

  /** Edges alternating horizontal and vertical split into the two lists, in order. */
  lemma NotchedSplit(e: seq<Line>)
    requires |e| == 8
    requires e[0] == NotchedH[0] && e[1] == NotchedV[0] && e[2] == NotchedH[1] && e[3] == NotchedV[1]
    requires e[4] == NotchedH[2] && e[5] == NotchedV[2] && e[6] == NotchedH[3] && e[7] == NotchedV[3]
    ensures Filter(e, IsHorizontal) == NotchedH && Filter(e, IsVertical) == NotchedV
  {
    var h, v := NotchedH, NotchedV;
    for j := 0 to 4
      invariant Filter(e[..j + j], IsHorizontal) == h[..j]
      invariant Filter(e[..j + j], IsVertical) == v[..j]
    {
      NotchedSplitStep(e[..j + j + 2], h[j], v[j]);
      assert e[..j + j + 2][..j + j] == e[..j + j];
      assert h[..j + 1] == h[..j] + [h[j]];
      assert v[..j + 1] == v[..j] + [v[j]];
    }
    assert e[..8] == e && h[..4] == h && v[..4] == v;
  }

  /** A horizontal then a vertical edge extend each list by one. */
  lemma NotchedSplitStep(e: seq<Line>, h: Line, v: Line)
    requires |e| >= 2 && e[|e| - 2] == h && e[|e| - 1] == v && IsHorizontal(h) && IsVertical(v)
    ensures Filter(e, IsHorizontal) == Filter(e[..|e| - 2], IsHorizontal) + [h]
    ensures Filter(e, IsVertical) == Filter(e[..|e| - 2], IsVertical) + [v]
  {
    assert e[..|e| - 1][..|e| - 2] == e[..|e| - 2];
  }

  /** The notched room's horizontal and vertical edges, as splitLines lists them. */
  lemma NotchedLines(pts: seq<Point>)
    requires NotchedRoom(pts)
    ensures HLines(pts) == NotchedH && VLines(pts) == NotchedV
  {
    OuterWalls(pts);
    NotchWalls(pts);
    NotchedSplit(Edges(pts));
  }

  /** The first four edges: the bottom, right and top walls and the upper left wall. */
  lemma OuterWalls(pts: seq<Point>)
    requires NotchedRoom(pts)
    ensures |Edges(pts)| == 8
    ensures Edges(pts)[0] == NotchedH[0] && Edges(pts)[1] == NotchedV[0]
    ensures Edges(pts)[2] == NotchedH[1] && Edges(pts)[3] == NotchedV[1]
  {
    EdgeIs(pts, 0, Point(0, 0), Point(10, 0), NotchedH[0]);
    EdgeIs(pts, 1, Point(10, 0), Point(10, 10), NotchedV[0]);
    TopWalls(pts);
  }

  /** The top wall and the upper left wall. */
  lemma TopWalls(pts: seq<Point>)
    requires NotchedRoom(pts)
    ensures |Edges(pts)| == 8
    ensures Edges(pts)[2] == NotchedH[1] && Edges(pts)[3] == NotchedV[1]
  {
    EdgeIs(pts, 2, Point(10, 10), Point(0, 10), NotchedH[1]);
    EdgeIs(pts, 3, Point(0, 10), Point(0, 7), NotchedV[1]);
  }

  /** The last four edges: the notch and the lower left wall. */
  lemma NotchWalls(pts: seq<Point>)
    requires NotchedRoom(pts)
    ensures |Edges(pts)| == 8
    ensures Edges(pts)[4] == NotchedH[2] && Edges(pts)[5] == NotchedV[2]
    ensures Edges(pts)[6] == NotchedH[3] && Edges(pts)[7] == NotchedV[3]
  {
    EdgeIs(pts, 4, Point(0, 7), Point(5, 7), NotchedH[2]);
    EdgeIs(pts, 5, Point(5, 7), Point(5, 3), NotchedV[2]);
    EdgeIs(pts, 6, Point(5, 3), Point(0, 3), NotchedH[3]);
    EdgeIs(pts, 7, Point(0, 3), Point(0, 0), NotchedV[3]);
  }

  /** The trimmed sides of the square (0, 0)-(10, 10). */
  lemma SquareSides()
    ensures Top(Point(0, 0), Point(10, 10)) == Line(1, 0, 8, 0)
    ensures Bottom(Point(0, 0), Point(10, 10)) == Line(1, 10, 8, 0)
    ensures Left(Point(0, 0), Point(10, 10)) == Line(0, 1, 0, 8)
    ensures Right(Point(0, 0), Point(10, 10)) == Line(10, 1, 0, 8)
  {
  }

  /** No vertical edge of the notched room cuts the square's trimmed top or bottom. */
  lemma NotchedTopBottomClear(vs: seq<Line>)
    requires vs == NotchedV
    ensures Clear(vs, Line(1, 0, 8, 0), Line(1, 10, 8, 0))
  {
  }

  /** No horizontal edge of the notched room cuts the square's trimmed left or right side. */
  lemma NotchedLeftRightClear(hs: seq<Line>)
    requires hs == NotchedH
    ensures Clear(hs, Line(0, 1, 0, 8), Line(10, 1, 0, 8))
  {
  }

  /** The ray from (2, 5) crosses the bottom wall and the notch's lower edge: an even count. */
  lemma {:induction false} NotchCrossings(hs: seq<Line>)
    requires hs == NotchedH
    ensures Crossings(hs, 2, 5) == 2
  {
    assert Crossings(hs[..0], 2, 5) == 0;
    assert hs[..1][..0] == hs[..0] && hs[..1][0] == hs[0];
    assert Crosses(hs[0], 2, 5);
    assert Crossings(hs[..1], 2, 5) == 1;
    assert hs[..2][..1] == hs[..1] && hs[..2][1] == hs[1];
    assert !Crosses(hs[1], 2, 5);
    assert Crossings(hs[..2], 2, 5) == 1;
    assert hs[..3][..2] == hs[..2] && hs[..3][2] == hs[2];
    assert !Crosses(hs[2], 2, 5);
    assert Crossings(hs[..3], 2, 5) == 1;
    assert hs[..3] == hs[..|hs| - 1];
    assert Crosses(hs[3], 2, 5);
  }

  /** (2, 5) is on no edge of the notched room, and its ray crosses two of them. */
  lemma NotchOutside(hs: seq<Line>, vs: seq<Line>)
    requires hs == NotchedH && vs == NotchedV
    ensures !Inside(hs, vs, 2, 5)
  {
    NotchCrossings(hs);
  }

  /** The square (0, 0)-(10, 10) and its corners on the outer walls. */
  lemma SquareAccepted(hs: seq<Line>, vs: seq<Line>, a: Point, b: Point)
    requires hs == NotchedH && vs == NotchedV && a == Point(0, 0) && b == Point(10, 10)
    ensures Accepted(hs, vs, a, b) && Area(a, b) == 121
  {
    SquareSides();
    NotchedTopBottomClear(vs);
    NotchedLeftRightClear(hs);
    assert IsPointOn(hs[0], 0, 0) && IsPointOn(hs[0], 10, 0);
    assert IsPointOn(hs[1], 10, 10) && IsPointOn(hs[1], 0, 10);
  }

  /**
   * The corner-and-crossing test is not containment: on the notched room it
   * accepts the whole square (0, 0)-(10, 10), of area 121, although the
   * tile (2, 5) inside that square lies in the notch, outside the polygon.
   * The notch's edges end exactly on the square's left side, so none of
   * them strictly crosses a trimmed side.
   */
  lemma AcceptedNotContained(pts: seq<Point>)
    requires NotchedRoom(pts)
    ensures var hs, vs := HLines(pts), VLines(pts);
            Accepted(hs, vs, pts[0], pts[2]) && Area(pts[0], pts[2]) == 121 &&
            Min(pts[0].x, pts[2].x) < 2 < Max(pts[0].x, pts[2].x) &&
            Min(pts[0].y, pts[2].y) < 5 < Max(pts[0].y, pts[2].y) &&
            !Inside(hs, vs, 2, 5)
  {
    NotchedLines(pts);
    SquareAccepted(NotchedH, NotchedV, pts[0], pts[2]);
    NotchOutside(NotchedH, NotchedV);
  }

  method ClearOf(ls: seq<Line>, s1: Line, s2: Line) returns (ok: bool)
    ensures ok == Clear(ls, s1, s2)
  {
    ok := true;
    for i := 0 to |ls|
      invariant forall k :: 0 <= k < i ==> !Intersects(ls[k], s1) && !Intersects(ls[k], s2)
    {
      if Intersects(ls[i], s1) || Intersects(ls[i], s2) {
        ok := false;
        return;
      }
    }
  }

  method CheckPair(hs: seq<Line>, vs: seq<Line>, a: Point, b: Point) returns (ok: bool)
    ensures ok == Accepted(hs, vs, a, b)
  {
    var fromX, toX := Min(a.x, b.x), Max(a.x, b.x);
    var fromY, toY := Min(a.y, b.y), Max(a.y, b.y);
    ok := IsInside(hs, vs, fromX, fromY);
    if ok {
      ok := IsInside(hs, vs, toX, fromY);
    }
    if ok {
      ok := IsInside(hs, vs, toX, toY);
    }
    if ok {
      ok := IsInside(hs, vs, fromX, toY);
    }
    if !ok {
      return;
    }
    ok := ClearOf(vs, Top(a, b), Bottom(a, b));
    if !ok {
      return;
    }
    ok := ClearOf(hs, Left(a, b), Right(a, b));
  }

  /** acc answers exactly what Accepted answers for the polygon with edges hs and vs. */
  ghost predicate Decides(acc: (Point, Point) -> bool, hs: seq<Line>, vs: seq<Line>) {
    forall a, b {:trigger Accepted(hs, vs, a, b)} :: acc(a, b) == Accepted(hs, vs, a, b)
  }

  /** The pair (i, j) replaces the best when it is larger and accepted. */
  method Consider(pts: seq<Point>, hs: seq<Line>, vs: seq<Line>, ghost acc: (Point, Point) -> bool,
                  i: nat, j: nat, best0: int, ghost p0: int, ghost q0: int)
    returns (best: int, ghost p: int, ghost q: int)
    requires i < j < |pts| && Decides(acc, hs, vs) && Attained(pts, acc, best0, p0, q0)
    ensures best >= best0 && Attained(pts, acc, best, p, q)
    ensures acc(pts[i], pts[j]) ==> Area(pts[i], pts[j]) <= best
  {
    best, p, q := best0, p0, q0;
    var area := Area(pts[i], pts[j]);
    if area <= best {
      return;
    }
    var ok := CheckPair(hs, vs, pts[i], pts[j]);
    if ok {
      best, p, q := area, i, j;
    }
  }

  /** One row of the scan: the pairs (i, j) for every j > i. The best area only grows. */
  method ScanRow(pts: seq<Point>, hs: seq<Line>, vs: seq<Line>, ghost acc: (Point, Point) -> bool,
                 i: nat, best0: int, ghost p0: int, ghost q0: int)
    returns (best: int, ghost p: int, ghost q: int)
    requires i < |pts| && Decides(acc, hs, vs)
    requires BoundsRows(pts, acc, best0, i) && Attained(pts, acc, best0, p0, q0)
    ensures best >= best0
    ensures BoundsRows(pts, acc, best, i + 1) && Attained(pts, acc, best, p, q)
  {
    best, p, q := best0, p0, q0;
    var j := i + 1;
    RowStart(pts, acc, best, i, j);
    while j < |pts|
      invariant i + 1 <= j <= |pts|
      invariant best >= best0
      invariant BoundsScanned(pts, acc, best, i, j) && Attained(pts, acc, best, p, q)
    {
      var before := best;
      best, p, q := Consider(pts, hs, vs, acc, i, j, best, p, q);
      var j0 := j;
      j := j + 1;
      BoundsNext(pts, acc, before, best, i, j0, j);
    }
    RowEnd(pts, acc, best, i, i + 1);
  }

  /** At the end of the scan, the bound and the witness make the largest accepted area. */
  lemma {:induction false} ScanDone(pts: seq<Point>, hs: seq<Line>, vs: seq<Line>, acc: (Point, Point) -> bool,
                                    v: int, p: int, q: int)
    requires Decides(acc, hs, vs)
    requires BoundsRows(pts, acc, v, |pts|) && Attained(pts, acc, v, p, q)
    ensures LargestAccepted(pts, hs, vs, v)
  {
    forall p', q' | 0 <= p' < q' < |pts| && Accepted(hs, vs, pts[p'], pts[q'])
      ensures Area(pts[p'], pts[q']) <= v
    {
      assert acc(pts[p'], pts[q']);
    }
    if v != 0 {
      assert Accepted(hs, vs, pts[p], pts[q]);
    }
  }

  /** Gold: the largest rectangle that passes the test; None when a line does not parse or there are no points. */
  method SolveGold(input: seq<string>) returns (r: Option<int>)
    ensures r.None? <==> ParseAll(input).None? || ParseAll(input) == Some([])
    ensures r.Some? ==> var pts := ParseAll(input).value;
                        LargestAccepted(pts, HLines(pts), VLines(pts), r.value)
  {
    var parsed := ParsePoints(input);
    if parsed.None? || |parsed.value| == 0 {
      return None;
    }
    var pts := parsed.value;
    var n := |pts|;
    var lines := BuildLines(pts);
    var hs, vs := SplitLines(lines);
    ghost var acc := (a, b) => Accepted(hs, vs, a, b);
    var best := 0;
    ghost var p, q := 0, 0;
    for i := 0 to n
      invariant BoundsRows(pts, acc, best, i) && Attained(pts, acc, best, p, q)
    {
      best, p, q := ScanRow(pts, hs, vs, acc, i, best, p, q);
    }
    ScanDone(pts, hs, vs, acc, best, p, q);
    return Some(best);
  }
}
