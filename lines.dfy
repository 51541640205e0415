// Day 09 helper: an axis-aligned line segment stored in normalised form
// (a start point plus the offset to the end point).

module Lines {

  /** A segment from (x, y) to (x + dx, y + dy). */
  datatype Line = Line(x: int, y: int, dx: int, dy: int)

  /** Lexicographic order on points: by x, then by y. */
  predicate LexLe(x1: int, y1: int, x2: int, y2: int) {
    x1 < x2 || (x1 == x2 && y1 <= y2)
  }

  /** The two endpoints of a segment. */
  function Ends(l: Line): set<(int, int)> {
    {(l.x, l.y), (l.x + l.dx, l.y + l.dy)}
  }

  /**
   * The segment between (x1, y1) and (x2, y2), started at the endpoint that
   * comes first lexicographically, whatever order the endpoints are given in.
   */
  function MakeLine(x1: int, y1: int, x2: int, y2: int): (r: Line)
    ensures Ends(r) == {(x1, y1), (x2, y2)}
    ensures LexLe(r.x, r.y, r.x + r.dx, r.y + r.dy)
    ensures r.dx >= 0 && (r.dx == 0 ==> r.dy >= 0)
  {
    if LexLe(x1, y1, x2, y2) then Line(x1, y1, x2 - x1, y2 - y1)
    else Line(x2, y2, x1 - x2, y1 - y2)
  }

  /** The same segment whichever endpoint is given first. */
  lemma {:induction false} MakeLineSymmetric(x1: int, y1: int, x2: int, y2: int)
    ensures MakeLine(x1, y1, x2, y2) == MakeLine(x2, y2, x1, y1)
  {
    if x1 == x2 && y1 == y2 {
    } else if LexLe(x1, y1, x2, y2) {
      assert !LexLe(x2, y2, x1, y1);
    } else {
      assert LexLe(x2, y2, x1, y1);
    }
  }

  /**
   * Whether (px, py) lies on the segment; only vertical (dx == 0) and
   * horizontal (dy == 0) segments have points, a slanted one has none.
   */
  function IsPointOn(l: Line, px: int, py: int): bool {
    if l.dx == 0 then px == l.x && l.y <= py <= l.y + l.dy
    else if l.dy == 0 then py == l.y && l.x <= px <= l.x + l.dx
    else false
  }

  predicate Between(v: int, a: int, b: int) {
    (a <= v <= b) || (b <= v <= a)
  }

  /**
   * For an axis-aligned segment built from two endpoints, a point is on it
   * exactly when it lies between the endpoints on both axes; a slanted
   * segment contains no point.
   */
  lemma {:induction false} PointOnSegment(x1: int, y1: int, x2: int, y2: int, px: int, py: int)
    ensures x1 == x2 || y1 == y2 ==>
              (IsPointOn(MakeLine(x1, y1, x2, y2), px, py) <==> Between(px, x1, x2) && Between(py, y1, y2))
    ensures x1 != x2 && y1 != y2 ==> !IsPointOn(MakeLine(x1, y1, x2, y2), px, py)
  {
    var l := MakeLine(x1, y1, x2, y2);
    if LexLe(x1, y1, x2, y2) {
      assert l == Line(x1, y1, x2 - x1, y2 - y1);
    } else {
      assert l == Line(x2, y2, x1 - x2, y1 - y2);
    }
  }

  /** Both endpoints of an axis-aligned segment lie on it. */
  lemma {:induction false} EndsOn(l: Line)
    requires l.dx == 0 || l.dy == 0
    requires l.dx >= 0 && l.dy >= 0
    ensures forall p :: p in Ends(l) ==> IsPointOn(l, p.0, p.1)
  {
    forall p | p in Ends(l) ensures IsPointOn(l, p.0, p.1) {
      assert p == (l.x, l.y) || p == (l.x + l.dx, l.y + l.dy);
    }
  }
}
