/**
 * Orientations of a tree-farm shape (day 12): the four quarter-turns of a
 * shape and their mirror images, each trimmed and listed as a row-major
 * coordinate list, with duplicates dropped.
 */
module TreeFarmOrientations {
  import opened TreeFarmShapes

  /** The filled cells of a trimmed shape, as (x, y) pairs in row-major order. */
  type Orientation = seq<Cell>

  predicate RowMajorBefore(a: Cell, b: Cell) {
    a.y < b.y || (a.y == b.y && a.x < b.x)
  }

  predicate StrictlyRowMajor(o: Orientation) {
    forall i, j :: 0 <= i < j < |o| ==> RowMajorBefore(o[i], o[j])
  }

  ghost function Elements(o: Orientation): set<Cell> {
    set c | c in o
  }

  // ---------------------------------------------------------------------------
  // The coordinate list of a trimmed shape
  // ---------------------------------------------------------------------------

  /** The coordinate list after visiting, row by row, every cell before (x, y). */
  function CoordsUpTo(t: Shape, y: nat, x: nat): Orientation
    requires IsRect(t) && ((y < |t| && x <= |t[0]|) || (y == |t| && x == 0))
    decreases y, x
  {
    if x > 0 then CoordsUpTo(t, y, x - 1) + (if t[y][x - 1] then [Cell(x - 1, y)] else [])
    else if y > 0 then CoordsUpTo(t, y - 1, |t[0]|)
    else []
  }

  function Coords(t: Shape): Orientation
    requires IsRect(t)
  {
    CoordsUpTo(t, |t|, 0)
  }

  /** The list holds exactly the visited filled cells, in strictly increasing row-major order. */
  lemma {:induction false} CoordsUpToFacts(t: Shape, y: nat, x: nat)
    requires IsRect(t) && ((y < |t| && x <= |t[0]|) || (y == |t| && x == 0))
    ensures Elements(CoordsUpTo(t, y, x)) == Before(t, y, x)
    ensures StrictlyRowMajor(CoordsUpTo(t, y, x))
    ensures forall i :: 0 <= i < |CoordsUpTo(t, y, x)| ==> RowMajorBefore(CoordsUpTo(t, y, x)[i], Cell(x, y))
    decreases y, x
  {
    var o := CoordsUpTo(t, y, x);
    if x > 0 {
      CoordsUpToFacts(t, y, x - 1);
      BeforeNext(t, y, x - 1);
      var p := CoordsUpTo(t, y, x - 1);
      assert Elements(o) == Elements(p) + (if t[y][x - 1] then {Cell(x - 1, y)} else {});
    } else if y > 0 {
      CoordsUpToFacts(t, y - 1, |t[0]|);
      BeforeNextRow(t, y - 1);
    } else {
      BeforeEnds(t);
    }
  }

  /** A strictly ordered list has no repeats, so its length is its number of elements. */
  lemma {:induction false} StrictSize(o: Orientation)
    requires StrictlyRowMajor(o)
    ensures |Elements(o)| == |o|
  {
    if |o| > 0 {
      var p := o[..|o| - 1];
      StrictSize(p);
      assert Elements(o) == Elements(p) + {o[|o| - 1]};
      forall i | 0 <= i < |p| ensures p[i] != o[|o| - 1] {
        assert RowMajorBefore(o[i], o[|o| - 1]);
      }
    }
  }

  /** The coordinate list of a shape: its filled cells, each once, in row-major order. */
  lemma CoordsFacts(t: Shape)
    requires IsRect(t)
    ensures Elements(Coords(t)) == Cells(t)
    ensures StrictlyRowMajor(Coords(t))
    ensures |Coords(t)| == |Cells(t)|
  {
    CoordsUpToFacts(t, |t|, 0);
    BeforeEnds(t);
    StrictSize(Coords(t));
  }

  /**
   * The coordinate-collecting loop of generateOrientations. The source then
   * sorts the list by y * 1000 + x, which leaves a row-major list as it is.
   */
  method CollectCoords(t: Shape) returns (coords: Orientation)
    requires IsRect(t)
    ensures coords == Coords(t)
  {
    coords := [];
    for y := 0 to |t|
      invariant coords == CoordsUpTo(t, y, 0)
    {
      for x := 0 to |t[0]|
        invariant coords == CoordsUpTo(t, y, x)
      {
        if t[y][x] {
          coords := coords + [Cell(x, y)];
        }
      }
    }
  }

  // ---------------------------------------------------------------------------
  // Candidates and generateOrientations
  // ---------------------------------------------------------------------------

  /** The shape turned n quarter-turns. */
  function Rotations(s: Shape, n: nat): (r: Shape)
    requires IsRect(s) && |s[0]| > 0
    ensures IsRect(r) && |r[0]| > 0
  {
    if n == 0 then s else Rotated(Rotations(s, n - 1))
  }

  /**
   * The k-th key generateOrientations computes (k < 8): turn k / 2 + 1
   * times, mirror when k is odd, trim, list the cells.
   */
  function Candidate(s: Shape, k: nat): Orientation
    requires IsRect(s) && |s[0]| > 0 && k < 8
  {
    Coords(Trimmed(CandidateShape(s, k)))
  }

  function CandidateShape(s: Shape, k: nat): (f: Shape)
    requires IsRect(s) && |s[0]| > 0 && k < 8
    ensures IsRect(f) && |f[0]| > 0
  {
    var r := Rotations(s, k / 2 + 1);
    if k % 2 == 0 then r else Flipped(r)
  }

  function Candidates(s: Shape): (c: seq<Orientation>)
    requires IsRect(s) && |s[0]| > 0
    ensures |c| == 8
  {
    seq(8, k requires 0 <= k < 8 => Candidate(s, k))
  }

  lemma {:induction false} RotationsArea(s: Shape, n: nat)
    requires IsRect(s) && |s[0]| > 0
    ensures |Cells(Rotations(s, n))| == |Cells(s)|
  {
    if n > 0 {
      RotationsArea(s, n - 1);
      RotatedCells(Rotations(s, n - 1));
    }
  }

  /**
   * Every candidate lists, once each and in row-major order, as many cells as
   * the shape has, all at non-negative coordinates; a shape with a filled
   * cell gives candidates that touch row 0 and column 0.
   */
  lemma CandidateFacts(s: Shape, k: nat)
    requires IsRect(s) && |s[0]| > 0 && k < 8
    ensures StrictlyRowMajor(Candidate(s, k))
    ensures |Candidate(s, k)| == |Cells(s)|
    ensures forall c :: c in Candidate(s, k) ==> c.x >= 0 && c.y >= 0
    ensures Cells(s) != {} ==> Anchored(Elements(Candidate(s, k)))
  {
    var r := Rotations(s, k / 2 + 1);
    var f := CandidateShape(s, k);
    RotationsArea(s, k / 2 + 1);
    FlippedCells(r);
    assert |Cells(f)| == |Cells(s)|;
    TrimmedShape(f);
    CoordsFacts(Trimmed(f));
    var t := Trimmed(f);
    forall c | c in Candidate(s, k) ensures c.x >= 0 && c.y >= 0 {
      assert c in Elements(Coords(t));
    }
    if Cells(s) != {} {
      assert |Cells(f)| > 0;
      assert Cells(f) != {};
    }
  }

  /** Two quarter-turns turn the shape upside down and mirror it. */
  lemma HalfTurn(s: Shape)
    requires IsRect(s) && |s[0]| > 0
    ensures var r := Rotated(Rotated(s));
      IsRect(r) && |r| == |s| && |r[0]| == |s[0]| &&
      forall i, j :: 0 <= i < |s| && 0 <= j < |s[0]| ==> r[i][j] == s[|s| - 1 - i][|s[0]| - 1 - j]
  {
    var h, w := |s|, |s[0]|;
    var r1 := Rotated(s);
    var r2 := Rotated(r1);
    assert forall i, j :: 0 <= i < w && 0 <= j < h ==> r1[i][j] == s[h - 1 - j][i];
    assert forall i, j :: 0 <= i < h && 0 <= j < w ==> r2[i][j] == r1[w - 1 - j][i];
  }

  /** Four quarter-turns give the shape back. */
  lemma FourTurns(s: Shape)
    requires IsRect(s) && |s[0]| > 0
    ensures Rotations(s, 4) == s
  {
    FourRotations(s);
    TwoHalfTurns(s);
  }

  lemma FourRotations(s: Shape)
    requires IsRect(s) && |s[0]| > 0
    ensures Rotations(s, 4) == Rotated(Rotated(Rotated(Rotated(s))))
  {
    assert Rotations(s, 1) == Rotated(s);
    assert Rotations(s, 2) == Rotated(Rotated(s));
    assert Rotations(s, 3) == Rotated(Rotated(Rotated(s)));
  }

  lemma TwoHalfTurns(s: Shape)
    requires IsRect(s) && |s[0]| > 0
    ensures Rotated(Rotated(Rotated(Rotated(s)))) == s
  {
    var r2 := Rotated(Rotated(s));
    var r4 := Rotated(Rotated(r2));
    HalfTurn(s);
    HalfTurn(r2);
    forall i | 0 <= i < |s|
      ensures r4[i] == s[i]
    {
      assert forall j :: 0 <= j < |s[0]| ==> r4[i][j] == s[i][j];
    }
  }

  /** A tight shape's bounding box is the whole grid. */
  lemma TightBounds(t: Shape)
    requires IsTight(t)
    ensures Bounds(t) == Box(0, 0, |t[0]| - 1, |t| - 1)
  {
    var b := Bounds(t);
    var x0 :| 0 <= x0 < |t[0]| && t[0][x0];
    ScanEmpty(t, |t|, 0);
    BeforeEnds(t);
    CellsFilled(t, Cell(x0, 0));
    assert b.maxX >= 0;
    var x1 :| 0 <= x1 < |t[0]| && t[|t| - 1][x1];
    var y0 :| 0 <= y0 < |t| && t[y0][0];
    var y1 :| 0 <= y1 < |t| && t[y1][|t[0]| - 1];
    CellsFilled(t, Cell(x1, |t| - 1));
    CellsFilled(t, Cell(0, y0));
    CellsFilled(t, Cell(|t[0]| - 1, y1));
    BoundsCover(t, Cell(x0, 0));
    BoundsCover(t, Cell(x1, |t| - 1));
    BoundsCover(t, Cell(0, y0));
    BoundsCover(t, Cell(|t[0]| - 1, y1));
  }

  /** Trimming a shape that is already tight changes nothing. */
  lemma TightTrimmed(t: Shape)
    requires IsTight(t)
    ensures Trimmed(t) == t
  {
    TightBounds(t);
    var tt := Trimmed(t);
    assert forall y :: 0 <= y < |t| ==> tt[y] == t[y][0..|t[0]|] == t[y];
  }

  lemma CandidateShapeSix(s: Shape)
    requires IsRect(s) && |s[0]| > 0
    ensures CandidateShape(s, 6) == s
  {
    FourTurns(s);
    var k := 6;
    assert k / 2 + 1 == 4 && k % 2 == 0;
  }

  /** A trimmed shape's own cell list is always among the candidates (four turns, no mirror). */
  lemma OwnOrientationIsCandidate(s: Shape)
    requires IsTight(s)
    ensures Coords(s) in Candidates(s)
  {
    FourTurns(s);
    TightTrimmed(s);
    CandidateShapeSix(s);
    assert Candidates(s)[6] == Candidate(s, 6);
  }

  predicate Distinct(out: seq<Orientation>) {
    forall i, j :: 0 <= i < j < |out| ==> out[i] != out[j]
  }

  lemma {:induction false} DistinctSize(out: seq<Orientation>, from: seq<Orientation>)
    requires Distinct(out)
    requires forall o :: o in out ==> o in from
    ensures |out| <= |from|
  {
    var e := set o | o in out;
    var f := set o | o in from;
    DistinctElements(out);
    SeqElementsBound(from);
    SubsetSize(e, f);
  }

  lemma {:induction false} SubsetSize<T>(a: set<T>, b: set<T>)
    requires a <= b
    ensures |a| <= |b|
    decreases |b|
  {
    if a != {} {
      var x :| x in a;
      SubsetSize(a - {x}, b - {x});
    }
  }

  lemma {:induction false} DistinctElements(out: seq<Orientation>)
    requires Distinct(out)
    ensures |set o | o in out| == |out|
  {
    if |out| > 0 {
      var p := out[..|out| - 1];
      DistinctElements(p);
      assert (set o | o in out) == (set o | o in p) + {out[|out| - 1]};
    }
  }

  lemma {:induction false} SeqElementsBound(from: seq<Orientation>)
    ensures |set o | o in from| <= |from|
  {
    if |from| > 0 {
      var p := from[..|from| - 1];
      SeqElementsBound(p);
      assert (set o | o in from) == (set o | o in p) + {from[|from| - 1]};
    }
  }

  /** Turn rot + 1 of the shape, mirrored when flip is 1, yields candidate 2 * rot + flip. */
  lemma CandidateStep(s: Shape, rot: nat, flip: nat, r: Shape, f: Shape)
    requires IsRect(s) && |s[0]| > 0 && rot < 4 && flip < 2
    requires r == Rotations(s, rot + 1)
    requires f == if flip == 0 then r else Flipped(r)
    ensures IsRect(f) && Coords(Trimmed(f)) == Candidates(s)[2 * rot + flip]
  {
    var k := 2 * rot + flip;
    assert k / 2 == rot && k % 2 == flip;
    assert f == CandidateShape(s, k);
  }

  /** A repeat-free list holding exactly the members of eight candidates has one to eight entries. */
  lemma DedupedCandidates(out: seq<Orientation>, cands: seq<Orientation>)
    requires |cands| == 8 && Distinct(out)
    requires forall o :: o in out <==> o in cands[..8]
    requires out == FirstOccurrences(cands[..8])
    ensures forall o :: o in out <==> o in cands
    ensures 1 <= |out| <= 8
    ensures out == FirstOccurrences(cands)
  {
    assert cands[..8] == cands;
    assert cands[0] in out;
    DistinctSize(out, cands);
  }

  lemma PrefixGrows(cands: seq<Orientation>, k: nat)
    requires k < |cands|
    ensures forall o :: o in cands[..k + 1] <==> o in cands[..k] || o == cands[k]
  {
    assert cands[..k + 1] == cands[..k] + [cands[k]];
  }

  /** The candidates with every repeat dropped, each kept where it first appears. */
  function FirstOccurrences(cands: seq<Orientation>): seq<Orientation> {
    if |cands| == 0 then []
    else
      var d := FirstOccurrences(cands[..|cands| - 1]);
      if cands[|cands| - 1] in d then d else d + [cands[|cands| - 1]]
  }

  lemma FirstOccurrencesStep(cands: seq<Orientation>, k: nat)
    requires k < |cands|
    ensures var d := FirstOccurrences(cands[..k]);
            FirstOccurrences(cands[..k + 1]) == if cands[k] in d then d else d + [cands[k]]
  {
    assert cands[..k + 1][..k] == cands[..k];
  }

  /** Appends key to out unless seen already holds it. */
  method Remember(seen: set<Orientation>, out: seq<Orientation>, key: Orientation)
    returns (seen': set<Orientation>, out': seq<Orientation>)
    requires forall o :: o in seen <==> o in out
    requires Distinct(out)
    ensures forall o :: o in seen' <==> o in out'
    ensures Distinct(out')
    ensures forall o :: o in out' <==> o in out || o == key
    ensures out' == if key in out then out else out + [key]
  {
    seen', out' := seen, out;
    if key !in seen {
      seen' := seen + {key};
      out' := out + [key];
    }
  }

  /**
   * The distinct orientations of a shape (rotations and mirror images), each
   * listed the first time it appears among the eight candidates.
   */
  method GenerateOrientations(s: Shape) returns (out: seq<Orientation>)
    requires IsRect(s) && |s[0]| > 0
    ensures forall o :: o in out <==> o in Candidates(s)
    ensures Distinct(out)
    ensures 1 <= |out| <= 8
    ensures out == FirstOccurrences(Candidates(s))
  {
    var seen: set<Orientation> := {};
    out := [];
    var cur := s;
    ListedStart(s);
    for rot := 0 to 4
      invariant cur == Rotations(s, rot)
      invariant Listed(s, 2 * rot, seen, out)
    {
      cur, seen, out := Turn(s, rot, cur, seen, out);
    }
    DedupedCandidates(out, Candidates(s));
  }

  /**
   * The state of generateOrientations after the first k candidates: out
   * lists them without repeats, in first-seen order, and seen holds what out
   * lists.
   */
  ghost predicate Listed(s: Shape, k: nat, seen: set<Orientation>, out: seq<Orientation>)
    requires IsRect(s) && |s[0]| > 0 && k <= 8
  {
    && (forall o :: o in seen <==> o in out)
    && Distinct(out)
    && (forall o :: o in out <==> o in Candidates(s)[..k])
    && out == FirstOccurrences(Candidates(s)[..k])
  }

  lemma ListedStart(s: Shape)
    requires IsRect(s) && |s[0]| > 0
    ensures Listed(s, 0, {}, [])
  {
    assert Candidates(s)[..0] == [];
  }

  /** One pass of the outer loop of generateOrientations: rotate, then add the plain and mirrored keys. */
  method Turn(ghost s: Shape, ghost rot: nat, cur: Shape, seen: set<Orientation>, out: seq<Orientation>)
    returns (cur': Shape, seen': set<Orientation>, out': seq<Orientation>)
    requires IsRect(s) && |s[0]| > 0 && rot < 4
    requires cur == Rotations(s, rot) && Listed(s, 2 * rot, seen, out)
    ensures cur' == Rotations(s, rot + 1) && Listed(s, 2 * (rot + 1), seen', out')
  {
    cur' := Rotate(cur);
    seen', out' := AddTurnKeys(s, rot, cur', seen, out);
  }

  /** One key of generateOrientations: mirror when flip is 1, trim, list the cells. */
  method TurnKey(ghost s: Shape, ghost rot: nat, flip: nat, r: Shape) returns (key: Orientation)
    requires IsRect(s) && |s[0]| > 0 && rot < 4 && flip < 2
    requires r == Rotated(Rotations(s, rot))
    ensures key == Candidates(s)[2 * rot + flip]
  {
    var f := r;
    if flip != 0 {
      f := FlipHorizontal(r);
    }
    var t := TrimShape(f);
    key := CollectCoords(t);
    CandidateStep(s, rot, flip, r, f);
  }

  /** The inner loop of generateOrientations: the keys of turn rot + 1, plain and mirrored. */
  method AddTurnKeys(ghost s: Shape, ghost rot: nat, r: Shape, seen: set<Orientation>, out: seq<Orientation>)
    returns (seen': set<Orientation>, out': seq<Orientation>)
    requires IsRect(s) && |s[0]| > 0 && rot < 4
    requires r == Rotated(Rotations(s, rot))
    requires forall o :: o in seen <==> o in out
    requires Distinct(out)
    requires forall o :: o in out <==> o in Candidates(s)[..2 * rot]
    requires out == FirstOccurrences(Candidates(s)[..2 * rot])
    ensures forall o :: o in seen' <==> o in out'
    ensures Distinct(out')
    ensures forall o :: o in out' <==> o in Candidates(s)[..2 * rot + 2]
    ensures out' == FirstOccurrences(Candidates(s)[..2 * rot + 2])
  {
    seen', out' := seen, out;
    for flip := 0 to 2
      invariant forall o :: o in seen' <==> o in out'
      invariant Distinct(out')
      invariant forall o :: o in out' <==> o in Candidates(s)[..2 * rot + flip]
      invariant out' == FirstOccurrences(Candidates(s)[..2 * rot + flip])
    {
      seen', out' := AddKey(s, rot, flip, r, seen', out');
    }
  }

  /** One pass of the inner loop: the key of turn rot + 1, mirrored when flip is 1, unless seen. */
  method AddKey(ghost s: Shape, ghost rot: nat, flip: nat, r: Shape, seen: set<Orientation>, out: seq<Orientation>)
    returns (seen': set<Orientation>, out': seq<Orientation>)
    requires IsRect(s) && |s[0]| > 0 && rot < 4 && flip < 2
    requires r == Rotated(Rotations(s, rot))
    requires forall o :: o in seen <==> o in out
    requires Distinct(out)
    requires forall o :: o in out <==> o in Candidates(s)[..2 * rot + flip]
    requires out == FirstOccurrences(Candidates(s)[..2 * rot + flip])
    ensures forall o :: o in seen' <==> o in out'
    ensures Distinct(out')
    ensures forall o :: o in out' <==> o in Candidates(s)[..2 * rot + flip + 1]
    ensures out' == FirstOccurrences(Candidates(s)[..2 * rot + flip + 1])
  {
    var key := TurnKey(s, rot, flip, r);
    PrefixGrows(Candidates(s), 2 * rot + flip);
    FirstOccurrencesStep(Candidates(s), 2 * rot + flip);
    seen', out' := Remember(seen, out, key);
  }
}
