/**
 * Shapes of the tree-farm puzzle (day 12): glyph blocks read into boolean
 * grids, trimmed to their bounding box, rotated and mirrored, and listed as
 * row-major coordinate lists that serve as orientation keys.
 */
module TreeFarmShapes {

  /** Rows of a shape; true where the glyph is '#'. */
  type Shape = seq<seq<bool>>

  datatype Cell = Cell(x: int, y: int)

  datatype Box = Box(minX: int, minY: int, maxX: int, maxY: int)

  predicate IsRect(s: Shape) {
    |s| > 0 && forall y :: 0 <= y < |s| ==> |s[y]| == |s[0]|
  }

  /** The filled cells of a shape, as (x, y) pairs. */
  ghost function Cells(s: Shape): set<Cell>
    requires IsRect(s)
  {
    set y, x | 0 <= y < |s| && 0 <= x < |s[0]| && s[y][x] :: Cell(x, y)
  }

  /** A trimmed, non-empty shape: its first and last row and column each hold a filled cell. */
  ghost predicate IsTight(t: Shape) {
    && IsRect(t) && |t[0]| > 0
    && RowHasCell(t, 0) && RowHasCell(t, |t| - 1)
    && ColumnHasCell(t, 0) && ColumnHasCell(t, |t[0]| - 1)
  }

  ghost predicate RowHasCell(t: Shape, y: nat)
    requires IsRect(t) && y < |t|
  {
    exists x :: 0 <= x < |t[0]| && t[y][x]
  }

  ghost predicate ColumnHasCell(t: Shape, x: nat)
    requires IsRect(t) && x < |t[0]|
  {
    exists y :: 0 <= y < |t| && t[y][x]
  }

  /** A cell set whose least x and least y are both 0. */
  ghost predicate Anchored(c: set<Cell>) {
    && (forall p :: p in c ==> p.x >= 0 && p.y >= 0)
    && (exists p :: p in c && p.x == 0)
    && (exists p :: p in c && p.y == 0)
  }

  // ---------------------------------------------------------------------------
  // bufferToShape
  // ---------------------------------------------------------------------------

  /**
   * The untrimmed grid of a glyph block: as wide as its first line, shorter
   * lines read as blank, longer lines cut, and only '#' filled.
   */
  function Glyphs(buffer: seq<string>): (s: Shape)
    requires |buffer| > 0
    ensures IsRect(s) && |s| == |buffer| && |s[0]| == |buffer[0]|
  {
    seq(|buffer|, y requires 0 <= y < |buffer| =>
      seq(|buffer[0]|, x requires 0 <= x < |buffer[0]| => x < |buffer[y]| && buffer[y][x] == '#'))
  }

  lemma GlyphCells(buffer: seq<string>)
    requires |buffer| > 0
    ensures forall c: Cell :: c in Cells(Glyphs(buffer)) <==>
      0 <= c.y < |buffer| && 0 <= c.x < |buffer[0]| && c.x < |buffer[c.y]| && buffer[c.y][c.x] == '#'
  {
    var s := Glyphs(buffer);
    forall c: Cell | 0 <= c.y < |buffer| && 0 <= c.x < |buffer[0]| && c.x < |buffer[c.y]| && buffer[c.y][c.x] == '#'
      ensures c in Cells(s)
    {
      assert s[c.y][c.x];
    }
  }

  method BufferToShape(buffer: seq<string>) returns (t: Shape)
    requires |buffer| > 0
    ensures t == Trimmed(Glyphs(buffer))
  {
    var h, w := |buffer|, |buffer[0]|;
    var s: Shape := [];
    for y := 0 to h
      invariant |s| == y
      invariant forall yy :: 0 <= yy < y ==> s[yy] == Glyphs(buffer)[yy]
    {
      var row := buffer[y];
      var r: seq<bool> := [];
      for x := 0 to w
        invariant |r| == x
        invariant forall xx :: 0 <= xx < x ==> r[xx] == (xx < |row| && row[xx] == '#')
      {
        var c := if x < |row| then row[x] else '.';
        r := r + [c == '#'];
      }
      assert r == Glyphs(buffer)[y];
      s := s + [r];
    }
    assert s == Glyphs(buffer);
    t := TrimShape(s);
  }

  // ---------------------------------------------------------------------------
  // trimShape
  // ---------------------------------------------------------------------------

  function Min(a: int, b: int): int { if a < b then a else b }
  function Max(a: int, b: int): int { if a > b then a else b }

  /** The filled cells that come before (x, y) in row-major order. */
  ghost function Before(s: Shape, y: int, x: int): set<Cell>
    requires IsRect(s)
  {
    set yy, xx | 0 <= yy < |s| && 0 <= xx < |s[0]| && (yy < y || (yy == y && xx < x)) && s[yy][xx] :: Cell(xx, yy)
  }

  /**
   * The bounding-box accumulators of trimShape after visiting, in row-major
   * order, every cell before (x, y); they start at (W, H, -1, -1).
   */
  function Scan(s: Shape, y: nat, x: nat): (b: Box)
    requires IsRect(s) && ((y < |s| && x <= |s[0]|) || (y == |s| && x == 0))
    ensures b.maxX < 0 <==> b.maxY < 0
    ensures b.maxX < 0 ==> b == Box(|s[0]|, |s|, -1, -1)
    ensures b.maxX >= 0 ==> 0 <= b.minX <= b.maxX < |s[0]| && 0 <= b.minY <= b.maxY < |s|
    decreases y, x
  {
    if x > 0 then
      var b := Scan(s, y, x - 1);
      if s[y][x - 1] then Box(Min(b.minX, x - 1), Min(b.minY, y), Max(b.maxX, x - 1), Max(b.maxY, y)) else b
    else if y > 0 then Scan(s, y - 1, |s[0]|)
    else Box(|s[0]|, |s|, -1, -1)
  }

  /** The bounding box of a whole shape. */
  function Bounds(s: Shape): Box
    requires IsRect(s)
  {
    Scan(s, |s|, 0)
  }

  /** Visiting (x, y) adds that cell when it is filled. */
  lemma BeforeNext(s: Shape, y: nat, x: nat)
    requires IsRect(s) && y < |s| && x < |s[0]|
    ensures Before(s, y, x + 1) == Before(s, y, x) + (if s[y][x] then {Cell(x, y)} else {})
  {
    var a, b := Before(s, y, x + 1), Before(s, y, x) + (if s[y][x] then {Cell(x, y)} else {});
    forall c | c in a ensures c in b {
      if c != Cell(x, y) {
        assert c in Before(s, y, x);
      }
    }
    forall c | c in b ensures c in a {
      if c == Cell(x, y) {
        assert s[c.y][c.x];
      } else {
        assert c in Before(s, y, x);
      }
    }
  }

  lemma BeforeNextRow(s: Shape, y: nat)
    requires IsRect(s) && y < |s|
    ensures Before(s, y + 1, 0) == Before(s, y, |s[0]|)
  {
    var a, b := Before(s, y + 1, 0), Before(s, y, |s[0]|);
    forall c | c in a ensures c in b { }
    forall c | c in b ensures c in a { }
  }

  lemma BeforeEnds(s: Shape)
    requires IsRect(s)
    ensures Before(s, 0, 0) == {}
    ensures Before(s, |s|, 0) == Cells(s)
  {
    var a, b := Before(s, |s|, 0), Cells(s);
    forall c | c in a ensures c in b { }
    forall c | c in b ensures c in a { }
  }

  /** The scan's box is empty exactly while no filled cell has been visited. */
  lemma {:induction false} ScanEmpty(s: Shape, y: nat, x: nat)
    requires IsRect(s) && ((y < |s| && x <= |s[0]|) || (y == |s| && x == 0))
    ensures Scan(s, y, x).maxX < 0 <==> Before(s, y, x) == {}
    decreases y, x
  {
    if x > 0 {
      ScanEmpty(s, y, x - 1);
      BeforeNext(s, y, x - 1);
    } else if y > 0 {
      ScanEmpty(s, y - 1, |s[0]|);
      BeforeNextRow(s, y - 1);
    } else {
      BeforeEnds(s);
    }
  }

  /** Every visited filled cell lies inside the scan's box. */
  lemma {:induction false} ScanCovers(s: Shape, y: nat, x: nat, c: Cell)
    requires IsRect(s) && ((y < |s| && x <= |s[0]|) || (y == |s| && x == 0))
    requires c in Before(s, y, x)
    ensures Scan(s, y, x).minX <= c.x <= Scan(s, y, x).maxX && Scan(s, y, x).minY <= c.y <= Scan(s, y, x).maxY
    decreases y, x
  {
    if x > 0 {
      BeforeNext(s, y, x - 1);
      if c != Cell(x - 1, y) {
        ScanCovers(s, y, x - 1, c);
      }
    } else if y > 0 {
      BeforeNextRow(s, y - 1);
      ScanCovers(s, y - 1, |s[0]|, c);
    } else {
      BeforeEnds(s);
      assert false;
    }
  }

  /** Each side of a non-empty scan box touches a visited filled cell. */
  lemma {:induction false} ScanTouches(s: Shape, y: nat, x: nat) returns (left: Cell, right: Cell, top: Cell, bottom: Cell)
    requires IsRect(s) && ((y < |s| && x <= |s[0]|) || (y == |s| && x == 0))
    requires Scan(s, y, x).maxX >= 0
    ensures left in Before(s, y, x) && left.x == Scan(s, y, x).minX
    ensures right in Before(s, y, x) && right.x == Scan(s, y, x).maxX
    ensures top in Before(s, y, x) && top.y == Scan(s, y, x).minY
    ensures bottom in Before(s, y, x) && bottom.y == Scan(s, y, x).maxY
    decreases y, x
  {
    if x > 0 {
      BeforeNext(s, y, x - 1);
      var b0 := Scan(s, y, x - 1);
      var here := Cell(x - 1, y);
      if !s[y][x - 1] {
        left, right, top, bottom := ScanTouches(s, y, x - 1);
      } else if b0.maxX < 0 {
        assert here in Before(s, y, x);
        left, right, top, bottom := here, here, here, here;
      } else {
        left, right, top, bottom := ScanTouches(s, y, x - 1);
        assert here in Before(s, y, x);
        if !(b0.minX < x - 1) { left := here; }
        if !(b0.maxX > x - 1) { right := here; }
        if !(b0.minY < y) { top := here; }
        if !(b0.maxY > y) { bottom := here; }
      }
    } else if y > 0 {
      BeforeNextRow(s, y - 1);
      left, right, top, bottom := ScanTouches(s, y - 1, |s[0]|);
    } else {
      assert false;
    }
  }

  /**
   * trimShape's result: the rows and columns of the bounding box, or a single
   * empty row when nothing is filled.
   */
  function Trimmed(s: Shape): (t: Shape)
    requires IsRect(s)
    ensures IsRect(t)
  {
    var b := Bounds(s);
    if b.maxX < 0 then [[]]
    else seq(b.maxY - b.minY + 1, y requires 0 <= y < b.maxY - b.minY + 1 => s[b.minY + y][b.minX..b.maxX + 1])
  }

  /** Moves every cell by (-dx, -dy). */
  ghost function Shift(c: set<Cell>, dx: int, dy: int): set<Cell>
  {
    set p | p in c :: Cell(p.x - dx, p.y - dy)
  }

  lemma ShiftMember(c: set<Cell>, dx: int, dy: int, p: Cell)
    requires p in c
    ensures Cell(p.x - dx, p.y - dy) in Shift(c, dx, dy)
  {
  }

  lemma ShiftSize(c: set<Cell>, dx: int, dy: int)
    ensures |Shift(c, dx, dy)| == |c|
  {
    ImageSize(c, (p: Cell) => Cell(p.x - dx, p.y - dy));
    assert Shift(c, dx, dy) == Image(c, (p: Cell) => Cell(p.x - dx, p.y - dy));
  }

  /**
   * Trimming keeps the filled cells, moved so that the bounding box starts at
   * (0, 0), and leaves a tight box; a blank shape becomes one empty row.
   */
  lemma TrimmedShape(s: Shape)
    requires IsRect(s)
    ensures Cells(s) == {} <==> Trimmed(s) == [[]]
    ensures Cells(s) != {} ==> IsTight(Trimmed(s))
    ensures Cells(s) != {} ==> Cells(Trimmed(s)) == Shift(Cells(s), Bounds(s).minX, Bounds(s).minY)
    ensures |Cells(Trimmed(s))| == |Cells(s)|
    ensures Cells(s) != {} ==> Anchored(Cells(Trimmed(s)))
  {
    ScanEmpty(s, |s|, 0);
    BeforeEnds(s);
    var b := Bounds(s);
    if b.maxX < 0 {
      assert Cells(Trimmed(s)) == {};
    } else {
      TrimmedCells(s);
      ShiftSize(Cells(s), b.minX, b.minY);
      TrimmedTight(s);
      TightAnchored(Trimmed(s));
    }
  }

  predicate Filled(s: Shape, c: Cell)
    requires IsRect(s)
  {
    0 <= c.y < |s| && 0 <= c.x < |s[0]| && s[c.y][c.x]
  }

  lemma CellsFilled(s: Shape, c: Cell)
    requires IsRect(s)
    ensures c in Cells(s) <==> Filled(s, c)
  {
    if Filled(s, c) {
      assert Cell(c.x, c.y) in Cells(s);
    }
  }

  /** Cell (x, y) of the trimmed shape is cell (minX + x, minY + y) of the original. */
  lemma TrimmedAt(s: Shape, c: Cell)
    requires IsRect(s) && Bounds(s).maxX >= 0
    ensures |Trimmed(s)| == Bounds(s).maxY - Bounds(s).minY + 1
    ensures |Trimmed(s)[0]| == Bounds(s).maxX - Bounds(s).minX + 1
    ensures Filled(Trimmed(s), c) <==>
      0 <= c.x <= Bounds(s).maxX - Bounds(s).minX && 0 <= c.y <= Bounds(s).maxY - Bounds(s).minY &&
      Filled(s, Cell(Bounds(s).minX + c.x, Bounds(s).minY + c.y))
  {
    var b := Bounds(s);
    var t := Trimmed(s);
    assert t[0] == s[b.minY][b.minX..b.maxX + 1];
    if 0 <= c.y < |t| {
      assert t[c.y] == s[b.minY + c.y][b.minX..b.maxX + 1];
    }
  }

  lemma TrimmedCells(s: Shape)
    requires IsRect(s) && Bounds(s).maxX >= 0
    ensures Cells(Trimmed(s)) == Shift(Cells(s), Bounds(s).minX, Bounds(s).minY)
  {
    var b := Bounds(s);
    forall c | c in Cells(Trimmed(s)) ensures c in Shift(Cells(s), b.minX, b.minY) {
      TrimmedCellBack(s, c);
    }
    forall c | c in Shift(Cells(s), b.minX, b.minY) ensures c in Cells(Trimmed(s)) {
      TrimmedCellForth(s, c);
    }
  }

  lemma TrimmedCellBack(s: Shape, c: Cell)
    requires IsRect(s) && Bounds(s).maxX >= 0 && c in Cells(Trimmed(s))
    ensures c in Shift(Cells(s), Bounds(s).minX, Bounds(s).minY)
  {
    var b := Bounds(s);
    TrimmedAt(s, c);
    CellsFilled(Trimmed(s), c);
    var p := Cell(b.minX + c.x, b.minY + c.y);
    CellsFilled(s, p);
    ShiftMember(Cells(s), b.minX, b.minY, p);
    assert c == Cell(p.x - b.minX, p.y - b.minY);
  }

  /** Every filled cell lies inside the bounding box. */
  lemma BoundsCover(s: Shape, p: Cell)
    requires IsRect(s) && p in Cells(s)
    ensures Bounds(s).minX <= p.x <= Bounds(s).maxX && Bounds(s).minY <= p.y <= Bounds(s).maxY
  {
    BeforeEnds(s);
    ScanCovers(s, |s|, 0, p);
  }

  lemma TrimmedCellForth(s: Shape, c: Cell)
    requires IsRect(s) && Bounds(s).maxX >= 0 && c in Shift(Cells(s), Bounds(s).minX, Bounds(s).minY)
    ensures c in Cells(Trimmed(s))
  {
    var b := Bounds(s);
    var p :| p in Cells(s) && c == Cell(p.x - b.minX, p.y - b.minY);
    BoundsCover(s, p);
    TrimmedAt(s, c);
    CellsFilled(s, p);
    CellsFilled(Trimmed(s), c);
  }

  /** Filled cells on each side of the bounding box. */
  lemma BoundsWitnesses(s: Shape) returns (top: Cell, bottom: Cell, left: Cell, right: Cell)
    requires IsRect(s) && Bounds(s).maxX >= 0
    ensures Filled(s, top) && Filled(s, bottom) && Filled(s, left) && Filled(s, right)
    ensures top.y == Bounds(s).minY && Bounds(s).minX <= top.x <= Bounds(s).maxX
    ensures bottom.y == Bounds(s).maxY && Bounds(s).minX <= bottom.x <= Bounds(s).maxX
    ensures left.x == Bounds(s).minX && Bounds(s).minY <= left.y <= Bounds(s).maxY
    ensures right.x == Bounds(s).maxX && Bounds(s).minY <= right.y <= Bounds(s).maxY
  {
    left, right, top, bottom := ScanTouches(s, |s|, 0);
    BeforeEnds(s);
    BoundsCover(s, top);
    BoundsCover(s, bottom);
    BoundsCover(s, left);
    BoundsCover(s, right);
    CellsFilled(s, top);
    CellsFilled(s, bottom);
    CellsFilled(s, left);
    CellsFilled(s, right);
  }

  lemma TrimmedTight(s: Shape)
    requires IsRect(s) && Bounds(s).maxX >= 0
    ensures IsTight(Trimmed(s))
  {
    var b := Bounds(s);
    var t := Trimmed(s);
    var w, h := |t[0]|, |t|;
    var p0, p1, p2, p3 := BoundsWitnesses(s);
    TrimmedAt(s, Cell(p0.x - b.minX, 0));
    TrimmedAt(s, Cell(p1.x - b.minX, h - 1));
    TrimmedAt(s, Cell(0, p2.y - b.minY));
    TrimmedAt(s, Cell(w - 1, p3.y - b.minY));
    assert Filled(t, Cell(p0.x - b.minX, 0));
    assert Filled(t, Cell(p1.x - b.minX, h - 1));
    assert Filled(t, Cell(0, p2.y - b.minY));
    assert Filled(t, Cell(w - 1, p3.y - b.minY));
  }

  /** A tight shape's cells start at column 0 and row 0. */
  lemma TightAnchored(t: Shape)
    requires IsTight(t)
    ensures Anchored(Cells(t))
  {
    assert RowHasCell(t, 0) && ColumnHasCell(t, 0);
    var x :| 0 <= x < |t[0]| && t[0][x];
    assert Cell(x, 0) in Cells(t);
    var y :| 0 <= y < |t| && t[y][0];
    assert Cell(0, y) in Cells(t);
  }

  /** The bounding-box scan of trimShape. */
  method ScanBounds(s: Shape) returns (b: Box)
    requires IsRect(s)
    ensures b == Bounds(s)
  {
    var h, w := |s|, |s[0]|;
    var minX, minY, maxX, maxY := w, h, -1, -1;
    for y := 0 to h
      invariant Box(minX, minY, maxX, maxY) == Scan(s, y, 0)
    {
      for x := 0 to w
        invariant Box(minX, minY, maxX, maxY) == Scan(s, y, x)
      {
        if s[y][x] {
          if x < minX { minX := x; }
          if y < minY { minY := y; }
          if x > maxX { maxX := x; }
          if y > maxY { maxY := y; }
        }
      }
    }
    b := Box(minX, minY, maxX, maxY);
  }

  method TrimShape(s: Shape) returns (t: Shape)
    requires IsRect(s)
    ensures t == Trimmed(s)
  {
    var b := ScanBounds(s);
    var minX, minY, maxX, maxY := b.minX, b.minY, b.maxX, b.maxY;
    if maxX < 0 {
      return [[]];
    }
    var newW, newH := maxX - minX + 1, maxY - minY + 1;
    t := [];
    for y := 0 to newH
      invariant |t| == y
      invariant forall yy :: 0 <= yy < y ==> t[yy] == s[minY + yy][minX..maxX + 1]
    {
      t := t + [s[minY + y][minX..minX + newW]];
    }
  }

  // ---------------------------------------------------------------------------
  // shapeArea
  // ---------------------------------------------------------------------------

  method ShapeArea(s: Shape) returns (count: nat)
    requires IsRect(s)
    ensures count == |Cells(s)|
  {
    count := 0;
    BeforeEnds(s);
    for y := 0 to |s|
      invariant count == |Before(s, y, 0)|
    {
      for x := 0 to |s[0]|
        invariant count == |Before(s, y, x)|
      {
        BeforeNext(s, y, x);
        if s[y][x] {
          assert Cell(x, y) !in Before(s, y, x);
          count := count + 1;
        }
      }
      BeforeNextRow(s, y);
    }
    BeforeEnds(s);
  }

  // ---------------------------------------------------------------------------
  // rotate and flipHorizontal
  // ---------------------------------------------------------------------------

  ghost function Image(c: set<Cell>, f: Cell -> Cell): set<Cell>
  {
    set p | p in c :: f(p)
  }

  /** An injective map keeps the size of a cell set. */
  lemma {:induction false} ImageSize(c: set<Cell>, f: Cell -> Cell)
    requires forall p, q :: p in c && q in c && f(p) == f(q) ==> p == q
    ensures |Image(c, f)| == |c|
    decreases |c|
  {
    if c != {} {
      var p :| p in c;
      var rest := c - {p};
      ImageSize(rest, f);
      assert Image(c, f) == Image(rest, f) + {f(p)};
      assert f(p) !in Image(rest, f);
    }
  }

  /** rotate: the H x W grid s becomes the W x H grid r with r[x][H-1-y] = s[y][x]. */
  function Rotated(s: Shape): (r: Shape)
    requires IsRect(s)
    ensures |r| == |s[0]| && forall i :: 0 <= i < |r| ==> |r[i]| == |s|
  {
    seq(|s[0]|, i requires 0 <= i < |s[0]| => seq(|s|, j requires 0 <= j < |s| => s[|s| - 1 - j][i]))
  }

  /** flipHorizontal: the columns in reverse order. */
  function Flipped(s: Shape): (f: Shape)
    requires IsRect(s)
    ensures IsRect(f) && |f| == |s| && |f[0]| == |s[0]|
  {
    seq(|s|, y requires 0 <= y < |s| => seq(|s[0]|, x requires 0 <= x < |s[0]| => s[y][|s[0]| - 1 - x]))
  }

  /** Rotation moves cell (x, y) to (H-1-y, x) and so keeps the filled-cell count. */
  lemma RotatedCells(s: Shape)
    requires IsRect(s) && |s[0]| > 0
    ensures IsRect(Rotated(s))
    ensures Cells(Rotated(s)) == Image(Cells(s), (p: Cell) => Cell(|s| - 1 - p.y, p.x))
    ensures |Cells(Rotated(s))| == |Cells(s)|
  {
    var r := Rotated(s);
    var f := (p: Cell) => Cell(|s| - 1 - p.y, p.x);
    forall c | c in Cells(r) ensures c in Image(Cells(s), f) {
      var p := Cell(c.y, |s| - 1 - c.x);
      assert s[p.y][p.x];
      assert p in Cells(s) && f(p) == c;
    }
    forall c | c in Image(Cells(s), f) ensures c in Cells(r) {
      var p :| p in Cells(s) && c == f(p);
      assert r[c.y][c.x];
    }
    ImageSize(Cells(s), f);
  }

  /** The mirror moves cell (x, y) to (W-1-x, y) and so keeps the filled-cell count. */
  lemma FlippedCells(s: Shape)
    requires IsRect(s)
    ensures Cells(Flipped(s)) == Image(Cells(s), (p: Cell) => Cell(|s[0]| - 1 - p.x, p.y))
    ensures |Cells(Flipped(s))| == |Cells(s)|
  {
    var r := Flipped(s);
    var f := (p: Cell) => Cell(|s[0]| - 1 - p.x, p.y);
    forall c | c in Cells(r) ensures c in Image(Cells(s), f) {
      var p := Cell(|s[0]| - 1 - c.x, c.y);
      assert s[p.y][p.x];
      assert p in Cells(s) && f(p) == c;
    }
    forall c | c in Image(Cells(s), f) ensures c in Cells(r) {
      var p :| p in Cells(s) && c == f(p);
      assert r[c.y][c.x];
    }
    ImageSize(Cells(s), f);
  }

  method Rotate(s: Shape) returns (r: Shape)
    requires IsRect(s)
    ensures r == Rotated(s)
  {
    var h, w := |s|, |s[0]|;
    r := seq(w, _ => seq(h, _ => false));
    for y := 0 to h
      invariant |r| == w && forall i :: 0 <= i < w ==> |r[i]| == h
      invariant forall i, j :: 0 <= i < w && 0 <= j < h ==>
        r[i][j] == if h - 1 - j < y then s[h - 1 - j][i] else false
    {
      for x := 0 to w
        invariant |r| == w && forall i :: 0 <= i < w ==> |r[i]| == h
        invariant forall i, j :: 0 <= i < w && 0 <= j < h ==>
          r[i][j] == if h - 1 - j < y || (h - 1 - j == y && i < x) then s[h - 1 - j][i] else false
      {
        r := r[x := r[x][h - 1 - y := s[y][x]]];
      }
    }
    forall i | 0 <= i < w ensures r[i] == Rotated(s)[i] { }
  }

  method FlipHorizontal(s: Shape) returns (f: Shape)
    requires IsRect(s)
    ensures f == Flipped(s)
  {
    var h, w := |s|, |s[0]|;
    f := seq(h, _ => seq(w, _ => false));
    for y := 0 to h
      invariant |f| == h && forall i :: 0 <= i < h ==> |f[i]| == w
      invariant forall i, j :: 0 <= i < h && 0 <= j < w ==>
        f[i][j] == if i < y then s[i][w - 1 - j] else false
    {
      for x := 0 to w
        invariant |f| == h && forall i :: 0 <= i < h ==> |f[i]| == w
        invariant forall i, j :: 0 <= i < h && 0 <= j < w ==>
          f[i][j] == if i < y || (i == y && w - 1 - j < x) then s[i][w - 1 - j] else false
      {
        f := f[y := f[y][w - 1 - x := s[y][x]]];
      }
    }
    forall i | 0 <= i < h ensures f[i] == Flipped(s)[i] { }
  }
}
