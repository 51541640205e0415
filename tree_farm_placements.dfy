/**
 * Placements of a tree-farm shape (day 12): every orientation translated to
 * every offset at which it stays inside a W x H region, each listed as the
 * row-major grid indices x + y * W it covers.
 */
module TreeFarmPlacements {
  import opened TreeFarmShapes
  import opened TreeFarmOrientations

  /** The grid indices a placed piece covers. */
  type Placement = seq<int>

  /** The largest x of an orientation; 0 for an empty one. */
  function MaxX(o: Orientation): (m: int)
    ensures m >= 0
    ensures forall i :: 0 <= i < |o| ==> o[i].x <= m
    ensures |o| > 0 && m > 0 ==> exists i :: 0 <= i < |o| && o[i].x == m
  {
    if |o| == 0 then 0 else Max(MaxX(o[..|o| - 1]), o[|o| - 1].x)
  }

  /** The largest y of an orientation; 0 for an empty one. */
  function MaxY(o: Orientation): (m: int)
    ensures m >= 0
    ensures forall i :: 0 <= i < |o| ==> o[i].y <= m
    ensures |o| > 0 && m > 0 ==> exists i :: 0 <= i < |o| && o[i].y == m
  {
    if |o| == 0 then 0 else Max(MaxY(o[..|o| - 1]), o[|o| - 1].y)
  }

  /** The orientation moved by (ox, oy), as grid indices of a row-major W-wide grid. */
  function Translate(o: Orientation, ox: int, oy: int, w: int): (p: Placement)
    ensures |p| == |o|
  {
    seq(|o|, k requires 0 <= k < |o| => (o[k].x + ox) + (o[k].y + oy) * w)
  }

  /** The offsets computePlacementsForShape tries. */
  predicate OffsetInRange(o: Orientation, w: int, h: int, ox: int, oy: int) {
    0 <= ox && ox + MaxX(o) < w && 0 <= oy && oy + MaxY(o) < h
  }

  ghost predicate IsPlacementOf(o: Orientation, w: int, h: int, p: Placement) {
    exists ox, oy :: OffsetInRange(o, w, h, ox, oy) && p == Translate(o, ox, oy, w)
  }

  /** The placements at offsets (ox, 0), ..., (ox, n - 1), in that order. */
  function Column(o: Orientation, w: int, ox: int, n: nat): seq<Placement>
  {
    if n == 0 then [] else Column(o, w, ox, n - 1) + [Translate(o, ox, n - 1, w)]
  }

  /** The placements at offsets (0..m - 1, 0..n - 1), ox outermost. */
  function Block(o: Orientation, w: int, m: nat, n: nat): seq<Placement>
  {
    if m == 0 then [] else Block(o, w, m - 1, n) + Column(o, w, m - 1, n)
  }

  /** The placements of one orientation; none when it is wider or taller than the region. */
  function OrientationPlacements(o: Orientation, w: int, h: int): seq<Placement>
  {
    var limitX := w - (MaxX(o) + 1);
    var limitY := h - (MaxY(o) + 1);
    if limitX < 0 || limitY < 0 then [] else Block(o, w, limitX + 1, limitY + 1)
  }

  /** computePlacementsForShape's list: orientation by orientation. */
  function Placements(oris: seq<Orientation>, w: int, h: int): seq<Placement>
  {
    if |oris| == 0 then []
    else Placements(oris[..|oris| - 1], w, h) + OrientationPlacements(oris[|oris| - 1], w, h)
  }

  lemma {:induction false} ColumnMember(o: Orientation, w: int, ox: int, n: nat, p: Placement)
    ensures p in Column(o, w, ox, n) <==> exists oy :: 0 <= oy < n && p == Translate(o, ox, oy, w)
  {
    if n > 0 {
      ColumnMember(o, w, ox, n - 1, p);
    }
  }

  lemma {:induction false} BlockMember(o: Orientation, w: int, m: nat, n: nat, p: Placement)
    ensures p in Block(o, w, m, n) <==>
      exists ox, oy :: 0 <= ox < m && 0 <= oy < n && p == Translate(o, ox, oy, w)
  {
    if p in Block(o, w, m, n) {
      var ox, oy := BlockSound(o, w, m, n, p);
    }
    if exists ox, oy :: 0 <= ox < m && 0 <= oy < n && p == Translate(o, ox, oy, w) {
      var ox, oy :| 0 <= ox < m && 0 <= oy < n && p == Translate(o, ox, oy, w);
      BlockComplete(o, w, m, n, ox, oy);
    }
  }

  lemma {:induction false} BlockSound(o: Orientation, w: int, m: nat, n: nat, p: Placement) returns (ox: int, oy: int)
    requires p in Block(o, w, m, n)
    ensures 0 <= ox < m && 0 <= oy < n && p == Translate(o, ox, oy, w)
  {
    if p in Column(o, w, m - 1, n) {
      ox := m - 1;
      oy := ColumnSound(o, w, ox, n, p);
    } else {
      ox, oy := BlockSound(o, w, m - 1, n, p);
    }
  }

  lemma {:induction false} ColumnSound(o: Orientation, w: int, ox: int, n: nat, p: Placement) returns (oy: int)
    requires p in Column(o, w, ox, n)
    ensures 0 <= oy < n && p == Translate(o, ox, oy, w)
  {
    if p == Translate(o, ox, n - 1, w) {
      oy := n - 1;
    } else {
      oy := ColumnSound(o, w, ox, n - 1, p);
    }
  }

  lemma {:induction false} BlockComplete(o: Orientation, w: int, m: nat, n: nat, ox: int, oy: int)
    requires 0 <= ox < m && 0 <= oy < n
    ensures Translate(o, ox, oy, w) in Block(o, w, m, n)
  {
    if ox == m - 1 {
      ColumnMember(o, w, m - 1, n, Translate(o, ox, oy, w));
    } else {
      BlockComplete(o, w, m - 1, n, ox, oy);
    }
  }

  /** One orientation's list holds exactly its in-range translations. */
  lemma OrientationPlacementsMember(o: Orientation, w: int, h: int, p: Placement)
    ensures p in OrientationPlacements(o, w, h) <==> IsPlacementOf(o, w, h, p)
  {
    var limitX := w - (MaxX(o) + 1);
    var limitY := h - (MaxY(o) + 1);
    if limitX >= 0 && limitY >= 0 {
      BlockMember(o, w, limitX + 1, limitY + 1, p);
      if p in OrientationPlacements(o, w, h) {
        var ox, oy :| 0 <= ox < limitX + 1 && 0 <= oy < limitY + 1 && p == Translate(o, ox, oy, w);
        assert OffsetInRange(o, w, h, ox, oy);
      }
      if IsPlacementOf(o, w, h, p) {
        var ox, oy :| OffsetInRange(o, w, h, ox, oy) && p == Translate(o, ox, oy, w);
        assert 0 <= ox < limitX + 1 && 0 <= oy < limitY + 1;
      }
    }
  }

  /**
   * The enumeration is sound and complete: a list holds a placement exactly
   * when it is an in-range translation of one of the orientations.
   */
  lemma {:induction false} PlacementsMember(oris: seq<Orientation>, w: int, h: int, p: Placement)
    ensures p in Placements(oris, w, h) <==> exists o :: o in oris && IsPlacementOf(o, w, h, p)
  {
    if |oris| > 0 {
      var init := oris[..|oris| - 1];
      var last := oris[|oris| - 1];
      PlacementsMember(init, w, h, p);
      OrientationPlacementsMember(last, w, h, p);
      assert oris == init + [last];
      if exists o :: o in oris && IsPlacementOf(o, w, h, p) {
        var o :| o in oris && IsPlacementOf(o, w, h, p);
        if o != last {
          assert o in init;
        }
      }
    }
  }

  /** An orientation too wide or too tall for the region has no placements. */
  lemma OversizedHasNone(o: Orientation, w: int, h: int)
    requires MaxX(o) >= w || MaxY(o) >= h
    ensures OrientationPlacements(o, w, h) == []
  {
  }

  /** Distinct in-row positions and rows give distinct row-major indices. */
  lemma RowMajorIndex(a: int, b: int, c: int, d: int, w: int)
    requires 0 <= a < w && 0 <= c < w
    requires a + b * w == c + d * w
    ensures a == c && b == d
  {
    var k := b - d;
    assert k * w == c - a;
    ProductBelow(k, w);
  }

  /** A multiple of w strictly between -w and w is 0 times w. */
  lemma ProductBelow(k: int, w: int)
    requires w > 0 && -w < k * w < w
    ensures k == 0
  {
    if k > 0 {
      ProductAtLeast(k, w);
    } else if k < 0 {
      ProductAtLeast(-k, w);
    }
  }

  lemma ProductAtLeast(k: int, w: int)
    requires k >= 1 && w >= 0
    ensures k * w >= w
  {
    assert k * w == (k - 1) * w + w;
  }

  /** The index of a cell inside the region lies in [0, W * H). */
  lemma IndexInRegion(x: int, y: int, w: int, h: int)
    requires 0 <= x < w && 0 <= y < h
    ensures 0 <= x + y * w < w * h
  {
    assert y * w <= (h - 1) * w by {
      assert (h - 1) * w - y * w == (h - 1 - y) * w;
    }
    assert (h - 1) * w + w == h * w;
  }

  /**
   * An in-range placement of an orientation with no repeated cells and no
   * negative coordinates covers as many distinct grid indices as the
   * orientation has cells, all inside the region.
   */
  lemma PlacementCells(o: Orientation, w: int, h: int, ox: int, oy: int)
    requires StrictlyRowMajor(o)
    requires forall c :: c in o ==> c.x >= 0 && c.y >= 0
    requires OffsetInRange(o, w, h, ox, oy)
    ensures var p := Translate(o, ox, oy, w);
      && (forall k :: 0 <= k < |p| ==> 0 <= p[k] < w * h)
      && (forall i, j :: 0 <= i < j < |p| ==> p[i] != p[j])
  {
    var p := Translate(o, ox, oy, w);
    forall k | 0 <= k < |p| ensures 0 <= p[k] < w * h {
      PlacedInRegion(o, w, h, ox, oy, k);
    }
    forall i, j | 0 <= i < j < |p| ensures p[i] != p[j] {
      PlacedApart(o, w, h, ox, oy, i, j);
    }
  }

  lemma PlacedInRegion(o: Orientation, w: int, h: int, ox: int, oy: int, k: nat)
    requires forall c :: c in o ==> c.x >= 0 && c.y >= 0
    requires OffsetInRange(o, w, h, ox, oy) && k < |o|
    ensures 0 <= Translate(o, ox, oy, w)[k] < w * h
  {
    assert o[k] in o;
    IndexInRegion(o[k].x + ox, o[k].y + oy, w, h);
  }

  lemma PlacedApart(o: Orientation, w: int, h: int, ox: int, oy: int, i: nat, j: nat)
    requires StrictlyRowMajor(o)
    requires forall c :: c in o ==> c.x >= 0 && c.y >= 0
    requires OffsetInRange(o, w, h, ox, oy) && i < j < |o|
    ensures Translate(o, ox, oy, w)[i] != Translate(o, ox, oy, w)[j]
  {
    assert o[i] in o && o[j] in o;
    assert RowMajorBefore(o[i], o[j]);
    if Translate(o, ox, oy, w)[i] == Translate(o, ox, oy, w)[j] {
      RowMajorIndex(o[i].x + ox, o[i].y + oy, o[j].x + ox, o[j].y + oy, w);
    }
  }

  /** The bounding-box loop of computePlacementsForShape: largest x and y, starting from 0. */
  method Extent(ori: Orientation) returns (maxX: int, maxY: int)
    ensures maxX == MaxX(ori) && maxY == MaxY(ori)
  {
    maxX, maxY := 0, 0;
    for k := 0 to |ori|
      invariant maxX == MaxX(ori[..k]) && maxY == MaxY(ori[..k])
    {
      assert ori[..k + 1][..k] == ori[..k];
      if ori[k].x > maxX { maxX := ori[k].x; }
      if ori[k].y > maxY { maxY := ori[k].y; }
    }
    assert ori[..|ori|] == ori;
  }

  /** The innermost loop of computePlacementsForShape: the indices covered at offset (ox, oy). */
  method PlaceAt(ori: Orientation, ox: int, oy: int, w: int) returns (cells: Placement)
    ensures cells == Translate(ori, ox, oy, w)
  {
    cells := [];
    for k := 0 to |ori|
      invariant |cells| == k
      invariant forall j :: 0 <= j < k ==> cells[j] == (ori[j].x + ox) + (ori[j].y + oy) * w
    {
      cells := cells + [(ori[k].x + ox) + (ori[k].y + oy) * w];
    }
  }

  method ComputePlacementsForShape(oris: seq<Orientation>, w: int, h: int) returns (placements: seq<Placement>)
    ensures placements == Placements(oris, w, h)
  {
    placements := [];
    for i := 0 to |oris|
      invariant placements == Placements(oris[..i], w, h)
    {
      assert oris[..i + 1][..i] == oris[..i];
      placements := AddOrientationPlacements(placements, oris[i], w, h);
    }
    assert oris[..|oris|] == oris;
  }

  /** The body of computePlacementsForShape's loop: appends one orientation's placements. */
  method AddOrientationPlacements(placements: seq<Placement>, ori: Orientation, w: int, h: int)
    returns (placements': seq<Placement>)
    ensures placements' == placements + OrientationPlacements(ori, w, h)
  {
    placements' := placements;
    var maxX, maxY := Extent(ori);
    var limitX := w - (maxX + 1);
    var limitY := h - (maxY + 1);
    if limitX < 0 || limitY < 0 {
      return;
    }
    for ox := 0 to limitX + 1
      invariant placements' == placements + Block(ori, w, ox, limitY + 1)
    {
      for oy := 0 to limitY + 1
        invariant placements' == placements + Block(ori, w, ox, limitY + 1) + Column(ori, w, ox, oy)
      {
        var cells := PlaceAt(ori, ox, oy, w);
        placements' := placements' + [cells];
      }
    }
  }
}
