/**
 * Regions of the tree-farm puzzle (day 12): the "WxH: counts" header, the
 * multiset of pieces a region asks for, the early area rejection, and what
 * it means for the pieces to fit.
 */
module TreeFarmRegions {
  import opened Text
  import opened TreeFarmShapes
  import opened TreeFarmOrientations
  import opened TreeFarmPlacements
  import opened TreeFarmPacker

  /** The characters the regex '.' does not match: the line terminators of java.util.regex. */
  predicate IsLineTerminator(c: char) {
    c == '\n' || c == '\r' || c == '\U{85}' || c == '\U{2028}' || c == '\U{2029}'
  }

  /** The three groups of a region header: width, height and the text after the colon. */
  datatype Header = Header(w: nat, h: nat, counts: string)

  /** The region pattern ^(\d+)x(\d+):\s*(.*)$ matched against a whole line. */
  function MatchRegion(line: string): (r: Option<Header>)
    ensures r.Some? ==> forall i :: 0 <= i < |r.value.counts| ==> !IsLineTerminator(r.value.counts[i])
    ensures r.Some? && |r.value.counts| > 0 ==> !IsSpace(r.value.counts[0])
  {
    var a := LeadingCount(line, IsDigit);
    if a == 0 || a == |line| || line[a] != 'x' then None
    else
      var rest := line[a + 1..];
      var b := LeadingCount(rest, IsDigit);
      if b == 0 || b == |rest| || rest[b] != ':' then None
      else
        var tail := TrimLeftBy(rest[b + 1..], IsSpace);
        if exists i :: 0 <= i < |tail| && IsLineTerminator(tail[i]) then None
        else Some(Header(DigitsValue(line[..a]), DigitsValue(rest[..b]), tail))
  }

  /** A header line as it is written: width, 'x', height, ':', some spacing, then the counts. */
  function HeaderLine(w: nat, h: nat, spacing: string, counts: string): string {
    NatToDecimal(w) + "x" + NatToDecimal(h) + ":" + spacing + counts
  }

  lemma {:induction false} LeadingCountPrefix(d: string, rest: string, p: char -> bool)
    requires forall i :: 0 <= i < |d| ==> p(d[i])
    requires |rest| > 0 ==> !p(rest[0])
    ensures LeadingCount(d + rest, p) == |d|
  {
    if |d| == 0 {
      assert d + rest == rest;
    } else {
      assert (d + rest)[0] == d[0];
      assert (d + rest)[1..] == d[1..] + rest;
      LeadingCountPrefix(d[1..], rest, p);
    }
  }

  /** Digits, then a non-digit: the digit run ends where the digits do. */
  lemma DigitRun(d: string, c: char, tail: string)
    requires |d| > 0 && AllDigits(d) && !IsDigit(c)
    ensures var s := d + [c] + tail;
      LeadingCount(s, IsDigit) == |d| && s[|d|] == c && s[..|d|] == d && s[|d| + 1..] == tail
  {
    var s := d + [c] + tail;
    LeadingCountPrefix(d, [c] + tail, IsDigit);
    assert s == d + ([c] + tail);
    assert s[..|d|] == d;
    assert s[|d| + 1..] == tail;
  }

  /** The three groups, once the digit runs, the 'x', the ':' and the trimmed tail are known. */
  lemma MatchRegionParts(line: string, a: nat, rest: string, b: nat, tail: string)
    requires LeadingCount(line, IsDigit) == a && 0 < a < |line| && line[a] == 'x' && line[a + 1..] == rest
    requires LeadingCount(rest, IsDigit) == b && 0 < b < |rest| && rest[b] == ':'
    requires TrimLeftBy(rest[b + 1..], IsSpace) == tail
    requires forall i :: 0 <= i < |tail| ==> !IsLineTerminator(tail[i])
    ensures MatchRegion(line) == Some(Header(DigitsValue(line[..a]), DigitsValue(rest[..b]), tail))
  {
  }

  /** Reading a written header gives back its width, height and counts text. */
  lemma HeaderRoundTrip(w: nat, h: nat, spacing: string, counts: string)
    requires forall i :: 0 <= i < |spacing| ==> IsSpace(spacing[i])
    requires |counts| > 0 ==> !IsSpace(counts[0])
    requires forall i :: 0 <= i < |counts| ==> !IsLineTerminator(counts[i])
    ensures MatchRegion(HeaderLine(w, h, spacing, counts)) == Some(Header(w, h, counts))
  {
    var ws, hs := NatToDecimal(w), NatToDecimal(h);
    var rest := hs + [':'] + (spacing + counts);
    var line := HeaderLine(w, h, spacing, counts);
    assert LeadingCount(line, IsDigit) == |ws| && line[|ws|] == 'x' && line[|ws| + 1..] == rest && line[..|ws|] == ws by {
      assert line == ws + ['x'] + rest;
      DigitRun(ws, 'x', rest);
    }
    assert LeadingCount(rest, IsDigit) == |hs| && rest[|hs|] == ':' && rest[..|hs|] == hs
           && rest[|hs| + 1..] == spacing + counts by {
      DigitRun(hs, ':', spacing + counts);
    }
    assert TrimLeftBy(spacing + counts, IsSpace) == counts by {
      LeadingCountPrefix(spacing, counts, IsSpace);
    }
    MatchRegionParts(line, |ws|, rest, |hs|, counts);
    NatToDecimalValue(w);
    NatToDecimalValue(h);
  }

  /** The shape marker pattern ^\d+:\s*$ matched against a whole line. */
  predicate IsMarker(line: string) {
    var a := LeadingCount(line, IsDigit);
    0 < a < |line| && line[a] == ':' && forall i :: a < i < |line| ==> IsSpace(line[i])
  }

  /**
   * The counts array of a region: token i parsed for every shape i that has
   * a token, 0 for the rest, extra tokens ignored; None when a token that is
   * read is not an integer (Integer.parseInt throws).
   */
  function ParseCounts(toks: seq<string>, n: nat): (r: Option<seq<int>>)
    ensures r.Some? ==> |r.value| == n
  {
    if exists i :: 0 <= i < n && i < |toks| && ParseInt(toks[i]).None? then None
    else Some(seq(n, i requires 0 <= i < n => if i < |toks| then ParseInt(toks[i]).value else 0))
  }

  /**
   * Counts written out as tokens are read back, whatever follows them, and
   * shapes beyond the written tokens count 0.
   */
  lemma CountsRoundTrip(c: seq<int>, extra: seq<string>, n: nat)
    ensures |c| <= n ==> ParseCounts(seq(|c|, i requires 0 <= i < |c| => ToDecimal(c[i])), n) == Some(c + seq(n - |c|, _ => 0))
    ensures n <= |c| ==> ParseCounts(seq(|c|, i requires 0 <= i < |c| => ToDecimal(c[i])) + extra, n) == Some(c[..n])
  {
    var written := seq(|c|, i requires 0 <= i < |c| => ToDecimal(c[i]));
    forall i | 0 <= i < |c| ensures ParseInt(written[i]) == Some(c[i]) {
      ParseToDecimal(c[i]);
    }
    if n <= |c| {
      var toks := written + extra;
      assert forall i :: 0 <= i < n ==> toks[i] == written[i];
      assert ParseCounts(toks, n).value == c[..n];
    }
    if |c| <= n {
      assert ParseCounts(written, n).value == c + seq(n - |c|, _ => 0);
    }
  }

  function Max0(n: int): nat { if n < 0 then 0 else n }

  function Repeat(v: nat, n: int): (r: seq<nat>)
    ensures |r| == Max0(n) && forall i :: 0 <= i < |r| ==> r[i] == v
    decreases Max0(n)
  {
    if n <= 0 then [] else Repeat(v, n - 1) + [v]
  }

  /** The pieces list of a region: shape index si repeated counts[si] times, in index order. */
  function Pieces(counts: seq<int>): (r: seq<nat>)
    ensures forall t :: 0 <= t < |r| ==> r[t] < |counts|
  {
    if |counts| == 0 then [] else Pieces(counts[..|counts| - 1]) + Repeat(|counts| - 1, counts[|counts| - 1])
  }

  lemma RepeatCount(v: nat, n: int, u: nat)
    ensures multiset(Repeat(v, n))[u] == if u == v then Max0(n) else 0
    decreases Max0(n)
  {
    if n > 0 {
      RepeatCount(v, n - 1, u);
      assert Repeat(v, n) == Repeat(v, n - 1) + [v];
    }
  }

  /** Shape v occurs among the pieces exactly as often as its count says (never, if negative). */
  lemma {:induction false} PiecesCount(counts: seq<int>, v: nat)
    ensures multiset(Pieces(counts))[v] == if v < |counts| then Max0(counts[v]) else 0
  {
    if |counts| > 0 {
      var init := counts[..|counts| - 1];
      PiecesCount(init, v);
      RepeatCount(|counts| - 1, counts[|counts| - 1], v);
      assert multiset(Pieces(counts)) == multiset(Pieces(init)) + multiset(Repeat(|counts| - 1, counts[|counts| - 1]));
    }
  }

  /** A region whose counts are all zero or negative asks for no pieces. */
  lemma {:induction false} NoPieces(counts: seq<int>)
    requires forall i :: 0 <= i < |counts| ==> counts[i] <= 0
    ensures Pieces(counts) == []
  {
    if |counts| > 0 {
      NoPieces(counts[..|counts| - 1]);
    }
  }

  /** totalCells: the sum of area times count over the shapes. */
  function TotalArea(areas: seq<nat>, counts: seq<int>): int
    requires |areas| == |counts|
  {
    if |counts| == 0 then 0
    else TotalArea(areas[..|areas| - 1], counts[..|counts| - 1]) + areas[|areas| - 1] * counts[|counts| - 1]
  }

  /** The sum of the areas of the listed pieces. */
  function PiecesArea(areas: seq<nat>, pieces: seq<nat>): int
    requires forall t :: 0 <= t < |pieces| ==> pieces[t] < |areas|
  {
    if |pieces| == 0 then 0 else PiecesArea(areas, pieces[..|pieces| - 1]) + areas[pieces[|pieces| - 1]]
  }

  lemma {:induction false} PiecesAreaAppend(areas: seq<nat>, p: seq<nat>, q: seq<nat>)
    requires forall t :: 0 <= t < |p| ==> p[t] < |areas|
    requires forall t :: 0 <= t < |q| ==> q[t] < |areas|
    ensures PiecesArea(areas, p + q) == PiecesArea(areas, p) + PiecesArea(areas, q)
    decreases |q|
  {
    if |q| == 0 {
      assert p + q == p;
    } else {
      assert (p + q)[..|p + q| - 1] == p + q[..|q| - 1];
      assert (p + q)[|p + q| - 1] == q[|q| - 1];
      PiecesAreaAppend(areas, p, q[..|q| - 1]);
    }
  }

  lemma {:induction false} RepeatArea(areas: seq<nat>, v: nat, n: int)
    requires v < |areas|
    ensures PiecesArea(areas, Repeat(v, n)) == areas[v] * Max0(n)
    decreases Max0(n)
  {
    if n > 0 {
      RepeatArea(areas, v, n - 1);
      assert Repeat(v, n)[..|Repeat(v, n)| - 1] == Repeat(v, n - 1);
    }
  }

  /**
   * The pieces cover at least the total area the source computes, and
   * exactly that area when no count is negative.
   */
  lemma {:induction false} PiecesCoverTotal(areas: seq<nat>, counts: seq<int>)
    requires |areas| == |counts|
    ensures PiecesArea(areas[..], Pieces(counts)) >= TotalArea(areas, counts)
    ensures (forall i :: 0 <= i < |counts| ==> counts[i] >= 0) ==> PiecesArea(areas, Pieces(counts)) == TotalArea(areas, counts)
  {
    if |counts| > 0 {
      var n := |counts| - 1;
      var a := areas[..n];
      PiecesCoverTotal(a, counts[..n]);
      PiecesAreaPrefix(areas, a, Pieces(counts[..n]));
      PiecesAreaAppend(areas, Pieces(counts[..n]), Repeat(n, counts[n]));
      RepeatArea(areas, n, counts[n]);
      assert areas[n] * Max0(counts[n]) >= areas[n] * counts[n];
    }
  }

  /** Piece areas only read the areas of the shapes the pieces use. */
  lemma {:induction false} PiecesAreaPrefix(areas: seq<nat>, a: seq<nat>, pieces: seq<nat>)
    requires |a| <= |areas| && a == areas[..|a|]
    requires forall t :: 0 <= t < |pieces| ==> pieces[t] < |a|
    ensures PiecesArea(areas, pieces) == PiecesArea(a, pieces)
  {
    if |pieces| > 0 {
      PiecesAreaPrefix(areas, a, pieces[..|pieces| - 1]);
    }
  }

  /** No index occurs twice. */
  predicate NoRepeats(p: seq<int>) {
    forall i, j :: 0 <= i < j < |p| ==> p[i] != p[j]
  }

  function TotalLength(ps: seq<seq<int>>): nat {
    if |ps| == 0 then 0 else TotalLength(ps[..|ps| - 1]) + |ps[|ps| - 1]|
  }

  ghost function Elems(p: seq<int>): set<int> {
    set i | 0 <= i < |p| :: p[i]
  }

  /** The indices covered by a list of placements. */
  ghost function Covered(ps: seq<seq<int>>): set<int> {
    if |ps| == 0 then {} else Covered(ps[..|ps| - 1]) + Elems(ps[|ps| - 1])
  }

  /** The indices 0 .. n - 1. */
  ghost function Range(n: nat): (r: set<int>)
    ensures forall k :: k in r <==> 0 <= k < n
  {
    if n == 0 then {} else Range(n - 1) + {n - 1}
  }

  lemma {:induction false} NoRepeatsSize(p: seq<int>)
    requires NoRepeats(p)
    ensures |Elems(p)| == |p|
  {
    if |p| > 0 {
      var init := p[..|p| - 1];
      NoRepeatsSize(init);
      assert Elems(p) == Elems(init) + {p[|p| - 1]};
      assert p[|p| - 1] !in Elems(init);
    }
  }

  lemma {:induction false} CoveredSize(ps: seq<seq<int>>)
    requires forall t :: 0 <= t < |ps| ==> NoRepeats(ps[t])
    requires forall t, u :: 0 <= t < u < |ps| ==> Disjoint(ps[t], ps[u])
    ensures |Covered(ps)| == TotalLength(ps)
  {
    if |ps| > 0 {
      var init := ps[..|ps| - 1];
      var last := ps[|ps| - 1];
      CoveredSize(init);
      NoRepeatsSize(last);
      CoveredBy(init);
      assert Covered(init) !! Elems(last) by {
        forall k | k in Covered(init) ensures k !in Elems(last) {
          var t :| 0 <= t < |init| && k in Elems(init[t]);
          var m :| 0 <= m < |init[t]| && init[t][m] == k;
          assert Disjoint(ps[t], last);
        }
      }
    }
  }

  lemma {:induction false} CoveredBy(ps: seq<seq<int>>)
    ensures forall k :: k in Covered(ps) ==> exists t :: 0 <= t < |ps| && k in Elems(ps[t])
  {
    if |ps| > 0 {
      CoveredBy(ps[..|ps| - 1]);
    }
  }

  lemma {:induction false} RangeSize(n: nat)
    ensures |Range(n)| == n
  {
    if n > 0 {
      RangeSize(n - 1);
    }
  }

  /**
   * Pairwise disjoint placements without repeated indices, all inside a grid
   * of n cells, cover at most n cells between them.
   */
  lemma Pigeonhole(ps: seq<seq<int>>, n: nat)
    requires forall t :: 0 <= t < |ps| ==> NoRepeats(ps[t]) && InGrid(ps[t], n)
    requires forall t, u :: 0 <= t < u < |ps| ==> Disjoint(ps[t], ps[u])
    ensures TotalLength(ps) <= n
  {
    CoveredSize(ps);
    CoveredBy(ps);
    forall k | k in Covered(ps) ensures k in Range(n) {
      var t :| 0 <= t < |ps| && k in Elems(ps[t]);
      var m :| 0 <= m < |ps[t]| && ps[t][m] == k;
    }
    RangeSize(n);
    SubsetSize(Covered(ps), Range(n));
  }

  /** Every shape is a rectangle with at least one column, as generateOrientations needs. */
  predicate Usable(shapes: seq<Shape>) {
    forall i :: 0 <= i < |shapes| ==> IsRect(shapes[i]) && |shapes[i][0]| > 0
  }

  /**
   * ps places the pieces: each on an in-region translation of one of its
   * shape's rotations or mirrors, no two sharing a cell.
   */
  ghost predicate IsFitting(shapes: seq<Shape>, w: int, h: int, pieces: seq<nat>, ps: seq<seq<int>>)
    requires Usable(shapes)
  {
    && |ps| == |pieces|
    && (forall t :: 0 <= t < |ps| ==> PlacedAs(shapes, w, h, pieces[t], ps[t]))
    && (forall t, u :: 0 <= t < u < |ps| ==> Disjoint(ps[t], ps[u]))
  }

  /** p puts a piece of shape v on an in-region translation of one of the shape's rotations or mirrors. */
  ghost predicate PlacedAs(shapes: seq<Shape>, w: int, h: int, v: nat, p: seq<int>)
    requires Usable(shapes)
  {
    v < |shapes| && exists o :: o in Candidates(shapes[v]) && IsPlacementOf(o, w, h, p)
  }

  /** The region's pieces fit into the W x H region. */
  ghost predicate Fits(shapes: seq<Shape>, w: int, h: int, counts: seq<int>)
    requires Usable(shapes)
  {
    exists ps :: IsFitting(shapes, w, h, Pieces(counts), ps)
  }

  /** A placement of a candidate orientation lies in the region, repeats no index, and has the shape's area. */
  lemma CandidatePlacement(s: Shape, o: Orientation, w: int, h: int, p: seq<int>)
    requires IsRect(s) && |s[0]| > 0
    requires o in Candidates(s) && IsPlacementOf(o, w, h, p)
    ensures InGrid(p, w * h) && NoRepeats(p) && |p| == |Cells(s)|
  {
    var k :| 0 <= k < 8 && Candidates(s)[k] == o;
    CandidateFacts(s, k);
    var ox, oy :| OffsetInRange(o, w, h, ox, oy) && p == Translate(o, ox, oy, w);
    PlacementCells(o, w, h, ox, oy);
  }

  /** One piece of a fitting lies in the region, repeats no index, and covers its shape's area. */
  lemma FittingPiece(shapes: seq<Shape>, w: int, h: int, pieces: seq<nat>, ps: seq<seq<int>>, t: nat)
    requires Usable(shapes) && IsFitting(shapes, w, h, pieces, ps) && t < |ps|
    ensures InGrid(ps[t], w * h) && NoRepeats(ps[t]) && |ps[t]| == |Cells(shapes[pieces[t]])|
  {
    var o :| o in Candidates(shapes[pieces[t]]) && IsPlacementOf(o, w, h, ps[t]);
    CandidatePlacement(shapes[pieces[t]], o, w, h, ps[t]);
  }

  lemma FittingPrefix(shapes: seq<Shape>, w: int, h: int, pieces: seq<nat>, ps: seq<seq<int>>, n: nat)
    requires Usable(shapes) && IsFitting(shapes, w, h, pieces, ps) && n <= |ps|
    ensures IsFitting(shapes, w, h, pieces[..n], ps[..n])
  {
  }

  lemma {:induction false} FittingArea(shapes: seq<Shape>, areas: seq<nat>, w: int, h: int, pieces: seq<nat>, ps: seq<seq<int>>)
    requires Usable(shapes) && |areas| == |shapes|
    requires forall i :: 0 <= i < |shapes| ==> areas[i] == |Cells(shapes[i])|
    requires IsFitting(shapes, w, h, pieces, ps)
    ensures TotalLength(ps) == PiecesArea(areas, pieces)
    ensures forall t :: 0 <= t < |ps| ==> InGrid(ps[t], w * h) && NoRepeats(ps[t])
  {
    forall t | 0 <= t < |ps| ensures InGrid(ps[t], w * h) && NoRepeats(ps[t]) {
      FittingPiece(shapes, w, h, pieces, ps, t);
    }
    if |ps| > 0 {
      var n := |ps| - 1;
      FittingPrefix(shapes, w, h, pieces, ps, n);
      FittingArea(shapes, areas, w, h, pieces[..n], ps[..n]);
      FittingPiece(shapes, w, h, pieces, ps, n);
    }
  }

  /**
   * The early rejection is sound: when the pieces fit, the total area the
   * source computes is at most W * H.
   */
  lemma AreaBound(shapes: seq<Shape>, areas: seq<nat>, w: nat, h: nat, counts: seq<int>)
    requires Usable(shapes) && |areas| == |shapes| && |counts| == |shapes|
    requires forall i :: 0 <= i < |shapes| ==> areas[i] == |Cells(shapes[i])|
    requires Fits(shapes, w, h, counts)
    ensures TotalArea(areas, counts) <= w * h
  {
    var n: nat := w * h;
    var ps :| IsFitting(shapes, w, h, Pieces(counts), ps);
    FittingArea(shapes, areas, w, h, Pieces(counts), ps);
    Pigeonhole(ps, n);
    PiecesCoverTotal(areas, counts);
  }

  /** A region that asks for no piece always fits. */
  lemma NoPiecesFit(shapes: seq<Shape>, w: int, h: int, counts: seq<int>)
    requires Usable(shapes)
    requires forall i :: 0 <= i < |counts| ==> counts[i] <= 0
    ensures Fits(shapes, w, h, counts)
  {
    NoPieces(counts);
    assert IsFitting(shapes, w, h, [], []);
  }

  /** The grid backtrackPlace starts from: W * H free cells. */
  function Blank(n: nat): (g: seq<bool>)
    ensures |g| == n && forall i :: 0 <= i < n ==> !g[i]
  {
    seq(n, _ => false)
  }

  /** The placement lists the region loop builds: one per shape asked for, from its orientations. */
  predicate ListsFor(shapes: seq<Shape>, oris: seq<seq<Orientation>>, w: int, h: int, pieces: seq<nat>,
                     pl: map<nat, seq<seq<int>>>)
  {
    |oris| == |shapes| &&
    forall t :: 0 <= t < |pieces| ==>
      pieces[t] < |shapes| && pieces[t] in pl && pl[pieces[t]] == Placements(oris[pieces[t]], w, h)
  }

  /** Each shape's orientation list holds exactly its eight candidates. */
  ghost predicate OrientationsOf(shapes: seq<Shape>, oris: seq<seq<Orientation>>)
    requires Usable(shapes)
  {
    |oris| == |shapes| &&
    forall i :: 0 <= i < |shapes| ==> forall o :: o in oris[i] <==> o in Candidates(shapes[i])
  }

  lemma ListedPlacement(shapes: seq<Shape>, oris: seq<seq<Orientation>>, w: int, h: int, i: nat, p: seq<int>)
    requires Usable(shapes) && OrientationsOf(shapes, oris) && i < |shapes|
    ensures p in Placements(oris[i], w, h) <==> exists o :: o in Candidates(shapes[i]) && IsPlacementOf(o, w, h, p)
  {
    PlacementsMember(oris[i], w, h, p);
  }

  lemma ListsWellFormed(shapes: seq<Shape>, oris: seq<seq<Orientation>>, w: nat, h: nat, pieces: seq<nat>,
                        pl: map<nat, seq<seq<int>>>)
    requires Usable(shapes) && OrientationsOf(shapes, oris) && ListsFor(shapes, oris, w, h, pieces, pl)
    ensures WellFormed(pieces, pl, |Blank(w * h)|)
  {
    forall t, j | 0 <= t < |pieces| && 0 <= j < |pl[pieces[t]]| ensures InGrid(pl[pieces[t]][j], w * h) {
      var p := pl[pieces[t]][j];
      ListedPlacement(shapes, oris, w, h, pieces[t], p);
      var o :| o in Candidates(shapes[pieces[t]]) && IsPlacementOf(o, w, h, p);
      CandidatePlacement(shapes[pieces[t]], o, w, h, p);
    }
  }

  /** On the empty grid, a packing from the placement lists is exactly a fitting. */
  lemma PackingIsFitting(shapes: seq<Shape>, oris: seq<seq<Orientation>>, w: nat, h: nat, pieces: seq<nat>,
                         pl: map<nat, seq<seq<int>>>, ps: seq<seq<int>>)
    requires Usable(shapes) && OrientationsOf(shapes, oris) && ListsFor(shapes, oris, w, h, pieces, pl)
    ensures IsPacking(pieces, pl, Blank(w * h), ps) <==> IsFitting(shapes, w, h, pieces, ps)
  {
    var g := Blank(w * h);
    if |ps| == |pieces| {
      forall t | 0 <= t < |ps|
        ensures (pieces[t] in pl && ps[t] in pl[pieces[t]] && InGrid(ps[t], |g|) && Free(ps[t], g)) <==>
                PlacedAs(shapes, w, h, pieces[t], ps[t])
      {
        ListedPlacement(shapes, oris, w, h, pieces[t], ps[t]);
        if ps[t] in pl[pieces[t]] {
          var o :| o in Candidates(shapes[pieces[t]]) && IsPlacementOf(o, w, h, ps[t]);
          CandidatePlacement(shapes[pieces[t]], o, w, h, ps[t]);
        }
      }
      if IsPacking(pieces, pl, g, ps) {
        assert IsFitting(shapes, w, h, pieces, ps);
      }
      if IsFitting(shapes, w, h, pieces, ps) {
        assert IsPacking(pieces, pl, g, ps);
      }
    }
  }

  /** Pieces in a rearranged order still find their placement lists. */
  lemma ListsForPermutation(shapes: seq<Shape>, oris: seq<seq<Orientation>>, w: int, h: int, pieces: seq<nat>,
                            order: seq<nat>, pl: map<nat, seq<seq<int>>>)
    requires ListsFor(shapes, oris, w, h, pieces, pl) && multiset(order) == multiset(pieces)
    ensures ListsFor(shapes, oris, w, h, order, pl)
  {
    forall t | 0 <= t < |order| ensures order[t] < |shapes| && order[t] in pl && pl[order[t]] == Placements(oris[order[t]], w, h) {
      assert order[t] in multiset(pieces);
      var u :| 0 <= u < |pieces| && pieces[u] == order[t];
    }
  }

  /**
   * The search decides the puzzle: backtracking over any arrangement of the
   * region's pieces, on an empty W x H grid, succeeds exactly when the pieces fit.
   */
  lemma SearchDecidesFit(shapes: seq<Shape>, oris: seq<seq<Orientation>>, w: nat, h: nat, counts: seq<int>,
                         pl: map<nat, seq<seq<int>>>, order: seq<nat>)
    requires Usable(shapes) && OrientationsOf(shapes, oris)
    requires ListsFor(shapes, oris, w, h, Pieces(counts), pl)
    requires multiset(order) == multiset(Pieces(counts))
    ensures WellFormed(order, pl, |Blank(w * h)|)
    ensures CanPack(order, pl, 0, Blank(w * h)) <==> Fits(shapes, w, h, counts)
  {
    var pieces := Pieces(counts);
    var g := Blank(w * h);
    ListsForPermutation(shapes, oris, w, h, pieces, order, pl);
    ListsWellFormed(shapes, oris, w, h, order, pl);
    CanPackIff(order, pl, 0, g);
    assert order[0..] == order;
    if CanPack(order, pl, 0, g) {
      var ps :| IsPacking(order, pl, g, ps);
      PackingPermutes(order, pieces, pl, g, ps);
      var ps2 :| IsPacking(pieces, pl, g, ps2);
      PackingIsFitting(shapes, oris, w, h, pieces, pl, ps2);
    }
    if Fits(shapes, w, h, counts) {
      var ps :| IsFitting(shapes, w, h, pieces, ps);
      PackingIsFitting(shapes, oris, w, h, pieces, pl, ps);
      PackingPermutes(pieces, order, pl, g, ps);
    }
  }
}
