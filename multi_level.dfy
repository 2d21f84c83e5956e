/**
 * The multi-level grid: a dense grid whose cells each hold a list of
 * patches (vertical levels), with its spatial queries. intersectAABB
 * reports, in scan order, every patch of the cells under a box whose
 * vertical extent overlaps the box's height band; the callback form stops
 * at the first report the callback answers with true; intersectCuboid
 * collects the matches into a View, a grid of references into the source.
 *
 * The patch type is reduced to its extent (getMin, getMax), the only part
 * of it the grid reads. tools::overlap and GridMap::toGrid are not part of
 * this model: they are parameters of the queries that use them.
 */
module MultiLevel {
  import opened GridIndex
  import opened Wrappers
  import opened Grids

  /** A patch's vertical extent, as reported by getMin() and getMax(). */
  datatype Patch = Patch(min: real, max: real)

  /** The levels of one cell; LevelList::insert is modelled as an append. */
  type LevelList<P> = seq<P>

  /** The cells of a multi-level grid, in the grid's row-major order. */
  type Cells = seq<LevelList<Patch>>

  /** A non-owning reference to a patch of the source grid: its cell and its position in that cell's list. */
  datatype PatchRef = PatchRef(cell: Index, pos: nat)

  /** One reported intersection: a reference (cell index and position) together with the patch it names. */
  datatype Hit = Hit(idx: Index, pos: nat, patch: Patch)

  /** tools::overlap(patchMin, patchMax, minHeight, maxHeight). */
  type Overlap = (real, real, real, real) -> bool

  /** The caller's callback; its answer true aborts the scan. */
  type Callback = (Index, Patch) -> bool

  /** The height band of a query and the overlap test applied to it. */
  datatype HeightQuery = HeightQuery(minHeight: real, maxHeight: real, overlap: Overlap)

  /** A View: a grid whose cells are lists of references to patches of the source. */
  type View = GridMap<LevelList<PatchRef>>

  /** A half-open index rectangle [lo, hi). */
  datatype Rect = Rect(lo: Index, hi: Index)

  /** The height band of a box: [box.min.z, box.max.z]. */
  function HeightBand(box: Box, overlap: Overlap): HeightQuery {
    HeightQuery(box.min.z, box.max.z, overlap)
  }

  predicate Selects(q: HeightQuery, p: Patch) {
    q.overlap(p.min, p.max, q.minHeight, q.maxHeight)
  }

  /** Closed-interval overlap: one instance of tools::overlap, used by the examples below. */
  predicate ClosedOverlap(aMin: real, aMax: real, bMin: real, bMax: real) {
    aMin <= bMax && aMax >= bMin
  }

  /** The callback of intersectAABB's collecting lambda: it never aborts. */
  predicate NeverAbort(idx: Index, p: Patch) {
    false
  }

  predicate Shaped(g: Cells, sz: Size) {
    |g| == sz.w * sz.h
  }

  /** A rectangle that lies inside [0, sz] on both axes (it may be empty). */
  predicate ScanRect(r: Rect, sz: Size) {
    0 <= r.lo.x && 0 <= r.lo.y && r.hi.x <= sz.w && r.hi.y <= sz.h
  }

  predicate InRect(idx: Index, r: Rect) {
    r.lo.x <= idx.x < r.hi.x && r.lo.y <= idx.y < r.hi.y
  }

  /** The levels of cell idx; a cell outside the grid holds none. */
  function CellAt(g: Cells, sz: Size, idx: Index): LevelList<Patch> {
    if Shaped(g, sz) && InGrid(idx, sz) then g[Offset(idx, sz)] else []
  }

  /** The hit names a patch stored in g at that cell and position, and the query selects it. */
  predicate Genuine(g: Cells, sz: Size, q: HeightQuery, h: Hit) {
    && InGrid(h.idx, sz)
    && h.pos < |CellAt(g, sz, h.idx)|
    && h.patch == CellAt(g, sz, h.idx)[h.pos]
    && Selects(q, h.patch)
  }

  /** Cell before cell in the scan (y outer, x inner), and within a cell by list position. */
  predicate ScanBefore(a: Hit, b: Hit) {
    || a.idx.y < b.idx.y
    || (a.idx.y == b.idx.y && a.idx.x < b.idx.x)
    || (a.idx == b.idx && a.pos < b.pos)
  }

  predicate ScanOrdered(hs: seq<Hit>) {
    forall i, j :: 0 <= i < j < |hs| ==> ScanBefore(hs[i], hs[j])
  }

  // ---------------------------------------------------------------------
  // The scan as a specification: the matches in the order they are visited.
  // ---------------------------------------------------------------------

  /** The selected patches among the given levels of cell idx, in list order. */
  function CellMatches(levels: LevelList<Patch>, idx: Index, q: HeightQuery): seq<Hit> {
    if levels == [] then []
    else
      var n := |levels| - 1;
      CellMatches(levels[..n], idx, q) + (if Selects(q, levels[n]) then [Hit(idx, n, levels[n])] else [])
  }

  /** The matches of the cells r.lo.x .. x - 1 of row y. */
  function RowMatches(g: Cells, sz: Size, q: HeightQuery, r: Rect, y: int, x: int): seq<Hit>
    decreases x - r.lo.x
  {
    if x <= r.lo.x then []
    else RowMatches(g, sz, q, r, y, x - 1) + CellMatches(CellAt(g, sz, Index(x - 1, y)), Index(x - 1, y), q)
  }

  /** The matches of the rows r.lo.y .. y - 1 of the rectangle. */
  function RectMatches(g: Cells, sz: Size, q: HeightQuery, r: Rect, y: int): seq<Hit>
    decreases y - r.lo.y
  {
    if y <= r.lo.y then []
    else RectMatches(g, sz, q, r, y - 1) + RowMatches(g, sz, q, r, y - 1, r.hi.x)
  }

  /** Every match of the rectangle, in scan order. */
  function Matches(g: Cells, sz: Size, q: HeightQuery, r: Rect): seq<Hit> {
    RectMatches(g, sz, q, r, r.hi.y)
  }

  /** The reports a callback receives: up to and including the first one it answers with true. */
  function UntilAbort(hs: seq<Hit>, cb: Callback): seq<Hit> {
    if hs == [] then []
    else if cb(hs[0].idx, hs[0].patch) then [hs[0]]
    else [hs[0]] + UntilAbort(hs[1..], cb)
  }

  predicate NoAbort(hs: seq<Hit>, cb: Callback) {
    forall i :: 0 <= i < |hs| ==> !cb(hs[i].idx, hs[i].patch)
  }

  /**
   * intersectAABB_callback's index rectangle: the box's x/y corners divided
   * by the resolution, truncated toward zero, the minimum clamped below at 0
   * and the maximum clamped above at the cell count converted to int (a
   * count of 2^31 or more converts to a negative int).
   */
  function AabbRect(box: Box, res: Vec2, sz: Size): (r: Rect)
    requires res.x > 0.0 && res.y > 0.0
    ensures ScanRect(r, sz)
  {
    Rect(Index(Max(0, Trunc(box.min.x / res.x)), Max(0, Trunc(box.min.y / res.y))),
         Index(Min(ToInt32(sz.w), Trunc(box.max.x / res.x)), Min(ToInt32(sz.h), Trunc(box.max.y / res.y))))
  }

  // ---------------------------------------------------------------------
  // What the scan reports: exactly the genuine hits of the rectangle, in order.
  // ---------------------------------------------------------------------

  lemma OrderedAppend(a: seq<Hit>, b: seq<Hit>)
    requires ScanOrdered(a) && ScanOrdered(b)
    requires forall h, h' :: h in a && h' in b ==> ScanBefore(h, h')
    ensures ScanOrdered(a + b)
  {
    forall i, j | 0 <= i < j < |a + b|
      ensures ScanBefore((a + b)[i], (a + b)[j])
    {
      if j < |a| {
      } else if i >= |a| {
        assert (a + b)[i] == b[i - |a|] && (a + b)[j] == b[j - |a|];
      } else {
        assert (a + b)[i] in a && (a + b)[j] in b;
      }
    }
  }

  lemma {:induction false} CellMatchesSpec(levels: LevelList<Patch>, idx: Index, q: HeightQuery)
    ensures forall h :: h in CellMatches(levels, idx, q) <==>
      h.idx == idx && h.pos < |levels| && h.patch == levels[h.pos] && Selects(q, h.patch)
    ensures ScanOrdered(CellMatches(levels, idx, q))
  {
    if levels != [] {
      var n := |levels| - 1;
      CellMatchesSpec(levels[..n], idx, q);
      var tail := if Selects(q, levels[n]) then [Hit(idx, n, levels[n])] else [];
      OrderedAppend(CellMatches(levels[..n], idx, q), tail);
    }
  }

  /** The matches of cell (x, y) are its genuine hits. */
  lemma CellAtSpec(g: Cells, sz: Size, q: HeightQuery, x: int, y: int)
    requires Shaped(g, sz) && 0 <= x < sz.w && 0 <= y < sz.h
    ensures forall h :: h in CellMatches(CellAt(g, sz, Index(x, y)), Index(x, y), q) <==>
      h.idx == Index(x, y) && Genuine(g, sz, q, h)
  {
    CellMatchesSpec(CellAt(g, sz, Index(x, y)), Index(x, y), q);
  }

  lemma {:induction false} RowMatchesSpec(g: Cells, sz: Size, q: HeightQuery, r: Rect, y: int, x: int)
    requires Shaped(g, sz) && ScanRect(r, sz) && 0 <= y < sz.h && x <= sz.w
    ensures forall h :: h in RowMatches(g, sz, q, r, y, x) <==>
      h.idx.y == y && r.lo.x <= h.idx.x < x && Genuine(g, sz, q, h)
    ensures ScanOrdered(RowMatches(g, sz, q, r, y, x))
    decreases x - r.lo.x
  {
    if x > r.lo.x {
      var before := RowMatches(g, sz, q, r, y, x - 1);
      var cell := CellMatches(CellAt(g, sz, Index(x - 1, y)), Index(x - 1, y), q);
      RowMatchesSpec(g, sz, q, r, y, x - 1);
      CellAtSpec(g, sz, q, x - 1, y);
      CellMatchesSpec(CellAt(g, sz, Index(x - 1, y)), Index(x - 1, y), q);
      assert RowMatches(g, sz, q, r, y, x) == before + cell;
      forall h, h' | h in before && h' in cell
        ensures ScanBefore(h, h')
      {
        assert h.idx.x < x - 1 == h'.idx.x && h.idx.y == h'.idx.y;
      }
      OrderedAppend(before, cell);
    }
  }

  lemma {:induction false} RectMatchesSpec(g: Cells, sz: Size, q: HeightQuery, r: Rect, y: int)
    requires Shaped(g, sz) && ScanRect(r, sz) && y <= sz.h
    ensures forall h :: h in RectMatches(g, sz, q, r, y) <==>
      r.lo.y <= h.idx.y < y && r.lo.x <= h.idx.x < r.hi.x && Genuine(g, sz, q, h)
    ensures ScanOrdered(RectMatches(g, sz, q, r, y))
    decreases y - r.lo.y
  {
    if y > r.lo.y {
      var before := RectMatches(g, sz, q, r, y - 1);
      var row := RowMatches(g, sz, q, r, y - 1, r.hi.x);
      RectMatchesSpec(g, sz, q, r, y - 1);
      RowMatchesSpec(g, sz, q, r, y - 1, r.hi.x);
      assert RectMatches(g, sz, q, r, y) == before + row;
      forall h, h' | h in before && h' in row
        ensures ScanBefore(h, h')
      {
        assert h.idx.y < y - 1 == h'.idx.y;
      }
      OrderedAppend(before, row);
    }
  }

  /**
   * The scan reports a patch exactly when it is stored in a cell of the
   * rectangle and the query selects it, and it reports them y outer, x
   * inner, and in level-list order within a cell.
   */
  lemma MatchesSpec(g: Cells, sz: Size, q: HeightQuery, r: Rect)
    requires Shaped(g, sz) && ScanRect(r, sz)
    ensures forall h :: h in Matches(g, sz, q, r) <==> InRect(h.idx, r) && Genuine(g, sz, q, h)
    ensures ScanOrdered(Matches(g, sz, q, r))
  {
    RectMatchesSpec(g, sz, q, r, r.hi.y);
  }

  /**
   * Every index intersectAABB visits lies in the rectangle
   * max(0, trunc(min / res)) <= idx < min(int(numCells), trunc(max / res)),
   * and so inside the grid, whatever the box.
   */
  lemma AabbVisitsClampedRect(g: Cells, sz: Size, box: Box, res: Vec2, overlap: Overlap)
    requires Shaped(g, sz) && res.x > 0.0 && res.y > 0.0
    ensures forall h :: h in Matches(g, sz, HeightBand(box, overlap), AabbRect(box, res, sz)) ==>
      && Max(0, Trunc(box.min.x / res.x)) <= h.idx.x < Min(ToInt32(sz.w), Trunc(box.max.x / res.x))
      && Max(0, Trunc(box.min.y / res.y)) <= h.idx.y < Min(ToInt32(sz.h), Trunc(box.max.y / res.y))
      && InGrid(h.idx, sz)
  {
    MatchesSpec(g, sz, HeightBand(box, overlap), AabbRect(box, res, sz));
  }

  // ---------------------------------------------------------------------
  // Prefixes and the early exit
  // ---------------------------------------------------------------------

  lemma PrefixTrans(a: seq<Hit>, b: seq<Hit>, c: seq<Hit>)
    requires a <= b && b <= c
    ensures a <= c
  {
    assert c[..|a|] == b[..|a|];
  }

  /** The matches of the first k levels of a cell, and of the first k + 1. */
  lemma CellMatchesStep(cell: LevelList<Patch>, idx: Index, q: HeightQuery, k: nat)
    requires k < |cell|
    ensures CellMatches(cell[..k + 1], idx, q)
      == CellMatches(cell[..k], idx, q) + (if Selects(q, cell[k]) then [Hit(idx, k, cell[k])] else [])
  {
    assert cell[..k + 1][..k] == cell[..k];
  }

  lemma {:induction false} CellMatchesPrefix(cell: LevelList<Patch>, idx: Index, q: HeightQuery, k: nat)
    requires k <= |cell|
    ensures CellMatches(cell[..k], idx, q) <= CellMatches(cell, idx, q)
    decreases |cell| - k
  {
    if k < |cell| {
      CellMatchesPrefix(cell, idx, q, k + 1);
      CellMatchesStep(cell, idx, q, k);
      assert cell[..|cell|] == cell;
      PrefixTrans(CellMatches(cell[..k], idx, q), CellMatches(cell[..k + 1], idx, q), CellMatches(cell, idx, q));
    } else {
      assert cell[..k] == cell;
    }
  }

  lemma {:induction false} RowMatchesPrefix(g: Cells, sz: Size, q: HeightQuery, r: Rect, y: int, x: int, x': int)
    requires r.lo.x <= x <= x'
    ensures RowMatches(g, sz, q, r, y, x) <= RowMatches(g, sz, q, r, y, x')
    decreases x' - x
  {
    if x < x' {
      RowMatchesPrefix(g, sz, q, r, y, x, x' - 1);
      PrefixTrans(RowMatches(g, sz, q, r, y, x), RowMatches(g, sz, q, r, y, x' - 1), RowMatches(g, sz, q, r, y, x'));
    }
  }

  lemma {:induction false} RectMatchesPrefix(g: Cells, sz: Size, q: HeightQuery, r: Rect, y: int, y': int)
    requires r.lo.y <= y <= y'
    ensures RectMatches(g, sz, q, r, y) <= RectMatches(g, sz, q, r, y')
    decreases y' - y
  {
    if y < y' {
      RectMatchesPrefix(g, sz, q, r, y, y' - 1);
      PrefixTrans(RectMatches(g, sz, q, r, y), RectMatches(g, sz, q, r, y' - 1), RectMatches(g, sz, q, r, y'));
    }
  }

  lemma RowMatchesStep(g: Cells, sz: Size, q: HeightQuery, r: Rect, y: int, x: int)
    requires r.lo.x <= x
    ensures RowMatches(g, sz, q, r, y, x + 1)
      == RowMatches(g, sz, q, r, y, x) + CellMatches(CellAt(g, sz, Index(x, y)), Index(x, y), q)
  {
  }

  lemma RectMatchesStep(g: Cells, sz: Size, q: HeightQuery, r: Rect, y: int)
    requires r.lo.y <= y
    ensures RectMatches(g, sz, q, r, y + 1) == RectMatches(g, sz, q, r, y) + RowMatches(g, sz, q, r, y, r.hi.x)
  {
  }

  lemma {:induction false} UntilAbortAll(hs: seq<Hit>, cb: Callback)
    requires NoAbort(hs, cb)
    ensures UntilAbort(hs, cb) == hs
  {
    if hs != [] {
      UntilAbortAll(hs[1..], cb);
    }
  }

  lemma {:induction false} UntilAbortStops(hs: seq<Hit>, p: seq<Hit>, h: Hit, cb: Callback)
    requires p + [h] <= hs && NoAbort(p, cb) && cb(h.idx, h.patch)
    ensures UntilAbort(hs, cb) == p + [h]
  {
    if p != [] {
      assert hs[0] == p[0];
      assert p[1..] + [h] <= hs[1..];
      UntilAbortStops(hs[1..], p[1..], h, cb);
    }
  }

  /** Reports before an aborting part pass through unchanged; nothing after the abort is reported. */
  lemma {:induction false} UntilAbortAfter(p: seq<Hit>, a: seq<Hit>, hs: seq<Hit>, cb: Callback)
    requires p + a <= hs && NoAbort(p, cb) && !NoAbort(a, cb)
    ensures UntilAbort(hs, cb) == p + UntilAbort(a, cb)
    ensures !NoAbort(hs, cb)
  {
    var i :| 0 <= i < |a| && cb(a[i].idx, a[i].patch);
    assert hs[|p| + i] == a[i];
    if p == [] {
      assert hs == a + hs[|a|..];
      UntilAbortPrefix(a, hs[|a|..], cb);
    } else {
      assert hs[0] == p[0];
      assert p[1..] + a <= hs[1..];
      UntilAbortAfter(p[1..], a, hs[1..], cb);
    }
  }

  lemma {:induction false} UntilAbortPrefix(a: seq<Hit>, b: seq<Hit>, cb: Callback)
    requires !NoAbort(a, cb)
    ensures UntilAbort(a + b, cb) == UntilAbort(a, cb)
  {
    if !cb(a[0].idx, a[0].patch) {
      assert (a + b)[1..] == a[1..] + b;
      UntilAbortPrefix(a[1..], b, cb);
    }
  }

  /** A cell of row y whose scan aborted ends the row's scan as UntilAbort says. */
  lemma RowAborted(g: Cells, sz: Size, q: HeightQuery, r: Rect, y: int, x: int,
                   hits: seq<Hit>, cellHits: seq<Hit>, cb: Callback)
    requires r.lo.x <= x < r.hi.x && hits == RowMatches(g, sz, q, r, y, x) && NoAbort(hits, cb)
    requires var cell := CellMatches(CellAt(g, sz, Index(x, y)), Index(x, y), q);
      cellHits == UntilAbort(cell, cb) && !NoAbort(cell, cb)
    ensures hits + cellHits == UntilAbort(RowMatches(g, sz, q, r, y, r.hi.x), cb)
    ensures !NoAbort(RowMatches(g, sz, q, r, y, r.hi.x), cb)
  {
    RowMatchesStep(g, sz, q, r, y, x);
    RowMatchesPrefix(g, sz, q, r, y, x + 1, r.hi.x);
    UntilAbortAfter(hits, CellMatches(CellAt(g, sz, Index(x, y)), Index(x, y), q), RowMatches(g, sz, q, r, y, r.hi.x), cb);
  }

  /** A row scan that ran to its end without an abort reported every match of the row. */
  lemma RowComplete(g: Cells, sz: Size, q: HeightQuery, r: Rect, y: int, x: int, hits: seq<Hit>, cb: Callback)
    requires (x == r.lo.x || r.lo.x <= x <= r.hi.x) && x >= r.hi.x
    requires hits == RowMatches(g, sz, q, r, y, x) && NoAbort(hits, cb)
    ensures hits == RowMatches(g, sz, q, r, y, r.hi.x) && hits == UntilAbort(hits, cb)
  {
    UntilAbortAll(hits, cb);
  }

  /** A row of the rectangle whose scan aborted ends the whole scan as UntilAbort says. */
  lemma RectAborted(g: Cells, sz: Size, q: HeightQuery, r: Rect, y: int,
                    calls: seq<Hit>, rowHits: seq<Hit>, cb: Callback)
    requires r.lo.y <= y < r.hi.y && calls == RectMatches(g, sz, q, r, y) && NoAbort(calls, cb)
    requires rowHits == UntilAbort(RowMatches(g, sz, q, r, y, r.hi.x), cb)
    requires !NoAbort(RowMatches(g, sz, q, r, y, r.hi.x), cb)
    ensures calls + rowHits == UntilAbort(Matches(g, sz, q, r), cb)
  {
    RectMatchesStep(g, sz, q, r, y);
    RectMatchesPrefix(g, sz, q, r, y + 1, r.hi.y);
    UntilAbortAfter(calls, RowMatches(g, sz, q, r, y, r.hi.x), Matches(g, sz, q, r), cb);
  }

  /** A scan that ran to its end without an abort reported every match. */
  lemma RectComplete(g: Cells, sz: Size, q: HeightQuery, r: Rect, y: int, calls: seq<Hit>, cb: Callback)
    requires (y == r.lo.y || r.lo.y <= y <= r.hi.y) && y >= r.hi.y
    requires calls == RectMatches(g, sz, q, r, y) && NoAbort(calls, cb)
    ensures calls == UntilAbort(Matches(g, sz, q, r), cb)
  {
    UntilAbortAll(calls, cb);
  }

  /**
   * The early exit: the callback sees a prefix of the matches; it answered
   * false to every report but the last; and either it saw all of them or its
   * last answer was true, after which it is never called again.
   */
  lemma {:induction false} UntilAbortShape(hs: seq<Hit>, cb: Callback)
    ensures var c := UntilAbort(hs, cb);
      && c <= hs
      && (forall i :: 0 <= i < |c| - 1 ==> !cb(c[i].idx, c[i].patch))
      && (c == hs || (c != [] && cb(c[|c| - 1].idx, c[|c| - 1].patch)))
  {
    if hs != [] && !cb(hs[0].idx, hs[0].patch) {
      UntilAbortShape(hs[1..], cb);
    }
  }

  /** A callback that never aborts sees every match. */
  lemma NeverAbortSeesAll(hs: seq<Hit>)
    ensures UntilAbort(hs, NeverAbort) == hs
  {
    UntilAbortAll(hs, NeverAbort);
  }

  /**
   * The levels of one cell in order: each selected patch is reported to cb
   * until cb answers true. hits are the reports made; aborted says whether
   * the last of them was answered with true.
   */
  method ScanCell(cell: LevelList<Patch>, idx: Index, q: HeightQuery, cb: Callback) returns (hits: seq<Hit>, aborted: bool)
    ensures hits == UntilAbort(CellMatches(cell, idx, q), cb)
    ensures aborted <==> !NoAbort(CellMatches(cell, idx, q), cb)
    ensures !aborted ==> hits == CellMatches(cell, idx, q)
  {
    hits := [];
    var k := 0;
    while k < |cell|
      invariant k <= |cell|
      invariant hits == CellMatches(cell[..k], idx, q)
      invariant NoAbort(hits, cb)
    {
      var p := cell[k];
      CellMatchesStep(cell, idx, q, k);
      if q.overlap(p.min, p.max, q.minHeight, q.maxHeight) {
        ghost var before := hits;
        hits := hits + [Hit(idx, k, p)];
        if cb(idx, p) {
          CellMatchesPrefix(cell, idx, q, k + 1);
          UntilAbortStops(CellMatches(cell, idx, q), before, Hit(idx, k, p), cb);
          assert CellMatches(cell, idx, q)[|before|] == Hit(idx, k, p);
          return hits, true;
        }
      }
      k := k + 1;
    }
    assert cell[..k] == cell;
    UntilAbortAll(hits, cb);
    aborted := false;
  }

  // ---------------------------------------------------------------------
  // intersectCuboid's View, as a specification
  // ---------------------------------------------------------------------

  /** The references a list of hits stands for, in the same order. */
  function Refs(hs: seq<Hit>): seq<PatchRef> {
    seq(|hs|, i requires 0 <= i < |hs| => PatchRef(hs[i].idx, hs[i].pos))
  }

  /** The content of the View cell for source cell idx: references to its selected levels. */
  function CellRefs(g: Cells, sz: Size, q: HeightQuery, idx: Index): LevelList<PatchRef> {
    Refs(CellMatches(CellAt(g, sz, idx), idx, q))
  }

  /** The View cells for the source cells r.lo.x .. x - 1 of row y. */
  function ViewRow(g: Cells, sz: Size, q: HeightQuery, r: Rect, y: int, x: int): seq<LevelList<PatchRef>>
    decreases x - r.lo.x
  {
    if x <= r.lo.x then [] else ViewRow(g, sz, q, r, y, x - 1) + [CellRefs(g, sz, q, Index(x - 1, y))]
  }

  /** The View cells for the rows r.lo.y .. y - 1. */
  function ViewRows(g: Cells, sz: Size, q: HeightQuery, r: Rect, y: int): seq<LevelList<PatchRef>>
    decreases y - r.lo.y
  {
    if y <= r.lo.y then [] else ViewRows(g, sz, q, r, y - 1) + ViewRow(g, sz, q, r, y - 1, r.hi.x)
  }

  /** n View cells holding nothing. */
  function Blank(n: nat): seq<LevelList<PatchRef>> {
    seq(n, _ => [])
  }

  /** The View's size: maxIdx - minIdx stored into a Vector2ui, so each negative component wraps. */
  function CuboidSize(r: Rect): Size {
    Size(ToUInt32(r.hi.x - r.lo.x), ToUInt32(r.hi.y - r.lo.y))
  }

  /**
   * The cells of the View intersectCuboid builds for the corner cells r.lo
   * and r.hi: one cell per source cell of [r.lo, r.hi), in row-major order;
   * when the rectangle is empty on an axis the View keeps its
   * width * height empty cells.
   */
  function CuboidCells(g: Cells, sz: Size, q: HeightQuery, r: Rect): seq<LevelList<PatchRef>> {
    if r.lo.x < r.hi.x && r.lo.y < r.hi.y then ViewRows(g, sz, q, r, r.hi.y)
    else Blank(CuboidSize(r).w * CuboidSize(r).h)
  }

  /** The rectangle the corner cells of intersectCuboid span, with the maximum corner excluded. */
  function CornerRect(minIdx: Index, maxIdx: Index): Rect {
    Rect(minIdx, maxIdx)
  }

  /** All the references a sequence of View cells holds, cell after cell. */
  function Flatten(cs: seq<LevelList<PatchRef>>): seq<PatchRef> {
    if cs == [] then [] else Flatten(cs[..|cs| - 1]) + cs[|cs| - 1]
  }

  lemma {:induction false} FlattenAppend(a: seq<LevelList<PatchRef>>, b: seq<LevelList<PatchRef>>)
    ensures Flatten(a + b) == Flatten(a) + Flatten(b)
    decreases |b|
  {
    if b != [] {
      var n := |b| - 1;
      assert (a + b)[..|a + b| - 1] == a + b[..n];
      FlattenAppend(a, b[..n]);
    } else {
      assert a + b == a;
    }
  }

  lemma RefsAppend(a: seq<Hit>, b: seq<Hit>)
    ensures Refs(a + b) == Refs(a) + Refs(b)
  {
  }

  lemma {:induction false} ViewRowLength(g: Cells, sz: Size, q: HeightQuery, r: Rect, y: int, x: int)
    requires r.lo.x <= x
    ensures |ViewRow(g, sz, q, r, y, x)| == x - r.lo.x
    decreases x - r.lo.x
  {
    if x > r.lo.x {
      ViewRowLength(g, sz, q, r, y, x - 1);
    }
  }

  lemma {:induction false} ViewRowsLength(g: Cells, sz: Size, q: HeightQuery, r: Rect, y: int)
    requires r.lo.x <= r.hi.x && r.lo.y <= y
    ensures |ViewRows(g, sz, q, r, y)| == (y - r.lo.y) * (r.hi.x - r.lo.x)
    decreases y - r.lo.y
  {
    if y > r.lo.y {
      ViewRowsLength(g, sz, q, r, y - 1);
      ViewRowLength(g, sz, q, r, y - 1, r.hi.x);
      MulNext(y - 1 - r.lo.y, r.hi.x - r.lo.x);
    }
  }

  /** The View cell for source cell (x, y) sits at position (y - lo.y) * width + (x - lo.x) of the row-so-far. */
  lemma {:induction false} ViewRowAt(g: Cells, sz: Size, q: HeightQuery, r: Rect, y: int, x: int, x': int)
    requires r.lo.x <= x' < x
    ensures |ViewRow(g, sz, q, r, y, x)| == x - r.lo.x
    ensures ViewRow(g, sz, q, r, y, x)[x' - r.lo.x] == CellRefs(g, sz, q, Index(x', y))
    decreases x - r.lo.x
  {
    var prev := ViewRow(g, sz, q, r, y, x - 1);
    var last := CellRefs(g, sz, q, Index(x - 1, y));
    ViewRowLength(g, sz, q, r, y, x - 1);
    assert ViewRow(g, sz, q, r, y, x) == prev + [last];
    if x' < x - 1 {
      ViewRowAt(g, sz, q, r, y, x - 1, x');
      assert (prev + [last])[x' - r.lo.x] == prev[x' - r.lo.x];
    } else {
      assert (prev + [last])[|prev|] == last;
    }
  }

  lemma {:induction false} ViewRowsPrefix(g: Cells, sz: Size, q: HeightQuery, r: Rect, y: int, y': int)
    requires r.lo.y <= y <= y'
    ensures ViewRows(g, sz, q, r, y) <= ViewRows(g, sz, q, r, y')
    decreases y' - y
  {
    if y < y' {
      ViewRowsPrefix(g, sz, q, r, y, y' - 1);
      var a, b, c := ViewRows(g, sz, q, r, y), ViewRows(g, sz, q, r, y' - 1), ViewRows(g, sz, q, r, y');
      assert c[..|a|] == b[..|a|];
    }
  }

  /** Within the full View, the cell for source cell (x', y') follows the rows before y'. */
  lemma ViewRowsAt(g: Cells, sz: Size, q: HeightQuery, r: Rect, x': int, y': int)
    requires r.lo.x <= x' < r.hi.x && r.lo.y <= y' < r.hi.y
    ensures |ViewRows(g, sz, q, r, y')| + (x' - r.lo.x) < |ViewRows(g, sz, q, r, r.hi.y)|
    ensures ViewRows(g, sz, q, r, r.hi.y)[|ViewRows(g, sz, q, r, y')| + (x' - r.lo.x)] == CellRefs(g, sz, q, Index(x', y'))
  {
    ViewRowsPrefix(g, sz, q, r, y' + 1, r.hi.y);
    ViewRowAt(g, sz, q, r, y', r.hi.x, x');
    var row := ViewRow(g, sz, q, r, y', r.hi.x);
    assert ViewRows(g, sz, q, r, y' + 1) == ViewRows(g, sz, q, r, y') + row;
  }

  /**
   * A non-empty View holds, at the position of view index v, exactly the
   * references to the selected levels of source cell r.lo + v.
   */
  lemma CuboidCellAt(g: Cells, sz: Size, q: HeightQuery, r: Rect, v: Index)
    requires r.lo.x < r.hi.x && r.lo.y < r.hi.y && ScanRect(r, sz) && InGrid(v, CuboidSize(r))
    ensures |CuboidCells(g, sz, q, r)| == CuboidSize(r).w * CuboidSize(r).h
    ensures CuboidCells(g, sz, q, r)[Offset(v, CuboidSize(r))]
      == CellRefs(g, sz, q, Index(r.lo.x + v.x, r.lo.y + v.y))
  {
    var w := CuboidSize(r).w;
    var y' := r.lo.y + v.y;
    ViewRowsLength(g, sz, q, r, r.hi.y);
    ViewRowsLength(g, sz, q, r, y');
    assert (y' - r.lo.y) * (r.hi.x - r.lo.x) == v.y * w;
    assert (r.hi.y - r.lo.y) * (r.hi.x - r.lo.x) == CuboidSize(r).h * w;
    ViewRowsAt(g, sz, q, r, r.lo.x + v.x, y');
  }

  /** A reference is in a View cell exactly when it names a selected level of that source cell. */
  lemma CellRefsSpec(g: Cells, sz: Size, q: HeightQuery, idx: Index)
    requires Shaped(g, sz) && InGrid(idx, sz)
    ensures forall ref :: ref in CellRefs(g, sz, q, idx) <==>
      ref.cell == idx && ref.pos < |CellAt(g, sz, idx)| && Selects(q, CellAt(g, sz, idx)[ref.pos])
  {
    var hs := CellMatches(CellAt(g, sz, idx), idx, q);
    CellMatchesSpec(CellAt(g, sz, idx), idx, q);
    forall ref
      ensures ref in CellRefs(g, sz, q, idx) <==>
        ref.cell == idx && ref.pos < |CellAt(g, sz, idx)| && Selects(q, CellAt(g, sz, idx)[ref.pos])
    {
      if ref.cell == idx && ref.pos < |CellAt(g, sz, idx)| && Selects(q, CellAt(g, sz, idx)[ref.pos]) {
        var h := Hit(idx, ref.pos, CellAt(g, sz, idx)[ref.pos]);
        var i :| 0 <= i < |hs| && hs[i] == h;
        assert Refs(hs)[i] == ref;
      }
    }
  }

  lemma {:induction false} ViewRowFlatten(g: Cells, sz: Size, q: HeightQuery, r: Rect, y: int, x: int)
    ensures Flatten(ViewRow(g, sz, q, r, y, x)) == Refs(RowMatches(g, sz, q, r, y, x))
    decreases x - r.lo.x
  {
    if x > r.lo.x {
      ViewRowFlatten(g, sz, q, r, y, x - 1);
      var c := CellRefs(g, sz, q, Index(x - 1, y));
      FlattenAppend(ViewRow(g, sz, q, r, y, x - 1), [c]);
      assert Flatten([c]) == Flatten([]) + c;
      RefsAppend(RowMatches(g, sz, q, r, y, x - 1), CellMatches(CellAt(g, sz, Index(x - 1, y)), Index(x - 1, y), q));
    }
  }

  lemma {:induction false} ViewRowsFlatten(g: Cells, sz: Size, q: HeightQuery, r: Rect, y: int)
    ensures Flatten(ViewRows(g, sz, q, r, y)) == Refs(RectMatches(g, sz, q, r, y))
    decreases y - r.lo.y
  {
    if y > r.lo.y {
      ViewRowsFlatten(g, sz, q, r, y - 1);
      ViewRowFlatten(g, sz, q, r, y - 1, r.hi.x);
      FlattenAppend(ViewRows(g, sz, q, r, y - 1), ViewRow(g, sz, q, r, y - 1, r.hi.x));
      RefsAppend(RectMatches(g, sz, q, r, y - 1), RowMatches(g, sz, q, r, y - 1, r.hi.x));
    }
  }

  lemma {:induction false} BlankFlatten(n: nat)
    ensures Flatten(Blank(n)) == []
  {
    if n > 0 {
      assert Blank(n)[..n - 1] == Blank(n - 1);
      BlankFlatten(n - 1);
    }
  }

  /**
   * Read cell after cell, the View holds the references of exactly the
   * matches intersectAABB's scan would report over the same rectangle, in
   * the same order; in particular their number is the count intersectCuboid
   * returns. An empty rectangle has no matches and leaves every View cell empty.
   */
  lemma CuboidFlattensToMatches(g: Cells, sz: Size, q: HeightQuery, r: Rect)
    ensures Flatten(CuboidCells(g, sz, q, r)) == Refs(Matches(g, sz, q, r))
    ensures !(r.lo.x < r.hi.x && r.lo.y < r.hi.y) ==>
      Matches(g, sz, q, r) == [] && forall c :: c in CuboidCells(g, sz, q, r) ==> c == []
  {
    if r.lo.x < r.hi.x && r.lo.y < r.hi.y {
      ViewRowsFlatten(g, sz, q, r, r.hi.y);
    } else {
      var n := CuboidSize(r).w * CuboidSize(r).h;
      BlankFlatten(n);
      EmptyRectNoMatches(g, sz, q, r, r.hi.y);
    }
  }

  lemma {:induction false} EmptyRectNoMatches(g: Cells, sz: Size, q: HeightQuery, r: Rect, y: int)
    requires !(r.lo.x < r.hi.x && r.lo.y < r.hi.y) && y <= r.hi.y
    ensures RectMatches(g, sz, q, r, y) == [] && Refs([]) == []
    decreases y - r.lo.y
  {
    if y > r.lo.y {
      EmptyRectNoMatches(g, sz, q, r, y - 1);
    }
  }

  /** The View has one cell per cell of the size it is created with. */
  lemma CuboidCellsLength(g: Cells, sz: Size, q: HeightQuery, r: Rect)
    requires ScanRect(r, sz)
    ensures |CuboidCells(g, sz, q, r)| == CuboidSize(r).w * CuboidSize(r).h
  {
    if r.lo.x < r.hi.x && r.lo.y < r.hi.y {
      CuboidCellAt(g, sz, q, r, Index(0, 0));
    }
  }

  /** For corners inside the grid, in order, the View size is the plain difference of the corners. */
  lemma CuboidSizeExact(r: Rect, sz: Size)
    requires ScanRect(r, sz) && r.lo.x < r.hi.x && r.lo.y < r.hi.y
    ensures CuboidSize(r).w as int == r.hi.x - r.lo.x && CuboidSize(r).h as int == r.hi.y - r.lo.y
  {
  }

  /** Filling the first blank cell of a partly filled View with its intended content. */
  lemma FillNext(cs: seq<LevelList<PatchRef>>, k: nat)
    requires k < |cs|
    ensures (cs[..k] + Blank(|cs| - k))[k] == []
    ensures (cs[..k] + Blank(|cs| - k))[k := cs[k]] == cs[..k + 1] + Blank(|cs| - (k + 1))
  {
    assert (cs[..k] + Blank(|cs| - k))[k := cs[k]] == cs[..k + 1] + Blank(|cs| - (k + 1));
  }

  lemma FlattenNext(cs: seq<LevelList<PatchRef>>, k: nat)
    requires k < |cs|
    ensures Flatten(cs[..k + 1]) == Flatten(cs[..k]) + cs[k]
  {
    assert cs[..k + 1][..k] == cs[..k];
  }

  /** A row of w cells starting at row y of h rows still fits in the View. */
  lemma RowFits(k: int, row: int, w: nat, h: nat)
    requires 0 <= row < h && k == row * w
    ensures k + w <= w * h
  {
    MulStep(row, h - 1, w);
  }

  /** The intended contents of row y of the View, read off the whole View's intended contents. */
  lemma RowTargets(g: Cells, sz: Size, q: HeightQuery, r: Rect, y: int, k: nat, cs: seq<LevelList<PatchRef>>, vs: Size)
    requires r.lo.x < r.hi.x && r.lo.y <= y < r.hi.y
    requires vs.w as int == r.hi.x - r.lo.x && vs.h as int == r.hi.y - r.lo.y
    requires k == (y - r.lo.y) * vs.w && |cs| == vs.w * vs.h
    requires forall v :: InGrid(v, vs) ==> cs[Offset(v, vs)] == CellRefs(g, sz, q, Index(r.lo.x + v.x, r.lo.y + v.y))
    ensures k + vs.w <= |cs|
    ensures forall x' :: r.lo.x <= x' < r.hi.x ==> cs[k + (x' - r.lo.x)] == CellRefs(g, sz, q, Index(x', y))
  {
    RowFits(k, y - r.lo.y, vs.w, vs.h);
    forall x' | r.lo.x <= x' < r.hi.x
      ensures cs[k + (x' - r.lo.x)] == CellRefs(g, sz, q, Index(x', y))
    {
      var v := Index(x' - r.lo.x, y - r.lo.y);
      assert InGrid(v, vs);
      assert Offset(v, vs) == k + (x' - r.lo.x);
    }
  }

  lemma MulNext(a: int, w: nat)
    ensures (a + 1) * w == a * w + w
  {
  }

  /** After the last row the filled part of the View is all of it; nothing is filled for an empty rectangle. */
  lemma ViewFilled(cs: seq<LevelList<PatchRef>>, k: nat, r: Rect, y: int, vs: Size)
    requires (y == r.lo.y || r.lo.y <= y <= r.hi.y) && y >= r.hi.y
    requires k == (if r.lo.x < r.hi.x then (y - r.lo.y) * vs.w else 0) && k <= |cs|
    requires |cs| == vs.w * vs.h
    requires r.lo.x < r.hi.x && r.lo.y < r.hi.y ==>
      vs.w as int == r.hi.x - r.lo.x && vs.h as int == r.hi.y - r.lo.y
    ensures r.lo.x < r.hi.x && r.lo.y < r.hi.y ==> cs[..k] == cs
    ensures !(r.lo.x < r.hi.x && r.lo.y < r.hi.y) ==> k == 0
  {
    if r.lo.x < r.hi.x && r.lo.y < r.hi.y {
      assert k == |cs|;
    }
  }

  /** The View intersectCuboid fills holds its intended content and the matches. */
  lemma CuboidFilled(g: Cells, sz: Size, q: HeightQuery, r: Rect, cs: seq<LevelList<PatchRef>>)
    requires ScanRect(r, sz) && cs == CuboidCells(g, sz, q, r)
    ensures !(r.lo.x < r.hi.x && r.lo.y < r.hi.y) ==> cs == Blank(|cs|) && |Matches(g, sz, q, r)| == 0
    ensures |Flatten(cs)| == |Matches(g, sz, q, r)|
  {
    CuboidFlattensToMatches(g, sz, q, r);
    if !(r.lo.x < r.hi.x && r.lo.y < r.hi.y) {
      assert cs == Blank(|cs|);
    }
  }

  // ---------------------------------------------------------------------
  // The grid and its queries
  // ---------------------------------------------------------------------

  class MultiLevelGridMap {
    const grid: GridMap<LevelList<Patch>>

    ghost predicate Valid()
      reads this, grid
    {
      grid.Valid()
    }

    /** A grid of the given size and resolution whose cells hold no patches. */
    constructor (numCells: Size, resolution: Vec2)
      ensures Valid() && fresh(grid) && fresh(grid.cells)
      ensures grid.numCells == numCells && grid.resolution == resolution && grid.defaultValue == []
      ensures forall i :: 0 <= i < grid.cells.Length ==> grid.cells[i] == []
    {
      grid := new GridMap(numCells, resolution, []);
    }

    /** The default-constructed grid: no cells. */
    constructor Empty()
      ensures Valid() && fresh(grid) && fresh(grid.cells)
      ensures grid.numCells == Size(0, 0) && grid.defaultValue == []
    {
      grid := new GridMap.Empty([]);
    }

    /** A copy of another multi-level grid, with cell storage of its own. */
    constructor CopyOf(other: MultiLevelGridMap)
      requires other.Valid()
      ensures Valid() && fresh(grid) && fresh(grid.cells)
      ensures grid.numCells == other.grid.numCells && grid.resolution == other.grid.resolution
      ensures grid.cells[..] == other.grid.cells[..]
    {
      grid := new GridMap.Copy(other.grid);
    }

    /**
     * One row of the scan: the cells r.lo.x .. r.hi.x - 1 of row y in order,
     * each scanned as ScanCell does; hits are the reports made and aborted
     * says whether the callback ended the scan.
     */
    method ScanRow(r: Rect, y: int, q: HeightQuery, cb: Callback) returns (hits: seq<Hit>, aborted: bool)
      requires Valid() && ScanRect(r, grid.numCells) && r.lo.y <= y < r.hi.y
      ensures hits == UntilAbort(RowMatches(grid.cells[..], grid.numCells, q, r, y, r.hi.x), cb)
      ensures aborted <==> !NoAbort(RowMatches(grid.cells[..], grid.numCells, q, r, y, r.hi.x), cb)
      ensures !aborted ==> hits == RowMatches(grid.cells[..], grid.numCells, q, r, y, r.hi.x)
    {
      ghost var g := grid.cells[..];
      var sz := grid.numCells;
      hits := [];
      var x := r.lo.x;
      while x < r.hi.x
        invariant x == r.lo.x || r.lo.x <= x <= r.hi.x
        invariant hits == RowMatches(g, sz, q, r, y, x)
        invariant NoAbort(hits, cb)
      {
        var curIdx := Index(x, y);
        var cell := grid.cells[Offset(curIdx, sz)];
        assert cell == CellAt(g, sz, curIdx);
        var cellHits, cellAborted := ScanCell(cell, curIdx, q, cb);
        if cellAborted {
          RowAborted(g, sz, q, r, y, x, hits, cellHits, cb);
          return hits + cellHits, true;
        }
        RowMatchesStep(g, sz, q, r, y, x);
        hits := hits + cellHits;
        x := x + 1;
      }
      RowComplete(g, sz, q, r, y, x, hits, cb);
      aborted := false;
    }

    /**
     * The scan shared by the intersection queries: the rectangle's cells, y
     * outer and x inner, each cell's levels in order; every selected patch is
     * reported to cb, and an answer true ends the scan at once. The result is
     * the sequence of reports the callback received.
     */
    method Scan(r: Rect, q: HeightQuery, cb: Callback) returns (calls: seq<Hit>)
      requires Valid() && ScanRect(r, grid.numCells)
      ensures calls == UntilAbort(Matches(grid.cells[..], grid.numCells, q, r), cb)
    {
      ghost var g := grid.cells[..];
      var sz := grid.numCells;
      calls := [];
      var y := r.lo.y;
      while y < r.hi.y
        invariant y == r.lo.y || r.lo.y <= y <= r.hi.y
        invariant calls == RectMatches(g, sz, q, r, y)
        invariant NoAbort(calls, cb)
      {
        var rowHits, rowAborted := ScanRow(r, y, q, cb);
        if rowAborted {
          RectAborted(g, sz, q, r, y, calls, rowHits, cb);
          calls := calls + rowHits;
          return;
        }
        RectMatchesStep(g, sz, q, r, y);
        calls := calls + rowHits;
        y := y + 1;
      }
      RectComplete(g, sz, q, r, y, calls, cb);
    }

    /**
     * intersectAABB_callback: scans the clamped index rectangle under the
     * box and reports every patch overlapping [box.min.z, box.max.z]; the
     * result is the sequence of calls made to cb, which ends at the first
     * call answered with true.
     */
    method IntersectAABBCallback(box: Box, overlap: Overlap, cb: Callback) returns (calls: seq<Hit>)
      requires Valid() && grid.resolution.x > 0.0 && grid.resolution.y > 0.0
      ensures calls == UntilAbort(Matches(grid.cells[..], grid.numCells, HeightBand(box, overlap),
                                          AabbRect(box, grid.resolution, grid.numCells)), cb)
      ensures forall h :: h in calls ==>
        InRect(h.idx, AabbRect(box, grid.resolution, grid.numCells))
        && Genuine(grid.cells[..], grid.numCells, HeightBand(box, overlap), h)
    {
      var r := AabbRect(box, grid.resolution, grid.numCells);
      calls := Scan(r, HeightBand(box, overlap), cb);
      MatchesSpec(grid.cells[..], grid.numCells, HeightBand(box, overlap), r);
      UntilAbortShape(Matches(grid.cells[..], grid.numCells, HeightBand(box, overlap), r), cb);
    }

    /**
     * intersectAABB: every (index, patch reference) the callback scan
     * reports, collected in order; the collecting callback never aborts, so
     * nothing is dropped.
     */
    method IntersectAABB(box: Box, overlap: Overlap) returns (ret: seq<Hit>)
      requires Valid() && grid.resolution.x > 0.0 && grid.resolution.y > 0.0
      ensures ret == Matches(grid.cells[..], grid.numCells, HeightBand(box, overlap),
                             AabbRect(box, grid.resolution, grid.numCells))
      ensures forall h :: h in ret <==>
        InRect(h.idx, AabbRect(box, grid.resolution, grid.numCells))
        && Genuine(grid.cells[..], grid.numCells, HeightBand(box, overlap), h)
      ensures ScanOrdered(ret)
    {
      ret := IntersectAABBCallback(box, overlap, NeverAbort);
      var r := AabbRect(box, grid.resolution, grid.numCells);
      NeverAbortSeesAll(Matches(grid.cells[..], grid.numCells, HeightBand(box, overlap), r));
      MatchesSpec(grid.cells[..], grid.numCells, HeightBand(box, overlap), r);
    }

    /**
     * The innermost loop of intersectCuboid for source cell idx: a
     * reference to each selected level is inserted into View cell off, the
     * first cell not yet filled, which then holds its intended content
     * cs[off]; n counts the references.
     */
    method FillCell(view: View, off: nat, idx: Index, q: HeightQuery, ghost cs: seq<LevelList<PatchRef>>)
      returns (n: nat)
      requires Valid() && InGrid(idx, grid.numCells)
      requires off < |cs| == view.cells.Length
      requires cs[off] == CellRefs(grid.cells[..], grid.numCells, q, idx)
      requires view.cells[..] == cs[..off] + Blank(|cs| - off)
      modifies view.cells
      ensures view.cells[..] == cs[..off + 1] + Blank(|cs| - (off + 1))
      ensures n == |cs[off]|
    {
      ghost var before := view.cells[..];
      FillNext(cs, off);
      var cell := grid.cells[Offset(idx, grid.numCells)];
      assert cell == CellAt(grid.cells[..], grid.numCells, idx);
      assert cell[..0] == [] && Refs([]) == [];
      assert before[off := []] == before;
      n := 0;
      var k := 0;
      while k < |cell|
        invariant k <= |cell|
        invariant view.cells[..] == before[off := Refs(CellMatches(cell[..k], idx, q))]
        invariant n == |CellMatches(cell[..k], idx, q)|
      {
        var p := cell[k];
        CellMatchesStep(cell, idx, q, k);
        if q.overlap(p.min, p.max, q.minHeight, q.maxHeight) {
          RefsAppend(CellMatches(cell[..k], idx, q), [Hit(idx, k, p)]);
          assert Refs([Hit(idx, k, p)]) == [PatchRef(idx, k)];
          ghost var pre := view.cells[..];
          assert view.cells[off] == Refs(CellMatches(cell[..k], idx, q));
          view.cells[off] := view.cells[off] + [PatchRef(idx, k)];
          assert view.cells[..] == pre[off := Refs(CellMatches(cell[..k + 1], idx, q))];
          n := n + 1;
        } else {
          assert CellMatches(cell[..k + 1], idx, q) == CellMatches(cell[..k], idx, q);
        }
        k := k + 1;
      }
      assert cell[..k] == cell;
    }

    /**
     * One row y of intersectCuboid: the View cells k .. k + w - 1 of the
     * row are filled in order; n counts the references inserted.
     */
    method FillRow(view: View, r: Rect, y: int, q: HeightQuery, ghost cs: seq<LevelList<PatchRef>>, ghost k: nat)
      returns (n: nat)
      requires Valid() && ScanRect(r, grid.numCells) && r.lo.y <= y < r.hi.y
      requires |cs| == view.cells.Length && k <= |cs|
      requires r.lo.x < r.hi.x ==>
        && view.numCells.w as int == r.hi.x - r.lo.x && view.numCells.h as int == r.hi.y - r.lo.y
        && k == (y - r.lo.y) * view.numCells.w && k + view.numCells.w <= |cs|
        && forall x' :: r.lo.x <= x' < r.hi.x ==>
          cs[k + (x' - r.lo.x)] == CellRefs(grid.cells[..], grid.numCells, q, Index(x', y))
      requires view.cells[..] == cs[..k] + Blank(|cs| - k)
      modifies view.cells
      ensures r.lo.x < r.hi.x ==>
        && k + view.numCells.w <= |cs|
        && view.cells[..] == cs[..k + view.numCells.w] + Blank(|cs| - (k + view.numCells.w))
        && |Flatten(cs[..k])| + n == |Flatten(cs[..k + view.numCells.w])|
      ensures r.hi.x <= r.lo.x ==> view.cells[..] == old(view.cells[..]) && n == 0
    {
      ghost var g := grid.cells[..];
      n := 0;
      var x := r.lo.x;
      while x < r.hi.x
        invariant x == r.lo.x || r.lo.x <= x <= r.hi.x
        invariant grid.cells[..] == g
        invariant k + (x - r.lo.x) <= |cs|
        invariant r.lo.x < r.hi.x ==> k + view.numCells.w <= |cs|
        invariant view.cells[..] == cs[..k + (x - r.lo.x)] + Blank(|cs| - (k + (x - r.lo.x)))
        invariant |Flatten(cs[..k])| + n == |Flatten(cs[..k + (x - r.lo.x)])|
      {
        var v := Index(x - r.lo.x, y - r.lo.y);
        var off := Offset(v, view.numCells);
        assert off == k + (x - r.lo.x);
        FlattenNext(cs, off);
        var cellCount := FillCell(view, off, Index(x, y), q, cs);
        n := n + cellCount;
        x := x + 1;
      }
    }

    /**
     * intersectCuboid(box, outNumIntersections): maps the box's corners to
     * cells; if either lies outside the grid the result is a default View
     * and no intersection. Otherwise the View spans maxIdx - minIdx cells
     * (maxIdx excluded), holds at each cell the references to the selected
     * levels of the corresponding source cell, and the count is the number
     * of references inserted.
     */
    method IntersectCuboidCounted(box: Box, overlap: Overlap, toGrid: Point3 -> Option<Index>)
      returns (view: View, outNumIntersections: nat)
      requires Valid()
      requires toGrid(box.min).Some? ==> InGrid(toGrid(box.min).value, grid.numCells)
      requires toGrid(box.max).Some? ==> InGrid(toGrid(box.max).value, grid.numCells)
      ensures fresh(view) && fresh(view.cells) && view.Valid() && view.defaultValue == []
      ensures toGrid(box.min).None? || toGrid(box.max).None? ==>
        view.numCells == Size(0, 0) && view.cells.Length == 0 && outNumIntersections == 0
      ensures toGrid(box.min).Some? && toGrid(box.max).Some? ==>
        var r := CornerRect(toGrid(box.min).value, toGrid(box.max).value);
        && view.numCells == CuboidSize(r) && view.resolution == grid.resolution
        && view.cells[..] == CuboidCells(grid.cells[..], grid.numCells, HeightBand(box, overlap), r)
        && outNumIntersections == |Matches(grid.cells[..], grid.numCells, HeightBand(box, overlap), r)|
    {
      outNumIntersections := 0;
      var q := HeightBand(box, overlap);
      var minIdx := toGrid(box.min);
      if minIdx.None? {
        view := new GridMap.Empty([]);
        return;
      }
      var maxIdx := toGrid(box.max);
      if maxIdx.None? {
        view := new GridMap.Empty([]);
        return;
      }
      var r := CornerRect(minIdx.value, maxIdx.value);
      ghost var g := grid.cells[..];
      var sz := grid.numCells;
      ghost var cs := CuboidCells(g, sz, q, r);
      CuboidCellsLength(g, sz, q, r);
      view := new GridMap(CuboidSize(r), grid.resolution, []);
      assert view.cells[..] == Blank(|cs|);
      if r.lo.x < r.hi.x && r.lo.y < r.hi.y {
        CuboidSizeExact(r, sz);
        forall v | InGrid(v, CuboidSize(r))
          ensures cs[Offset(v, CuboidSize(r))] == CellRefs(g, sz, q, Index(r.lo.x + v.x, r.lo.y + v.y))
        {
          CuboidCellAt(g, sz, q, r, v);
        }
      }
      outNumIntersections := FillView(view, r, q, cs);
      CuboidFilled(g, sz, q, r, cs);
    }

    /**
     * The loops of intersectCuboid over the rows and columns of rectangle
     * r: every View cell ends up with its intended content cs, and the
     * count is the number of references inserted. When r is empty on an
     * axis nothing is filled.
     */
    method FillView(view: View, r: Rect, q: HeightQuery, ghost cs: seq<LevelList<PatchRef>>) returns (count: nat)
      requires Valid() && ScanRect(r, grid.numCells)
      requires |cs| == view.cells.Length == view.numCells.w * view.numCells.h
      requires r.lo.x < r.hi.x && r.lo.y < r.hi.y ==>
        && view.numCells.w as int == r.hi.x - r.lo.x && view.numCells.h as int == r.hi.y - r.lo.y
        && forall v :: InGrid(v, view.numCells) ==>
          cs[Offset(v, view.numCells)] == CellRefs(grid.cells[..], grid.numCells, q, Index(r.lo.x + v.x, r.lo.y + v.y))
      requires view.cells[..] == Blank(|cs|)
      modifies view.cells
      ensures r.lo.x < r.hi.x && r.lo.y < r.hi.y ==> view.cells[..] == cs && count == |Flatten(cs)|
      ensures !(r.lo.x < r.hi.x && r.lo.y < r.hi.y) ==> view.cells[..] == Blank(|cs|) && count == 0
    {
      ghost var g := grid.cells[..];
      assert view.cells[..] == cs[..0] + Blank(|cs|);
      count := 0;
      ghost var k: nat := 0;
      var y := r.lo.y;
      while y < r.hi.y
        invariant y == r.lo.y || r.lo.y <= y <= r.hi.y
        invariant grid.cells[..] == g
        invariant k <= |cs|
        invariant k == (if r.lo.x < r.hi.x then (y - r.lo.y) * view.numCells.w else 0)
        invariant view.cells[..] == cs[..k] + Blank(|cs| - k)
        invariant count == |Flatten(cs[..k])|
      {
        if r.lo.x < r.hi.x {
          RowTargets(grid.cells[..], grid.numCells, q, r, y, k, cs, view.numCells);
        }
        var rowCount := FillRow(view, r, y, q, cs, k);
        count := count + rowCount;
        if r.lo.x < r.hi.x {
          MulNext(y - r.lo.y, view.numCells.w);
          k := k + view.numCells.w;
        }
        y := y + 1;
      }
      ViewFilled(cs, k, r, y, view.numCells);
    }

    /** intersectCuboid(box): the same View, the count discarded. */
    method IntersectCuboid(box: Box, overlap: Overlap, toGrid: Point3 -> Option<Index>) returns (view: View)
      requires Valid()
      requires toGrid(box.min).Some? ==> InGrid(toGrid(box.min).value, grid.numCells)
      requires toGrid(box.max).Some? ==> InGrid(toGrid(box.max).value, grid.numCells)
      ensures fresh(view) && fresh(view.cells) && view.Valid() && view.defaultValue == []
      ensures toGrid(box.min).None? || toGrid(box.max).None? ==> view.numCells == Size(0, 0)
      ensures toGrid(box.min).Some? && toGrid(box.max).Some? ==>
        var r := CornerRect(toGrid(box.min).value, toGrid(box.max).value);
        && view.numCells == CuboidSize(r) && view.resolution == grid.resolution
        && view.cells[..] == CuboidCells(grid.cells[..], grid.numCells, HeightBand(box, overlap), r)
    {
      var ignore;
      view, ignore := IntersectCuboidCounted(box, overlap, toGrid);
    }
  }

  // ---------------------------------------------------------------------
  // Two patches in one cell: intersectAABB on a 1 x 1 grid.
  // ---------------------------------------------------------------------

  /** A rectangle of one cell reports exactly that cell's matches. */
  lemma SingleCellMatches(g: Cells, sz: Size, q: HeightQuery, r: Rect)
    requires r.hi.x == r.lo.x + 1 && r.hi.y == r.lo.y + 1
    ensures Matches(g, sz, q, r) == CellMatches(CellAt(g, sz, r.lo), r.lo, q)
  {
    RowMatchesStep(g, sz, q, r, r.lo.y, r.lo.x);
    assert Index(r.lo.x, r.lo.y) == r.lo;
    assert RectMatches(g, sz, q, r, r.hi.y) == RectMatches(g, sz, q, r, r.lo.y) + RowMatches(g, sz, q, r, r.lo.y, r.hi.x);
  }

  lemma ExampleRect(box: Box)
    requires box.min.x == 0.0 && box.min.y == 0.0 && box.max.x == 1.0 && box.max.y == 1.0
    ensures AabbRect(box, Vec2(1.0, 1.0), Size(1, 1)) == Rect(Index(0, 0), Index(1, 1))
  {
    assert box.min.x / 1.0 == 0.0 && box.max.x / 1.0 == 1.0;
  }

  /**
   * The upper corner is exclusive: the cell holding box.max is never
   * visited, so a box whose maximum lies in the first column or the first
   * row of cells reports nothing, whatever the patches there.
   */
  lemma AabbSkipsMaxCell(g: Cells, sz: Size, q: HeightQuery, box: Box, res: Vec2)
    requires res.x > 0.0 && res.y > 0.0
    requires 0.0 <= box.max.x < res.x || 0.0 <= box.max.y < res.y
    ensures Matches(g, sz, q, AabbRect(box, res, sz)) == []
  {
    var r := AabbRect(box, res, sz);
    if 0.0 <= box.max.x < res.x {
      DivBelowOne(box.max.x, res.x);
      assert r.hi.x <= 0 <= r.lo.x;
    } else {
      DivBelowOne(box.max.y, res.y);
      assert r.hi.y <= 0 <= r.lo.y;
    }
    EmptyRectNoMatches(g, sz, q, r, r.hi.y);
  }

  /**
   * A cell count of 2^31 or more converts to a negative int, so the
   * clamped maximum falls below the clamped minimum and nothing is scanned.
   */
  lemma AabbWideGridScansNothing(g: Cells, sz: Size, q: HeightQuery, box: Box, res: Vec2)
    requires res.x > 0.0 && res.y > 0.0
    requires 0x8000_0000 <= sz.w || 0x8000_0000 <= sz.h
    ensures Matches(g, sz, q, AabbRect(box, res, sz)) == []
  {
    var r := AabbRect(box, res, sz);
    assert r.hi.x < 0 <= r.lo.x || r.hi.y < 0 <= r.lo.y;
    EmptyRectNoMatches(g, sz, q, r, r.hi.y);
  }

  lemma DivBelowOne(a: real, b: real)
    requires 0.0 <= a < b
    ensures 0.0 <= a / b < 1.0
  {
    assert a / b * b == a;
  }

  lemma ExampleCellBoth(cell: LevelList<Patch>, q: HeightQuery)
    requires cell == [Patch(0.0, 1.0), Patch(2.0, 3.0)]
    requires q == HeightQuery(0.5, 2.5, ClosedOverlap)
    ensures CellMatches(cell, Index(0, 0), q) == [Hit(Index(0, 0), 0, cell[0]), Hit(Index(0, 0), 1, cell[1])]
  {
    assert cell[..1] == [cell[0]] && cell[..1][..0] == [];
    assert CellMatches(cell[..1], Index(0, 0), q) == [Hit(Index(0, 0), 0, cell[0])];
  }

  lemma ExampleCellNone(cell: LevelList<Patch>, q: HeightQuery)
    requires cell == [Patch(0.0, 1.0), Patch(2.0, 3.0)]
    requires q == HeightQuery(1.5, 1.9, ClosedOverlap)
    ensures CellMatches(cell, Index(0, 0), q) == []
  {
    assert cell[..1] == [cell[0]] && cell[..1][..0] == [];
    assert CellMatches(cell[..1], Index(0, 0), q) == [];
  }

  /**
   * Cell (0, 0) of a 1 x 1 grid holds [0, 1] and [2, 3]: under
   * closed-interval overlap the band [0.5, 2.5] selects both.
   */
  lemma TwoPatchWideBand(g: Cells, sz: Size, res: Vec2, box: Box)
    requires sz == Size(1, 1) && res == Vec2(1.0, 1.0)
    requires g == [[Patch(0.0, 1.0), Patch(2.0, 3.0)]]
    requires box == Box(Point3(0.0, 0.0, 0.5), Point3(1.0, 1.0, 2.5))
    ensures Matches(g, sz, HeightBand(box, ClosedOverlap), AabbRect(box, res, sz))
      == [Hit(Index(0, 0), 0, Patch(0.0, 1.0)), Hit(Index(0, 0), 1, Patch(2.0, 3.0))]
  {
    var r, q := Rect(Index(0, 0), Index(1, 1)), HeightBand(box, ClosedOverlap);
    ExampleRect(box);
    assert CellAt(g, sz, r.lo) == g[0];
    SingleCellMatches(g, sz, q, r);
    ExampleCellBoth(g[0], q);
  }

  /** The same cell: the band [1.5, 1.9], which lies between the two patches, selects neither. */
  lemma TwoPatchNarrowBand(g: Cells, sz: Size, res: Vec2, box: Box)
    requires sz == Size(1, 1) && res == Vec2(1.0, 1.0)
    requires g == [[Patch(0.0, 1.0), Patch(2.0, 3.0)]]
    requires box == Box(Point3(0.0, 0.0, 1.5), Point3(1.0, 1.0, 1.9))
    ensures Matches(g, sz, HeightBand(box, ClosedOverlap), AabbRect(box, res, sz)) == []
  {
    var r, q := Rect(Index(0, 0), Index(1, 1)), HeightBand(box, ClosedOverlap);
    ExampleRect(box);
    assert CellAt(g, sz, r.lo) == g[0];
    SingleCellMatches(g, sz, q, r);
    ExampleCellNone(g[0], q);
  }
}
