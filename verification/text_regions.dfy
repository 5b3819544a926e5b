/**
 * The single-pass text-region scanner of `detectTextRegions`, written as a
 * fold over the rows of a greyscale image with at most one open rectangle
 * as accumulator.
 */
module TextRegions {
  import opened Wrappers

  /** A pixel strictly darker than this is ink. */
  const DarkThreshold := 100
  /** A row qualifies when its ink extent `end - start` exceeds this. */
  const MinWidth := 50
  /** A closed rectangle is reported only when `bottom - top` exceeds this. */
  const MinHeight := 20
  /** An open rectangle is closed on a non-qualifying row more than this
      many rows below its last extended row. */
  const MaxGap := 10

  /** A decoded single-channel 8-bit greyscale image, as its rows from top
      to bottom; `rows[y][x]` is the intensity at column `x` of row `y`. */
  datatype Image = Image(width: nat, height: nat, rows: seq<seq<int>>)
  {
    predicate Valid()
    {
      && |rows| == height
      && (forall y :: 0 <= y < height ==> |rows[y]| == width)
      && (forall y, x :: 0 <= y < height && 0 <= x < |rows[y]| ==> 0 <= rows[y][x] <= 255)
    }
  }

  predicate Dark(p: int)
  {
    p < DarkThreshold
  }

  /** The ink extent of a row: the first and the last dark column, or none. */
  datatype Extent = Blank | Ink(start: nat, end: nat)

  /** The extent the inner column loop computes: `lineStart` is set at the
      first dark pixel, `lineEnd` at every dark pixel. */
  function RowExtent(row: seq<int>): (e: Extent)
    ensures e.Blank? <==> forall x :: 0 <= x < |row| ==> !Dark(row[x])
    ensures e.Ink? ==>
      && e.start <= e.end < |row|
      && Dark(row[e.start]) && Dark(row[e.end])
      && (forall x :: 0 <= x < e.start ==> !Dark(row[x]))
      && (forall x :: e.end < x < |row| ==> !Dark(row[x]))
  {
    if row == [] then Blank
    else
      var n := |row| - 1;
      var prefix := RowExtent(row[..n]);
      assert forall x :: 0 <= x < n ==> row[..n][x] == row[x];
      if Dark(row[n]) then
        if prefix.Blank? then Ink(n, n) else Ink(prefix.start, n)
      else prefix
  }

  /** Scanning one more pixel: a dark pixel becomes the extent's end (and its
      start too if the row had no ink yet); a light one changes nothing. */
  lemma RowExtentSnoc(prefix: seq<int>, p: int)
    ensures RowExtent(prefix + [p]) ==
      if !Dark(p) then RowExtent(prefix)
      else if RowExtent(prefix).Blank? then Ink(|prefix|, |prefix|)
      else Ink(RowExtent(prefix).start, |prefix|)
  {
    assert (prefix + [p])[..|prefix|] == prefix;
  }

  /** A row whose ink extent is wide enough to open or extend a rectangle. */
  predicate Qualifies(e: Extent)
  {
    e.Ink? && e.end - e.start > MinWidth
  }

  /** The open rectangle, in inclusive pixel coordinates. */
  datatype Rect = Rect(left: int, top: int, right: int, bottom: int)

  /** A reported region: `width` and `height` are `right - left` and
      `bottom - top`, without `+ 1`. */
  datatype Region = Region(x: int, y: int, width: int, height: int)

  function ToRegion(r: Rect): Region
  {
    Region(r.left, r.top, r.right - r.left, r.bottom - r.top)
  }

  /** The row of the region's bottom edge. */
  function Bottom(g: Region): int
  {
    g.y + g.height
  }

  predicate Tall(r: Rect)
  {
    r.bottom - r.top > MinHeight
  }

  /** Closing a rectangle reports it only if it is tall enough. */
  function Emit(found: seq<Region>, r: Rect): seq<Region>
  {
    if Tall(r) then found + [ToRegion(r)] else found
  }

  function Min(a: int, b: int): int { if a <= b then a else b }
  function Max(a: int, b: int): int { if a >= b then a else b }

  /** The scan's accumulator: the open rectangle, if any, and the regions
      reported so far. */
  datatype ScanState = ScanState(open: Option<Rect>, found: seq<Region>)

  const Start := ScanState(None, [])

  /** One iteration of the row loop on row `y` with ink extent `e`. */
  function Step(st: ScanState, y: int, e: Extent): (st': ScanState)
    // a qualifying row never closes: it opens or extends down to row y
    ensures Qualifies(e) ==>
      && st'.found == st.found
      && st'.open.Some? && st'.open.value.bottom == y
      && st'.open.value.left <= e.start && e.end <= st'.open.value.right
      && (st.open.None? ==> st'.open.value.top == y)
      && (st.open.Some? ==> st'.open.value.top == st.open.value.top
                            && st'.open.value.left <= st.open.value.left
                            && st.open.value.right <= st'.open.value.right)
      // and no wider than needed: each side comes from the row or the old rectangle
      && (st'.open.value.left == e.start || (st.open.Some? && st'.open.value.left == st.open.value.left))
      && (st'.open.value.right == e.end || (st.open.Some? && st'.open.value.right == st.open.value.right))
    // a non-qualifying row closes the open rectangle exactly when the gap exceeds MaxGap,
    // and otherwise leaves the state alone
    ensures !Qualifies(e) ==>
      if st.open.Some? && y - st.open.value.bottom > MaxGap then
        st' == ScanState(None, Emit(st.found, st.open.value))
      else
        st' == st
  {
    if Qualifies(e) then
      match st.open
      case None => ScanState(Some(Rect(e.start, y, e.end, y)), st.found)
      case Some(r) => ScanState(Some(Rect(Min(r.left, e.start), r.top, Max(r.right, e.end), y)), st.found)
    else
      match st.open
      case Some(r) =>
        if y - r.bottom > MaxGap then ScanState(None, Emit(st.found, r)) else st
      case None => st
  }

  /** The ink extent of every row, top to bottom. */
  function Extents(img: Image): (exts: seq<Extent>)
    requires img.Valid()
    ensures |exts| == img.height
    ensures forall y :: 0 <= y < img.height ==> exts[y] == RowExtent(img.rows[y])
  {
    seq(img.height, y requires 0 <= y < img.height reads {} => RowExtent(img.rows[y]))
  }

  /** The state after the row loop has processed rows `0 .. n - 1`, each
      given by its ink extent. */
  function Scan(exts: seq<Extent>, n: nat): ScanState
    requires n <= |exts|
  {
    if n == 0 then Start
    else Step(Scan(exts, n - 1), n - 1, exts[n - 1])
  }

  /** After the loop: a still-open rectangle is reported under the same height test. */
  function Finish(st: ScanState): seq<Region>
  {
    match st.open
    case None => st.found
    case Some(r) => Emit(st.found, r)
  }

  /** The regions reported for a sequence of row extents. */
  function RegionsOf(exts: seq<Extent>): seq<Region>
  {
    Finish(Scan(exts, |exts|))
  }

  /** The regions `detectTextRegions` reports for a decoded image. */
  function Regions(img: Image): seq<Region>
    requires img.Valid()
  {
    RegionsOf(Extents(img))
  }

  // ---------------------------------------------------------------------
  // What every reported region satisfies

  /** Wider than MinWidth and taller than MinHeight. */
  predicate Reportable(g: Region)
  {
    g.width > MinWidth && g.height > MinHeight
  }

  /** Within the image, with the right and bottom edges on the last column/row at most. */
  predicate Inside(g: Region, w: int, h: int)
  {
    0 <= g.x && g.x + g.width <= w - 1 && 0 <= g.y && Bottom(g) <= h - 1
  }

  /** Every earlier region ends more than MaxGap rows above every later one
      starts: more than MaxGap rows lie strictly between them. */
  predicate Separated(found: seq<Region>)
  {
    forall i, j :: 0 <= i < j < |found| ==> Bottom(found[i]) + MaxGap + 1 < found[j].y
  }

  predicate RectOk(r: Rect, w: int, n: int)
  {
    0 <= r.left && r.right - r.left > MinWidth && r.right <= w - 1 && 0 <= r.top <= r.bottom <= n - 1
  }

  /** The invariant of the row loop after `n` rows of an image `w` wide. */
  predicate ScanInv(st: ScanState, w: int, n: int)
  {
    && (forall g :: g in st.found ==> Reportable(g) && Inside(g, w, n))
    && Separated(st.found)
    && match st.open
       case None => forall g :: g in st.found ==> Bottom(g) + MaxGap < n - 1
       case Some(r) =>
         && RectOk(r, w, n)
         && forall g :: g in st.found ==> Bottom(g) + MaxGap + 1 < r.top
  }

  lemma EmitKeepsInv(found: seq<Region>, r: Rect, w: int, n: int)
    requires RectOk(r, w, n)
    requires forall g :: g in found ==> Reportable(g) && Inside(g, w, n)
    requires Separated(found)
    requires forall g :: g in found ==> Bottom(g) + MaxGap + 1 < r.top
    ensures forall g :: g in Emit(found, r) ==> Reportable(g) && Inside(g, w, n) && Bottom(g) <= r.bottom
    ensures Separated(Emit(found, r))
  {
    if Tall(r) {
      var found' := found + [ToRegion(r)];
      forall i, j | 0 <= i < j < |found'|
        ensures Bottom(found'[i]) + MaxGap + 1 < found'[j].y
      {
        if j == |found| {
          assert found'[i] in found;
        } else {
          assert found'[i] == found[i] && found'[j] == found[j];
        }
      }
    }
  }

  lemma {:induction false} StepKeepsInv(st: ScanState, w: int, y: nat, e: Extent)
    requires ScanInv(st, w, y)
    requires Qualifies(e) ==> e.end < w
    ensures ScanInv(Step(st, y, e), w, y + 1)
  {
    var st' := Step(st, y, e);
    if Qualifies(e) {
      match st.open
      case None =>
        assert st'.open == Some(Rect(e.start, y, e.end, y));
      case Some(r) =>
        assert RectOk(st'.open.value, w, y + 1);
    } else if st.open.Some? && y - st.open.value.bottom > MaxGap {
      EmitKeepsInv(st.found, st.open.value, w, y + 1);
    }
  }

  /** Every extent lies within a row `w` pixels wide. */
  predicate WithinWidth(exts: seq<Extent>, w: int)
  {
    forall y :: 0 <= y < |exts| && exts[y].Ink? ==> exts[y].end < w
  }

  /** The row loop keeps its invariant. */
  lemma {:induction false} ScanKeepsInv(exts: seq<Extent>, w: int, n: nat)
    requires n <= |exts| && WithinWidth(exts, w)
    ensures ScanInv(Scan(exts, n), w, n)
  {
    if n > 0 {
      ScanKeepsInv(exts, w, n - 1);
      StepKeepsInv(Scan(exts, n - 1), w, n - 1, exts[n - 1]);
    }
  }

  /** Every reported region is wider than 50, taller than 20 and inside the
      image; regions come out top to bottom with more than MaxGap rows
      between consecutive ones, so they are vertically disjoint. */
  lemma RegionsWellFormed(img: Image)
    requires img.Valid()
    ensures forall g :: g in Regions(img) ==> Reportable(g) && Inside(g, img.width, img.height)
    ensures Separated(Regions(img))
    ensures forall i, j :: 0 <= i < j < |Regions(img)| ==> Regions(img)[i].y < Regions(img)[j].y
  {
    var exts := Extents(img);
    var st := Scan(exts, |exts|);
    ScanKeepsInv(exts, img.width, |exts|);
    if st.open.Some? {
      EmitKeepsInv(st.found, st.open.value, img.width, img.height);
    }
    var rs := Regions(img);
    forall i, j | 0 <= i < j < |rs| ensures rs[i].y < rs[j].y {
      assert rs[i] in rs;
    }
  }

  // ---------------------------------------------------------------------
  // Blank images

  /** Rows without a qualifying extent never open a rectangle. */
  lemma {:induction false} QuietKeepsStart(exts: seq<Extent>, n: nat)
    requires n <= |exts|
    requires forall y :: 0 <= y < |exts| ==> !Qualifies(exts[y])
    ensures Scan(exts, n) == Start
  {
    if n > 0 {
      QuietKeepsStart(exts, n - 1);
    }
  }

  /** An image with no pixel below 100 yields no regions. */
  lemma NoInkNoRegions(img: Image)
    requires img.Valid()
    requires forall y, x :: 0 <= y < img.height && 0 <= x < img.width ==> img.rows[y][x] >= DarkThreshold
    ensures Regions(img) == []
  {
    var exts := Extents(img);
    forall y | 0 <= y < |exts| ensures !Qualifies(exts[y]) {
      assert exts[y] == RowExtent(img.rows[y]);
    }
    QuietKeepsStart(exts, |exts|);
  }
}
