/**
 * `detectTextRegions` end to end: the raw buffer sharp decodes, the nested
 * row/column loops of the source, and the fallback to an empty list when
 * decoding throws.
 */
module RegionDetector {
  import opened Wrappers
  import opened TextRegions
  import RegionRuns

  /** The `{ data, info }` pair sharp returns for `.raw().greyscale()`:
      `channels` bytes per pixel, pixels in row-major order. */
  datatype RawBuffer = RawBuffer(width: nat, height: nat, channels: nat, data: seq<int>)
  {
    predicate Valid()
    {
      && 1 <= channels
      && |data| == width * height * channels
      && forall i :: 0 <= i < |data| ==> 0 <= data[i] <= 255
    }
  }

  lemma PixelIndexBound(w: nat, h: nat, c: nat, y: nat, x: nat, stride: nat)
    requires y < h && x < w && 1 <= stride <= c
    ensures (y * w + x) * stride < w * h * c
  {
    assert y * w + x < w * h by {
      assert y * w + x < (y + 1) * w;
      assert (y + 1) * w <= h * w by {
        var k := h - (y + 1);
        assert h * w == (y + 1) * w + k * w;
      }
    }
    var i := y * w + x;
    assert i * stride <= i * c by {
      var d := c - stride;
      assert i * c == i * stride + i * d;
    }
    assert i * c < (w * h) * c by {
      var d := w * h - i;
      assert (w * h) * c == i * c + d * c;
    }
  }

  /** The byte the scanner reads for pixel `(x, y)` when it steps through the
      buffer `stride` bytes per pixel. */
  function Sample(raw: RawBuffer, stride: nat, y: nat, x: nat): (p: int)
    requires raw.Valid() && 1 <= stride <= raw.channels
    requires y < raw.height && x < raw.width
    ensures (y * raw.width + x) * stride < |raw.data|
    ensures p == raw.data[(y * raw.width + x) * stride]
    ensures 0 <= p <= 255
  {
    PixelIndexBound(raw.width, raw.height, raw.channels, y, x, stride);
    raw.data[(y * raw.width + x) * stride]
  }

  /** The greyscale image the scanner sees when it reads every `stride`-th byte. */
  function Plane(raw: RawBuffer, stride: nat): (img: Image)
    requires raw.Valid() && 1 <= stride <= raw.channels
    ensures img.Valid() && img.width == raw.width && img.height == raw.height
    ensures forall y, x :: 0 <= y < raw.height && 0 <= x < raw.width ==> img.rows[y][x] == Sample(raw, stride, y, x)
  {
    Image(raw.width, raw.height,
      seq(raw.height, y requires 0 <= y < raw.height =>
        seq(raw.width, x requires 0 <= x < raw.width => Sample(raw, stride, y, x))))
  }

  /** The first channel of every pixel: the grey value. */
  function GreyPlane(raw: RawBuffer): Image
    requires raw.Valid()
  {
    Plane(raw, raw.channels)
  }

  /** `detectTextRegions` as the source writes it: pixel `(x, y)` is read at
      `data[y * width + x]`, whatever `info.channels` says. `None` is an input
      sharp fails to decode. */
  function DetectAsWritten(input: Option<RawBuffer>): (regions: seq<Region>)
    requires input.Some? ==> input.value.Valid()
    ensures input.None? ==> regions == []
    ensures input.Some? ==> forall g :: g in regions ==>
      Reportable(g) && Inside(g, input.value.width, input.value.height)
    ensures Separated(regions)
  {
    match input
    case None => []
    case Some(raw) =>
      RegionsWellFormed(Plane(raw, 1));
      Regions(Plane(raw, 1))
  }

  /** `detectTextRegions` reading the grey byte of every pixel, whatever the
      channel count: the scan of the grey plane, or `[]` when decoding fails. */
  function Detect(input: Option<RawBuffer>): (regions: seq<Region>)
    requires input.Some? ==> input.value.Valid()
    ensures input.None? ==> regions == []
    ensures input.Some? ==> forall g :: g in regions ==>
      Reportable(g) && Inside(g, input.value.width, input.value.height)
    ensures Separated(regions)
  {
    match input
    case None => []
    case Some(raw) =>
      RegionsWellFormed(GreyPlane(raw));
      Regions(GreyPlane(raw))
  }

  /** The ink extent of row `y` of the grey plane. */
  function GreyRowExtent(raw: RawBuffer, y: nat): Extent
    requires raw.Valid() && y < raw.height
  {
    RowExtent(GreyPlane(raw).rows[y])
  }

  /** The inner column loop over row `y`: whether the row has ink and the
      first and last dark columns. */
  method RowInk(raw: RawBuffer, y: nat) returns (lineHasText: bool, lineStart: nat, lineEnd: nat)
    requires raw.Valid() && y < raw.height
    ensures lineHasText <==> GreyRowExtent(raw, y).Ink?
    ensures lineHasText ==> Ink(lineStart, lineEnd) == GreyRowExtent(raw, y)
  {
    ghost var row := GreyPlane(raw).rows[y];
    lineHasText, lineStart, lineEnd := false, 0, 0;
    var x := 0;
    while x < raw.width
      invariant 0 <= x <= raw.width
      invariant lineHasText <==> RowExtent(row[..x]).Ink?
      invariant lineHasText ==> Ink(lineStart, lineEnd) == RowExtent(row[..x])
    {
      var pixel := Sample(raw, raw.channels, y, x);
      assert row[..x + 1] == row[..x] + [pixel];
      RowExtentSnoc(row[..x], pixel);
      if pixel < DarkThreshold {
        if !lineHasText {
          lineStart := x;
          lineHasText := true;
        }
        lineEnd := x;
      }
      x := x + 1;
    }
    assert row[..raw.width] == row;
  }

  /** The body of the row loop after the column loop: open or extend the
      rectangle on a wide row, otherwise close it once the gap exceeds MaxGap. */
  method AdvanceRow(current: Option<Rect>, regions: seq<Region>, y: nat,
                    lineHasText: bool, lineStart: nat, lineEnd: nat)
    returns (current': Option<Rect>, regions': seq<Region>)
    ensures ScanState(current', regions') ==
      Step(ScanState(current, regions), y, if lineHasText then Ink(lineStart, lineEnd) else Blank)
  {
    current', regions' := current, regions;
    if lineHasText && lineEnd - lineStart > MinWidth {
      if current.None? {
        current' := Some(Rect(lineStart, y, lineEnd, y));
      } else {
        var r := current.value;
        current' := Some(Rect(Min(r.left, lineStart), r.top, Max(r.right, lineEnd), y));
      }
    } else if current.Some? && y - current.value.bottom > MaxGap {
      if current.value.bottom - current.value.top > MinHeight {
        regions' := regions + [ToRegion(current.value)];
      }
      current' := None;
    }
  }

  /** `detectTextRegions`: decode failure yields `[]`; otherwise the row loop
      over the rows' ink extents, closing with the final-region test. */
  method DetectTextRegions(input: Option<RawBuffer>) returns (regions: seq<Region>)
    requires input.Some? ==> input.value.Valid()
    ensures regions == Detect(input)
    ensures input.None? ==> regions == []
    ensures input.Some? ==> forall g :: g in regions ==>
      Reportable(g) && Inside(g, input.value.width, input.value.height)
    ensures Separated(regions)
  {
    if input.None? {
      return [];
    }
    var raw := input.value;
    ghost var img := GreyPlane(raw);
    ghost var exts := Extents(img);
    var current: Option<Rect> := None;
    regions := [];
    var y := 0;
    while y < raw.height
      invariant 0 <= y <= raw.height
      invariant ScanState(current, regions) == Scan(exts, y)
    {
      var lineHasText, lineStart, lineEnd := RowInk(raw, y);
      assert exts[y] == GreyRowExtent(raw, y);
      current, regions := AdvanceRow(current, regions, y, lineHasText, lineStart, lineEnd);
      y := y + 1;
    }
    if current.Some? && current.value.bottom - current.value.top > MinHeight {
      regions := regions + [ToRegion(current.value)];
    }
    assert regions == Regions(img);
  }

  /** For a single-channel buffer the source's indexing is the grey value. */
  lemma SingleChannelAgrees(raw: RawBuffer)
    requires raw.Valid() && raw.channels == 1
    ensures DetectAsWritten(Some(raw)) == Detect(Some(raw))
  {
  }

  // ---------------------------------------------------------------------
  // A grey-plus-alpha buffer read as if it had one byte per pixel

  /** `n` pixels of grey 255 with alpha 0. */
  function WhiteTransparentPixels(n: nat): (d: seq<int>)
    ensures |d| == 2 * n
    ensures forall i :: 0 <= i < |d| ==> d[i] == 0 || d[i] == 255
  {
    if n == 0 then [] else WhiteTransparentPixels(n - 1) + [255, 0]
  }

  /** Even bytes are the grey value 255, odd bytes the alpha 0. */
  lemma {:induction false} WhiteTransparentByte(n: nat, i: nat)
    requires i < |WhiteTransparentPixels(n)|
    ensures WhiteTransparentPixels(n)[i] == if i % 2 == 0 then 255 else 0
  {
    if i < 2 * (n - 1) {
      WhiteTransparentByte(n - 1, i);
    }
  }

  /** A fully transparent white image: grey 255, alpha 0 at every pixel. */
  function TransparentWhite(w: nat, h: nat): (raw: RawBuffer)
    ensures raw.Valid() && raw.channels == 2 && raw.width == w && raw.height == h
  {
    RawBuffer(w, h, 2, WhiteTransparentPixels(w * h))
  }

  /** The byte offset the scanner reads for pixel `(x, y)`, and what it finds there. */
  lemma ReadIndex(raw: RawBuffer, stride: nat, y: nat, x: nat) returns (i: nat)
    requires raw.Valid() && 1 <= stride <= raw.channels
    requires y < raw.height && x < raw.width
    ensures i == (y * raw.width + x) * stride && i < |raw.data|
    ensures Plane(raw, stride).rows[y][x] == raw.data[i]
  {
    i := (y * raw.width + x) * stride;
    assert Plane(raw, stride).rows[y][x] == Sample(raw, stride, y, x);
  }

  lemma DoubleIsEven(k: nat)
    ensures (k * 2) % 2 == 0
  {
  }

  lemma EvenRowParity(w: nat, y: nat, x: nat)
    requires w % 2 == 0
    ensures (y * w + x) % 2 == x % 2
  {
    var m := w / 2;
    assert y * w == 2 * (y * m);
  }

  /** The grey byte of every pixel of the transparent white image is 255. */
  lemma TransparentWhiteGrey(w: nat, h: nat, y: nat, x: nat)
    requires y < h && x < w
    ensures GreyPlane(TransparentWhite(w, h)).rows[y][x] == 255
  {
    var raw := TransparentWhite(w, h);
    var i := ReadIndex(raw, 2, y, x);
    DoubleIsEven(y * w + x);
    WhiteTransparentByte(w * h, i);
  }

  /** Read one byte per pixel, an even-width transparent white image shows
      white at even columns and black at odd ones. */
  lemma TransparentWhiteAsWritten(w: nat, h: nat, y: nat, x: nat)
    requires w % 2 == 0 && y < h && x < w
    ensures Plane(TransparentWhite(w, h), 1).rows[y][x] == if x % 2 == 0 then 255 else 0
  {
    var raw := TransparentWhite(w, h);
    var i := ReadIndex(raw, 1, y, x);
    WhiteTransparentByte(w * h, i);
    EvenRowParity(w, y, x);
  }

  /** Reading grey bytes, the transparent white image has no ink, so no regions. */
  lemma TransparentWhiteHasNoRegions(w: nat, h: nat)
    ensures Detect(Some(TransparentWhite(w, h))) == []
  {
    var grey := GreyPlane(TransparentWhite(w, h));
    forall y, x | 0 <= y < h && 0 <= x < w ensures grey.rows[y][x] >= DarkThreshold {
      TransparentWhiteGrey(w, h, y, x);
    }
    NoInkNoRegions(grey);
  }

  /** Read one byte per pixel, every row of an even-width transparent white
      image alternates white and black, so its ink runs from column 1 to the
      last column. */
  lemma TransparentWhiteRowsAsWritten(w: nat, h: nat, y: nat)
    requires w % 2 == 0 && w >= 2 && y < h
    ensures RowExtent(Plane(TransparentWhite(w, h), 1).rows[y]) == Ink(1, w - 1)
  {
    var row := Plane(TransparentWhite(w, h), 1).rows[y];
    TransparentWhiteAsWritten(w, h, y, 0);
    TransparentWhiteAsWritten(w, h, y, 1);
    TransparentWhiteAsWritten(w, h, y, w - 1);
    var e := RowExtent(row);
    assert !Dark(row[0]) && Dark(row[1]) && Dark(row[w - 1]);
    assert e.Ink?;
    assert e.start == 1;
    assert e.end == w - 1;
  }

  /** Read one byte per pixel, every row of the transparent white image has
      the same wide ink extent. */
  lemma TransparentWhiteExtentsAsWritten(w: nat, h: nat)
    requires w % 2 == 0 && w >= 2
    ensures var exts := Extents(Plane(TransparentWhite(w, h), 1));
      |exts| == h && forall y :: 0 <= y < h ==> exts[y] == Ink(1, w - 1)
  {
    var img := Plane(TransparentWhite(w, h), 1);
    forall y | 0 <= y < h ensures Extents(img)[y] == Ink(1, w - 1) {
      TransparentWhiteRowsAsWritten(w, h, y);
    }
  }

  /** Read one byte per pixel, the transparent white image is one solid band
      from column 1 to the last column over its full height. */
  lemma TransparentWhiteRegionsAsWritten(w: nat, h: nat)
    requires w % 2 == 0 && w >= 54 && h >= 22
    ensures Regions(Plane(TransparentWhite(w, h), 1)) == [Region(1, 0, w - 2, h - 1)]
  {
    TransparentWhiteExtentsAsWritten(w, h);
    RegionRuns.UniformBand(Extents(Plane(TransparentWhite(w, h), 1)), 1, w - 1);
  }

  /** The source reads the alpha bytes of a transparent white image as ink:
      with two channels, an even width of at least 54 and a height of at
      least 22, it reports one region spanning the image, although every grey
      byte is white. */
  lemma AlphaReadAsInk(w: nat, h: nat)
    requires w % 2 == 0 && w >= 54 && h >= 22
    ensures DetectAsWritten(Some(TransparentWhite(w, h))) == [Region(1, 0, w - 2, h - 1)]
  {
    TransparentWhiteRegionsAsWritten(w, h);
  }
}
