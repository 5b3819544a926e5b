/**
 * How the scanner treats runs of rows: a run of non-qualifying rows keeps or
 * closes the open rectangle depending on the gap, a run of identical
 * qualifying rows grows it. From these follow the exact output for one solid
 * band and for two bands separated by a gap.
 */
module RegionRuns {
  import opened Wrappers
  import opened TextRegions

  /** Rows `a .. b - 1` do not qualify (no ink, or ink extent at most MinWidth). */
  predicate QuietRows(exts: seq<Extent>, a: nat, b: nat)
    requires a <= b <= |exts|
  {
    forall y :: a <= y < b ==> !Qualifies(exts[y])
  }

  /** Rows `a .. b - 1` all have ink extent exactly `l .. r`. */
  predicate SolidRows(exts: seq<Extent>, a: nat, b: nat, l: nat, r: nat)
    requires a <= b <= |exts|
  {
    forall y :: a <= y < b ==> exts[y] == Ink(l, r)
  }

  /** The open rectangle after qualifying rows `top .. bottom` of extent `l .. r`. */
  function Grow(open: Option<Rect>, l: int, r: int, top: int, bottom: int): Rect
  {
    match open
    case None => Rect(l, top, r, bottom)
    case Some(o) => Rect(Min(o.left, l), o.top, Max(o.right, r), bottom)
  }

  /** Quiet rows within MaxGap of the open rectangle's bottom, or with no
      rectangle open, change nothing. */
  lemma {:induction false} QuietRunKeeps(exts: seq<Extent>, a: nat, b: nat)
    requires a <= b <= |exts|
    requires QuietRows(exts, a, b)
    requires Scan(exts, a).open.Some? ==> b - 1 - Scan(exts, a).open.value.bottom <= MaxGap
    ensures Scan(exts, b) == Scan(exts, a)
  {
    if b > a {
      QuietRunKeeps(exts, a, b - 1);
      assert !Qualifies(exts[b - 1]);
    }
  }

  /** A quiet run that reaches more than MaxGap rows below a rectangle whose
      bottom is the row just before the run closes it, reporting it if tall. */
  lemma {:induction false} QuietRunCloses(exts: seq<Extent>, a: nat, b: nat)
    requires a <= b <= |exts|
    requires QuietRows(exts, a, b)
    requires Scan(exts, a).open.Some? && Scan(exts, a).open.value.bottom == a - 1
    requires a + MaxGap < b
    ensures Scan(exts, b) == ScanState(None, Emit(Scan(exts, a).found, Scan(exts, a).open.value))
  {
    var c := a + MaxGap;
    QuietRunKeeps(exts, a, c);
    assert !Qualifies(exts[c]);
    assert Scan(exts, c + 1) == ScanState(None, Emit(Scan(exts, a).found, Scan(exts, a).open.value));
    QuietRunKeeps(exts, c + 1, b);
  }

  /** A run of wide rows with the same extent opens or extends the rectangle
      down to the run's last row and reports nothing. */
  lemma {:induction false} SolidRunGrows(exts: seq<Extent>, a: nat, b: nat, l: nat, r: nat)
    requires a < b <= |exts|
    requires SolidRows(exts, a, b, l, r) && r - l > MinWidth
    ensures Scan(exts, b) == ScanState(Some(Grow(Scan(exts, a).open, l, r, a, b - 1)), Scan(exts, a).found)
  {
    assert exts[b - 1] == Ink(l, r);
    if b - 1 > a {
      SolidRunGrows(exts, a, b - 1, l, r);
    }
  }

  /** Once the last qualifying row is behind, the open rectangle is reported
      (if tall) whether a gap closes it or the image ends first. */
  lemma {:induction false} QuietTail(exts: seq<Extent>, a: nat)
    requires a <= |exts|
    requires QuietRows(exts, a, |exts|)
    requires Scan(exts, a).open.Some? && Scan(exts, a).open.value.bottom == a - 1
    ensures RegionsOf(exts) == Emit(Scan(exts, a).found, Scan(exts, a).open.value)
  {
    if a + MaxGap < |exts| {
      QuietRunCloses(exts, a, |exts|);
    } else {
      QuietRunKeeps(exts, a, |exts|);
    }
  }

  /** Quiet rows then a solid band leave exactly the band's rectangle open. */
  lemma {:induction false} LeadingBand(exts: seq<Extent>, t: nat, k: nat, l: nat, r: nat)
    requires 1 <= k && t + k <= |exts|
    requires r - l > MinWidth
    requires QuietRows(exts, 0, t) && SolidRows(exts, t, t + k, l, r)
    ensures Scan(exts, t + k) == ScanState(Some(Rect(l, t, r, t + k - 1)), [])
  {
    assert Scan(exts, 0) == Start;
    QuietRunKeeps(exts, 0, t);
    SolidRunGrows(exts, t, t + k, l, r);
  }

  /** One solid band of `k` rows starting at row `t` with ink from column
      `l` to `r`, on an otherwise quiet image, is reported as one region of
      height `k - 1` and width `r - l` when `k - 1 > MinHeight`, and not at all
      otherwise. */
  lemma {:induction false} SingleBand(exts: seq<Extent>, t: nat, k: nat, l: nat, r: nat)
    requires 1 <= k && t + k <= |exts|
    requires r - l > MinWidth
    requires QuietRows(exts, 0, t) && SolidRows(exts, t, t + k, l, r) && QuietRows(exts, t + k, |exts|)
    ensures RegionsOf(exts) == if k - 1 > MinHeight then [Region(l, t, r - l, k - 1)] else []
  {
    LeadingBand(exts, t, k, l, r);
    QuietTail(exts, t + k);
    var band := Rect(l, t, r, t + k - 1);
    assert RegionsOf(exts) == Emit([], band);
  }

  /** Every row with the same wide extent: one region over the full height,
      if tall enough. */
  lemma {:induction false} UniformBand(exts: seq<Extent>, l: nat, r: nat)
    requires 1 <= |exts| && r - l > MinWidth
    requires forall y :: 0 <= y < |exts| ==> exts[y] == Ink(l, r)
    ensures RegionsOf(exts) == if |exts| - 1 > MinHeight then [Region(l, 0, r - l, |exts| - 1)] else []
  {
    SingleBand(exts, 0, |exts|, l, r);
  }

  /** A second band within MaxGap rows of the first extends the same rectangle. */
  lemma {:induction false} SecondBandMerges(exts: seq<Extent>, t1: nat, k1: nat, l1: nat, r1: nat, g: nat, k2: nat, l2: nat, r2: nat)
    requires 1 <= k1 && 1 <= k2 && t1 + k1 + g + k2 <= |exts|
    requires r1 - l1 > MinWidth && r2 - l2 > MinWidth && g <= MaxGap
    requires QuietRows(exts, 0, t1)
    requires SolidRows(exts, t1, t1 + k1, l1, r1)
    requires QuietRows(exts, t1 + k1, t1 + k1 + g)
    requires SolidRows(exts, t1 + k1 + g, t1 + k1 + g + k2, l2, r2)
    ensures Scan(exts, t1 + k1 + g + k2) == ScanState(Some(Rect(Min(l1, l2), t1, Max(r1, r2), t1 + k1 + g + k2 - 1)), [])
  {
    LeadingBand(exts, t1, k1, l1, r1);
    QuietRunKeeps(exts, t1 + k1, t1 + k1 + g);
    SolidRunGrows(exts, t1 + k1 + g, t1 + k1 + g + k2, l2, r2);
  }

  /** A second band more than MaxGap rows below the first starts a new
      rectangle after the first has been closed. */
  lemma {:induction false} SecondBandSeparate(exts: seq<Extent>, t1: nat, k1: nat, l1: nat, r1: nat, g: nat, k2: nat, l2: nat, r2: nat)
    requires 1 <= k1 && 1 <= k2 && t1 + k1 + g + k2 <= |exts|
    requires r1 - l1 > MinWidth && r2 - l2 > MinWidth && g > MaxGap
    requires QuietRows(exts, 0, t1)
    requires SolidRows(exts, t1, t1 + k1, l1, r1)
    requires QuietRows(exts, t1 + k1, t1 + k1 + g)
    requires SolidRows(exts, t1 + k1 + g, t1 + k1 + g + k2, l2, r2)
    ensures Scan(exts, t1 + k1 + g + k2) ==
      ScanState(Some(Rect(l2, t1 + k1 + g, r2, t1 + k1 + g + k2 - 1)), Emit([], Rect(l1, t1, r1, t1 + k1 - 1)))
  {
    LeadingBand(exts, t1, k1, l1, r1);
    QuietRunCloses(exts, t1 + k1, t1 + k1 + g);
    SolidRunGrows(exts, t1 + k1 + g, t1 + k1 + g + k2, l2, r2);
  }

  /** Two solid bands separated by `g` quiet rows: a gap of at most MaxGap
      merges them into one rectangle spanning both, a larger gap reports
      them separately, each under its own height test. */
  lemma {:induction false} TwoBands(exts: seq<Extent>, t1: nat, k1: nat, l1: nat, r1: nat, g: nat, k2: nat, l2: nat, r2: nat)
    requires 1 <= k1 && 1 <= k2 && t1 + k1 + g + k2 <= |exts|
    requires r1 - l1 > MinWidth && r2 - l2 > MinWidth
    requires QuietRows(exts, 0, t1)
    requires SolidRows(exts, t1, t1 + k1, l1, r1)
    requires QuietRows(exts, t1 + k1, t1 + k1 + g)
    requires SolidRows(exts, t1 + k1 + g, t1 + k1 + g + k2, l2, r2)
    requires QuietRows(exts, t1 + k1 + g + k2, |exts|)
    ensures g <= MaxGap ==>
      RegionsOf(exts) == Emit([], Rect(Min(l1, l2), t1, Max(r1, r2), t1 + k1 + g + k2 - 1))
    ensures g > MaxGap ==>
      RegionsOf(exts) == Emit(Emit([], Rect(l1, t1, r1, t1 + k1 - 1)), Rect(l2, t1 + k1 + g, r2, t1 + k1 + g + k2 - 1))
  {
    if g <= MaxGap {
      SecondBandMerges(exts, t1, k1, l1, r1, g, k2, l2, r2);
    } else {
      SecondBandSeparate(exts, t1, k1, l1, r1, g, k2, l2, r2);
    }
    QuietTail(exts, t1 + k1 + g + k2);
  }

  // ---------------------------------------------------------------------
  // Concrete instances

  /** Ten quiet rows, a band of `k` rows with ink in columns 0 .. 199, then
      ten quiet rows. */
  function BandImage(k: nat): seq<Extent>
  {
    seq(k + 20, y => if 10 <= y < 10 + k then Ink(0, 199) else Blank)
  }

  /** A 30-row band 200 pixels wide is reported with height 29 and width 199:
      the reported sizes are edge differences, without `+ 1`. */
  lemma ThirtyRowBand()
    ensures RegionsOf(BandImage(30)) == [Region(0, 10, 199, 29)]
  {
    SingleBand(BandImage(30), 10, 30, 0, 199);
  }

  /** A band of 21 rows has height 20, which is not over MinHeight. */
  lemma TwentyOneRowBandIsDropped()
    ensures RegionsOf(BandImage(21)) == []
  {
    SingleBand(BandImage(21), 10, 21, 0, 199);
  }

  /** Two 30-row bands 200 pixels wide with `g` quiet rows between them. */
  function TwoBandImage(g: nat): seq<Extent>
  {
    seq(80 + g, y => if 10 <= y < 40 || 40 + g <= y < 70 + g then Ink(0, 199) else Blank)
  }

  /** A 5-row gap merges the two bands into one region 64 rows high. */
  lemma GapOfFiveMerges()
    ensures RegionsOf(TwoBandImage(5)) == [Region(0, 10, 199, 64)]
  {
    var exts := TwoBandImage(5);
    assert QuietRows(exts, 0, 10) && SolidRows(exts, 10, 40, 0, 199);
    assert QuietRows(exts, 40, 45) && SolidRows(exts, 45, 75, 0, 199) && QuietRows(exts, 75, 85);
    TwoBands(exts, 10, 30, 0, 199, 5, 30, 0, 199);
  }

  /** A 15-row gap keeps the two bands apart as two 29-row regions. */
  lemma GapOfFifteenSplits()
    ensures RegionsOf(TwoBandImage(15)) == [Region(0, 10, 199, 29), Region(0, 55, 199, 29)]
  {
    var exts := TwoBandImage(15);
    assert QuietRows(exts, 0, 10) && SolidRows(exts, 10, 40, 0, 199);
    assert QuietRows(exts, 40, 55) && SolidRows(exts, 55, 85, 0, 199) && QuietRows(exts, 85, 95);
    TwoBands(exts, 10, 30, 0, 199, 15, 30, 0, 199);
  }
}
