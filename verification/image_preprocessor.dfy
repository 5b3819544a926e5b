/**
 * The decidable part of `preprocessImage`: which sharp stages are chained,
 * in which order and with which arguments, and the integer target box of
 * the resolution guard. What each stage does to pixels belongs to sharp.
 */
module ImagePreprocessor {
  import opened Wrappers
  import opened JsValues

  /** The `options` object. Flags are arbitrary values tested for
      truthiness; the numeric options are numbers or absent. */
  datatype Options = Options(
    enhance: Value, denoise: Value, sharpen: Value,
    contrast: Option<real>, brightness: Option<real>, gamma: Option<real>)

  /** `preprocessImage(path)` with no options. */
  const NoOptions := Options(Undefined, Undefined, Undefined, None, None, None)

  const DefaultContrast: real := 1.2
  const DefaultBrightness: real := 1.1
  const DefaultGamma: real := 1.0

  /** The error message the source rethrows on any failure. */
  const PreprocessFailed := "Failed to preprocess image"

  /** A flag destructured with default `true` and then used in `if`: the
      default applies only to `undefined`, so `null`, `0` and `""` turn the
      stage off. */
  predicate FlagOn(v: Value)
  {
    if v.Undefined? then true else Truthy(v)
  }

  function NumberOr(v: Option<real>, default: real): real
  {
    match v
    case Some(n) => n
    case None => default
  }

  /** One sharp call on the pipeline. */
  datatype Stage =
    | Grayscale
    | Modulate(brightness: real, saturation: real)
    | Gamma(gamma: real)
    | Linear(multiplier: real, offset: real)
    | Sharpen(sigma: int, flat: int, jagged: int)
    | Median(size: int)
    | Resize(boxWidth: int, boxHeight: int)

  /** The position of each kind of stage in the pipeline's fixed order. */
  function Rank(s: Stage): nat
  {
    match s
    case Grayscale => 0
    case Modulate(_, _) => 1
    case Gamma(_) => 2
    case Linear(_, _) => 3
    case Sharpen(_, _, _) => 4
    case Median(_) => 5
    case Resize(_, _) => 6
  }

  /** Stages appear in strictly increasing rank: each kind at most once,
      never out of order. */
  predicate InPipelineOrder(stages: seq<Stage>)
  {
    forall i, j :: 0 <= i < j < |stages| ==> Rank(stages[i]) < Rank(stages[j])
  }

  /** The decoded dimensions of the original file. */
  datatype Metadata = Metadata(width: nat, height: nat)

  /** The resolution guard: an image narrower or shorter than 300 pixels is
      resized into the box `(max(2w, 600), max(2h, 600))`. */
  function ResizeBox(m: Metadata): (box: Option<(int, int)>)
    ensures box.Some? <==> m.width < 300 || m.height < 300
    ensures box.Some? ==>
      && box.value.0 >= 600 && box.value.0 >= 2 * m.width
      && (box.value.0 == 600 || box.value.0 == 2 * m.width)
      && box.value.1 >= 600 && box.value.1 >= 2 * m.height
      && (box.value.1 == 600 || box.value.1 == 2 * m.height)
  {
    if m.width < 300 || m.height < 300 then
      var bw := if m.width * 2 >= 600 then m.width * 2 else 600;
      var bh := if m.height * 2 >= 600 then m.height * 2 else 600;
      Some((bw, bh))
    else None
  }

  /** A stage group chained only when `on` holds. */
  function When(on: bool, stages: seq<Stage>): seq<Stage>
  {
    if on then stages else []
  }

  /** The stages `preprocessImage` chains for a decoded original of size `m`. */
  function Pipeline(m: Metadata, opts: Options): seq<Stage>
  {
    var contrast := NumberOr(opts.contrast, DefaultContrast);
    var box := ResizeBox(m);
    [Grayscale]
    + When(FlagOn(opts.enhance), [Modulate(NumberOr(opts.brightness, DefaultBrightness), 1.0),
                                  Gamma(NumberOr(opts.gamma, DefaultGamma))])
    + [Linear(contrast, -(128.0 * contrast) + 128.0)]
    + When(FlagOn(opts.sharpen), [Sharpen(1, 1, 2)])
    + When(FlagOn(opts.denoise), [Median(3)])
    + When(box.Some?, if box.Some? then [Resize(box.value.0, box.value.1)] else [])
  }

  /** `preprocessImage`: the chained stages, or the rethrown error when the
      file cannot be decoded (`meta` is `None`). */
  function Preprocess(meta: Option<Metadata>, opts: Options): (r: Result<seq<Stage>, string>)
    ensures r.Failure? <==> meta.None?
    ensures r.Failure? ==> r.error == PreprocessFailed
  {
    match meta
    case None => Failure(PreprocessFailed)
    case Some(m) => Success(Pipeline(m, opts))
  }

  predicate RanksBelow(stages: seq<Stage>, k: nat)
  {
    forall i :: 0 <= i < |stages| ==> Rank(stages[i]) < k
  }

  predicate RanksFrom(stages: seq<Stage>, k: nat)
  {
    forall i :: 0 <= i < |stages| ==> Rank(stages[i]) >= k
  }

  /** Appending stages of higher rank keeps the order. */
  lemma OrderedAppend(a: seq<Stage>, b: seq<Stage>, k: nat)
    requires InPipelineOrder(a) && InPipelineOrder(b)
    requires RanksBelow(a, k) && RanksFrom(b, k)
    ensures InPipelineOrder(a + b)
  {
    var ab := a + b;
    forall i, j | 0 <= i < j < |ab| ensures Rank(ab[i]) < Rank(ab[j]) {
      if j < |a| {
        assert ab[i] == a[i] && ab[j] == a[j];
      } else if i >= |a| {
        assert ab[i] == b[i - |a|] && ab[j] == b[j - |a|];
      } else {
        assert ab[i] == a[i] && ab[j] == b[j - |a|];
      }
    }
  }

  /** Grayscale, the enhance group and the contrast line, in order. */
  lemma {:induction false} FrontOrdered(opts: Options)
    ensures var contrast := NumberOr(opts.contrast, DefaultContrast);
      var front := [Grayscale]
        + When(FlagOn(opts.enhance), [Modulate(NumberOr(opts.brightness, DefaultBrightness), 1.0),
                                      Gamma(NumberOr(opts.gamma, DefaultGamma))])
        + [Linear(contrast, -(128.0 * contrast) + 128.0)];
      InPipelineOrder(front) && RanksBelow(front, 4) && front[0] == Grayscale
  {
    var contrast := NumberOr(opts.contrast, DefaultContrast);
    var g := [Grayscale];
    var e := When(FlagOn(opts.enhance), [Modulate(NumberOr(opts.brightness, DefaultBrightness), 1.0),
                                         Gamma(NumberOr(opts.gamma, DefaultGamma))]);
    var l := [Linear(contrast, -(128.0 * contrast) + 128.0)];
    assert RanksBelow(e, 3) && RanksFrom(e, 1) && InPipelineOrder(e) by {
      if FlagOn(opts.enhance) {
        assert e == [Modulate(NumberOr(opts.brightness, DefaultBrightness), 1.0), Gamma(NumberOr(opts.gamma, DefaultGamma))];
      }
    }
    OrderedAppend(g, e, 1);
    RanksBelowAppend(g, e, 3);
    OrderedAppend(g + e, l, 3);
    RanksBelowAppend(g + e, l, 4);
  }

  /** The stages come in the fixed order, grayscale first, each kind at most once. */
  lemma {:induction false} PipelineOrdered(m: Metadata, opts: Options)
    ensures InPipelineOrder(Pipeline(m, opts))
    ensures Pipeline(m, opts)[0] == Grayscale
  {
    var contrast := NumberOr(opts.contrast, DefaultContrast);
    var box := ResizeBox(m);
    var front := [Grayscale]
      + When(FlagOn(opts.enhance), [Modulate(NumberOr(opts.brightness, DefaultBrightness), 1.0),
                                    Gamma(NumberOr(opts.gamma, DefaultGamma))])
      + [Linear(contrast, -(128.0 * contrast) + 128.0)];
    var sh := When(FlagOn(opts.sharpen), [Sharpen(1, 1, 2)]);
    var d := When(FlagOn(opts.denoise), [Median(3)]);
    var rz := When(box.Some?, if box.Some? then [Resize(box.value.0, box.value.1)] else []);
    FrontOrdered(opts);
    assert Pipeline(m, opts) == front + sh + d + rz;
    assert RanksBelow(sh, 5) && RanksFrom(sh, 4);
    assert RanksBelow(d, 6) && RanksFrom(d, 5);
    assert RanksFrom(rz, 6);
    OrderedAppend(front, sh, 4);
    RanksBelowAppend(front, sh, 5);
    OrderedAppend(front + sh, d, 5);
    RanksBelowAppend(front + sh, d, 6);
    OrderedAppend(front + sh + d, rz, 6);
  }

  lemma RanksBelowAppend(a: seq<Stage>, b: seq<Stage>, k: nat)
    requires RanksBelow(a, k) && RanksBelow(b, k)
    ensures RanksBelow(a + b, k)
  {
    var ab := a + b;
    forall i | 0 <= i < |ab| ensures Rank(ab[i]) < k {
      if i < |a| {
        assert ab[i] == a[i];
      } else {
        assert ab[i] == b[i - |a|];
      }
    }
  }

  /** Which stages are chained and with what arguments: modulate and gamma
      exactly when `enhance` is on, the contrast line always, sharpen with
      `sharpen`, median with `denoise`. */
  lemma {:induction false} PipelineContents(m: Metadata, opts: Options)
    ensures var stages := Pipeline(m, opts);
      var contrast := NumberOr(opts.contrast, DefaultContrast);
      && (Modulate(NumberOr(opts.brightness, DefaultBrightness), 1.0) in stages <==> FlagOn(opts.enhance))
      && (Gamma(NumberOr(opts.gamma, DefaultGamma)) in stages <==> FlagOn(opts.enhance))
      && Linear(contrast, 128.0 - 128.0 * contrast) in stages
      && (Sharpen(1, 1, 2) in stages <==> FlagOn(opts.sharpen))
      && (Median(3) in stages <==> FlagOn(opts.denoise))
  {
    var contrast := NumberOr(opts.contrast, DefaultContrast);
    assert -(128.0 * contrast) + 128.0 == 128.0 - 128.0 * contrast;
  }

  /** Nothing else is chained: every stage carries its option or default,
      the fixed sharpen and median settings, or the guard's box. */
  lemma {:induction false} PipelineArguments(m: Metadata, opts: Options)
    ensures forall s :: s in Pipeline(m, opts) ==> StageArgumentsOk(s, m, opts)
  {
  }

  /** The guard's resize is chained exactly when the original is under 300
      pixels on a side, and then it is the last stage. */
  lemma {:induction false} ResizeIsLast(m: Metadata, opts: Options)
    ensures var stages := Pipeline(m, opts);
      && ((m.width < 300 || m.height < 300) <==> exists s :: s in stages && s.Resize?)
      && ((m.width < 300 || m.height < 300) <==> stages[|stages| - 1].Resize?)
  {
    var stages := Pipeline(m, opts);
    var contrast := NumberOr(opts.contrast, DefaultContrast);
    var box := ResizeBox(m);
    var e := When(FlagOn(opts.enhance), [Modulate(NumberOr(opts.brightness, DefaultBrightness), 1.0),
                                         Gamma(NumberOr(opts.gamma, DefaultGamma))]);
    var l := [Linear(contrast, -(128.0 * contrast) + 128.0)];
    var sh := When(FlagOn(opts.sharpen), [Sharpen(1, 1, 2)]);
    var d := When(FlagOn(opts.denoise), [Median(3)]);
    var rz := When(box.Some?, if box.Some? then [Resize(box.value.0, box.value.1)] else []);
    var front := [Grayscale] + e + l + sh + d;
    assert stages == front + rz;
    assert forall s :: s in front ==> !s.Resize?;
    if box.Some? {
      assert stages[|stages| - 1] == rz[0];
    } else {
      assert stages == front;
      assert stages[|stages| - 1] in front;
    }
  }

  /** What each stage's arguments are: the options or their defaults, the
      fixed sharpen and median settings, a contrast line through mid-grey
      (128 maps to 128) and the resolution guard's box. */
  predicate StageArgumentsOk(s: Stage, m: Metadata, opts: Options)
  {
    match s
    case Grayscale => true
    case Modulate(b, sat) => b == NumberOr(opts.brightness, DefaultBrightness) && sat == 1.0
    case Gamma(g) => g == NumberOr(opts.gamma, DefaultGamma)
    case Linear(a, b) => a == NumberOr(opts.contrast, DefaultContrast) && a * 128.0 + b == 128.0
    case Sharpen(sigma, flat, jagged) => sigma == 1 && flat == 1 && jagged == 2
    case Median(size) => size == 3
    case Resize(bw, bh) => ResizeBox(m) == Some((bw, bh))
  }

  /** With the default contrast 1.2 the linear stage is `1.2 * v - 25.6`. */
  lemma LinearStageDefaults(m: Metadata)
    ensures Linear(1.2, -25.6) in Pipeline(m, NoOptions)
  {
    var stages := Pipeline(m, NoOptions);
    assert stages[3] == Linear(1.2, -25.6);
  }

  // ---------------------------------------------------------------------
  // sharp's `fit: 'inside'` on the guard's box

  function MinReal(a: real, b: real): real { if a <= b then a else b }

  /** The scale factor of fitting a `w` x `h` image inside a `bw` x `bh` box
      while keeping its aspect ratio (before sharp rounds to whole pixels). */
  function InsideScale(w: int, h: int, bw: int, bh: int): (s: real)
    requires w > 0 && h > 0
    ensures w as real * s <= bw as real && h as real * s <= bh as real
    ensures w as real * s == bw as real || h as real * s == bh as real
  {
    MinReal(bw as real / w as real, bh as real / h as real)
  }

  /** The guard at least doubles both sides of a small image. */
  lemma {:induction false} GuardAtLeastDoubles(m: Metadata)
    requires m.width > 0 && m.height > 0
    requires m.width < 300 || m.height < 300
    ensures InsideScale(m.width, m.height, ResizeBox(m).value.0, ResizeBox(m).value.1) >= 2.0
  {
    var box := ResizeBox(m).value;
    var w, h := m.width as real, m.height as real;
    assert box.0 as real >= 2.0 * w;
    assert box.1 as real >= 2.0 * h;
    assert box.0 as real / w >= 2.0;
    assert box.1 as real / h >= 2.0;
  }

  /** Fitting inside the box does not bring every side to 600: a 200 x 250
      image gets the box 600 x 600, is scaled by 2.4 and comes out 480 wide. */
  lemma GuardMayLeaveSideBelow600()
    ensures ResizeBox(Metadata(200, 250)) == Some((600, 600))
    ensures InsideScale(200, 250, 600, 600) == 2.4
    ensures 200.0 * InsideScale(200, 250, 600, 600) == 480.0
  {
  }
}
