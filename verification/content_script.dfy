/**
 * The browser extension's content script: which images count as comic
 * pages, how stored settings fall back to defaults, and the per-image
 * translation cache in front of the OCR and translation requests.
 */
module ContentScript {
  import opened Wrappers
  import opened JsValues

  // ---------------------------------------------------------------------
  // isComicImage

  const ComicPatterns: seq<string> := ["comic", "manga", "chapter", "page", "panel", "webtoon", "manhwa", "manhua"]
  const LargeSide := 300

  /** The attributes of an `<img>` the classifier reads; `alt` and
      `className` may be absent. */
  datatype ImageElement = ImageElement(src: string, alt: Option<string>, className: Option<string>, width: int, height: int)

  /** `attr?.toLowerCase() || ''`: an absent attribute reads as the empty string. */
  function LowerOrEmpty(attr: Option<string>): (r: string)
    ensures attr.None? ==> r == ""
    ensures attr.Some? ==> r == Lower(attr.value)
  {
    match attr
    case None => ""
    case Some(s) => Lower(s)
  }

  /** Pattern `p` occurs in the lower-cased source, alt text or class name. */
  predicate MentionsPattern(img: ImageElement, p: string)
  {
    Includes(Lower(img.src), p) || Includes(LowerOrEmpty(img.alt), p) || Includes(LowerOrEmpty(img.className), p)
  }

  /** `patterns.some(...)` over the element's three lower-cased strings. */
  function SomePattern(img: ImageElement, patterns: seq<string>): (r: bool)
    ensures r <==> exists i :: 0 <= i < |patterns| && MentionsPattern(img, patterns[i])
  {
    if patterns == [] then false
    else if MentionsPattern(img, patterns[0]) then true
    else
      var r := SomePattern(img, patterns[1..]);
      assert forall i :: 1 <= i < |patterns| ==> patterns[1..][i - 1] == patterns[i];
      r
  }

  function IsComicImage(img: ImageElement): (r: bool)
    ensures r <==> (exists i :: 0 <= i < |ComicPatterns| && MentionsPattern(img, ComicPatterns[i]))
                   || img.width > LargeSide || img.height > LargeSide
  {
    SomePattern(img, ComicPatterns) || img.width > LargeSide || img.height > LargeSide
  }

  /** Any image wider or taller than 300 pixels qualifies, whatever its names. */
  lemma LargeImagesQualify(img: ImageElement)
    requires img.width > LargeSide || img.height > LargeSide
    ensures IsComicImage(img)
  {
  }

  /** A missing alt text behaves exactly like an empty one (likewise the class). */
  lemma MissingAttributeIsEmpty(img: ImageElement)
    ensures IsComicImage(img.(alt := None)) == IsComicImage(img.(alt := Some("")))
    ensures IsComicImage(img.(className := None)) == IsComicImage(img.(className := Some("")))
  {
    assert Lower("") == "";
  }

  /** `p` occurs in `s` at index `j` when upper and lower case are not told apart. */
  predicate OccursIgnoringCase(s: string, p: string, j: nat)
  {
    j + |p| <= |s| && forall m :: 0 <= m < |p| ==> LowerChar(s[j + m]) == p[m]
  }

  /** A pattern in the image source in any mix of cases makes the image qualify. */
  lemma {:induction false} SourceMatchIgnoresCase(img: ImageElement, i: nat, j: nat)
    requires i < |ComicPatterns|
    requires OccursIgnoringCase(img.src, ComicPatterns[i], j)
    ensures IsComicImage(img)
  {
    var p := ComicPatterns[i];
    var low := Lower(img.src);
    forall m | 0 <= m < |p| ensures low[j..j + |p|][m] == p[m] {
      assert low[j..j + |p|][m] == low[j + m];
    }
    assert low[j..j + |p|] == p;
    assert OccursAt(low, p, j);
    assert MentionsPattern(img, p);
  }

  /** For example `x/MANGA/1` qualifies through its upper-case path. */
  lemma UpperCaseSourceQualifies(w: int, h: int)
    ensures IsComicImage(ImageElement("x/MANGA/1", None, None, w, h))
  {
    var img := ImageElement("x/MANGA/1", None, None, w, h);
    assert LowerChar('M') == 'm' && LowerChar('A') == 'a' && LowerChar('N') == 'n' && LowerChar('G') == 'g';
    assert OccursIgnoringCase(img.src, "manga", 2);
    SourceMatchIgnoresCase(img, 1, 2);
  }

  /** No pattern is shorter than four characters. */
  lemma PatternsAtLeastFour()
    ensures forall i :: 0 <= i < |ComicPatterns| ==> |ComicPatterns[i]| >= 4
  {
  }

  /** A small image whose source, alt text and class name are all shorter than
      four characters cannot mention a pattern, so it does not qualify. */
  lemma {:induction false} SmallUnnamedImageDoesNotQualify(img: ImageElement)
    requires |img.src| < 4
    requires img.alt.Some? ==> |img.alt.value| < 4
    requires img.className.Some? ==> |img.className.value| < 4
    requires img.width <= LargeSide && img.height <= LargeSide
    ensures !IsComicImage(img)
  {
    PatternsAtLeastFour();
    forall i | 0 <= i < |ComicPatterns|
      ensures !MentionsPattern(img, ComicPatterns[i])
    {
      assert |Lower(img.src)| < |ComicPatterns[i]|;
      assert |LowerOrEmpty(img.alt)| < |ComicPatterns[i]|;
      assert |LowerOrEmpty(img.className)| < |ComicPatterns[i]|;
    }
  }

  // ---------------------------------------------------------------------
  // loadSettings

  const DefaultApiUrl := "http://localhost:3001"
  const DefaultSourceLang := "auto"
  const DefaultTargetLang := "en"
  const DefaultService := "google"

  /** What `chrome.storage.sync.get` returns for the six keys (`Undefined` when unset). */
  datatype Stored = Stored(apiUrl: Value, sourceLang: Value, targetLang: Value, service: Value, showOverlay: Value, autoTranslate: Value)

  /** The effective settings. */
  datatype Settings = Settings(apiUrl: Value, sourceLang: Value, targetLang: Value, service: Value, showOverlay: bool, autoTranslate: Value)

  /** The four string settings keep a truthy stored value and otherwise take
      their default; the overlay is on unless stored as literally `false`;
      auto-translate keeps a truthy stored value and is otherwise `false`. */
  function LoadSettings(st: Stored): (s: Settings)
    ensures Truthy(s.apiUrl) && Truthy(s.sourceLang) && Truthy(s.targetLang) && Truthy(s.service)
    ensures s.apiUrl == (if Truthy(st.apiUrl) then st.apiUrl else Str(DefaultApiUrl))
    ensures s.sourceLang == (if Truthy(st.sourceLang) then st.sourceLang else Str(DefaultSourceLang))
    ensures s.targetLang == (if Truthy(st.targetLang) then st.targetLang else Str(DefaultTargetLang))
    ensures s.service == (if Truthy(st.service) then st.service else Str(DefaultService))
    ensures s.showOverlay <==> st.showOverlay != Bool(false)
    ensures Truthy(s.autoTranslate) <==> Truthy(st.autoTranslate)
    ensures !Truthy(st.autoTranslate) ==> s.autoTranslate == Bool(false)
  {
    Settings(
      Or(st.apiUrl, Str(DefaultApiUrl)),
      Or(st.sourceLang, Str(DefaultSourceLang)),
      Or(st.targetLang, Str(DefaultTargetLang)),
      Or(st.service, Str(DefaultService)),
      NotStrictlyFalse(st.showOverlay),
      Or(st.autoTranslate, Bool(false)))
  }

  /** The settings written back to storage. */
  function Store(s: Settings): Stored
  {
    Stored(s.apiUrl, s.sourceLang, s.targetLang, s.service, Bool(s.showOverlay), s.autoTranslate)
  }

  /** Loading, storing and loading again changes nothing: the defaults are fixed points. */
  lemma SettingsReloadStable(st: Stored)
    ensures LoadSettings(Store(LoadSettings(st))) == LoadSettings(st)
  {
  }

  /** An empty storage and a storage of empty strings give the same defaults. */
  lemma EmptyStorageDefaults()
    ensures LoadSettings(Stored(Undefined, Undefined, Undefined, Undefined, Undefined, Undefined))
         == Settings(Str(DefaultApiUrl), Str(DefaultSourceLang), Str(DefaultTargetLang), Str(DefaultService), true, Bool(false))
    ensures LoadSettings(Stored(Str(""), Str(""), Str(""), Str(""), Str(""), Str("")))
         == Settings(Str(DefaultApiUrl), Str(DefaultSourceLang), Str(DefaultTargetLang), Str(DefaultService), true, Bool(false))
  {
  }

  /** Only a stored `false` hides the overlay: `0`, `null` and `""` leave it on. */
  lemma OverlayOffOnlyForFalse(st: Stored)
    ensures LoadSettings(st.(showOverlay := Num(0.0))).showOverlay
    ensures LoadSettings(st.(showOverlay := Null)).showOverlay
    ensures LoadSettings(st.(showOverlay := Str(""))).showOverlay
    ensures !LoadSettings(st.(showOverlay := Bool(false))).showOverlay
  {
  }

  // ---------------------------------------------------------------------
  // translateImage

  /** `${imageUrl}-${sourceLang}-${targetLang}`. */
  function CacheKey(imageUrl: string, sourceLang: string, targetLang: string): (k: string)
    ensures |k| == |imageUrl| + |sourceLang| + |targetLang| + 2
  {
    imageUrl + "-" + sourceLang + "-" + targetLang
  }

  /** The part of `s` after its last dash (all of `s` if it has none). */
  function AfterLastDash(s: string): (t: string)
    ensures '-' !in t && |t| <= |s|
  {
    if s == [] then []
    else if s[|s| - 1] == '-' then []
    else AfterLastDash(s[..|s| - 1]) + [s[|s| - 1]]
  }

  lemma {:induction false} AfterLastDashOfJoin(a: string, b: string)
    requires '-' !in b
    ensures AfterLastDash(a + "-" + b) == b
  {
    var k := a + "-" + b;
    if b != [] {
      var b' := b[..|b| - 1];
      assert k[..|k| - 1] == a + "-" + b';
      assert k[|k| - 1] == b[|b| - 1];
      AfterLastDashOfJoin(a, b');
      assert b' + [b[|b| - 1]] == b;
    }
  }

  /** Joining with a dash can be undone when the right part holds no dash. */
  lemma {:induction false} SplitAtLastDash(a: string, b: string, c: string, d: string)
    requires '-' !in b && '-' !in d
    requires a + "-" + b == c + "-" + d
    ensures a == c && b == d
  {
    var k := a + "-" + b;
    AfterLastDashOfJoin(a, b);
    AfterLastDashOfJoin(c, d);
    assert a == k[..|a|];
    assert c == k[..|c|];
  }

  /** With dash-free language codes, distinct requests never share a cache
      entry, whatever dashes the image URL contains. */
  lemma {:induction false} CacheKeyInjective(u1: string, s1: string, t1: string, u2: string, s2: string, t2: string)
    requires '-' !in s1 && '-' !in t1 && '-' !in s2 && '-' !in t2
    requires CacheKey(u1, s1, t1) == CacheKey(u2, s2, t2)
    ensures u1 == u2 && s1 == s2 && t1 == t2
  {
    SplitAtLastDash(u1 + "-" + s1, t1, u2 + "-" + s2, t2);
    SplitAtLastDash(u1, s1, u2, s2);
  }

  /** A regional source code such as `zh-CN` lets two requests collide. */
  lemma RegionalCodeCollides()
    ensures CacheKey("p-zh", "CN", "en") == CacheKey("p", "zh-CN", "en")
  {
  }

  /** A cached pair of texts. */
  datatype Entry = Entry(original: string, translated: string)

  /** The outside requests translateImage makes, in order. */
  datatype Call = LoadImage(url: string) | RecognizeText(imageData: string) | TranslateText(text: string, sourceLang: string, targetLang: string)

  /** The session settings translateImage reads. */
  datatype Session = Session(sourceLang: string, targetLang: string, autoTranslate: bool)

  /** The page image passed to translateImage, if any. A detached element
      (one the page removed meanwhile) has no `parentNode`. */
  datatype Target = NoTarget | Target(attached: bool)

  /** The requests made, the pair shown in the panel, the cache afterwards,
      and the text overlaid on the page image, if any. */
  datatype Outcome = Outcome(calls: seq<Call>, shown: Entry, cache: map<string, Entry>, imageOverlay: Option<string>)

  const NoTextDetected := Entry("No text detected", "")

  /** The TypeError message Chrome gives when showImageOverlay reads
      `parentNode.querySelector` of a detached element. */
  const DetachedError := "Cannot read properties of null (reading 'querySelector')"

  /** One call of translateImage. The results of loading the image, of OCR
      and of translation are parameters (`Failure(message)` for a thrown
      error); each is consulted only if the request is made. */
  function TranslateImage(cache: map<string, Entry>, session: Session, imageUrl: string, target: Target,
                          loaded: Result<string, string>, ocr: Result<string, string>, translation: Result<string, string>): (out: Outcome)
    // a cache hit makes no request and shows the cached pair
    ensures CacheKey(imageUrl, session.sourceLang, session.targetLang) in cache ==>
      out == Outcome([], cache[CacheKey(imageUrl, session.sourceLang, session.targetLang)], cache, None)
    // a miss starts by loading the image
    ensures CacheKey(imageUrl, session.sourceLang, session.targetLang) !in cache ==>
      |out.calls| >= 1 && out.calls[0] == LoadImage(imageUrl)
    // existing entries are never replaced or removed
    ensures forall k :: k in cache ==> k in out.cache && out.cache[k] == cache[k]
    // the cache grows only by this request's key, holding the recognised text and its translation
    ensures out.cache != cache ==>
      && ocr.Success? && translation.Success?
      && out.cache == cache[CacheKey(imageUrl, session.sourceLang, session.targetLang) := Entry(ocr.value, translation.value)]
    // what was cached is shown, unless overlaying a detached image then throws
    ensures out.cache != cache ==>
      || out.shown == Entry(ocr.value, translation.value)
      || (out.shown == Entry("Error", DetachedError) && session.autoTranslate && target == Target(false))
    // text is sent for translation only when it is not blank
    ensures forall c :: c in out.calls && c.TranslateText? ==> !IsBlank(c.text)
    ensures out.imageOverlay.Some? ==>
      session.autoTranslate && target == Target(true) && out.imageOverlay.value == out.shown.translated
  {
    var key := CacheKey(imageUrl, session.sourceLang, session.targetLang);
    if key in cache then Outcome([], cache[key], cache, None)
    else match loaded
      case Failure(e) => Outcome([LoadImage(imageUrl)], Entry("Error", e), cache, None)
      case Success(data) =>
        var recognised := [LoadImage(imageUrl), RecognizeText(data)];
        match ocr
        case Failure(e) => Outcome(recognised, Entry("Error", e), cache, None)
        case Success(text) =>
          if IsBlank(text) then Outcome(recognised, NoTextDetected, cache, None)
          else
            var asked := recognised + [TranslateText(text, session.sourceLang, session.targetLang)];
            match translation
            case Failure(e) => Outcome(asked, Entry("Error", e), cache, None)
            case Success(t) =>
              var cached := cache[key := Entry(text, t)];
              if session.autoTranslate && target.Target? then
                if target.attached then Outcome(asked, Entry(text, t), cached, Some(t))
                // the cache was written before the overlay threw; the catch shows the error
                else Outcome(asked, Entry("Error", DetachedError), cached, None)
              else Outcome(asked, Entry(text, t), cached, None)
  }

  /** A successful translation is cached under the request's key and shown,
      unless the overlay on a detached image throws; blank OCR text shows the
      no-text message; any failed request shows `Error` with its message; in
      neither of the last two cases is anything cached. */
  lemma MissOutcomes(cache: map<string, Entry>, session: Session, imageUrl: string, target: Target,
                     loaded: Result<string, string>, ocr: Result<string, string>, translation: Result<string, string>)
    requires CacheKey(imageUrl, session.sourceLang, session.targetLang) !in cache
    ensures var out := TranslateImage(cache, session, imageUrl, target, loaded, ocr, translation);
      && (loaded.Failure? ==> out.shown == Entry("Error", loaded.error) && out.cache == cache)
      && (loaded.Success? && ocr.Failure? ==> out.shown == Entry("Error", ocr.error) && out.cache == cache)
      && (loaded.Success? && ocr.Success? && IsBlank(ocr.value) ==>
            out.shown == NoTextDetected && out.cache == cache && |out.calls| == 2)
      && (loaded.Success? && ocr.Success? && !IsBlank(ocr.value) && translation.Failure? ==>
            out.shown == Entry("Error", translation.error) && out.cache == cache)
      && (loaded.Success? && ocr.Success? && !IsBlank(ocr.value) && translation.Success? ==>
            && out.cache == cache[CacheKey(imageUrl, session.sourceLang, session.targetLang) := Entry(ocr.value, translation.value)]
            && out.calls[2] == TranslateText(ocr.value, session.sourceLang, session.targetLang)
            && (session.autoTranslate && target == Target(false) ==> out.shown == Entry("Error", DetachedError))
            && (!(session.autoTranslate && target == Target(false)) ==> out.shown == Entry(ocr.value, translation.value))
            && (out.imageOverlay == Some(translation.value) <==> session.autoTranslate && target == Target(true)))
  {
  }

  /** When the page removed the image during the requests, the translation is
      cached but the panel shows the overlay's TypeError; the next identical
      request shows the cached pair without any request. */
  lemma {:induction false} DetachedImageCachesButShowsError(cache: map<string, Entry>, sourceLang: string, targetLang: string, imageUrl: string,
                                         data: string, text: string, translated: string,
                                         target2: Target, loaded2: Result<string, string>, ocr2: Result<string, string>, translation2: Result<string, string>)
    requires CacheKey(imageUrl, sourceLang, targetLang) !in cache && !IsBlank(text)
    ensures var session := Session(sourceLang, targetLang, true);
      var first := TranslateImage(cache, session, imageUrl, Target(false), Success(data), Success(text), Success(translated));
      var second := TranslateImage(first.cache, session, imageUrl, target2, loaded2, ocr2, translation2);
      && first.shown == Entry("Error", DetachedError)
      && first.cache[CacheKey(imageUrl, sourceLang, targetLang)] == Entry(text, translated)
      && second.calls == [] && second.shown == Entry(text, translated)
  {
  }

  /** After a call that cached its result, the same request again is served
      from the cache: no request is made and the cached pair is shown, which
      is the pair the first call showed unless its overlay threw. */
  lemma {:induction false} RepeatIsServedFromCache(cache: map<string, Entry>, session: Session, imageUrl: string, target: Target,
                                loaded: Result<string, string>, ocr: Result<string, string>, translation: Result<string, string>,
                                target2: Target, loaded2: Result<string, string>, ocr2: Result<string, string>, translation2: Result<string, string>)
    requires TranslateImage(cache, session, imageUrl, target, loaded, ocr, translation).cache != cache
    ensures var first := TranslateImage(cache, session, imageUrl, target, loaded, ocr, translation);
      var second := TranslateImage(first.cache, session, imageUrl, target2, loaded2, ocr2, translation2);
      && second.calls == [] && second.cache == first.cache
      && second.shown == Entry(ocr.value, translation.value)
      && (first.shown == second.shown || first.shown == Entry("Error", DetachedError))
  {
    var key := CacheKey(imageUrl, session.sourceLang, session.targetLang);
    var first := TranslateImage(cache, session, imageUrl, target, loaded, ocr, translation);
    assert first.cache == cache[key := Entry(ocr.value, translation.value)];
    assert key in first.cache && first.cache[key] == Entry(ocr.value, translation.value);
  }

  /** A call that cached nothing leaves the next identical call to try again. */
  lemma {:induction false} FailureIsRetried(cache: map<string, Entry>, session: Session, imageUrl: string, target: Target,
                          loaded: Result<string, string>, ocr: Result<string, string>, translation: Result<string, string>,
                          target2: Target, loaded2: Result<string, string>, ocr2: Result<string, string>, translation2: Result<string, string>)
    requires CacheKey(imageUrl, session.sourceLang, session.targetLang) !in cache
    requires TranslateImage(cache, session, imageUrl, target, loaded, ocr, translation).cache == cache
    ensures var first := TranslateImage(cache, session, imageUrl, target, loaded, ocr, translation);
      TranslateImage(first.cache, session, imageUrl, target2, loaded2, ocr2, translation2).calls[0] == LoadImage(imageUrl)
  {
  }
}
