# Comic translator core, modelled in Dafny

This project models the decision logic of the comic translator. It has three parts.

- **Text-region scanner** (`detectTextRegions`, backend translation service). The scanner walks a decoded greyscale image row by row. It finds each row's first and last dark pixel (intensity below 100). It opens or grows a rectangle on every row whose ink spans more than 50 columns. It closes the rectangle on the first quiet row more than 10 rows below the rectangle's last grown row. A closed rectangle is reported only if it is more than 20 rows tall.
- **Image preprocessing** (`preprocessImage`). The model covers which sharp stages are chained, in which order, with which arguments, and the integer box of the resolution guard.
- **Validators and content script.**
  - The backend validators: translation request, OCR request, filename sanitiser and uploaded-file check.
  - From the browser extension's content script: the comic-image heuristic, the defaulting of stored settings, and the translation cache in front of the OCR and translation requests.

Layout, one module per file:

- `wrappers.dfy`: `Option` and `Result`.
- `js_values.dfy`: JavaScript values and the operators the code relies on. These are truthiness, `||`, `!== false`, ASCII `toLowerCase`, `includes` and `trim`-emptiness.
- `text_regions.dfy`: the scanner as a fold over per-row ink extents, and the invariant every report satisfies.
- `region_runs.dfy`: exact outputs for runs of quiet and solid rows, one band and two bands.
- `region_detector.dfy`: the raw buffer, the scan as the code writes it (`DetectAsWritten`, one byte per pixel), and the nested loops of the corrected reading (`DetectTextRegions`, one grey byte per pixel), proved equal to the fold. The two agree on one-channel buffers (`SingleChannelAgrees`); the difference is the channel-count finding below.
- `image_preprocessor.dfy`: the stage pipeline and the resize guard.
- `validation.dfy`: the four validators.
- `content_script.dfy`: the image heuristic, settings, cache key and `translateImage`.

Three behaviours of the code worth stating plainly:

- **Reported sizes.** Width and height are `right - left` and `bottom - top`, with no `+ 1`. A band of 30 rows is reported 29 high (`RegionRuns.ThirtyRowBand`).
- **Resize guard.** It resizes with `fit: 'inside'` into the box `(max(2w, 600), max(2h, 600))`. This guarantees a scale of at least 2, not 600 pixels on every side: a 200 x 250 image comes out 480 x 600 (`ImagePreprocessor.GuardMayLeaveSideBelow600`).
- **Preprocessing flags.** They are destructured with default `true`. The default applies only to `undefined`, so `null`, `0` or `""` switch a stage off.

## Model

| member | source | states |
|---|---|---|
| TextRegions.RowExtent | comic-translator-app/backend/src/services/translationService.js:273-287 | A row has no extent exactly when it has no dark pixel. Otherwise the extent runs from the first to the last dark pixel, both dark, with nothing dark outside it. |
| TextRegions.RowExtentSnoc | comic-translator-app/backend/src/services/translationService.js:277-287 | One more column: a dark pixel becomes the extent's end, and also its start when the row had no ink yet. A light pixel changes nothing. |
| TextRegions.Step | comic-translator-app/backend/src/services/translationService.js:289-313 | A qualifying row never reports. It opens a rectangle at this row or keeps the top, and its left and right become exactly the smaller start and the larger end of the row and the old rectangle. A non-qualifying row closes the rectangle (reporting it if tall) exactly when the gap exceeds 10, and otherwise changes nothing. |
| TextRegions.RegionsWellFormed | comic-translator-app/backend/src/services/translationService.js:256-331 | Every report is wider than 50, taller than 20 and inside the image. Reports come top to bottom with more than 10 rows between consecutive ones. |
| TextRegions.NoInkNoRegions | comic-translator-app/backend/src/services/translationService.js:272-326 | An image with no pixel below 100 yields no regions. |
| RegionRuns.QuietRunKeeps | comic-translator-app/backend/src/services/translationService.js:302 | Quiet rows within 10 rows of the open rectangle's bottom, or with nothing open, leave the state unchanged. |
| RegionRuns.QuietRunCloses | comic-translator-app/backend/src/services/translationService.js:302-313 | Enough quiet rows close the open rectangle on the 11th row below its bottom, reporting it if tall. |
| RegionRuns.SolidRunGrows | comic-translator-app/backend/src/services/translationService.js:289-301 | A run of identical wide rows opens or extends the rectangle down to the run's last row and reports nothing. |
| RegionRuns.QuietTail | comic-translator-app/backend/src/services/translationService.js:302-324 | After the last wide row, the open rectangle is reported under the height test, whether a gap or the end of the image closes it. |
| RegionRuns.LeadingBand | comic-translator-app/backend/src/services/translationService.js:289-302 | Quiet rows, then a solid band, leave exactly the band's rectangle open and nothing reported. |
| RegionRuns.SingleBand | comic-translator-app/backend/src/services/translationService.js:272-324 | One solid band of k rows on a quiet image yields exactly one region of height k - 1 when k - 1 > 20, and nothing otherwise. |
| RegionRuns.UniformBand | comic-translator-app/backend/src/services/translationService.js:272-324 | An image whose every row has the same wide extent yields one full-height region when tall enough, and nothing otherwise. |
| RegionRuns.SecondBandMerges | comic-translator-app/backend/src/services/translationService.js:297-301 | A second band at most 10 rows below the first extends the same rectangle to the union of both extents. |
| RegionRuns.SecondBandSeparate | comic-translator-app/backend/src/services/translationService.js:302-313 | A second band more than 10 rows below the first starts a new rectangle after the first is closed. |
| RegionRuns.TwoBands | comic-translator-app/backend/src/services/translationService.js:289-324 | Two bands with a gap of at most 10 are reported as one merged region. With a larger gap each band is reported separately under its own height test. |
| RegionRuns.ThirtyRowBand | comic-translator-app/backend/src/services/translationService.js:304-310 | A 30-row band from column 0 to 199 is reported as one region of width 199 and height 29. |
| RegionRuns.TwentyOneRowBandIsDropped | comic-translator-app/backend/src/services/translationService.js:317 | A 21-row band has height 20, which is not over 20, so it is dropped. |
| RegionRuns.GapOfFiveMerges | comic-translator-app/backend/src/services/translationService.js:297-302 | Two 30-row bands 5 rows apart come out as one region 64 high. |
| RegionRuns.GapOfFifteenSplits | comic-translator-app/backend/src/services/translationService.js:302-313 | Two 30-row bands 15 rows apart come out as two regions 29 high. |
| RegionDetector.Sample | comic-translator-app/backend/src/services/translationService.js:278 | The byte read for a pixel is in range for the buffer and is an intensity in 0..255. |
| RegionDetector.Plane | comic-translator-app/backend/src/services/translationService.js:259-262 | The image seen through a given stride is well formed, of the buffer's size, and shows at each pixel the byte read there. |
| RegionDetector.DetectAsWritten | comic-translator-app/backend/src/services/translationService.js:256-331 | With the source's one-byte-per-pixel indexing, decode failure still gives an empty list. Every report is still wider than 50, taller than 20, inside the image and separated from the next by more than 10 rows. |
| RegionDetector.RowInk | comic-translator-app/backend/src/services/translationService.js:273-287 | The column loop sets `lineHasText` exactly when the row has ink, with `lineStart`/`lineEnd` the row's extent. It reads each pixel's grey byte, the corrected reading under "## Findings"; it matches the code's one-byte-per-pixel read only on one-channel buffers. |
| RegionDetector.AdvanceRow | comic-translator-app/backend/src/services/translationService.js:289-313 | The in-place rectangle updates of the row loop are one scanner step. |
| RegionDetector.Detect | comic-translator-app/backend/src/services/translationService.js:256-331 | Reading each pixel's grey byte, decode failure gives an empty list. Every report is wider than 50, taller than 20, inside the image and separated from the next by more than 10 rows. |
| RegionDetector.DetectTextRegions | comic-translator-app/backend/src/services/translationService.js:256-331 | The corrected reading under "## Findings": the nested loops, reading each pixel's grey byte, compute exactly the grey-plane scan `Detect` and inherit its guarantees (an empty list on decode failure, reports wider than 50 and taller than 20 inside the image, separated by more than 10 rows). The code as written is `DetectAsWritten`; the two agree when the buffer has one channel. |
| RegionDetector.SingleChannelAgrees | comic-translator-app/backend/src/services/translationService.js:259-278 | For a one-channel buffer the source's indexing gives the same regions as reading the grey byte. |
| RegionDetector.TransparentWhiteGrey | comic-translator-app/backend/src/services/translationService.js:259-262 | Every grey byte of a two-channel transparent white image is 255 (white, no ink). |
| RegionDetector.TransparentWhiteHasNoRegions | comic-translator-app/backend/src/services/translationService.js:259-278 | Read by its grey bytes, a transparent white image yields no regions. |
| RegionDetector.TransparentWhiteRegionsAsWritten | comic-translator-app/backend/src/services/translationService.js:278 | Read one byte per pixel, the same image is one band spanning columns 1 to w - 1 over its full height. |
| RegionDetector.AlphaReadAsInk | comic-translator-app/backend/src/services/translationService.js:259-278 | With the source's one-byte-per-pixel indexing, a two-channel transparent white image of even width ≥ 54 and height ≥ 22 is reported as one region (1, 0, w - 2, h - 1), although it holds no ink. |
| ImagePreprocessor.ResizeBox | comic-translator-app/backend/src/services/translationService.js:237-244 | A box is produced exactly when a side is under 300. Each box side is at least 600 and at least twice the image side, and equals one of the two. |
| ImagePreprocessor.Preprocess | comic-translator-app/backend/src/services/translationService.js:190-253 | It fails exactly when the original cannot be decoded, with the message "Failed to preprocess image". |
| ImagePreprocessor.PipelineOrdered | comic-translator-app/backend/src/services/translationService.js:206-244 | Stages come in the fixed order grayscale, modulate, gamma, linear, sharpen, median, resize. Grayscale is first and each kind appears at most once. |
| ImagePreprocessor.PipelineContents | comic-translator-app/backend/src/services/translationService.js:192-234 | Modulate and gamma appear exactly when `enhance` is on, sharpen exactly with `sharpen`, median exactly with `denoise`. The contrast line is always there. |
| ImagePreprocessor.PipelineArguments | comic-translator-app/backend/src/services/translationService.js:192-244 | Every stage carries its option or default. Sharpen is (1, 1, 2) and median is 3. The contrast line maps 128 to 128. The resize uses the guard's box. |
| ImagePreprocessor.ResizeIsLast | comic-translator-app/backend/src/services/translationService.js:236-244 | A resize is chained exactly when a side is under 300, and it is then the last stage. |
| ImagePreprocessor.LinearStageDefaults | comic-translator-app/backend/src/services/translationService.js:196-220 | With no options the contrast stage is `linear(1.2, -25.6)`. |
| ImagePreprocessor.InsideScale | comic-translator-app/backend/src/services/translationService.js:239-243 | The inside-fit scale keeps both sides within the box and meets the box on one side. |
| ImagePreprocessor.GuardAtLeastDoubles | comic-translator-app/backend/src/services/translationService.js:238-243 | Whenever the guard fires, the image is scaled by at least 2. |
| ImagePreprocessor.GuardMayLeaveSideBelow600 | comic-translator-app/backend/src/services/translationService.js:238-243 | A 200 x 250 image gets the box 600 x 600 and scale 2.4, so its width comes out 480. |
| JsValues.Lower | comic-translator-app/backend/src/utils/validation.js:16 | Lower-casing keeps the length and maps each character, with ASCII capitals shifted by 32. |
| JsValues.Utf16Length | comic-translator-app/backend/src/utils/validation.js:8 | JavaScript's `length` lies between the character count and twice it. It equals the character count exactly when no character lies outside the Basic Multilingual Plane, and twice it exactly when all do. |
| JsValues.Utf16LengthAppend | comic-translator-app/backend/src/utils/validation.js:8 | The length of a concatenation is the sum of the lengths. |
| JsValues.Includes | comic-translator-app/chrome-extension/content/content-script.js:152-153 | `includes` is true exactly when the pattern occurs at some index. |
| Validation.ValidateTranslationRequest | comic-translator-app/backend/src/utils/validation.js:1-21 | Valid exactly when the text is a non-empty string of at most 5000 UTF-16 code units, the target language is a non-empty string, and the service is absent or a string naming google or deepl. A bad text is reported first. The call throws exactly when all else passes and the service is truthy but not a string. |
| Validation.TranslationChecksInOrder | comic-translator-app/backend/src/utils/validation.js:4-20 | The result is the first failing check in source order, with each check stated on its own, or valid when none fails. |
| Validation.SourceLangUnconstrained | comic-translator-app/backend/src/utils/validation.js:2 | `sourceLang` never affects the result. |
| Validation.TextLengthBoundary | comic-translator-app/backend/src/utils/validation.js:8-10 | A text 5000 code units long passes; one more character fails with the length error. |
| Validation.AstralTextCountsTwice | comic-translator-app/backend/src/utils/validation.js:8-10 | 2600 characters outside the Basic Multilingual Plane are 5200 code units and are rejected as too long. |
| Validation.ServiceSpellingIrrelevant | comic-translator-app/backend/src/utils/validation.js:16 | Any two service spellings with the same lower-case form get the same verdict on every request. |
| Validation.ServiceCaseInsensitive | comic-translator-app/backend/src/utils/validation.js:16 | "Google", "GOOGLE" and "DeepL" are accepted; "bing" and "google " are not. |
| Validation.ValidateOcrRequest | comic-translator-app/backend/src/utils/validation.js:23-35 | Valid exactly when the filename is a non-empty string and the language is falsy or a string. The filename error comes first. It never throws. |
| Validation.SanitizeFilename | comic-translator-app/backend/src/utils/validation.js:37-39 | The JavaScript length is kept and the output holds only `[a-zA-Z0-9.-]` and `_`. Within the Basic Multilingual Plane each allowed character is kept and every other becomes `_`. |
| Validation.Replacement | comic-translator-app/backend/src/utils/validation.js:38 | An allowed character is kept; any other becomes one `_` per UTF-16 code unit, since the pattern has no `u` flag. |
| Validation.SanitizeAppend | comic-translator-app/backend/src/utils/validation.js:38 | Sanitising a concatenation sanitises each part. |
| Validation.AstralCharacterBecomesTwoUnderscores | comic-translator-app/backend/src/utils/validation.js:38 | A character outside the Basic Multilingual Plane between allowed parts becomes two underscores, so `a😀.png` becomes `a__.png`. |
| Validation.SanitizedCharacters | comic-translator-app/backend/src/utils/validation.js:38 | The output holds only allowed characters and `_`, so it holds no `/` or `\`. |
| Validation.SanitizeKeepsAllowed | comic-translator-app/backend/src/utils/validation.js:38 | A name made only of allowed characters comes back unchanged. |
| Validation.SanitizeIdempotent | comic-translator-app/backend/src/utils/validation.js:38 | Sanitising twice equals sanitising once. |
| Validation.ValidateImageFile | comic-translator-app/backend/src/utils/validation.js:41-54 | Valid exactly when the MIME type is one of jpeg, png, webp or tiff and the size is at most 50 MiB. The type is checked before the size. |
| Validation.ImageFileBoundaries | comic-translator-app/backend/src/utils/validation.js:42-51 | 52428800 bytes pass and 52428801 fail. Type matching is exact, so `image/PNG` and `image/gif` fail. |
| ContentScript.SomePattern | comic-translator-app/chrome-extension/content/content-script.js:152-153 | `some` is true exactly when some pattern occurs in the lower-cased source, alt text or class name. |
| ContentScript.IsComicImage | comic-translator-app/chrome-extension/content/content-script.js:141-155 | An image qualifies exactly when a comic pattern occurs in one of its three strings, or it is wider or taller than 300. |
| ContentScript.LargeImagesQualify | comic-translator-app/chrome-extension/content/content-script.js:154 | Any image over 300 on a side qualifies. |
| ContentScript.MissingAttributeIsEmpty | comic-translator-app/chrome-extension/content/content-script.js:143-144 | A missing alt or class behaves exactly like an empty one. |
| ContentScript.SourceMatchIgnoresCase | comic-translator-app/chrome-extension/content/content-script.js:142-153 | A pattern spelled in any mix of cases in the source makes the image qualify. |
| ContentScript.UpperCaseSourceQualifies | comic-translator-app/chrome-extension/content/content-script.js:142-153 | `x/MANGA/1` qualifies at any size. |
| ContentScript.SmallUnnamedImageDoesNotQualify | comic-translator-app/chrome-extension/content/content-script.js:146-154 | An image at most 300 on both sides, with every string shorter than the shortest pattern, does not qualify. |
| ContentScript.LoadSettings | comic-translator-app/chrome-extension/content/content-script.js:29-36 | The four string settings keep a truthy stored value and otherwise take their defaults. The overlay is on unless stored as `false`. Auto-translate keeps a truthy value and is otherwise `false`. |
| ContentScript.SettingsReloadStable | comic-translator-app/chrome-extension/content/content-script.js:29-36 | Loading, storing and loading again gives the same settings. |
| ContentScript.EmptyStorageDefaults | comic-translator-app/chrome-extension/content/content-script.js:29-36 | Empty storage, and storage of empty strings, both give the defaults with the overlay on. |
| ContentScript.OverlayOffOnlyForFalse | comic-translator-app/chrome-extension/content/content-script.js:34 | `0`, `null` and `""` leave the overlay on; only `false` turns it off. |
| ContentScript.CacheKey | comic-translator-app/chrome-extension/content/content-script.js:163 | The key is the three parts joined by two dashes, so its length is their total length plus 2. |
| ContentScript.CacheKeyInjective | comic-translator-app/chrome-extension/content/content-script.js:163-164 | With dash-free language codes, equal keys mean the same URL, source and target, whatever dashes the URL holds. |
| ContentScript.RegionalCodeCollides | comic-translator-app/chrome-extension/content/content-script.js:163 | A source code with a dash, such as `zh-CN`, lets two different requests share a key. |
| ContentScript.TranslateImage | comic-translator-app/chrome-extension/content/content-script.js:157-207 | A hit makes no request and shows the cached pair. A miss starts by loading the image. Existing entries are never replaced. The cache grows only by this request's key, holding the recognised text and its translation, which are shown unless overlaying a detached image throws. Only non-blank text is sent for translation, and the image overlay appears only with auto-translate and an attached element. |
| ContentScript.MissOutcomes | comic-translator-app/chrome-extension/content/content-script.js:170-203 | On a miss, each failed request shows `Error` with its message and caches nothing. Blank text shows "No text detected" after two requests. A success caches (OCR text, translation); it shows that pair, overlays an attached image under auto-translate, and shows the overlay's TypeError for a detached one. |
| ContentScript.DetachedImageCachesButShowsError | comic-translator-app/chrome-extension/content/content-script.js:186-203 | With auto-translate on and an image the page removed meanwhile, the translation is cached but `Error` is shown, since the overlay throws after the cache write; the next identical request shows the cached pair without a request. |
| ContentScript.RepeatIsServedFromCache | comic-translator-app/chrome-extension/content/content-script.js:163-189 | After a call that cached, the same request makes no request and shows the cached pair, which the first call also showed unless its overlay threw. |
| ContentScript.FailureIsRetried | comic-translator-app/chrome-extension/content/content-script.js:164-203 | After a call that cached nothing, the same request loads the image again. |

## Left out

- File I/O in `preprocessImage` is not modelled: the output path with its random uuid, PNG encoding, writing the file and the logger. The result is the list of chained stages.
- What each sharp stage does to pixels is not modelled. This covers greyscale conversion, modulate, gamma, linear, sharpen, median, resize and PNG encoding. They belong to the library.
- ImagePreprocessor.Preprocess: sharp's own argument checks are not modelled. Examples are gamma outside 1..3 and a non-numeric contrast, both of which make sharp throw and so reach the rethrown error. Only a decode failure leads to `Failure` here.
- ImagePreprocessor.InsideScale: uses exact rationals. sharp's rounding of the fitted size to whole pixels is not modelled.
- Options that are present but not numbers are not modelled. Options are either absent or a number, and floating-point arithmetic is taken as exact.
- Decoding an image into a raw buffer belongs to sharp. A decode failure is modelled as `None`, which gives `[]`.
- JsValues.Lower: lower-cases ASCII letters only. Every string compared after lower-casing (service names, comic patterns) is ASCII, but non-ASCII capitals in URLs or alt texts are not lowered.
- Strings are sequences of Unicode characters. A character outside the Basic Multilingual Plane counts as one character here and as two code units in JavaScript. The two places where this shows are modelled with `Utf16Length`: the 5000 limit of `validateTranslationRequest` and the underscores of `sanitizeFilename`. Elsewhere only ASCII patterns are searched for and only ASCII letters lowered, where the two views agree. Lone surrogates cannot be represented and are not modelled.
- JavaScript values carry no NaN. Request bodies and extension storage are JSON, which has none.
- Validation.ValidateImageFile: the size is a number. A missing size, which JavaScript compares as not greater than the limit, is not modelled. A missing file and a missing request body throw TypeErrors that are not modelled either.
- ContentScript.CacheKey: takes the language settings as strings. Formatting a non-string setting inside the template is not modelled.
- ContentScript.TranslateImage: the image load, the OCR request and the translation request are parameters, each a value or `Failure(message)`. Their HTTP and canvas details are not modelled. An OCR response without a `text` field, which would throw inside the `try`, is covered only as a `Failure`.
- The loading indicator, panel display and image overlay are not modelled beyond the pair shown, the overlay text and the overlay's TypeError on a detached image. Neither are the rest of the DOM and `chrome.*` APIs.
- Concurrent `translateImage` calls racing on the cache are not modelled.
- The rest of the repository is outside this model: routes, controllers, the OCR and translation back ends, the frontend, the popup and the service worker.

## Findings

| source | as written | input that shows it | evidently intended | confidence | as-written member | corrected member |
|---|---|---|---|---|---|---|
| comic-translator-app/backend/src/services/translationService.js:278 | Pixel (x, y) is read at `data[y * info.width + x]`, ignoring `info.channels`. When the greyscale output keeps an alpha channel (sharp keeps the input's alpha unless told to remove it), a two-channel buffer has alternating grey and alpha bytes read as intensities. | A fully transparent white PNG (grey 255, alpha 0) of even width ≥ 54 and height ≥ 22. Its grey plane has no ink, yet every row reads as white/black stripes, and one region (1, 0, w - 2, h - 1) is reported. | Read the grey byte of each pixel, at `data[(y * info.width + x) * info.channels]`. | medium, not executed | RegionDetector.AlphaReadAsInk | RegionDetector.DetectTextRegions |
