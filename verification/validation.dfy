/**
 * The backend's hand-written validators: translation and OCR request
 * checks with ordered error reporting, the filename sanitiser and the
 * uploaded-file check.
 */
module Validation {
  import opened JsValues

  /** What a validator returns (`{ isValid: true }` or `{ isValid: false, error }`),
      or the TypeError it throws. */
  datatype Verdict = Valid | Invalid(error: string) | Throws(message: string)

  const TextError := "Text is required and must be a string"
  const TextTooLongError := "Text must be less than 5000 characters"
  const TargetLangError := "Target language is required"
  const ServiceError := "Service must be either google or deepl"
  const ServiceNotString := "service.toLowerCase is not a function"
  const FilenameError := "Filename is required and must be a string"
  const LanguageError := "Language must be a string"
  const FileTypeError := "Invalid file type"
  const FileSizeError := "File size too large"

  const MaxTextLength := 5000
  const MaxFileSize := 50 * 1024 * 1024
  const AllowedTypes := ["image/jpeg", "image/png", "image/webp", "image/tiff"]

  // ---------------------------------------------------------------------
  // validateTranslationRequest

  /** The request body's fields; `Undefined` when absent. */
  datatype TranslationRequest = TranslationRequest(text: Value, sourceLang: Value, targetLang: Value, service: Value)

  /** A service name the backend accepts, compared after lower-casing. */
  predicate KnownService(s: string)
  {
    Lower(s) == "google" || Lower(s) == "deepl"
  }

  function ValidateTranslationRequest(req: TranslationRequest): (v: Verdict)
    // accepted exactly when every check passes
    ensures v == Valid <==>
      && NonEmptyString(req.text) && Utf16Length(req.text.s) <= MaxTextLength
      && NonEmptyString(req.targetLang)
      && (!Truthy(req.service) || (req.service.Str? && KnownService(req.service.s)))
    // a missing, empty or non-string text is reported before anything else
    ensures !NonEmptyString(req.text) ==> v == Invalid(TextError)
    // only a truthy non-string service can make `toLowerCase` throw
    ensures v.Throws? <==>
      && NonEmptyString(req.text) && Utf16Length(req.text.s) <= MaxTextLength
      && NonEmptyString(req.targetLang)
      && Truthy(req.service) && !req.service.Str?
  {
    if !Truthy(req.text) || !req.text.Str? then Invalid(TextError)
    else if Utf16Length(req.text.s) > MaxTextLength then Invalid(TextTooLongError)
    else if !Truthy(req.targetLang) || !req.targetLang.Str? then Invalid(TargetLangError)
    else if Truthy(req.service) && !req.service.Str? then Throws(ServiceNotString)
    else if Truthy(req.service) && !(Lower(req.service.s) in ["google", "deepl"]) then Invalid(ServiceError)
    else Valid
  }

  /** A check in a validator: the condition under which it fails and what it reports. */
  datatype Check = Check(fails: bool, verdict: Verdict)

  /** Reference reading of ordered error reporting: the verdict of the first
      failing check, or `Valid` when none fails. */
  function FirstFailing(checks: seq<Check>): (v: Verdict)
    ensures v == Valid <==> (forall i :: 0 <= i < |checks| ==> !checks[i].fails) || exists i :: 0 <= i < |checks| && checks[i].fails && checks[i].verdict == Valid && forall j :: 0 <= j < i ==> !checks[j].fails
  {
    if checks == [] then Valid
    else if checks[0].fails then checks[0].verdict
    else
      var v := FirstFailing(checks[1..]);
      assert forall i :: 1 <= i < |checks| ==> checks[1..][i - 1] == checks[i];
      v
  }

  /** The translation request's checks, each stated on its own, in source order. */
  function TranslationChecks(req: TranslationRequest): seq<Check>
  {
    [ Check(!NonEmptyString(req.text), Invalid(TextError)),
      Check(req.text.Str? && Utf16Length(req.text.s) > MaxTextLength, Invalid(TextTooLongError)),
      Check(!NonEmptyString(req.targetLang), Invalid(TargetLangError)),
      Check(Truthy(req.service) && !req.service.Str?, Throws(ServiceNotString)),
      Check(NonEmptyString(req.service) && !KnownService(req.service.s), Invalid(ServiceError)) ]
  }

  /** The validator reports the first failing check's error, and `Valid` when none fails. */
  lemma TranslationChecksInOrder(req: TranslationRequest)
    ensures ValidateTranslationRequest(req) == FirstFailing(TranslationChecks(req))
  {
    var cs := TranslationChecks(req);
    assert FirstFailing(cs[4..]) == if cs[4].fails then cs[4].verdict else Valid;
    assert FirstFailing(cs[3..]) == if cs[3].fails then cs[3].verdict else FirstFailing(cs[4..]);
    assert FirstFailing(cs[2..]) == if cs[2].fails then cs[2].verdict else FirstFailing(cs[3..]);
    assert FirstFailing(cs[1..]) == if cs[1].fails then cs[1].verdict else FirstFailing(cs[2..]);
  }

  /** `sourceLang` is never looked at. */
  lemma SourceLangUnconstrained(req: TranslationRequest, lang: Value)
    ensures ValidateTranslationRequest(req.(sourceLang := lang)) == ValidateTranslationRequest(req)
  {
  }

  /** A text of exactly 5000 code units passes the length check; one more fails it. */
  lemma TextLengthBoundary(text: string, target: string)
    requires Utf16Length(text) == MaxTextLength && target != ""
    ensures ValidateTranslationRequest(TranslationRequest(Str(text), Undefined, Str(target), Undefined)) == Valid
    ensures ValidateTranslationRequest(TranslationRequest(Str(text + "x"), Undefined, Str(target), Undefined)) == Invalid(TextTooLongError)
  {
    Utf16LengthAppend(text, "x");
  }

  /** The limit counts UTF-16 code units: 2600 characters outside the Basic
      Multilingual Plane (emoji, say) are 5200 units long and are rejected. */
  lemma {:induction false} AstralTextCountsTwice(text: string, target: string)
    requires |text| == 2600 && target != ""
    requires forall i :: 0 <= i < |text| ==> text[i] as int > 0xFFFF
    ensures ValidateTranslationRequest(TranslationRequest(Str(text), Undefined, Str(target), Undefined)) == Invalid(TextTooLongError)
  {
    assert forall i :: 0 <= i < |text| ==> CodeUnits(text[i]) == 2;
    assert Utf16Length(text) == 5200;
  }

  lemma LowerGoogle()
    ensures Lower("Google") == "google" && Lower("GOOGLE") == "google"
  {
  }

  lemma LowerOthers()
    ensures Lower("DeepL") == "deepl" && Lower("bing")[0] == 'b' && |Lower("google ")| == 7
  {
  }

  /** Service names compare without regard to case: two spellings with the
      same lower-case form get the same verdict on every request. */
  lemma {:induction false} ServiceSpellingIrrelevant(req: TranslationRequest, s: string, t: string)
    requires Lower(s) == Lower(t)
    ensures ValidateTranslationRequest(req.(service := Str(s))) == ValidateTranslationRequest(req.(service := Str(t)))
  {
    assert |s| == |Lower(s)| == |Lower(t)| == |t|;
    assert Truthy(Str(s)) <==> Truthy(Str(t));
  }

  /** Examples of the case-insensitive comparison. */
  lemma ServiceCaseInsensitive()
    ensures KnownService("Google") && KnownService("GOOGLE") && KnownService("DeepL")
    ensures !KnownService("bing") && !KnownService("google ")
  {
    LowerGoogle();
    LowerOthers();
  }

  // ---------------------------------------------------------------------
  // validateOcrRequest

  datatype OcrRequest = OcrRequest(filename: Value, language: Value)

  function ValidateOcrRequest(req: OcrRequest): (v: Verdict)
    ensures v == Valid <==> NonEmptyString(req.filename) && (!Truthy(req.language) || req.language.Str?)
    ensures !NonEmptyString(req.filename) ==> v == Invalid(FilenameError)
    ensures NonEmptyString(req.filename) && Truthy(req.language) && !req.language.Str? ==> v == Invalid(LanguageError)
    ensures !v.Throws?
  {
    if !Truthy(req.filename) || !req.filename.Str? then Invalid(FilenameError)
    else if Truthy(req.language) && !req.language.Str? then Invalid(LanguageError)
    else Valid
  }

  // ---------------------------------------------------------------------
  // sanitizeFilename

  /** The characters `[a-zA-Z0-9.-]` the sanitiser keeps. */
  predicate AllowedChar(c: char)
  {
    ('a' <= c <= 'z') || ('A' <= c <= 'Z') || ('0' <= c <= '9') || c == '.' || c == '-'
  }

  /** What the regular expression makes of one character: kept when allowed,
      otherwise one `_` per UTF-16 code unit, since the pattern has no `u`
      flag and matches each half of a surrogate pair on its own. */
  function Replacement(c: char): (r: string)
    ensures AllowedChar(c) ==> r == [c]
    ensures !AllowedChar(c) ==> |r| == CodeUnits(c) && forall i :: 0 <= i < |r| ==> r[i] == '_'
  {
    if AllowedChar(c) then [c] else if CodeUnits(c) == 2 then "__" else "_"
  }

  /** `filename.replace(/[^a-zA-Z0-9.-]/g, '_')`. */
  function SanitizeFilename(name: string): (r: string)
    // the JavaScript length is kept
    ensures |r| == Utf16Length(name)
    ensures forall i :: 0 <= i < |r| ==> AllowedChar(r[i]) || r[i] == '_'
    // within the Basic Multilingual Plane each character is kept or replaced in place
    ensures (forall i :: 0 <= i < |name| ==> CodeUnits(name[i]) == 1) ==>
      forall i :: 0 <= i < |name| ==> r[i] == if AllowedChar(name[i]) then name[i] else '_'
  {
    if name == [] then []
    else
      var r := Replacement(name[0]) + SanitizeFilename(name[1..]);
      assert forall i :: 1 <= i < |name| ==> name[1..][i - 1] == name[i];
      r
  }

  /** Sanitising works character by character: a concatenation is sanitised
      piecewise. */
  lemma {:induction false} SanitizeAppend(a: string, b: string)
    ensures SanitizeFilename(a + b) == SanitizeFilename(a) + SanitizeFilename(b)
    decreases |a|
  {
    if a == [] {
      assert a + b == b;
    } else {
      assert (a + b)[0] == a[0] && (a + b)[1..] == a[1..] + b;
      SanitizeAppend(a[1..], b);
    }
  }

  /** A character outside the Basic Multilingual Plane becomes two
      underscores: `a😀.png` is sanitised to `a__.png`. */
  lemma {:induction false} AstralCharacterBecomesTwoUnderscores(before: string, c: char, after: string)
    requires forall i :: 0 <= i < |before| ==> AllowedChar(before[i])
    requires forall i :: 0 <= i < |after| ==> AllowedChar(after[i])
    requires c as int > 0xFFFF
    ensures SanitizeFilename(before + [c] + after) == before + "__" + after
  {
    SanitizeAppend(before + [c], after);
    SanitizeAppend(before, [c]);
    SanitizeKeepsAllowed(before);
    SanitizeKeepsAllowed(after);
    assert [c][1..] == [];
    assert SanitizeFilename([c]) == "__";
  }

  /** The output consists of allowed characters and underscores only, so it
      holds no path separator. */
  lemma SanitizedCharacters(name: string)
    ensures forall c :: c in SanitizeFilename(name) ==> AllowedChar(c) || c == '_'
    ensures '/' !in SanitizeFilename(name) && '\\' !in SanitizeFilename(name)
  {
  }

  /** A name made of allowed characters comes back unchanged. */
  lemma {:induction false} SanitizeKeepsAllowed(name: string)
    requires forall i :: 0 <= i < |name| ==> AllowedChar(name[i])
    ensures SanitizeFilename(name) == name
  {
    assert forall i :: 0 <= i < |name| ==> CodeUnits(name[i]) == 1;
  }

  /** Sanitising twice is sanitising once. */
  lemma SanitizeIdempotent(name: string)
    ensures SanitizeFilename(SanitizeFilename(name)) == SanitizeFilename(name)
  {
    var once := SanitizeFilename(name);
    assert forall i :: 0 <= i < |once| ==> CodeUnits(once[i]) == 1;
  }

  // ---------------------------------------------------------------------
  // validateImageFile

  /** The multer file record: its MIME type and its size in bytes. */
  datatype UploadedFile = UploadedFile(mimetype: string, size: int)

  function ValidateImageFile(file: UploadedFile): (v: Verdict)
    ensures v == Valid <==> file.mimetype in AllowedTypes && file.size <= MaxFileSize
    // the type is checked before the size
    ensures file.mimetype !in AllowedTypes ==> v == Invalid(FileTypeError)
    ensures file.mimetype in AllowedTypes && file.size > MaxFileSize ==> v == Invalid(FileSizeError)
    ensures !v.Throws?
  {
    if file.mimetype !in AllowedTypes then Invalid(FileTypeError)
    else if file.size > MaxFileSize then Invalid(FileSizeError)
    else Valid
  }

  /** Exactly 50 MiB is accepted, one byte more is not; type matching is exact. */
  lemma ImageFileBoundaries()
    ensures ValidateImageFile(UploadedFile("image/png", 52428800)) == Valid
    ensures ValidateImageFile(UploadedFile("image/png", 52428801)) == Invalid(FileSizeError)
    ensures ValidateImageFile(UploadedFile("image/gif", 1)) == Invalid(FileTypeError)
    ensures ValidateImageFile(UploadedFile("image/PNG", 1)) == Invalid(FileTypeError)
  {
  }
}
