/**
 * The backend's endpoints: `/api/generate-content`, which runs the requested
 * generators in a fixed order, and the two upload endpoints, which write the
 * upload to a temporary file, hand it to a service and remove the file only
 * when the service succeeds.
 */
module Backend {
  import opened Wrappers
  import opened PyStr
  import opened Json
  import opened Errors
  import opened Outcomes
  import opened FileStore
  import AiService
  import OcrService
  import AudioService

  // ---------------------------------------------------------------------
  // /api/generate-content
  // ---------------------------------------------------------------------

  /** The three things `/api/generate-content` can produce, in the order it produces them. */
  datatype ContentKind = Flashcards | Summary | Questions

  /** The key of each kind, both in the request's `content_type` and in the result. */
  function ContentKey(k: ContentKind): (key: string)
    ensures key in {"flashcards", "summary", "questions"}
  {
    match k
    case Flashcards => "flashcards"
    case Summary => "summary"
    case Questions => "questions"
  }

  /** Position of a kind in the order of lines 148-158. */
  function Position(k: ContentKind): nat {
    match k
    case Flashcards => 0
    case Summary => 1
    case Questions => 2
  }

  /** `content_type in [key, "all"]`: the request's type is compared as sent, not lower-cased. */
  predicate Requested(contentType: string, k: ContentKind) {
    contentType == ContentKey(k) || contentType == "all"
  }

  /** What the AI service returns for one kind; the summary string becomes a JSON string. */
  function Generated(ollama: Ollama, decode: Decoder, text: string, k: ContentKind): (r: Result<Value, Exception>)
    ensures r.Success? && k != Summary ==> HasLen(r.value)
    ensures r.Success? && k == Summary ==> r.value.JString?
    ensures r.Failure? ==> r.error.Raised?
  {
    match k
    case Flashcards => AiService.GenerateFlashcards(ollama, decode, text)
    case Summary =>
      (match AiService.GenerateSummary(ollama, text)
       case Failure(e) => Failure(e)
       case Success(summary) => Success(JString(summary)))
    case Questions => AiService.GenerateQuestions(ollama, decode, text)
  }

  /**
   * One of the three `if` blocks of lines 148-158: a requested kind is
   * generated and stored under its key; the first failure ends the run.
   */
  function Step(acc: Result<map<string, Value>, Exception>, ollama: Ollama, decode: Decoder, text: string,
                contentType: string, k: ContentKind): Result<map<string, Value>, Exception>
  {
    if acc.Failure? || !Requested(contentType, k) then acc
    else
      match Generated(ollama, decode, text, k)
      case Failure(e) => Failure(e)
      case Success(v) => Success(acc.value[ContentKey(k) := v])
  }

  /** The `result` dict of lines 146-158, or the exception that stopped it. */
  function Content(ollama: Ollama, decode: Decoder, text: string, contentType: string): Result<map<string, Value>, Exception> {
    var afterFlashcards := Step(Success(map[]), ollama, decode, text, contentType, Flashcards);
    var afterSummary := Step(afterFlashcards, ollama, decode, text, contentType, Summary);
    Step(afterSummary, ollama, decode, text, contentType, Questions)
  }

  const ContentError := "Error generating content: "
  const TextRequired := "Text input is required"
  const ContentMessage := "Content generated successfully"

  /** The body of a successful `/api/generate-content`; "success" is always true. */
  datatype ContentReply = ContentReply(content: map<string, Value>, message: string)

  /** `not text or len(text.strip()) == 0` (line 143). */
  predicate IsBlank(text: string) {
    text == "" || Strip(text) == ""
  }

  /**
   * `/api/generate-content` (lines 130-168) as a value: the blank check,
   * then the generators; every exception, the 400 included, leaves as a 500.
   */
  function ContentResponse(ollama: Ollama, decode: Decoder, text: string, contentType: string): (r: Response<ContentReply>)
    ensures r.HttpError? ==> r.status == 500 && StartsWith(r.detail, ContentError)
    ensures r.Ok? ==> r.body.message == ContentMessage
    ensures IsBlank(text) ==> r == Rewrapped(ContentError, HTTPException(400, TextRequired))
    ensures r.Ok? <==> !IsBlank(text) && Content(ollama, decode, text, contentType).Success?
    ensures r.Ok? ==> r.body.content == Content(ollama, decode, text, contentType).value
    ensures !IsBlank(text) && Content(ollama, decode, text, contentType).Failure? ==>
      r == HttpError(500, ContentError + Str(Content(ollama, decode, text, contentType).error))
  {
    if IsBlank(text) then Rewrapped(ContentError, HTTPException(400, TextRequired))
    else
      match Content(ollama, decode, text, contentType)
      case Failure(e) => Rewrapped(ContentError, e)
      case Success(content) => Ok(ContentReply(content, ContentMessage))
  }

  /**
   * `/api/generate-content`, filling `result` block by block; each block's
   * `content_type in [key, "all"]` test is `Requested`.
   */
  method GenerateContent(ollama: Ollama, decode: Decoder, text: string, contentType: string) returns (r: Response<ContentReply>)
    ensures r == ContentResponse(ollama, decode, text, contentType)
  {
    if text == "" || |Strip(text)| == 0 {
      return Rewrapped(ContentError, HTTPException(400, TextRequired));
    }
    var result: map<string, Value> := map[];
    if Requested(contentType, Flashcards) {
      var flashcards := Generated(ollama, decode, text, Flashcards);
      if flashcards.Failure? {
        return Rewrapped(ContentError, flashcards.error);
      }
      result := result["flashcards" := flashcards.value];
    }
    ghost var afterFlashcards := Step(Success(map[]), ollama, decode, text, contentType, Flashcards);
    assert afterFlashcards == Success(result);
    if Requested(contentType, Summary) {
      var summary := Generated(ollama, decode, text, Summary);
      if summary.Failure? {
        return Rewrapped(ContentError, summary.error);
      }
      result := result["summary" := summary.value];
    }
    ghost var afterSummary := Step(afterFlashcards, ollama, decode, text, contentType, Summary);
    assert afterSummary == Success(result);
    if Requested(contentType, Questions) {
      var questions := Generated(ollama, decode, text, Questions);
      if questions.Failure? {
        return Rewrapped(ContentError, questions.error);
      }
      result := result["questions" := questions.value];
    }
    return Ok(ContentReply(result, ContentMessage));
  }

  /** The keys the three steps can leave in the content, given where it started. */
  lemma StepKeys(acc: Result<map<string, Value>, Exception>, ollama: Ollama, decode: Decoder, text: string,
                 contentType: string, k: ContentKind)
    requires Step(acc, ollama, decode, text, contentType, k).Success?
    ensures acc.Success?
    ensures Requested(contentType, k) ==> Generated(ollama, decode, text, k).Success?
    ensures var m := Step(acc, ollama, decode, text, contentType, k).value;
      && (forall key :: key in m <==> key in acc.value || (Requested(contentType, k) && key == ContentKey(k)))
      && (Requested(contentType, k) ==> m[ContentKey(k)] == Generated(ollama, decode, text, k).value)
      && (forall key :: key in acc.value && key != ContentKey(k) ==> m[key] == acc.value[key])
  {
  }

  /**
   * A successful content map has a key for exactly the requested kinds,
   * each holding what the AI service generated for that kind.
   */
  lemma ContentKeysAreRequested(ollama: Ollama, decode: Decoder, text: string, contentType: string, k: ContentKind)
    requires Content(ollama, decode, text, contentType).Success?
    ensures var content := Content(ollama, decode, text, contentType).value;
      && (ContentKey(k) in content <==> Requested(contentType, k))
      && (ContentKey(k) in content ==> content[ContentKey(k)] == Generated(ollama, decode, text, k).value)
  {
    var s1 := Step(Success(map[]), ollama, decode, text, contentType, Flashcards);
    var s2 := Step(s1, ollama, decode, text, contentType, Summary);
    StepKeys(s2, ollama, decode, text, contentType, Questions);
    StepKeys(s1, ollama, decode, text, contentType, Summary);
    StepKeys(Success(map[]), ollama, decode, text, contentType, Flashcards);
  }

  /** The content map has no key beside the three. */
  lemma ContentHasOnlyKnownKeys(ollama: Ollama, decode: Decoder, text: string, contentType: string)
    requires Content(ollama, decode, text, contentType).Success?
    ensures forall key :: key in Content(ollama, decode, text, contentType).value ==>
      key in {"flashcards", "summary", "questions"}
  {
    var s1 := Step(Success(map[]), ollama, decode, text, contentType, Flashcards);
    var s2 := Step(s1, ollama, decode, text, contentType, Summary);
    StepKeys(s2, ollama, decode, text, contentType, Questions);
    StepKeys(s1, ollama, decode, text, contentType, Summary);
    StepKeys(Success(map[]), ollama, decode, text, contentType, Flashcards);
  }

  /** The content is produced exactly when every requested generator succeeds. */
  lemma ContentSucceedsIffRequestedSucceed(ollama: Ollama, decode: Decoder, text: string, contentType: string)
    ensures Content(ollama, decode, text, contentType).Success? <==>
      forall k :: Requested(contentType, k) ==> Generated(ollama, decode, text, k).Success?
  {
    var s1 := Step(Success(map[]), ollama, decode, text, contentType, Flashcards);
    var s2 := Step(s1, ollama, decode, text, contentType, Summary);
    var s3 := Step(s2, ollama, decode, text, contentType, Questions);
    if s3.Success? {
      StepKeys(s2, ollama, decode, text, contentType, Questions);
      StepKeys(s1, ollama, decode, text, contentType, Summary);
      StepKeys(Success(map[]), ollama, decode, text, contentType, Flashcards);
    }
  }

  /**
   * The reported failure is that of the first requested kind, in the order
   * flashcards, summary, questions, that failed; no partial result is
   * returned.
   */
  lemma FirstFailureWins(ollama: Ollama, decode: Decoder, text: string, contentType: string, k: ContentKind)
    requires !IsBlank(text)
    requires Requested(contentType, k) && Generated(ollama, decode, text, k).Failure?
    requires forall j :: Position(j) < Position(k) && Requested(contentType, j) ==> Generated(ollama, decode, text, j).Success?
    ensures ContentResponse(ollama, decode, text, contentType) ==
      HttpError(500, ContentError + Str(Generated(ollama, decode, text, k).error))
  {
    var s1 := Step(Success(map[]), ollama, decode, text, contentType, Flashcards);
    var s2 := Step(s1, ollama, decode, text, contentType, Summary);
    var e := Generated(ollama, decode, text, k).error;
    match k
    case Flashcards =>
      assert s1 == Failure(e);
    case Summary =>
      assert Position(Flashcards) < Position(Summary);
      assert s1.Success?;
      assert s2 == Failure(e);
    case Questions =>
      assert Position(Flashcards) < Position(Questions) && Position(Summary) < Position(Questions);
      assert s1.Success?;
      assert s2.Success?;
  }

  /** A `content_type` that names none of the kinds is not refused: the content is empty. */
  lemma UnknownTypeGivesEmptyContent(ollama: Ollama, decode: Decoder, text: string, contentType: string)
    requires !IsBlank(text)
    requires contentType !in {"flashcards", "summary", "questions", "all"}
    ensures ContentResponse(ollama, decode, text, contentType) == Ok(ContentReply(map[], ContentMessage))
  {
    assert !Requested(contentType, Flashcards) && !Requested(contentType, Summary) && !Requested(contentType, Questions);
  }

  /** Blank text is refused before any generation, and the 400 leaves as a 500. */
  lemma BlankTextIs500(ollama: Ollama, decode: Decoder, text: string, contentType: string)
    requires IsBlank(text)
    ensures ContentResponse(ollama, decode, text, contentType) == HttpError(500, ContentError + "400: " + TextRequired)
  {
    assert NatToString(400) == "400";
  }

  /**
   * The generators receive the text exactly as sent: two Ollamas that
   * agree on the three prompts for that text, whitespace included, give
   * the same response.
   */
  lemma OnlyPromptsForRawTextMatter(o1: Ollama, o2: Ollama, decode: Decoder, text: string, contentType: string)
    requires o1(BackendFlashcardPrompt(text)) == o2(BackendFlashcardPrompt(text))
    requires o1(BackendSummaryPrompt(text)) == o2(BackendSummaryPrompt(text))
    requires o1(BackendQuestionPrompt(text)) == o2(BackendQuestionPrompt(text))
    ensures ContentResponse(o1, decode, text, contentType) == ContentResponse(o2, decode, text, contentType)
  {
    GeneratedFromPrompt(o1, o2, decode, text, Flashcards);
    GeneratedFromPrompt(o1, o2, decode, text, Summary);
    GeneratedFromPrompt(o1, o2, decode, text, Questions);
    var a1 := Step(Success(map[]), o1, decode, text, contentType, Flashcards);
    var a2 := Step(Success(map[]), o2, decode, text, contentType, Flashcards);
    StepCongruent(Success(map[]), o1, o2, decode, text, contentType, Flashcards);
    var b1 := Step(a1, o1, decode, text, contentType, Summary);
    StepCongruent(a1, o1, o2, decode, text, contentType, Summary);
    StepCongruent(b1, o1, o2, decode, text, contentType, Questions);
    assert Content(o1, decode, text, contentType) == Content(o2, decode, text, contentType);
  }

  /** The prompt each kind sends to Ollama. */
  function PromptFor(k: ContentKind, text: string): Prompt {
    match k
    case Flashcards => BackendFlashcardPrompt(text)
    case Summary => BackendSummaryPrompt(text)
    case Questions => BackendQuestionPrompt(text)
  }

  /** A generator sees Ollama only through the answer to its own prompt. */
  lemma GeneratedFromPrompt(o1: Ollama, o2: Ollama, decode: Decoder, text: string, k: ContentKind)
    requires o1(PromptFor(k, text)) == o2(PromptFor(k, text))
    ensures Generated(o1, decode, text, k) == Generated(o2, decode, text, k)
  {
  }

  /** A step depends on Ollama only through the generator it runs. */
  lemma StepCongruent(acc: Result<map<string, Value>, Exception>, o1: Ollama, o2: Ollama, decode: Decoder,
                      text: string, contentType: string, k: ContentKind)
    requires Generated(o1, decode, text, k) == Generated(o2, decode, text, k)
    ensures Step(acc, o1, decode, text, contentType, k) == Step(acc, o2, decode, text, contentType, k)
  {
  }

  // ---------------------------------------------------------------------
  // Upload endpoints
  // ---------------------------------------------------------------------

  /** The name used when the upload has no file name (lines 74 and 108, audio included). */
  const DefaultUpload := "uploaded_image.jpg"

  /** `file.filename or "uploaded_image.jpg"`. */
  function UploadName(filename: Option<string>): (name: string)
    ensures name != ""
    ensures filename.Some? && filename.value != "" ==> name == filename.value
    ensures filename.None? || filename.value == "" ==> name == DefaultUpload
  {
    if filename.Some? && filename.value != "" then filename.value else DefaultUpload
  }

  /**
   * POSIX `os.path.join(a, b)`: an absolute `b` replaces `a`; otherwise a
   * `/` is inserted unless `a` is empty or already ends with one.
   */
  function Join(a: string, b: string): (path: string)
    ensures StartsWith(b, "/") ==> path == b
    ensures !StartsWith(b, "/") ==> StartsWith(path, a) && EndsWith(path, b)
  {
    ConcatEndsWith(a, b);
    ConcatEndsWith(a + "/", b);
    ConcatStartsWith(a, b);
    ConcatStartsWith(a, "/" + b);
    assert a + "/" + b == a + ("/" + b);
    if StartsWith(b, "/") then b
    else if a == "" || EndsWith(a, "/") then a + b
    else a + "/" + b
  }

  /** The temporary path of an upload. */
  function TempPath(tempDir: string, filename: Option<string>): string {
    Join(tempDir, UploadName(filename))
  }

  /** A relative file name lands inside the temporary directory and keeps its name. */
  lemma TempPathInTempDir(tempDir: string, filename: Option<string>)
    requires !StartsWith(UploadName(filename), "/")
    ensures StartsWith(TempPath(tempDir, filename), tempDir)
    ensures EndsWith(TempPath(tempDir, filename), UploadName(filename))
  {
  }

  /** The client's file name is not sanitised: an absolute one is used as the path itself. */
  lemma AbsoluteNameEscapes(tempDir: string, name: string)
    requires StartsWith(name, "/")
    ensures TempPath(tempDir, Some(name)) == name
  {
  }

  /** A missing and an empty file name both give the default name, for images and audio alike. */
  lemma MissingNameGivesDefault(tempDir: string)
    requires tempDir != "" && !EndsWith(tempDir, "/")
    ensures TempPath(tempDir, None) == TempPath(tempDir, Some("")) == tempDir + "/" + DefaultUpload
  {
    assert !StartsWith(DefaultUpload, "/") by {
      assert DefaultUpload[0] == 'u';
    }
  }

  /** The body of a successful upload; "success" is always true. */
  datatype TextReply = TextReply(text: string, message: string)

  const ImageError := "Error processing image: "
  const ImageMessage := "Text extracted successfully"
  const AudioError := "Error processing audio: "
  const AudioMessage := "Audio transcribed successfully"

  /** `/api/scan-notes` (lines 62-93) as a value, from the outcome of the OCR run on the saved file. */
  function ScanResponse(run: OcrRun): (r: Response<TextReply>)
    ensures r.Ok? <==> run.OcrText?
    ensures r.Ok? ==> r.body.text != "" && r.body.message == ImageMessage
    ensures r.Ok? ==> r.body.text == OcrService.ExtractText(run).value
    ensures run.OcrText? && Strip(run.raw) != "" ==> r == Ok(TextReply(Strip(run.raw), ImageMessage))
    ensures run.OcrText? && Strip(run.raw) == "" ==> r == Ok(TextReply(OcrService.NoTextMessage, ImageMessage))
    ensures r.HttpError? ==> r == HttpError(500, ImageError + OcrService.ExtractFailurePrefix + run.message)
  {
    match OcrService.ExtractText(run)
    case Failure(e) => Rewrapped(ImageError, e)
    case Success(text) => Ok(TextReply(text, ImageMessage))
  }

  /**
   * `/api/scan-notes`: the upload is written under its temporary path, read
   * by the OCR service and removed; an exception skips the removal, so a
   * failed scan leaves the file behind.
   */
  method ScanNotes(store: Store, tempDir: string, filename: Option<string>, run: OcrRun) returns (r: Response<TextReply>)
    modifies store
    ensures r == ScanResponse(run)
    ensures r.Ok? ==> store.existing == old(store.existing) - {TempPath(tempDir, filename)}
    ensures r.HttpError? ==> store.existing == old(store.existing) + {TempPath(tempDir, filename)}
  {
    var path := TempPath(tempDir, filename);
    store.Write(path);
    var extracted := OcrService.ExtractText(run);
    if extracted.Failure? {
      return Rewrapped(ImageError, extracted.error);
    }
    store.Remove(path);
    return Ok(TextReply(extracted.value, ImageMessage));
  }

  /** `/api/process-audio` (lines 96-127) as a value, from the transcription settings and the Whisper outcome. */
  function AudioResponse(flag: Option<string>, whisper: WhisperCall): (r: Response<TextReply>)
    ensures r.Ok? ==> r.body.text != "" && r.body.message == AudioMessage
    ensures r.HttpError? ==> r.status == 500 && StartsWith(r.detail, AudioError + AudioService.TranscribeFailurePrefix)
    ensures !AudioService.UseWhisperApi(flag) ==> r == Ok(TextReply(AudioService.Placeholder, AudioMessage))
    ensures r.Ok? <==> AudioService.TranscribeAudio(flag, whisper).Success?
    ensures r.Ok? ==> r.body.text == AudioService.TranscribeAudio(flag, whisper).value
    ensures r.HttpError? ==> r.detail == AudioError + AudioService.TranscribeAudio(flag, whisper).error.message
  {
    match AudioService.TranscribeAudio(flag, whisper)
    case Failure(e) =>
      PrependStartsWith(AudioError, Str(e), AudioService.TranscribeFailurePrefix);
      Rewrapped(AudioError, e)
    case Success(text) => Ok(TextReply(text, AudioMessage))
  }

  /** `/api/process-audio`: the same temporary-file handling as the scan. */
  method ProcessAudio(store: Store, tempDir: string, filename: Option<string>, flag: Option<string>, whisper: WhisperCall)
    returns (r: Response<TextReply>)
    modifies store
    ensures r == AudioResponse(flag, whisper)
    ensures r.Ok? ==> store.existing == old(store.existing) - {TempPath(tempDir, filename)}
    ensures r.HttpError? ==> store.existing == old(store.existing) + {TempPath(tempDir, filename)}
  {
    var path := TempPath(tempDir, filename);
    store.Write(path);
    var transcribed := AudioService.TranscribeAudio(flag, whisper);
    if transcribed.Failure? {
      return Rewrapped(AudioError, transcribed.error);
    }
    store.Remove(path);
    return Ok(TextReply(transcribed.value, AudioMessage));
  }
}
