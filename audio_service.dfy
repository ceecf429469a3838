/**
 * The backend's `AudioService.transcribe_audio`: the choice between the
 * Whisper API and the local placeholder, and the post-processing of the
 * transcription.
 */
module AudioService {
  import opened Wrappers
  import opened PyStr
  import opened Json
  import opened Errors
  import opened Outcomes

  /**
   * Line 36: the API is used only when USE_WHISPER_API, lower-cased, is
   * "true"; an unset variable counts as "false".
   */
  function UseWhisperApi(flag: Option<string>): (useApi: bool)
    ensures useApi <==> flag.Some? && Lower(flag.value) == "true"
  {
    var value := if flag.Some? then flag.value else "false";
    Lower(value) == "true"
  }

  const Placeholder := 
    "Placeholder transcription." + " Please integrate with Whisper model via Ollama or direct API."
  const NoSpeechMessage :=
    "No speech could be transcribed" + " from the audio." + " Please ensure the audio is clear and contains speech."
  const TranscribeFailurePrefix := "Failed to transcribe audio: "

  /** `_transcribe_with_whisper_local` (lines 61-69): a fixed placeholder. */
  function TranscribeLocal(): (text: string)
    ensures text != "" && Strip(text) == text
  {
    StripTrimmed(Placeholder);
    Placeholder
  }

  /** The `transcribed_text` of lines 36-48, or the exception raised on the way. */
  function Transcription(flag: Option<string>, whisper: WhisperCall): (r: Result<Value, Exception>)
    ensures !UseWhisperApi(flag) ==> r == Success(JString(TranscribeLocal()))
    ensures UseWhisperApi(flag) && whisper.WhisperRaised? ==> r == Failure(Raised(whisper.message))
    ensures UseWhisperApi(flag) && whisper.WhisperAnswered? && whisper.body.JObject? ==>
      r == Success(Get(whisper.body.fields, "text", JString("")))
    ensures UseWhisperApi(flag) && whisper.WhisperAnswered? && !whisper.body.JObject? ==>
      r == Failure(Raised("AttributeError"))
  {
    if UseWhisperApi(flag) then
      match whisper
      case WhisperRaised(message) => Failure(Raised(message))
      case WhisperAnswered(JObject(fields)) => Success(Get(fields, "text", JString("")))
      case WhisperAnswered(_) => Failure(Raised("AttributeError"))
    else Success(JString(TranscribeLocal()))
  }

  /**
   * Lines 50-55: a falsy or blank transcription gives the fixed message; a
   * string is returned stripped; any other value has no `strip` and raises
   * AttributeError.
   */
  function PostProcess(v: Value): (r: Result<string, Exception>)
    ensures r.Success? ==> r.value != "" && Strip(r.value) == r.value
    ensures r.Failure? <==> Truthy(v) && !v.JString?
    ensures v.JString? && Strip(v.s) != "" ==> r == Success(Strip(v.s))
    ensures v.JString? && Strip(v.s) == "" ==> r == Success(NoSpeechMessage)
  {
    StripTrimmed(NoSpeechMessage);
    if !Truthy(v) then Success(NoSpeechMessage)
    else if v.JString? then
      StripIdempotent(v.s);
      if Strip(v.s) == "" then Success(NoSpeechMessage) else Success(Strip(v.s))
    else Failure(Raised("AttributeError"))
  }

  /** `transcribe_audio` (lines 22-59). */
  function TranscribeAudio(flag: Option<string>, whisper: WhisperCall): (r: Result<string, Exception>)
    ensures r.Success? ==> r.value != ""
    ensures r.Failure? ==> r.error.Raised? && StartsWith(r.error.message, TranscribeFailurePrefix)
    ensures Transcription(flag, whisper).Failure? ==>
      r == Failure(Raised(TranscribeFailurePrefix + Str(Transcription(flag, whisper).error)))
    ensures Transcription(flag, whisper).Success? ==>
      var post := PostProcess(Transcription(flag, whisper).value);
      && (r.Success? <==> post.Success?)
      && (post.Success? ==> r.value == post.value)
      && (post.Failure? ==> r.error.message == TranscribeFailurePrefix + Str(post.error))
  {
    var post := match Transcription(flag, whisper)
      case Failure(e) => Failure(e)
      case Success(v) => PostProcess(v);
    match post
    case Failure(e) =>
      ConcatStartsWith(TranscribeFailurePrefix, Str(e));
      Failure(Raised(TranscribeFailurePrefix + Str(e)))
    case Success(text) => Success(text)
  }

  /** Without the flag the placeholder is returned unchanged, whatever the API would have said. */
  lemma LocalPathGivesPlaceholder(flag: Option<string>, whisper: WhisperCall)
    requires !UseWhisperApi(flag)
    ensures TranscribeAudio(flag, whisper) == Success(Placeholder)
  {
  }

  /** An API reply without "text" gives the fixed message. */
  lemma MissingTextGivesMessage(flag: Option<string>, fields: map<string, Value>)
    requires UseWhisperApi(flag) && "text" !in fields
    ensures TranscribeAudio(flag, WhisperAnswered(JObject(fields))) == Success(NoSpeechMessage)
  {
  }

  /** Any letter case of "true" selects the API; anything else, including an unset variable, does not. */
  lemma FlagExamples()
    ensures UseWhisperApi(Some("TRUE")) && UseWhisperApi(Some("True"))
    ensures !UseWhisperApi(None) && !UseWhisperApi(Some("1")) && !UseWhisperApi(Some("yes"))
  {
    assert Lower("TRUE") == "true";
    assert Lower("True") == "true";
  }
}
