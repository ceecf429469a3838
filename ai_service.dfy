/**
 * The backend's `AIService`: the Ollama payload, the reply text, the
 * bracket-span parse with its one-item fallbacks, and the error wrapping of
 * `generate_flashcards`, `generate_summary` and `generate_questions`.
 */
module AiService {
  import opened Wrappers
  import opened PyStr
  import opened Json
  import opened Errors
  import opened Outcomes
  import opened GatewayParse
  import Gateway

  /** The read-only configuration `AIService.__init__` takes from the environment. */
  datatype OllamaConfig = OllamaConfig(ollamaUrl: string, modelName: string)

  /**
   * The JSON body of the POST to /api/generate (lines 37-44): the model,
   * the prompt and `stream = false`, and the system prompt only when it is
   * given and not empty.
   */
  function Payload(config: OllamaConfig, prompt: string, system: Option<string>): (payload: map<string, Value>)
    ensures "model" in payload && payload["model"] == JString(config.modelName)
    ensures "prompt" in payload && payload["prompt"] == JString(prompt)
    ensures "stream" in payload && payload["stream"] == JBool(false)
    ensures "system" in payload <==> system.Some? && system.value != ""
    ensures "system" in payload ==> payload["system"] == JString(system.value)
    ensures forall key :: key in payload ==> key in {"model", "prompt", "stream", "system"}
  {
    var base := map["model" := JString(config.modelName), "prompt" := JString(prompt), "stream" := JBool(false)];
    if system.Some? && system.value != "" then base["system" := JString(system.value)] else base
  }

  /**
   * `_call_ollama` (lines 34-54): the "response" field, stripped, which may
   * be empty. A body that is not an object, or a field that is not a
   * string, raises AttributeError; every failure is wrapped with the same
   * prefix, whatever its kind.
   */
  function ReplyText(outcome: OllamaOutcome): (r: Result<string, Exception>)
    ensures r.Success? <==> outcome.Answered? && outcome.body.JObject? && ResponseField(outcome.body.fields).JString?
    ensures r.Success? ==> r.value == Strip(ResponseField(outcome.body.fields).s)
    ensures r.Failure? ==> r.error.Raised? && StartsWith(r.error.message, AiFailurePrefix)
    ensures outcome.CallFailed? ==> r.error.message == AiFailurePrefix + outcome.message
  {
    match outcome
    case CallFailed(_, message) =>
      ConcatStartsWith(AiFailurePrefix, message);
      Failure(Raised(AiFailurePrefix + message))
    case Answered(JObject(fields)) =>
      (match ResponseField(fields)
       case JString(s) => Success(Strip(s))
       case _ => ConcatStartsWith(AiFailurePrefix, "AttributeError"); Failure(Raised(AiFailurePrefix + "AttributeError")))
    case Answered(_) => ConcatStartsWith(AiFailurePrefix, "AttributeError"); Failure(Raised(AiFailurePrefix + "AttributeError"))
  }

  /** A reply text is already stripped. */
  lemma ReplyTextStripped(outcome: OllamaOutcome)
    requires ReplyText(outcome).Success?
    ensures Strip(ReplyText(outcome).value) == ReplyText(outcome).value
  {
    StripIdempotent(ResponseField(outcome.body.fields).s);
  }

  /**
   * The one `json.loads` call of lines 91-97 and 177-183: the span from the
   * first `[` to the last `]` of the reply if there is one, else the whole
   * reply. Code fences are not removed.
   */
  function DecodeReply(decode: Decoder, reply: string): Option<Value> {
    match BracketSpan(reply)
    case Some(span) => decode(span)
    case None => decode(reply)
  }

  /**
   * The parse with its fallback: a decode error gives the one-item list
   * `[fallback]`; a decoded value is returned as it is, list or not, but
   * `len()` on it in the log line raises TypeError for a number, a boolean
   * or null.
   */
  function ParseWithFallback(decode: Decoder, reply: string, fallback: Value): (r: Result<Value, Exception>)
    ensures DecodeReply(decode, reply).None? ==> r == Success(JArray([fallback]))
    ensures DecodeReply(decode, reply).Some? && HasLen(DecodeReply(decode, reply).value) ==>
      r == Success(DecodeReply(decode, reply).value)
    ensures DecodeReply(decode, reply).Some? && !HasLen(DecodeReply(decode, reply).value) ==>
      r == Failure(Raised("TypeError"))
    ensures r.Success? ==> HasLen(r.value)
    ensures r.Failure? ==> r.error == Raised("TypeError")
  {
    match DecodeReply(decode, reply)
    case None => Success(JArray([fallback]))
    case Some(v) => if HasLen(v) then Success(v) else Failure(Raised("TypeError"))
  }

  const FallbackLength := 200

  /** The flashcard of line 105. */
  function FallbackCard(reply: string): Value {
    JObject(map["front" := JString("Content from text"), "back" := JString(Truncate(reply, FallbackLength))])
  }

  /** The question of line 191. */
  function FallbackQuestion(reply: string): Value {
    JObject(map["question" := JString("What are the main points?"), "answer" := JString(Truncate(reply, FallbackLength))])
  }

  const FlashcardsPrefix := "Failed to generate flashcards: "
  const SummaryPrefix := "Failed to generate summary: "
  const QuestionsPrefix := "Failed to generate questions: "

  /** `raise Exception(f"{prefix}{str(e)}")`. */
  function Wrapped(prefix: string, e: Exception): (w: Exception)
    ensures w.Raised? && StartsWith(w.message, prefix)
  {
    ConcatStartsWith(prefix, Str(e));
    Raised(prefix + Str(e))
  }

  /** `generate_flashcards` (lines 56-109). */
  function GenerateFlashcards(ollama: Ollama, decode: Decoder, text: string): (r: Result<Value, Exception>)
    ensures r.Failure? ==> r.error.Raised? && StartsWith(r.error.message, FlashcardsPrefix)
    ensures r.Success? ==> HasLen(r.value)
    ensures var reply := ReplyText(ollama(BackendFlashcardPrompt(text)));
      && (reply.Failure? ==> r == Failure(Wrapped(FlashcardsPrefix, reply.error)))
      && (reply.Success? && DecodeReply(decode, reply.value).None? ==> r == Success(JArray([FallbackCard(reply.value)])))
      && (reply.Success? && DecodeReply(decode, reply.value).Some? ==>
            var v := DecodeReply(decode, reply.value).value;
            && (HasLen(v) ==> r == Success(v))
            && (!HasLen(v) ==> r == Failure(Raised(FlashcardsPrefix + "TypeError"))))
  {
    match ReplyText(ollama(BackendFlashcardPrompt(text)))
    case Failure(e) => Failure(Wrapped(FlashcardsPrefix, e))
    case Success(reply) =>
      match ParseWithFallback(decode, reply, FallbackCard(reply))
      case Failure(e) => Failure(Wrapped(FlashcardsPrefix, e))
      case Success(cards) => Success(cards)
  }

  /** `generate_summary` (lines 111-142): the reply text, which may be empty. */
  function GenerateSummary(ollama: Ollama, text: string): (r: Result<string, Exception>)
    ensures r.Failure? ==> r.error.Raised? && StartsWith(r.error.message, SummaryPrefix)
    ensures r.Success? <==> ReplyText(ollama(BackendSummaryPrompt(text))).Success?
    ensures r.Success? ==> r.value == ReplyText(ollama(BackendSummaryPrompt(text))).value
  {
    match ReplyText(ollama(BackendSummaryPrompt(text)))
    case Failure(e) => Failure(Wrapped(SummaryPrefix, e))
    case Success(summary) => Success(summary)
  }

  /** `generate_questions` (lines 144-195). */
  function GenerateQuestions(ollama: Ollama, decode: Decoder, text: string): (r: Result<Value, Exception>)
    ensures r.Failure? ==> r.error.Raised? && StartsWith(r.error.message, QuestionsPrefix)
    ensures r.Success? ==> HasLen(r.value)
    ensures var reply := ReplyText(ollama(BackendQuestionPrompt(text)));
      && (reply.Failure? ==> r == Failure(Wrapped(QuestionsPrefix, reply.error)))
      && (reply.Success? && DecodeReply(decode, reply.value).None? ==> r == Success(JArray([FallbackQuestion(reply.value)])))
      && (reply.Success? && DecodeReply(decode, reply.value).Some? ==>
            var v := DecodeReply(decode, reply.value).value;
            && (HasLen(v) ==> r == Success(v))
            && (!HasLen(v) ==> r == Failure(Raised(QuestionsPrefix + "TypeError"))))
  {
    match ReplyText(ollama(BackendQuestionPrompt(text)))
    case Failure(e) => Failure(Wrapped(QuestionsPrefix, e))
    case Success(reply) =>
      match ParseWithFallback(decode, reply, FallbackQuestion(reply))
      case Failure(e) => Failure(Wrapped(QuestionsPrefix, e))
      case Success(questions) => Success(questions)
  }

  /**
   * When the reply has a `[` with a `]` after it, exactly the span between
   * them is decoded: prose around it is ignored.
   */
  lemma SpanIsWhatIsDecoded(decode: Decoder, prose: string, body: string, trailer: string)
    requires |body| >= 2 && body[0] == '[' && body[|body| - 1] == ']'
    requires '[' !in prose && ']' !in trailer
    ensures DecodeReply(decode, prose + body + trailer) == decode(body)
  {
    var s := prose + body + trailer;
    assert s[|prose|] == '[' && s[|prose| + |body| - 1] == ']';
    assert s[..|prose|] == prose && s[|prose| + |body|..] == trailer;
    BracketSpanIsOutermost(s, |prose|, |prose| + |body| - 1);
    assert s[|prose|..|prose| + |body|] == body;
  }

  /**
   * On a reply without code fences whose span decodes to a list, the
   * backend's parse and the gateway's `_parse_json_array` give the same
   * items.
   */
  lemma ParseAgreesWithGateway(decode: Decoder, prose: string, body: string, trailer: string, items: seq<Value>,
                               fallback: Value)
    requires ArraySyntax(decode)
    requires |body| >= 2 && body[0] == '[' && body[|body| - 1] == ']'
    requires '[' !in prose && '`' !in prose && ']' !in trailer
    requires decode(body) == Some(JArray(items))
    ensures ParseWithFallback(decode, prose + body + trailer, fallback) == Success(JArray(items))
    ensures ParsedArray(decode, prose + body + trailer) == items
  {
    SpanIsWhatIsDecoded(decode, prose, body, trailer);
    SurroundingProseIgnored(decode, prose, body, trailer, items);
  }

  /**
   * On a decode error the flashcards are one card whose back is the
   * reply's first 200 characters.
   */
  lemma FlashcardFallback(ollama: Ollama, decode: Decoder, text: string)
    requires ReplyText(ollama(BackendFlashcardPrompt(text))).Success?
    requires DecodeReply(decode, ReplyText(ollama(BackendFlashcardPrompt(text))).value).None?
    ensures var reply := ReplyText(ollama(BackendFlashcardPrompt(text))).value;
      GenerateFlashcards(ollama, decode, text) == Success(JArray([FallbackCard(reply)]))
  {
  }

  /** On a decode error the questions are one question whose answer is the reply's first 200 characters. */
  lemma QuestionFallback(ollama: Ollama, decode: Decoder, text: string)
    requires ReplyText(ollama(BackendQuestionPrompt(text))).Success?
    requires DecodeReply(decode, ReplyText(ollama(BackendQuestionPrompt(text))).value).None?
    ensures var reply := ReplyText(ollama(BackendQuestionPrompt(text))).value;
      GenerateQuestions(ollama, decode, text) == Success(JArray([FallbackQuestion(reply)]))
  {
  }

  /**
   * The fallback text is a prefix of the reply, at most 200 characters
   * long, and the whole reply when that is short enough.
   */
  lemma FallbackTextIsPrefix(reply: string)
    ensures var back := FallbackCard(reply).fields["back"].s;
      && back == FallbackQuestion(reply).fields["answer"].s
      && |back| <= 200 && StartsWith(reply, back)
      && (|reply| <= 200 ==> back == reply)
  {
  }

  /**
   * An empty reply is not an error: when the decoder rejects the empty
   * string, the result is the fallback with an empty text.
   */
  lemma EmptyReplyFallsBack(ollama: Ollama, decode: Decoder, text: string)
    requires ReplyText(ollama(BackendFlashcardPrompt(text))) == Success("")
    requires decode("") == None
    ensures GenerateFlashcards(ollama, decode, text) == Success(JArray([FallbackCard("")]))
    ensures FallbackCard("").fields["back"] == JString("")
  {
    assert BracketSpan("") == None;
  }

  /**
   * Where the gateway accepts a reply, the backend reads the same text;
   * the two differ only on a blank reply, which the backend accepts as "".
   * An unexpected failure is reported with the same text by both.
   */
  lemma ReplyTextAgreesWithGateway(outcome: OllamaOutcome)
    ensures Gateway.CallOllama(outcome).Success? ==> ReplyText(outcome) == Gateway.CallOllama(outcome)
    ensures ReplyText(outcome).Success? && ReplyText(outcome).value != "" ==>
      Gateway.CallOllama(outcome) == ReplyText(outcome)
    ensures ReplyText(outcome) == Success("") ==> Gateway.CallOllama(outcome).Failure?
    ensures outcome.CallFailed? && outcome.kind == Other ==> ReplyText(outcome) == Gateway.CallOllama(outcome)
  {
  }
}
