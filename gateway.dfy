/**
 * The API gateway's decision logic: the length tiers that size the prompts,
 * its `_call_ollama` reply handling, the per-type failure policy of quiz
 * generation, the validation of `/api/generate_quiz` and the status codes of
 * `/api/generate_quiz`, `/api/summary`, `/api/generate_flashcards` and
 * `/api/scan`.
 */
module Gateway {
  import opened Wrappers
  import opened PyStr
  import opened Json
  import opened Errors
  import opened Outcomes
  import opened GatewayParse

  // ---------------------------------------------------------------------
  // Length tiers
  // ---------------------------------------------------------------------

  /**
   * How many of the thresholds 3000, 5000 and 10000 the text length strictly
   * exceeds (the `>` comparisons at lines 279-287 and 454-462).
   */
  function LengthTier(n: nat): (tier: nat)
    ensures tier <= 3
    ensures tier >= 1 <==> n > 3000
    ensures tier >= 2 <==> n > 5000
    ensures tier >= 3 <==> n > 10000
  {
    if n > 10000 then 3 else if n > 5000 then 2 else if n > 3000 then 1 else 0
  }

  /** The multiple-choice counts "5-8", "8-12", "10-15", "12-18". */
  const QuestionRanges := [CountRange(5, 8), CountRange(8, 12), CountRange(10, 15), CountRange(12, 18)]

  /** The flashcard counts "8-12", "12-15", "15-18", "18-22". */
  const FlashcardRanges := [CountRange(8, 12), CountRange(12, 15), CountRange(15, 18), CountRange(18, 22)]

  function QuestionRange(n: nat): CountRange {
    QuestionRanges[LengthTier(n)]
  }

  function FlashcardRange(n: nat): CountRange {
    FlashcardRanges[LengthTier(n)]
  }

  /** The summary instruction of lines 423-429: two strict thresholds, 5000 and 10000. */
  function SummaryDepthFor(n: nat): (d: SummaryDepth)
    ensures d == Comprehensive <==> n > 10000
    ensures d == Concise <==> n <= 5000
  {
    if n > 10000 then Comprehensive else if n > 5000 then Detailed else Concise
  }

  /** Each tier boundary belongs to the lower tier. */
  lemma TierBoundaries()
    ensures QuestionRange(3000) == CountRange(5, 8) && QuestionRange(3001) == CountRange(8, 12)
    ensures QuestionRange(5000) == CountRange(8, 12) && QuestionRange(5001) == CountRange(10, 15)
    ensures QuestionRange(10000) == CountRange(10, 15) && QuestionRange(10001) == CountRange(12, 18)
    ensures FlashcardRange(3000) == CountRange(8, 12) && FlashcardRange(3001) == CountRange(12, 15)
    ensures FlashcardRange(5000) == CountRange(12, 15) && FlashcardRange(5001) == CountRange(15, 18)
    ensures FlashcardRange(10000) == CountRange(15, 18) && FlashcardRange(10001) == CountRange(18, 22)
    ensures SummaryDepthFor(5000) == Concise && SummaryDepthFor(5001) == Detailed
    ensures SummaryDepthFor(10000) == Detailed && SummaryDepthFor(10001) == Comprehensive
  {
  }

  /** Counts never step down as the text grows. */
  lemma RangesGrowWithLength(n: nat, m: nat)
    requires n <= m
    ensures QuestionRange(n).low <= QuestionRange(m).low && QuestionRange(n).high <= QuestionRange(m).high
    ensures FlashcardRange(n).low <= FlashcardRange(m).low && FlashcardRange(n).high <= FlashcardRange(m).high
    ensures SummaryDepthFor(n) == Comprehensive ==> SummaryDepthFor(m) == Comprehensive
    ensures SummaryDepthFor(m) == Concise ==> SummaryDepthFor(n) == Concise
  {
    assert LengthTier(n) <= LengthTier(m);
  }

  // ---------------------------------------------------------------------
  // _call_ollama (lines 487-550)
  // ---------------------------------------------------------------------

  const TimeoutMessage :=
    "LLM generation timed out after 15 minutes. The model may be too slow. Try using a smaller/faster model or shorter text."
  const ConnectPrefix := "Failed to connect to LLM service. Make sure Ollama is running: "
  const NetworkPrefix := "Failed to connect to LLM service: "
  const StatusPrefix := "LLM service returned error: "
  const UnknownNetworkError := "Unknown network error"
  const EmptyReplyMessage := "LLM returned empty response - model may not have generated content"

  /**
   * The exception text `_call_ollama` raises for a failed call, by kind
   * (lines 535-550). Every kind but the timeout quotes the exception's own
   * text, and an empty network error text is replaced.
   */
  function CallFailureMessage(kind: FailureKind, message: string): (r: string)
    ensures kind == Other ==> StartsWith(r, AiFailurePrefix)
    ensures kind != Timeout && message != "" ==> EndsWith(r, message)
    ensures kind == Network && message == "" ==> EndsWith(r, UnknownNetworkError)
  {
    match kind
    case Timeout => TimeoutMessage
    case Connect =>
      ConcatEndsWith(ConnectPrefix, message);
      ConnectPrefix + message
    case Network =>
      var detail := if message == "" then UnknownNetworkError else message;
      ConcatEndsWith(NetworkPrefix, detail);
      NetworkPrefix + detail
    case HttpStatus =>
      ConcatEndsWith(StatusPrefix, message);
      StatusPrefix + message
    case Other =>
      ConcatStartsWith(AiFailurePrefix, message);
      ConcatEndsWith(AiFailurePrefix, message);
      AiFailurePrefix + message
  }

  /**
   * The gateway's `_call_ollama`: the stripped "response" field, which must
   * not be empty. A body that is not an object, or a field that is not a
   * string, raises AttributeError, and that and the empty reply are wrapped
   * by the generic handler.
   */
  function CallOllama(outcome: OllamaOutcome): (r: Result<string, Exception>)
    ensures r.Success? <==>
      outcome.Answered? && outcome.body.JObject? && ResponseField(outcome.body.fields).JString?
      && Strip(ResponseField(outcome.body.fields).s) != ""
    ensures r.Success? ==> r.value != "" && Strip(r.value) == r.value
    ensures r.Success? ==> r.value == Strip(ResponseField(outcome.body.fields).s)
    ensures r.Failure? ==> r.error.Raised?
    ensures outcome.CallFailed? ==> r == Failure(Raised(CallFailureMessage(outcome.kind, outcome.message)))
  {
    match outcome
    case CallFailed(kind, message) => Failure(Raised(CallFailureMessage(kind, message)))
    case Answered(JObject(fields)) =>
      (match ResponseField(fields)
       case JString(s) =>
         StripIdempotent(s);
         if Strip(s) == "" then Failure(Raised(AiFailurePrefix + EmptyReplyMessage)) else Success(Strip(s))
       case _ => Failure(Raised(AiFailurePrefix + "AttributeError")))
    case Answered(_) => Failure(Raised(AiFailurePrefix + "AttributeError"))
  }

  /** A reply that is blank after stripping is an error, never an empty text. */
  lemma BlankReplyIsError(outcome: OllamaOutcome)
    requires outcome.Answered? && outcome.body.JObject?
    requires ResponseField(outcome.body.fields).JString? && Strip(ResponseField(outcome.body.fields).s) == ""
    ensures CallOllama(outcome) == Failure(Raised(AiFailurePrefix + EmptyReplyMessage))
  {
  }

  // ---------------------------------------------------------------------
  // _generate_quiz_with_llm (lines 259-414)
  // ---------------------------------------------------------------------

  const MultipleChoiceEmpty := "Failed to generate multiple choice questions: LLM returned empty or invalid response"
  const FillBlankEmpty := "Failed to generate fill-in-the-blank questions: LLM returned empty or invalid response"
  const ShortAnswerEmpty := "Failed to generate short answer questions: LLM returned empty or invalid response"
  const NoQuizMessage := "Failed to generate any quiz questions. All quiz types failed."

  /** The three quiz types, each stored under its own key of the quiz dictionary. */
  datatype QuizKind = MultipleChoice | FillBlank | ShortAnswer

  /** A valid `quiz_type`: one kind, or "all". */
  datatype QuizType = Only(kind: QuizKind) | All

  /** The dictionary key of a quiz kind. */
  function KindKey(k: QuizKind): string {
    match k
    case MultipleChoice => "multiple_choice"
    case FillBlank => "fill_blank"
    case ShortAnswer => "short_answer"
  }

  const ValidQuizTypes := ["multiple_choice", "fill_blank", "short_answer", "all"]

  /** The lower-cased `quiz_type` values the endpoint accepts (lines 168-170). */
  function ParseQuizType(s: string): (r: Option<QuizType>)
    ensures r.Some? <==> s in ValidQuizTypes
    ensures r == Some(All) <==> s == "all"
    ensures forall k :: r == Some(Only(k)) <==> s == KindKey(k)
  {
    if s == "multiple_choice" then Some(Only(MultipleChoice))
    else if s == "fill_blank" then Some(Only(FillBlank))
    else if s == "short_answer" then Some(Only(ShortAnswer))
    else if s == "all" then Some(All)
    else None
  }

  /** `quiz_type in [key, "all"]`. */
  predicate Wants(qt: QuizType, k: QuizKind) {
    qt == All || qt == Only(k)
  }

  /** The prompt of each kind; only the multiple-choice prompt is sized by the text's tier. */
  function QuizPrompt(k: QuizKind, text: string): Prompt {
    match k
    case MultipleChoice => MultipleChoicePrompt(QuestionRange(|text|), text)
    case FillBlank => FillBlankPrompt(text)
    case ShortAnswer => ShortAnswerPrompt(text)
  }

  /** The exception of each kind for an empty list. */
  function EmptyMessage(k: QuizKind): string {
    match k
    case MultipleChoice => MultipleChoiceEmpty
    case FillBlank => FillBlankEmpty
    case ShortAnswer => ShortAnswerEmpty
  }

  /**
   * One quiz type (lines 312-330, 336-366, 373-403): the reply is parsed,
   * and an empty list is an error. The parsed items are stored as they are.
   */
  function QuizPart(ollama: Ollama, decode: Decoder, text: string, k: QuizKind): (r: Result<seq<Value>, Exception>)
    requires ArraySyntax(decode)
    ensures var reply := CallOllama(ollama(QuizPrompt(k, text)));
      && (r.Success? <==> reply.Success? && ParsedArray(decode, reply.value) != [])
      && (r.Success? ==> r.value == ParsedArray(decode, reply.value))
      && (reply.Failure? ==> r == Failure(reply.error))
      && (reply.Success? && r.Failure? ==> r.error == Raised(EmptyMessage(k)))
    ensures r.Success? ==> r.value != []
    ensures r.Failure? ==> r.error.Raised?
  {
    match CallOllama(ollama(QuizPrompt(k, text)))
    case Failure(e) => Failure(e)
    case Success(reply) =>
      var parsed := ParsedArray(decode, reply);
      if parsed == [] then Failure(Raised(EmptyMessage(k))) else Success(parsed)
  }

  /**
   * The failure policy of `_generate_quiz_with_llm`, given the outcome of
   * each kind: a multiple-choice failure always propagates (and nothing after
   * it runs); a fill-in-the-blank or short-answer failure propagates only when
   * that kind alone was asked for, and is otherwise dropped; an empty
   * dictionary is an error.
   */
  function CombineQuiz(qt: QuizType, mc: Result<seq<Value>, Exception>, fb: Result<seq<Value>, Exception>,
                       sa: Result<seq<Value>, Exception>): Result<map<QuizKind, seq<Value>>, Exception>
  {
    if Wants(qt, MultipleChoice) && mc.Failure? then Failure(mc.error)
    else
      var r1: map<QuizKind, seq<Value>> := if Wants(qt, MultipleChoice) then map[MultipleChoice := mc.value] else map[];
      if qt == Only(FillBlank) && fb.Failure? then Failure(fb.error)
      else
        var r2 := if Wants(qt, FillBlank) && fb.Success? then r1[FillBlank := fb.value] else r1;
        if qt == Only(ShortAnswer) && sa.Failure? then Failure(sa.error)
        else
          var r3 := if Wants(qt, ShortAnswer) && sa.Success? then r2[ShortAnswer := sa.value] else r2;
          if r3 == map[] then Failure(Raised(NoQuizMessage)) else Success(r3)
  }

  /** The outcome of kind `k` among the three. */
  function Pick<T>(k: QuizKind, mc: T, fb: T, sa: T): T {
    match k
    case MultipleChoice => mc
    case FillBlank => fb
    case ShortAnswer => sa
  }

  /**
   * A combined quiz holds exactly the requested kinds that succeeded, each
   * with its list as it came; it is never empty.
   */
  lemma CombineQuizShape(qt: QuizType, mc: Result<seq<Value>, Exception>, fb: Result<seq<Value>, Exception>,
                         sa: Result<seq<Value>, Exception>)
    requires CombineQuiz(qt, mc, fb, sa).Success?
    ensures var quiz := CombineQuiz(qt, mc, fb, sa).value;
      && quiz != map[]
      && (forall k :: k in quiz <==> Wants(qt, k) && Pick(k, mc, fb, sa).Success?)
      && (forall k :: k in quiz ==> quiz[k] == Pick(k, mc, fb, sa).value)
  {
  }

  /** A multiple-choice failure is the result whenever that kind was asked for. */
  lemma MultipleChoiceFailurePropagates(qt: QuizType, mc: Result<seq<Value>, Exception>,
                                        fb: Result<seq<Value>, Exception>, sa: Result<seq<Value>, Exception>)
    requires Wants(qt, MultipleChoice) && mc.Failure?
    ensures CombineQuiz(qt, mc, fb, sa) == Failure(mc.error)
  {
  }

  /** A failing kind asked for alone is the result. */
  lemma SoleKindFailurePropagates(k: QuizKind, mc: Result<seq<Value>, Exception>,
                                  fb: Result<seq<Value>, Exception>, sa: Result<seq<Value>, Exception>)
    requires Pick(k, mc, fb, sa).Failure?
    ensures CombineQuiz(Only(k), mc, fb, sa) == Failure(Pick(k, mc, fb, sa).error)
  {
  }

  /**
   * Under "all", once the multiple-choice questions are in, the quiz
   * succeeds whatever happens to the other two kinds.
   */
  lemma AllSwallowsOtherFailures(mc: Result<seq<Value>, Exception>, fb: Result<seq<Value>, Exception>,
                                 sa: Result<seq<Value>, Exception>)
    requires mc.Success?
    ensures CombineQuiz(All, mc, fb, sa).Success?
    ensures MultipleChoice in CombineQuiz(All, mc, fb, sa).value
  {
    var r1 := map[MultipleChoice := mc.value];
    var r2 := if fb.Success? then r1[FillBlank := fb.value] else r1;
    var r3 := if sa.Success? then r2[ShortAnswer := sa.value] else r2;
    assert MultipleChoice in r3;
  }

  /** `sum(len(v) for v in quiz.values())`. */
  function TotalQuestions(quiz: map<QuizKind, seq<Value>>): nat {
    (if MultipleChoice in quiz then |quiz[MultipleChoice]| else 0)
    + (if FillBlank in quiz then |quiz[FillBlank]| else 0)
    + (if ShortAnswer in quiz then |quiz[ShortAnswer]| else 0)
  }

  /** Non-empty parts combine into a quiz with at least one question. */
  lemma CombineQuizCounts(qt: QuizType, mc: Result<seq<Value>, Exception>, fb: Result<seq<Value>, Exception>,
                          sa: Result<seq<Value>, Exception>)
    requires mc.Success? ==> mc.value != []
    requires fb.Success? ==> fb.value != []
    requires sa.Success? ==> sa.value != []
    requires CombineQuiz(qt, mc, fb, sa).Success?
    ensures TotalQuestions(CombineQuiz(qt, mc, fb, sa).value) >= 1
  {
    CombineQuizShape(qt, mc, fb, sa);
    var quiz := CombineQuiz(qt, mc, fb, sa).value;
    var k :| k in quiz;
    assert quiz[k] == Pick(k, mc, fb, sa).value;
  }

  /** The combination raises only what the parts raised, or its own plain exception. */
  lemma CombineQuizKeepsPlain(qt: QuizType, mc: Result<seq<Value>, Exception>, fb: Result<seq<Value>, Exception>,
                              sa: Result<seq<Value>, Exception>)
    requires mc.Failure? ==> mc.error.Raised?
    requires fb.Failure? ==> fb.error.Raised?
    requires sa.Failure? ==> sa.error.Raised?
    requires CombineQuiz(qt, mc, fb, sa).Failure?
    ensures CombineQuiz(qt, mc, fb, sa).error.Raised?
  {
  }

  /**
   * `_generate_quiz_with_llm` as a value, as written: the multiple-choice
   * block runs its validation loop.
   */
  function QuizResult(ollama: Ollama, decode: Decoder, text: string, qt: QuizType): Result<map<QuizKind, seq<Value>>, Exception>
    requires ArraySyntax(decode)
  {
    CombineQuiz(qt, PartAsWritten(ollama, decode, text, MultipleChoice), PartAsWritten(ollama, decode, text, FillBlank),
                PartAsWritten(ollama, decode, text, ShortAnswer))
  }

  /**
   * `_generate_quiz_with_llm` as intended: the validation loop only logs,
   * so every block is `QuizPart`.
   */
  function QuizResultIntended(ollama: Ollama, decode: Decoder, text: string, qt: QuizType): Result<map<QuizKind, seq<Value>>, Exception>
    requires ArraySyntax(decode)
  {
    CombineQuiz(qt, QuizPart(ollama, decode, text, MultipleChoice), QuizPart(ollama, decode, text, FillBlank),
                QuizPart(ollama, decode, text, ShortAnswer))
  }

  /** Parts that are non-empty when they succeed and plain when they fail combine into the same kind of outcome. */
  lemma CombineQuizOutcomes(qt: QuizType, mc: Result<seq<Value>, Exception>, fb: Result<seq<Value>, Exception>,
                            sa: Result<seq<Value>, Exception>)
    requires mc.Success? ==> mc.value != []
    requires fb.Success? ==> fb.value != []
    requires sa.Success? ==> sa.value != []
    requires mc.Failure? ==> mc.error.Raised?
    requires fb.Failure? ==> fb.error.Raised?
    requires sa.Failure? ==> sa.error.Raised?
    ensures var q := CombineQuiz(qt, mc, fb, sa);
      (q.Success? ==> TotalQuestions(q.value) >= 1) && (q.Failure? ==> q.error.Raised?)
  {
    if CombineQuiz(qt, mc, fb, sa).Success? {
      CombineQuizCounts(qt, mc, fb, sa);
    } else {
      CombineQuizKeepsPlain(qt, mc, fb, sa);
    }
  }

  /**
   * A quiz, as written or as intended, either counts at least one
   * question, so the checks at lines 179-185 never fire, or fails with a
   * plain exception, never an HTTPException.
   */
  lemma QuizResultOutcomes(ollama: Ollama, decode: Decoder, text: string, qt: QuizType)
    requires ArraySyntax(decode)
    ensures var q := QuizResult(ollama, decode, text, qt);
      (q.Success? ==> TotalQuestions(q.value) >= 1) && (q.Failure? ==> q.error.Raised?)
    ensures var q := QuizResultIntended(ollama, decode, text, qt);
      (q.Success? ==> TotalQuestions(q.value) >= 1) && (q.Failure? ==> q.error.Raised?)
  {
    PartAsWrittenOutcomes(ollama, decode, text, MultipleChoice);
    PartAsWrittenOutcomes(ollama, decode, text, FillBlank);
    PartAsWrittenOutcomes(ollama, decode, text, ShortAnswer);
    CombineQuizOutcomes(qt, PartAsWritten(ollama, decode, text, MultipleChoice), PartAsWritten(ollama, decode, text, FillBlank),
                        PartAsWritten(ollama, decode, text, ShortAnswer));
    CombineQuizOutcomes(qt, QuizPart(ollama, decode, text, MultipleChoice), QuizPart(ollama, decode, text, FillBlank),
                        QuizPart(ollama, decode, text, ShortAnswer));
  }

  /**
   * One quiz-type block as written: call, parse, reject an empty list and,
   * in the multiple-choice block, run the validation loop over the items,
   * where the first item that raises ends the block.
   */
  method RunQuizPart(ollama: Ollama, decode: Decoder, text: string, k: QuizKind)
    returns (r: Result<seq<Value>, Exception>)
    requires ArraySyntax(decode)
    ensures r == PartAsWritten(ollama, decode, text, k)
  {
    var reply := CallOllama(ollama(QuizPrompt(k, text)));
    if reply.Failure? {
      return Failure(reply.error);
    }
    var parsed := ParseJsonArray(decode, reply.value);
    if |parsed| == 0 {
      return Failure(Raised(EmptyMessage(k)));
    }
    if k == MultipleChoice {
      var err := ValidateQuestions(parsed);
      if err.Some? {
        return Failure(Raised(err.value));
      }
    }
    return Success(parsed);
  }

  /**
   * The validation loop of lines 323-327: it walks the items in order and
   * stops at the first one whose checks raise.
   */
  method ValidateQuestions(items: seq<Value>) returns (err: Option<string>)
    ensures err == FirstValidationError(items)
  {
    var i := 0;
    while i < |items|
      invariant 0 <= i <= |items|
      invariant FirstValidationError(items[..i]).None?
    {
      var itemErr := ValidationError(items[i]);
      if itemErr.Some? {
        FirstValidationErrorFrom(items, i);
        return itemErr;
      }
      assert items[..i + 1] == items[..i] + [items[i]];
      FirstValidationErrorAppend(items[..i], items[i]);
      i := i + 1;
    }
    assert items[..i] == items;
    return None;
  }

  /** `_generate_quiz_with_llm`, filling the result dictionary block by block. */
  method GenerateQuizWithLlm(ollama: Ollama, decode: Decoder, text: string, qt: QuizType)
    returns (r: Result<map<QuizKind, seq<Value>>, Exception>)
    requires ArraySyntax(decode)
    ensures r == QuizResult(ollama, decode, text, qt)
  {
    var result: map<QuizKind, seq<Value>> := map[];
    if Wants(qt, MultipleChoice) {
      var part := RunQuizPart(ollama, decode, text, MultipleChoice);
      if part.Failure? {
        return Failure(part.error);
      }
      result := result[MultipleChoice := part.value];
    }
    if Wants(qt, FillBlank) {
      var part := RunQuizPart(ollama, decode, text, FillBlank);
      if part.Failure? {
        if qt == Only(FillBlank) {
          return Failure(part.error);
        }
      } else {
        result := result[FillBlank := part.value];
      }
    }
    if Wants(qt, ShortAnswer) {
      var part := RunQuizPart(ollama, decode, text, ShortAnswer);
      if part.Failure? {
        if qt == Only(ShortAnswer) {
          return Failure(part.error);
        }
      } else {
        result := result[ShortAnswer := part.value];
      }
    }
    if result == map[] {
      return Failure(Raised(NoQuizMessage));
    }
    return Success(result);
  }

  // ---------------------------------------------------------------------
  // The multiple-choice validation loop as written (lines 322-327)
  // ---------------------------------------------------------------------

  /**
   * What the validation of one item raises. `"options" not in q` raises
   * TypeError when the item is a number, a boolean or null; when it is a
   * string containing "options", or a list holding the string "options",
   * the test is false and `q.get` raises AttributeError.
   */
  function ValidationError(q: Value): (err: Option<string>)
    ensures q.JObject? ==> err.None?
    ensures q.JNumber? || q.JBool? || q.JNull? ==> err == Some("TypeError")
    ensures q.JString? ==> (err.Some? <==> IsSubstring("options", q.s))
    ensures q.JArray? ==> (err.Some? <==> JString("options") in q.items)
  {
    match q
    case JObject(_) => None
    case JString(s) => if IsSubstring("options", s) then Some("AttributeError") else None
    case JArray(items) => if JString("options") in items then Some("AttributeError") else None
    case _ => Some("TypeError")
  }

  /** The error of the first item whose validation raises, if any. */
  function FirstValidationError(items: seq<Value>): Option<string> {
    if items == [] then None
    else if ValidationError(items[0]).Some? then ValidationError(items[0])
    else FirstValidationError(items[1..])
  }

  /**
   * The loop raises exactly when some item's checks raise, and then with
   * the error of the first such item: every item before it passes.
   */
  lemma {:induction false} FirstValidationErrorIsFirst(items: seq<Value>)
    ensures FirstValidationError(items).None? <==> forall i :: 0 <= i < |items| ==> ValidationError(items[i]).None?
    ensures FirstValidationError(items).Some? ==>
      exists i :: 0 <= i < |items| && ValidationError(items[i]) == FirstValidationError(items)
        && forall j :: 0 <= j < i ==> ValidationError(items[j]).None?
    decreases |items|
  {
    if items != [] && ValidationError(items[0]).None? {
      var rest := items[1..];
      FirstValidationErrorIsFirst(rest);
      assert forall i :: 1 <= i < |items| ==> items[i] == rest[i - 1];
      if FirstValidationError(rest).Some? {
        var i :| 0 <= i < |rest| && ValidationError(rest[i]) == FirstValidationError(rest)
          && forall j :: 0 <= j < i ==> ValidationError(rest[j]).None?;
        assert ValidationError(items[i + 1]) == FirstValidationError(items);
        assert forall j :: 0 <= j < i + 1 ==> ValidationError(items[j]).None? by {
          assert forall j :: 1 <= j < i + 1 ==> items[j] == rest[j - 1];
        }
      }
    }
  }

  /**
   * The multiple-choice block as written: after the emptiness check the
   * validation loop runs over the parsed list, and an exception it raises
   * replaces the result.
   */
  function ValidatedAsWritten(part: Result<seq<Value>, Exception>): (r: Result<seq<Value>, Exception>)
    ensures r.Success? ==> r == part
    ensures part.Failure? ==> r == part
    ensures part.Success? ==> (r.Failure? <==> FirstValidationError(part.value).Some?)
  {
    match part
    case Failure(e) => Failure(e)
    case Success(items) =>
      match FirstValidationError(items)
      case Some(err) => Failure(Raised(err))
      case None => Success(items)
  }

  function MultipleChoicePartAsWritten(ollama: Ollama, decode: Decoder, text: string): Result<seq<Value>, Exception>
    requires ArraySyntax(decode)
  {
    ValidatedAsWritten(QuizPart(ollama, decode, text, MultipleChoice))
  }

  /**
   * One quiz-type block as written: only the multiple-choice block
   * validates, and validation can only turn a success into a plain failure.
   */
  function PartAsWritten(ollama: Ollama, decode: Decoder, text: string, k: QuizKind): Result<seq<Value>, Exception>
    requires ArraySyntax(decode)
  {
    if k == MultipleChoice then MultipleChoicePartAsWritten(ollama, decode, text) else QuizPart(ollama, decode, text, k)
  }

  /**
   * Validation only ever turns a multiple-choice success into a plain
   * failure: every other block, and every success, is the intended one.
   */
  lemma PartAsWrittenOutcomes(ollama: Ollama, decode: Decoder, text: string, k: QuizKind)
    requires ArraySyntax(decode)
    ensures var r := PartAsWritten(ollama, decode, text, k);
      && (k != MultipleChoice ==> r == QuizPart(ollama, decode, text, k))
      && (r.Success? ==> r == QuizPart(ollama, decode, text, k))
      && (QuizPart(ollama, decode, text, k).Failure? ==> r == QuizPart(ollama, decode, text, k))
      && (r.Failure? ==> r.error.Raised?)
  {
  }

  /** Items that pass validation can be skipped: the first error is that of the rest. */
  lemma {:induction false} FirstValidationErrorFrom(items: seq<Value>, i: nat)
    requires i <= |items| && FirstValidationError(items[..i]).None?
    ensures FirstValidationError(items) == FirstValidationError(items[i..])
    decreases i
  {
    if i > 0 {
      assert items[..i][0] == items[0];
      assert items[..i][1..] == items[1..][..i - 1];
      FirstValidationErrorFrom(items[1..], i - 1);
      assert items[1..][i - 1..] == items[i..];
    }
  }

  /** Appending an item that passes validation keeps a prefix free of errors. */
  lemma {:induction false} FirstValidationErrorAppend(items: seq<Value>, q: Value)
    requires FirstValidationError(items).None? && ValidationError(q).None?
    ensures FirstValidationError(items + [q]).None?
    decreases |items|
  {
    if items != [] {
      assert (items + [q])[0] == items[0];
      assert (items + [q])[1..] == items[1..] + [q];
      FirstValidationErrorAppend(items[1..], q);
    }
  }

  /**
   * The loop is meant to log malformed questions and keep them, but any
   * multiple-choice list holding a number, a boolean or null makes the
   * multiple-choice block, and with it the whole quiz, fail.
   */
  lemma ScalarQuestionFailsQuiz(ollama: Ollama, decode: Decoder, text: string, i: nat)
    requires ArraySyntax(decode)
    requires QuizPart(ollama, decode, text, MultipleChoice).Success?
    requires var items := QuizPart(ollama, decode, text, MultipleChoice).value;
      i < |items| && (items[i].JNumber? || items[i].JBool? || items[i].JNull?)
    ensures MultipleChoicePartAsWritten(ollama, decode, text).Failure?
  {
    var items := QuizPart(ollama, decode, text, MultipleChoice).value;
    assert ValidationError(items[i]).Some?;
    FirstValidationErrorIsFirst(items);
  }

  /** A reply "[1]" whose decoding is the list `[1]` is parsed to that list. */
  lemma OneNumberReplyParsed(decode: Decoder)
    requires ArraySyntax(decode) && decode("[1]") == Some(JArray([JNumber(1.0)]))
    ensures ParsedArray(decode, "[1]") == [JNumber(1.0)]
  {
    SurroundingProseIgnored(decode, "", "[1]", "", [JNumber(1.0)]);
    assert "" + "[1]" + "" == "[1]";
  }

  /** An object whose "response" is already stripped and not empty is the reply itself. */
  lemma StrippedReplyAccepted(reply: string)
    requires reply != "" && Strip(reply) == reply
    ensures CallOllama(Answered(JObject(map["response" := JString(reply)]))) == Success(reply)
  {
    assert ResponseField(map["response" := JString(reply)]) == JString(reply);
  }

  /**
   * The concrete input: Ollama answering "[1]" to the multiple-choice
   * prompt gives one question, which the intended block keeps and the
   * block as written turns into a TypeError.
   */
  lemma NumericQuestionFailsBlock(ollama: Ollama, decode: Decoder, text: string)
    requires ArraySyntax(decode) && decode("[1]") == Some(JArray([JNumber(1.0)]))
    requires ollama(QuizPrompt(MultipleChoice, text)) == Answered(JObject(map["response" := JString("[1]")]))
    ensures QuizPart(ollama, decode, text, MultipleChoice) == Success([JNumber(1.0)])
    ensures MultipleChoicePartAsWritten(ollama, decode, text) == Failure(Raised("TypeError"))
  {
    StripTrimmed("[1]");
    StrippedReplyAccepted("[1]");
    OneNumberReplyParsed(decode);
    assert FirstValidationError([JNumber(1.0)]) == Some("TypeError");
  }

  /**
   * On that input a quiz of all types succeeds as intended, the other two
   * kinds' failures being dropped, but fails as written.
   */
  lemma NumericQuestionFailsQuiz(ollama: Ollama, decode: Decoder, text: string)
    requires ArraySyntax(decode) && decode("[1]") == Some(JArray([JNumber(1.0)]))
    requires ollama(QuizPrompt(MultipleChoice, text)) == Answered(JObject(map["response" := JString("[1]")]))
    ensures QuizResultIntended(ollama, decode, text, All).Success?
    ensures QuizResult(ollama, decode, text, All) == Failure(Raised("TypeError"))
  {
    NumericQuestionFailsBlock(ollama, decode, text);
    var mc := QuizPart(ollama, decode, text, MultipleChoice);
    AllSwallowsOtherFailures(mc, QuizPart(ollama, decode, text, FillBlank), QuizPart(ollama, decode, text, ShortAnswer));
    MultipleChoiceFailurePropagates(All, PartAsWritten(ollama, decode, text, MultipleChoice),
                                    PartAsWritten(ollama, decode, text, FillBlank), PartAsWritten(ollama, decode, text, ShortAnswer));
  }

  /** Such a decoder and such an Ollama exist, so the lemma above is not vacuous. */
  lemma NumericQuestionWitness()
    ensures var decode: Decoder := (s: string) => if s == "[1]" then Some(JArray([JNumber(1.0)])) else None;
      ArraySyntax(decode) && decode("[1]") == Some(JArray([JNumber(1.0)]))
  {
  }

  // ---------------------------------------------------------------------
  // Endpoints
  // ---------------------------------------------------------------------

  const TextRequired := "Text input is required"
  const InvalidQuizType := "Invalid quiz_type. Must be one of: multiple_choice, fill_blank, short_answer, all"
  const QuizError := "Error generating quiz: "
  const SummaryError := "Error generating summary: "
  const FlashcardError := "Error generating flashcards: "
  const ScanError := "Error processing image: "

  /** The body of a successful `/api/generate_quiz`; the quiz is keyed by `KindKey`. */
  datatype QuizReply = QuizReply(quiz: map<QuizKind, seq<Value>>, total: nat, message: string)

  /** `/api/generate_quiz` after validation, for the stripped text and a valid type. */
  function QuizResponse(ollama: Ollama, decode: Decoder, t: string, qt: QuizType): (r: Response<QuizReply>)
    requires ArraySyntax(decode)
  {
    QuizAnswer(QuizResult(ollama, decode, t, qt))
  }

  /** The same, with the validation loop only logging. */
  function QuizResponseIntended(ollama: Ollama, decode: Decoder, t: string, qt: QuizType): (r: Response<QuizReply>)
    requires ArraySyntax(decode)
  {
    QuizAnswer(QuizResultIntended(ollama, decode, t, qt))
  }

  /** Lines 172-191: what the endpoint makes of the generation's outcome. */
  function QuizAnswer(q: Result<map<QuizKind, seq<Value>>, Exception>): (r: Response<QuizReply>)
    ensures q.Success? && TotalQuestions(q.value) >= 1 ==>
      r.Ok? && r.body.quiz == q.value && r.body.total == TotalQuestions(q.value)
    ensures q.Failure? && q.error.Raised? ==> r == HttpError(500, QuizError + Str(q.error))
  {
    match q
    case Failure(HTTPException(status, detail)) => HttpError(status, detail)
    case Failure(Raised(message)) => HttpError(500, QuizError + message)
    case Success(quiz) =>
      if quiz == map[] then HttpError(500, "Quiz generation returned empty result")
      else
        var total := TotalQuestions(quiz);
        if total == 0 then HttpError(500, "Quiz generation completed but no questions were created")
        else Ok(QuizReply(quiz, total, "Quiz generated successfully with " + NatToString(total) + " questions"))
  }

  /**
   * `/api/generate_quiz` (lines 146-200): text is stripped and checked
   * before `quiz_type` is looked at; both 400s, and any HTTPException, pass
   * through unchanged, and every other exception becomes a 500.
   */
  function GenerateQuiz(ollama: Ollama, decode: Decoder, text: string, quizType: string): (r: Response<QuizReply>)
    requires ArraySyntax(decode)
    ensures Strip(text) == "" ==> r == HttpError(400, TextRequired)
    ensures Strip(text) != "" && Lower(quizType) !in ValidQuizTypes ==> r == HttpError(400, InvalidQuizType)
    ensures Strip(text) != "" && ParseQuizType(Lower(quizType)).Some? ==>
      r == QuizResponse(ollama, decode, Strip(text), ParseQuizType(Lower(quizType)).value)
  {
    var t := Strip(text);
    if t == "" then HttpError(400, TextRequired)
    else
      match ParseQuizType(Lower(quizType))
      case None => HttpError(400, InvalidQuizType)
      case Some(qt) => QuizResponse(ollama, decode, t, qt)
  }

  /** `/api/generate_quiz` with the multiple-choice validation loop only logging, as its comment intends. */
  function GenerateQuizIntended(ollama: Ollama, decode: Decoder, text: string, quizType: string): (r: Response<QuizReply>)
    requires ArraySyntax(decode)
    ensures Strip(text) == "" ==> r == HttpError(400, TextRequired)
    ensures Strip(text) != "" && Lower(quizType) !in ValidQuizTypes ==> r == HttpError(400, InvalidQuizType)
    ensures Strip(text) != "" && ParseQuizType(Lower(quizType)).Some? ==>
      r == QuizResponseIntended(ollama, decode, Strip(text), ParseQuizType(Lower(quizType)).value)
  {
    var t := Strip(text);
    if t == "" then HttpError(400, TextRequired)
    else
      match ParseQuizType(Lower(quizType))
      case None => HttpError(400, InvalidQuizType)
      case Some(qt) => QuizResponseIntended(ollama, decode, t, qt)
  }

  /**
   * The endpoint on the reply "[1]": as written it answers 500 with the
   * TypeError of the validation loop; as intended it answers 200.
   */
  lemma NumericQuestionFailsEndpoint(ollama: Ollama, decode: Decoder, text: string)
    requires ArraySyntax(decode) && decode("[1]") == Some(JArray([JNumber(1.0)]))
    requires text != "" && Strip(text) == text
    requires ollama(QuizPrompt(MultipleChoice, text)) == Answered(JObject(map["response" := JString("[1]")]))
    ensures GenerateQuiz(ollama, decode, text, "all") == HttpError(500, QuizError + "TypeError")
    ensures GenerateQuizIntended(ollama, decode, text, "all").Ok?
  {
    assert Lower("all") == "all";
    NumericQuestionFailsQuiz(ollama, decode, text);
    QuizResultOutcomes(ollama, decode, text, All);
  }

  /**
   * A successful generation is answered with the quiz and its question
   * count, which is at least one: the two 500s of lines 179-185 never occur.
   */
  lemma QuizResponseOnSuccess(ollama: Ollama, decode: Decoder, t: string, qt: QuizType)
    requires ArraySyntax(decode)
    requires QuizResult(ollama, decode, t, qt).Success?
    ensures var quiz := QuizResult(ollama, decode, t, qt).value;
      && TotalQuestions(quiz) >= 1
      && QuizResponse(ollama, decode, t, qt).Ok?
      && QuizResponse(ollama, decode, t, qt).body.quiz == quiz
      && QuizResponse(ollama, decode, t, qt).body.total == TotalQuestions(quiz)
  {
    QuizResultOutcomes(ollama, decode, t, qt);
  }

  /** A failed generation is answered with a 500 quoting the exception. */
  lemma QuizResponseOnFailure(ollama: Ollama, decode: Decoder, t: string, qt: QuizType)
    requires ArraySyntax(decode)
    requires QuizResult(ollama, decode, t, qt).Failure?
    ensures QuizResponse(ollama, decode, t, qt) == HttpError(500, QuizError + Str(QuizResult(ollama, decode, t, qt).error))
  {
    QuizResultOutcomes(ollama, decode, t, qt);
  }

  /** The letter case of `quiz_type` does not matter. */
  lemma QuizTypeCaseInsensitive(ollama: Ollama, decode: Decoder, text: string, quizType: string, other: string)
    requires ArraySyntax(decode)
    requires Lower(quizType) == Lower(other)
    ensures GenerateQuiz(ollama, decode, text, quizType) == GenerateQuiz(ollama, decode, text, other)
  {
  }

  /** `_generate_summary_with_llm` (lines 417-443): the reply to the summary prompt of the text's tier. */
  function SummaryFor(ollama: Ollama, text: string): (r: Result<string, Exception>)
    ensures r.Success? ==> r.value != "" && Strip(r.value) == r.value
  {
    CallOllama(ollama(SummaryPrompt(SummaryDepthFor(|text|), text)))
  }

  /**
   * `/api/summary` (lines 203-230): every exception, the 400 for blank text
   * included, leaves as a 500.
   */
  function GenerateSummary(ollama: Ollama, text: string): (r: Response<string>)
    ensures r.HttpError? ==> r.status == 500 && StartsWith(r.detail, SummaryError)
    ensures r.Ok? <==> Strip(text) != "" && SummaryFor(ollama, Strip(text)).Success?
    ensures r.Ok? ==> r.body == SummaryFor(ollama, Strip(text)).value && r.body != ""
  {
    var t := Strip(text);
    if t == "" then Rewrapped(SummaryError, HTTPException(400, TextRequired))
    else
      match SummaryFor(ollama, t)
      case Failure(e) => Rewrapped(SummaryError, e)
      case Success(summary) => Ok(summary)
  }

  /** `str()` of the blank-text HTTPException. */
  lemma TextRequiredStr()
    ensures Str(HTTPException(400, TextRequired)) == "400: " + TextRequired
  {
    assert NatToString(400) == "400";
  }

  /** The blank-text 400 of `/api/summary` is rewrapped as a 500. */
  lemma BlankSummaryIs500(ollama: Ollama, text: string)
    requires Strip(text) == ""
    ensures GenerateSummary(ollama, text) == HttpError(500, SummaryError + "400: " + TextRequired)
  {
    TextRequiredStr();
  }

  /** `_generate_flashcards_with_llm` (lines 446-484): the parsed reply to the flashcard prompt of the text's tier. */
  function FlashcardsFor(ollama: Ollama, decode: Decoder, text: string): (r: Result<seq<Value>, Exception>)
    requires ArraySyntax(decode)
    ensures var reply := CallOllama(ollama(FlashcardPrompt(FlashcardRange(|text|), text)));
      && (reply.Failure? ==> r == Failure(reply.error))
      && (reply.Success? ==> r == Success(ParsedArray(decode, reply.value)))
  {
    match CallOllama(ollama(FlashcardPrompt(FlashcardRange(|text|), text)))
    case Failure(e) => Failure(e)
    case Success(reply) => Success(ParsedArray(decode, reply))
  }

  /**
   * `/api/generate_flashcards` (lines 233-256): like the summary, every
   * exception leaves as a 500; an empty card list is a success.
   */
  function GenerateFlashcards(ollama: Ollama, decode: Decoder, text: string): (r: Response<seq<Value>>)
    requires ArraySyntax(decode)
    ensures r.HttpError? ==> r.status == 500 && StartsWith(r.detail, FlashcardError)
    ensures r.Ok? <==> Strip(text) != "" && FlashcardsFor(ollama, decode, Strip(text)).Success?
    ensures r.Ok? ==> r.body == FlashcardsFor(ollama, decode, Strip(text)).value
  {
    var t := Strip(text);
    if t == "" then Rewrapped(FlashcardError, HTTPException(400, TextRequired))
    else
      match FlashcardsFor(ollama, decode, t)
      case Failure(e) => Rewrapped(FlashcardError, e)
      case Success(cards) => Ok(cards)
  }

  /** The blank-text 400 of `/api/generate_flashcards` is rewrapped as a 500. */
  lemma BlankFlashcardsIs500(ollama: Ollama, decode: Decoder, text: string)
    requires ArraySyntax(decode)
    requires Strip(text) == ""
    ensures GenerateFlashcards(ollama, decode, text) == HttpError(500, FlashcardError + "400: " + TextRequired)
  {
    TextRequiredStr();
  }

  /**
   * `/api/scan` (lines 91-143), from the outcome of the POST to the OCR
   * service; the body of a success is reduced to its "text" field.
   */
  function ScanImage(call: OcrCall): (r: Response<Value>)
    ensures r.HttpError? ==> r.status == 500 || r.status == 503
    ensures r.HttpError? && r.status == 503 <==> call.RequestError?
    ensures r.Ok? ==> (call.Replied? && call.status == 200 && call.json.Some? && call.json.value.JObject?
      && Truthy(Get(call.json.value.fields, "success", JNull))
      && r.body == Get(call.json.value.fields, "text", JString("")) && HasLen(r.body))
    ensures (call.Replied? && call.status == 200 && call.json.Some? && call.json.value.JObject?
             && Truthy(Get(call.json.value.fields, "success", JNull))
             && HasLen(Get(call.json.value.fields, "text", JString(""))))
      ==> r == Ok(Get(call.json.value.fields, "text", JString("")))
  {
    match call
    case RequestError(message) => HttpError(503, "OCR service unavailable: " + message)
    case Replied(status, body, json) =>
      if status != 200 then Rewrapped(ScanError, HTTPException(status, "OCR service error: " + body))
      else
        match json
        case None => Rewrapped(ScanError, Raised("JSONDecodeError"))
        case Some(JObject(fields)) =>
          if !Truthy(Get(fields, "success", JNull)) then
            Rewrapped(ScanError, HTTPException(500, "OCR extraction failed"))
          else
            var text := Get(fields, "text", JString(""));
            if !HasLen(text) then Rewrapped(ScanError, Raised("TypeError"))
            else Ok(text)
        case Some(_) => Rewrapped(ScanError, Raised("AttributeError"))
  }

  /** A non-200 status from the OCR service is reported as a 500 that quotes it. */
  lemma ScanUpstreamStatusIs500(status: nat, body: string, json: Option<Value>)
    requires status != 200
    ensures ScanImage(Replied(status, body, json))
      == HttpError(500, ScanError + (NatToString(status) + ": " + ("OCR service error: " + body)))
  {
  }

  /** A reply whose `success` is missing or falsy is a 500. */
  lemma ScanUnsuccessfulIs500(fields: map<string, Value>, body: string)
    requires !Truthy(Get(fields, "success", JNull))
    ensures ScanImage(Replied(200, body, Some(JObject(fields)))) == HttpError(500, ScanError + ("500" + ": " + "OCR extraction failed"))
  {
    assert NatToString(500) == "500";
  }
}
