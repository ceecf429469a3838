/**
 * What the services' collaborators (Ollama, the OCR service, PIL and
 * Tesseract, Whisper) can answer, and what the services ask Ollama for. The
 * model never performs these calls: every operation that makes one takes the
 * collaborator, or its outcome, as an input.
 */
module Outcomes {
  import opened Json

  /** A range of item counts written into a prompt, such as "5-8". */
  datatype CountRange = CountRange(low: nat, high: nat)

  /** The three summary instructions of the gateway. */
  datatype SummaryDepth = Concise | Detailed | Comprehensive

  /**
   * The variable part of each prompt the services send to Ollama; the fixed
   * wording of the prompts and system prompts is not modelled.
   */
  datatype Prompt =
    | MultipleChoicePrompt(range: CountRange, text: string)
    | FillBlankPrompt(text: string)
    | ShortAnswerPrompt(text: string)
    | SummaryPrompt(depth: SummaryDepth, text: string)
    | FlashcardPrompt(range: CountRange, text: string)
    | BackendFlashcardPrompt(text: string)
    | BackendSummaryPrompt(text: string)
    | BackendQuestionPrompt(text: string)

  /**
   * How an HTTP call to Ollama can fail before a JSON body is in hand: a
   * timeout, a refused connection, another network error, an error status
   * (`raise_for_status`), or anything else (a body that is not JSON).
   */
  datatype FailureKind = Timeout | Connect | Network | HttpStatus | Other

  /**
   * One POST to Ollama's /api/generate followed by `response.json()`: the
   * failure with the text of the exception, or the decoded body.
   */
  datatype OllamaOutcome = CallFailed(kind: FailureKind, message: string) | Answered(body: Value)

  /** Ollama, as far as the services can observe it: an answer for every prompt. */
  type Ollama = Prompt -> OllamaOutcome

  /** `result.get("response", "")` on a decoded Ollama body. */
  function ResponseField(fields: map<string, Value>): (v: Value)
    ensures "response" !in fields ==> v == JString("")
  {
    Get(fields, "response", JString(""))
  }

  /** The prefix both services put on an unexpected exception in their `_call_ollama`. */
  const AiFailurePrefix := "Failed to generate content with AI: "

  /**
   * The gateway's POST to the OCR service's /extract. `RequestError` is
   * httpx's RequestError; `Replied` carries the status code, the raw body text and the body decoded as JSON
   * (`None` when `response.json()` raises).
   */
  datatype OcrCall =
    | RequestError(message: string)
    | Replied(status: nat, text: string, json: Wrappers.Option<Value>)

  /**
   * Running Tesseract on an image: the raw text `image_to_string` returned,
   * or the text of the exception raised on the way.
   */
  datatype OcrRun = OcrRaised(message: string) | OcrText(raw: string)

  /** `Image.open` on the uploaded file: its size, or the text of the exception. */
  datatype ImageOpen = OpenFailed(message: string) | Opened(width: nat, height: nat)

  /**
   * The backend's POST of an audio file to the Whisper API followed by
   * `response.json()`: an exception by its text, or the decoded body.
   */
  datatype WhisperCall = WhisperRaised(message: string) | WhisperAnswered(body: Value)
}
