# Study Coach service glue, modelled in Dafny

The Study Coach turns photographed notes and voice recordings into study material. It has three Python services:

- an **API gateway** (`api-gateway/main.py`). It forwards images to the OCR service and asks an Ollama language model for quizzes, summaries and flashcards. It parses the model's replies into JSON arrays and maps every failure to an HTTP status.
- a **backend** (`backend/main.py` with `backend/services/*.py`). It offers the same kind of generation through its own `AIService`. It also handles image and audio uploads, which it writes to temporary files and passes to its `OCRService` and `AudioService`.
- an **OCR microservice** (`ocr-service/main.py`). It checks the upload's content type, saves it to a temporary file, shrinks large images, runs Tesseract and normalises the text.

The model keeps each service's decisions: which keys a result holds, which status code an outcome becomes, which text is returned, and which temporary files exist afterwards. Every collaborator is an input to the operation that calls it: Ollama, the OCR HTTP call, PIL and Tesseract, the Whisper API, and `json.loads`.

- Ollama is a function from the variable part of a prompt to an outcome (`Outcomes.Ollama`).
- `json.loads` is a function from strings to optional JSON values (`Json.Decoder`). The gateway's parser assumes one thing of it (`Json.ArraySyntax`): a string that starts with `[` and decodes at all decodes to an array.
- The file system is the set of paths that exist (`FileStore.Store`). The upload endpoints change it in place.

Modules, one per core source file plus shared definitions:

| file | module | models |
|---|---|---|
| `wrappers.dfy` | `Wrappers` | `Option`, `Result` |
| `pystr.dfy` | `PyStr` | the Python `str` operations the services use |
| `json.dfy` | `Json` | JSON values, truthiness, `dict.get`, the decoder |
| `errors.dfy` | `Errors` | exceptions, `str(e)`, endpoint responses, the catch-all rewrap to 500 |
| `outcomes.dfy` | `Outcomes` | what the collaborators can answer |
| `filestore.dfy` | `FileStore` | existing paths; write and remove |
| `gateway_parse.dfy` | `GatewayParse` | the gateway's `_parse_json_array` |
| `gateway.dfy` | `Gateway` | the rest of `api-gateway/main.py` |
| `ai_service.dfy` | `AiService` | `backend/services/ai_service.py` |
| `backend.dfy` | `Backend` | `backend/main.py` |
| `ocr_endpoint.dfy` | `OcrEndpoint` | `ocr-service/main.py` |
| `ocr_service.dfy` | `OcrService` | `backend/services/ocr_service.py` |
| `audio_service.dfy` | `AudioService` | `backend/services/audio_service.py` |

Imperative code is modelled as imperative code:

- The gateway's object-fallback loop is a method with loop invariants (`GatewayParse.CollectParsedObjects`). So is the multiple-choice validation loop (`Gateway.ValidateQuestions`).
- `_generate_quiz_with_llm` is a method that fills its result dict block by block (`Gateway.GenerateQuizWithLlm`). Each block is a method that calls, parses and, for multiple choice, validates (`Gateway.RunQuizPart`).
- The backend's `generate_content` fills its `result` in three `if` blocks (`Backend.GenerateContent`).
- The temporary-file handling of `/extract`, `/api/scan-notes` and `/api/process-audio` is a set of methods that modify the file store.

Each method is proved equal to a specification function, and the service's promises are proved about that function.

## Model

| member | source | states |
|---|---|---|
| PyStr.Strip | api-gateway/main.py:161 | `str.strip()`: the result is no longer than the input; it is empty iff every character is whitespace; otherwise it starts and ends with a non-whitespace character |
| PyStr.StripIdempotent | backend/services/ocr_service.py:45 | stripping twice is the same as stripping once |
| PyStr.StripPadded | api-gateway/main.py:559 | whitespace added around a string does not change its strip |
| PyStr.Find | api-gateway/main.py:567 | `s.find(c)`: the first index holding `c`, with no `c` before it, or -1 exactly when `c` does not occur |
| PyStr.RFind | api-gateway/main.py:568 | `s.rfind(c)`: the last index holding `c`, with no `c` after it, or -1 exactly when `c` does not occur |
| PyStr.Truncate | backend/services/ai_service.py:105 | `s[:n]`: a prefix of `s` of length at most `n`; the whole of `s` when it is short enough, otherwise exactly `n` long |
| PyStr.Lower | api-gateway/main.py:162 | `str.lower()` keeps the length and lowers each character |
| PyStr.LowerChar | api-gateway/main.py:162 | the result differs from the input and is a lower-case ASCII letter exactly for `A`-`Z` and the Kelvin sign |
| PyStr.NatToString | api-gateway/main.py:192 | `str(n)` is a non-empty string of decimal digits |
| Errors.Str | api-gateway/main.py:200 | `str(e)`: a plain exception prints its message; an HTTPException prints `"<status>: <detail>"` |
| Errors.Rewrapped | api-gateway/main.py:228-230 | the catch-all handler always answers 500 with a detail that starts with its prefix, whatever the exception was, an HTTPException included |
| Outcomes.ResponseField | api-gateway/main.py:524 | a reply without "response" reads as the empty string |
| FileStore.Store.Write | backend/main.py:75-77 | after the write the path exists, and no other path changes |
| FileStore.Store.Remove | backend/main.py:83 | after `os.remove` the path no longer exists, and no other path changes |
| GatewayParse.RemoveFences | api-gateway/main.py:562-563 | deleting fence runs never makes the text longer |
| GatewayParse.RemoveFencesPlain | api-gateway/main.py:562-563 | text without a backtick is left untouched |
| GatewayParse.RemoveFencesKeepsPlainPrefix | api-gateway/main.py:562-563 | a backtick-free prefix passes through the deletion unchanged (proof by induction) |
| GatewayParse.CleanReply | api-gateway/main.py:559-564 | a reply whose strip does not start with three backticks is only stripped; the cleaned text is always its own strip |
| GatewayParse.FencedReplyCleaned | api-gateway/main.py:559-564 | a reply wrapped in a "```json" fence is cleaned to exactly its body |
| GatewayParse.OpeningFenceRemoved | api-gateway/main.py:562 | the first deletion removes "```json" and the whitespace after it |
| GatewayParse.ClosingFenceRemoved | api-gateway/main.py:563 | the second deletion removes the closing fence |
| GatewayParse.BracketSpan | api-gateway/main.py:567-570 | there is no span exactly when no `]` follows any `[`; a span starts with `[` and ends with `]` |
| GatewayParse.BracketSpanIsOutermost | api-gateway/main.py:567-570 | the span runs from the first `[` to the last `]` |
| GatewayParse.FlatObjectSpans | api-gateway/main.py:584 | the `\{[^{}]*\}` matches lie in the text, in order, without overlapping |
| GatewayParse.FlatObjectSpansSound | api-gateway/main.py:584 | every match is a brace-free `{...}` run (proof by induction) |
| GatewayParse.FlatObjectSpansComplete | api-gateway/main.py:584 | every brace-free `{...}` run in the text is found (proof by induction) |
| GatewayParse.FlatObjectRuns | api-gateway/main.py:584 | `re.findall` returns only brace-free `{...}` runs |
| GatewayParse.NoBraceNoRuns | api-gateway/main.py:584-585 | text without `{` has no runs |
| GatewayParse.DecodedRuns | api-gateway/main.py:587-592 | the runs that decode are kept, so there are at most as many values as runs |
| GatewayParse.DecodedRunsSound | api-gateway/main.py:587-592 | every kept value is the decoding of some run (proof by induction) |
| GatewayParse.DecodedRunsAll | api-gateway/main.py:587-592 | when every run decodes, the values are those decodings, in order (proof by induction) |
| GatewayParse.CollectParsedObjects | api-gateway/main.py:587-592 | the loop's list equals `DecodedRuns` |
| GatewayParse.ObjectFallback | api-gateway/main.py:578-599 | the fallback has no more values than there are runs |
| GatewayParse.ParsedArray | api-gateway/main.py:553-599 | when a bracket span exists and decodes, the result is the decoded array's items |
| GatewayParse.ParseJsonArray | api-gateway/main.py:553-599 | the step-by-step parse equals `ParsedArray` |
| GatewayParse.SurroundingProseIgnored | api-gateway/main.py:566-573 | prose before the first `[` and after the last `]` is ignored: the items of the bracketed array come back |
| GatewayParse.SpanDecoded | api-gateway/main.py:569-573 | a span that decodes to an array gives that array's items |
| GatewayParse.ProseSpan | api-gateway/main.py:566-570 | after cleaning, the span of prose + body + trailer is exactly the body |
| GatewayParse.UnfencedClean | api-gateway/main.py:559-560 | a reply whose strip does not start with a backtick is cleaned to its strip |
| GatewayParse.LoneValueYieldsEmpty | api-gateway/main.py:574-577 | with no bracket pair, a decoded value that is not a list gives `[]` and the object fallback does not run |
| GatewayParse.DecodeErrorFallsBackToObjects | api-gateway/main.py:578-595 | after a decode error the result is the decodable brace runs of the original reply, and each item comes from one of them |
| GatewayParse.UndecodableWithoutObjectsIsEmpty | api-gateway/main.py:593-599 | an undecodable reply without `{` gives `[]`, so no decode error escapes |
| GatewayParse.NoBracketNoSpan | api-gateway/main.py:567-569 | text without `[` has no span |
| Gateway.LengthTier | api-gateway/main.py:279-287 | the tier is at most 3 and passes 1, 2 and 3 exactly when the length exceeds 3000, 5000 and 10000 |
| Gateway.SummaryDepthFor | api-gateway/main.py:423-429 | comprehensive exactly above 10000 characters; concise exactly at 5000 or fewer |
| Gateway.TierBoundaries | api-gateway/main.py:454-462 | the question, flashcard and summary tiers change only on the far side of each strict threshold |
| Gateway.RangesGrowWithLength | api-gateway/main.py:279-287 | the requested counts and summary depth never step down as the text grows |
| Gateway.CallFailureMessage | api-gateway/main.py:535-550 | an unexpected failure gets the AI prefix; every failure but a timeout quotes the exception; an empty network error reads "Unknown network error" |
| Gateway.CallOllama | api-gateway/main.py:487-550 | success exactly when the reply's "response" string strips to non-empty text, which is returned stripped; a failed call raises the message for its kind |
| Gateway.BlankReplyIsError | api-gateway/main.py:529-531 | a blank reply raises the empty-response error, wrapped by the catch-all |
| Gateway.ParseQuizType | api-gateway/main.py:168-170 | exactly the four valid types are accepted, each as its own kind |
| Gateway.QuizPart | api-gateway/main.py:312-334 | one quiz block as intended (the validation loop only logging), and the fill-blank and short-answer blocks as written: it succeeds exactly when the call succeeds and the parse is non-empty, returning the parsed list; a call failure propagates; an empty parse raises the block's own message |
| Gateway.CombineQuizShape | api-gateway/main.py:274-414 | a combined quiz is non-empty and holds a key exactly for each requested kind that succeeded, with that kind's questions |
| Gateway.MultipleChoiceFailurePropagates | api-gateway/main.py:331-334 | a multiple-choice failure is always raised |
| Gateway.SoleKindFailurePropagates | api-gateway/main.py:367-371 | a single requested kind's failure is raised |
| Gateway.AllSwallowsOtherFailures | api-gateway/main.py:404-408 | under "all", fill-blank and short-answer failures are swallowed once multiple choice succeeded |
| Gateway.CombineQuizCounts | api-gateway/main.py:410-412 | a combined quiz of non-empty parts has at least one question |
| Gateway.CombineQuizKeepsPlain | api-gateway/main.py:410-412 | the combination raises only plain exceptions when its parts do |
| Gateway.CombineQuizOutcomes | api-gateway/main.py:404-414 | parts that are non-empty on success and plain on failure combine into a quiz with at least one question, or a plain exception |
| Gateway.QuizResultOutcomes | api-gateway/main.py:259-414 | as written and as intended, a successful quiz has at least one question and a failed one raised a plain exception |
| Gateway.PartAsWrittenOutcomes | api-gateway/main.py:312-334 | as written, only the multiple-choice block differs from `QuizPart`, and only by turning a success into a plain exception |
| Gateway.RunQuizPart | api-gateway/main.py:312-334 | the block as written, with the validation loop run over the parsed multiple-choice items, equals `PartAsWritten` |
| Gateway.ValidateQuestions | api-gateway/main.py:323-327 | the validation loop stops at the first item whose checks raise, with that item's error (`FirstValidationError`) |
| Gateway.GenerateQuizWithLlm | api-gateway/main.py:259-414 | the dict filled block by block, as written, equals `QuizResult` |
| Gateway.ValidationError | api-gateway/main.py:323-327 | the validation loop as written: an object passes; a number, boolean or null raises TypeError; a string or list raises when it contains "options" |
| Gateway.FirstValidationErrorIsFirst | api-gateway/main.py:323-327 | the loop raises exactly when some item raises, with the error of the first such item; every item before it passes |
| Gateway.FirstValidationErrorFrom | api-gateway/main.py:323-327 | items that pass can be skipped: the first error is that of the rest (proof by induction) |
| Gateway.FirstValidationErrorAppend | api-gateway/main.py:323-327 | appending an item that passes keeps a list free of errors (proof by induction) |
| Gateway.ValidatedAsWritten | api-gateway/main.py:323-327 | as written, the block fails exactly when the loop raises on a parsed item, and otherwise keeps the part |
| Gateway.ScalarQuestionFailsQuiz | api-gateway/main.py:323-327 | as written, a parsed number, boolean or null question fails the whole multiple-choice block |
| Gateway.OneNumberReplyParsed | api-gateway/main.py:567-573 | the reply "[1]" parses to one numeric item |
| Gateway.StrippedReplyAccepted | api-gateway/main.py:524-533 | a non-empty stripped reply is returned as it is |
| Gateway.NumericQuestionFailsBlock | api-gateway/main.py:312-334 | for the reply "[1]" the intended block keeps the one item, but the block as written raises TypeError |
| Gateway.NumericQuestionFailsQuiz | api-gateway/main.py:259-414 | for the reply "[1]" a quiz of all types succeeds as intended, but fails with TypeError as written |
| Gateway.NumericQuestionFailsEndpoint | api-gateway/main.py:146-200 | for the reply "[1]" the endpoint as written answers 500 "Error generating quiz: TypeError"; as intended it answers 200 |
| Gateway.QuizAnswer | api-gateway/main.py:178-200 | a quiz with questions is answered with the quiz and its count; a plain exception becomes 500 with "Error generating quiz: " |
| Gateway.GenerateQuiz | api-gateway/main.py:146-200 | as written: blank text is a 400 before the type is looked at; an unknown lower-cased type is a 400; both pass through unchanged; a valid request is answered from the generation for the stripped text and the parsed type |
| Gateway.GenerateQuizIntended | api-gateway/main.py:146-200 | the same endpoint with the validation loop only logging: the same two 400s, and a valid request answered from the intended generation |
| Gateway.QuizResponseOnSuccess | api-gateway/main.py:178-193 | a successful generation is answered 200 with at least one question; the two internal 500s never occur |
| Gateway.QuizResponseOnFailure | api-gateway/main.py:195-200 | a failed generation is answered 500, quoting the exception |
| Gateway.QuizTypeCaseInsensitive | api-gateway/main.py:162 | quiz types that differ only in letter case give the same response |
| Gateway.SummaryFor | api-gateway/main.py:417-443 | a generated summary is non-empty and stripped |
| Gateway.GenerateSummary | api-gateway/main.py:203-230 | 200 exactly for non-blank text whose summary succeeds, with that summary; every error is a 500 with "Error generating summary: " |
| Gateway.BlankSummaryIs500 | api-gateway/main.py:214-230 | blank text gets 500 "Error generating summary: 400: Text input is required" |
| Gateway.FlashcardsFor | api-gateway/main.py:446-484 | the flashcards are the parsed reply to the tiered prompt, or the call's failure |
| Gateway.GenerateFlashcards | api-gateway/main.py:233-256 | 200 exactly for non-blank text whose flashcards succeed, with those flashcards; every error is a 500 with "Error generating flashcards: " |
| Gateway.BlankFlashcardsIs500 | api-gateway/main.py:241-256 | blank text gets 500 "Error generating flashcards: 400: Text input is required" |
| Gateway.ScanImage | api-gateway/main.py:91-143 | only a network error gives 503; every other error is 500; success needs status 200, a JSON object with a truthy "success", and a sized "text", which is returned; conversely such a reply is always answered 200 with that text |
| Gateway.ScanUpstreamStatusIs500 | api-gateway/main.py:116-120 | an OCR status other than 200 becomes 500 quoting the status and body |
| Gateway.ScanUnsuccessfulIs500 | api-gateway/main.py:124-125 | a falsy "success" becomes 500 "Error processing image: 500: OCR extraction failed" |
| AiService.Payload | backend/services/ai_service.py:37-44 | the payload has the model, the prompt and `stream = false`; "system" is present exactly when a non-empty system prompt is given; there are no other keys |
| AiService.ReplyText | backend/services/ai_service.py:23-54 | success exactly for a JSON object whose "response" is a string, returned stripped; every failure is wrapped with the AI prefix |
| AiService.ReplyTextStripped | backend/services/ai_service.py:50 | the reply text is already stripped |
| AiService.ParseWithFallback | backend/services/ai_service.py:89-105 | a decode error gives the one-item fallback list; a decoded sized value is returned unchecked; an unsized one raises TypeError |
| AiService.Wrapped | backend/services/ai_service.py:107-109 | a re-raised exception starts with its method's prefix |
| AiService.GenerateFlashcards | backend/services/ai_service.py:56-109 | a failed call is re-raised with "Failed to generate flashcards: "; a decode error gives the fallback card; a decoded sized value is returned as it is; an unsized one raises "Failed to generate flashcards: TypeError" |
| AiService.GenerateSummary | backend/services/ai_service.py:111-142 | the summary is the reply text, possibly empty; failures start with "Failed to generate summary: " |
| AiService.GenerateQuestions | backend/services/ai_service.py:144-195 | a failed call is re-raised with "Failed to generate questions: "; a decode error gives the fallback question; a decoded sized value is returned as it is; an unsized one raises "Failed to generate questions: TypeError" |
| AiService.SpanIsWhatIsDecoded | backend/services/ai_service.py:91-97 | prose around a bracketed body is ignored: exactly the body is decoded |
| AiService.ParseAgreesWithGateway | backend/services/ai_service.py:91-100 | on an unfenced reply whose span decodes to a list, the backend and the gateway return the same items |
| AiService.FlashcardFallback | backend/services/ai_service.py:102-105 | on a decode error the result is the one fallback card |
| AiService.QuestionFallback | backend/services/ai_service.py:188-191 | on a decode error the result is the one fallback question |
| AiService.FallbackTextIsPrefix | backend/services/ai_service.py:105 | the fallback text is a prefix of the reply of at most 200 characters, the same in both fallbacks, and the whole reply when it is short |
| AiService.EmptyReplyFallsBack | backend/services/ai_service.py:89-105 | an empty reply is not an error: it yields the fallback card with an empty back |
| AiService.ReplyTextAgreesWithGateway | backend/services/ai_service.py:49-50 | the two services read the same text wherever the gateway accepts a reply; they differ only on a blank reply, which only the backend accepts |
| OcrEndpoint.Health | ocr-service/main.py:45-48 | the body is exactly `{"status": "healthy"}` |
| OcrEndpoint.ResizeDecision | ocr-service/main.py:85-94 | no resize unless a side exceeds 2000; then the width is set when it is the larger side, and the height otherwise, ties included |
| OcrEndpoint.ResizeShrinksLongestSide | ocr-service/main.py:87-93 | the side set to 2000 was over 2000 and the longest |
| OcrEndpoint.NormaliseExtracted | ocr-service/main.py:105-109 | the text is the stripped output, or the fixed message when that is empty; never empty |
| OcrEndpoint.NormaliseIdempotent | ocr-service/main.py:105-109 | normalising a normalised text changes nothing |
| OcrEndpoint.ExtractResponse | ocr-service/main.py:62-126 | 200 exactly for an image content type, an image that opens and a Tesseract run that returns text, with that text normalised; a refused content type is checked first; a failed open or Tesseract error is a 500 "Error processing image: " quoting it |
| OcrEndpoint.ExtractSuccess | ocr-service/main.py:84-117 | a success carries the normalised Tesseract output for the resized image |
| OcrEndpoint.NonImageIs500 | ocr-service/main.py:66-67 | a missing or non-image content type gets 500 "Error processing image: 400: File must be an image" |
| OcrEndpoint.ExtractText | ocr-service/main.py:51-126 | the step-by-step endpoint equals `ExtractResponse`, and the temporary file is gone afterwards whatever happened |
| OcrService.ExtractText | backend/services/ocr_service.py:25-56 | fails exactly when OCR raised, with the "Failed to extract text from image: " prefix; otherwise the stripped output, or the fixed message when it is blank; never empty |
| OcrService.AgreesWithOcrMicroservice | backend/services/ocr_service.py:45-52 | for the same Tesseract output the backend's text, fallback message included, equals the OCR microservice's |
| OcrService.ResultIsStripped | backend/services/ocr_service.py:52 | the returned text is its own strip |
| AudioService.UseWhisperApi | backend/services/audio_service.py:36 | the API is used exactly when the flag is set and lower-cases to "true" |
| AudioService.TranscribeLocal | backend/services/audio_service.py:61-69 | the placeholder is non-empty and is its own strip |
| AudioService.Transcription | backend/services/audio_service.py:36-48 | without the flag the transcription is the placeholder; with it, the reply's "text" (default "") for a JSON object, AttributeError for any other body, and the call's exception when it raised |
| AudioService.PostProcess | backend/services/audio_service.py:50-55 | a blank string gives the no-speech message; a non-blank one is returned stripped; a truthy non-string raises; a success is non-empty and stripped |
| AudioService.TranscribeAudio | backend/services/audio_service.py:22-59 | the result is `PostProcess` of the transcription: it succeeds exactly when that does, with its text, which is never empty; every failure is "Failed to transcribe audio: " followed by the exception's text |
| AudioService.LocalPathGivesPlaceholder | backend/services/audio_service.py:48 | without the flag the placeholder is returned unchanged, whatever the API would answer |
| AudioService.MissingTextGivesMessage | backend/services/audio_service.py:42 | an API reply without "text" gives the no-speech message |
| AudioService.FlagExamples | backend/services/audio_service.py:36 | "TRUE" and "True" select the API; an unset variable, "1" and "yes" do not |
| Backend.Generated | backend/main.py:148-158 | a generated flashcard or question result has a length; a summary is a string; failures are plain exceptions |
| Backend.ContentResponse | backend/main.py:130-168 | 200 exactly for non-blank text whose requested generators all succeed, with the `result` dict as its content; a generator's failure is a 500 "Error generating content: " quoting it; blank text is refused before any generation |
| Backend.GenerateContent | backend/main.py:130-168 | the step-by-step endpoint equals `ContentResponse` |
| Backend.StepKeys | backend/main.py:148-158 | one block adds its key exactly when its kind is requested, with the generated value, and keeps the other keys |
| Backend.ContentKeysAreRequested | backend/main.py:148-158 | the content holds a kind's key exactly when that kind or "all" was requested, with what the AI service generated for it |
| Backend.ContentHasOnlyKnownKeys | backend/main.py:146-158 | the content has no key besides the three |
| Backend.ContentSucceedsIffRequestedSucceed | backend/main.py:148-158 | the content is produced exactly when every requested generator succeeds |
| Backend.FirstFailureWins | backend/main.py:148-168 | the reported failure is that of the first requested kind to fail, in the order flashcards, summary, questions; nothing partial is returned |
| Backend.UnknownTypeGivesEmptyContent | backend/main.py:146-164 | an unknown content type is not refused: the content is empty |
| Backend.BlankTextIs500 | backend/main.py:143-144 | blank text gets 500 "Error generating content: 400: Text input is required" |
| Backend.OnlyPromptsForRawTextMatter | backend/main.py:138-157 | the generators receive the unstripped text: only the answers to the prompts for that exact text matter |
| Backend.GeneratedFromPrompt | backend/main.py:149-157 | each generator depends on Ollama only through its own prompt |
| Backend.UploadName | backend/main.py:74 | the client's file name when it is set and non-empty, otherwise "uploaded_image.jpg"; never empty |
| Backend.Join | backend/main.py:74 | POSIX `os.path.join`: an absolute name replaces the directory; otherwise the path starts with the directory and ends with the name |
| Backend.TempPathInTempDir | backend/main.py:74 | a relative file name lands in the temporary directory and keeps its name |
| Backend.AbsoluteNameEscapes | backend/main.py:74 | an absolute client file name is used as the path itself |
| Backend.MissingNameGivesDefault | backend/main.py:108 | a missing or empty file name gives the default name, for audio as for images |
| Backend.ScanResponse | backend/main.py:62-93 | success exactly when OCR ran, with the OCR service's text: the stripped output, or the no-text message when it is blank; a failure is 500 "Error processing image: Failed to extract text from image: ..." |
| Backend.ScanNotes | backend/main.py:62-93 | the endpoint equals `ScanResponse`; the temporary file is removed after a success and left behind after a failure |
| Backend.AudioResponse | backend/main.py:96-127 | success exactly when the transcription succeeds, with its non-empty text; a failure is 500 "Error processing audio: " followed by the transcription's error, which starts "Failed to transcribe audio: "; without the flag the answer is the placeholder |
| Backend.ProcessAudio | backend/main.py:96-127 | the endpoint equals `AudioResponse`; the temporary file is removed after a success and left behind after a failure |

## Left out

- Network I/O is not performed. The POSTs to Ollama, the OCR service and the Whisper API are inputs: the outcome of each call.
- `json.loads`, PIL and Tesseract are not implemented. The decoder is an input, with one assumption (`ArraySyntax`). Opening the image and running Tesseract are inputs. Tesseract's output is a function of the resize branch taken.
- The short side after a resize is computed in floating point (`int(height * (max_size / width))`). It is not modelled; only the branch and the side set to 2000 are.
- PIL's `convert('RGB')` is not modelled.
- Prompt and system-prompt wording is not modelled. A prompt is its variable part: the text, and the count range or summary depth.
- The exception taxonomy of `_call_ollama` is not modelled. A call failure is a kind plus the exception's text.
- Exceptions raised by built-ins on malformed data (TypeError, AttributeError, JSONDecodeError) carry only their class name. Python's exact messages for them are not modelled.
- Gateway.ScanImage: does not model the `httpx.HTTPStatusError` handler (api-gateway/main.py:138-140). Nothing in that `try` calls `raise_for_status`, so it cannot fire.
- Gateway.QuizAnswer: does not model the `isinstance(v, list)` test of line 183. Every stored value is a list.
- The quiz dictionary is keyed by `QuizKind`. `Gateway.KindKey` gives the string keys.
- Logging, async scheduling, and the FastAPI, CORS and uvicorn wiring are not modelled.
- The root endpoints of each service and the gateway's `/health` aggregation are not modelled.
- `backend/services/tts_service.py` and the text-to-speech endpoints are not part of this model. They are a thin wrapper over gTTS and an HTTP POST.
- Environment lookups are inputs: `AiService.OllamaConfig` and the `USE_WHISPER_API` flag. `os.getenv` itself is not modelled.
- Writing and removing files cannot fail in the model. The `with open` write and `os.remove` are assumed to succeed.
- The name `tempfile.NamedTemporaryFile` picks is an input, required to be a path that does not yet exist.
- OcrEndpoint.ExtractResponse: the fixed "success" and "message" fields of the OCR microservice's JSON body are not modelled. Only the text is.
- PyStr.Lower: only `A`-`Z` and the Kelvin sign are lowered. Every other character is kept, so a comparison with an ASCII word such as "true" agrees with Python's, but other non-ASCII letters do not lower.

## Findings

| source | as written | input that shows it | evidently intended | confidence | as-written member | corrected member |
|---|---|---|---|---|---|---|
| api-gateway/main.py:322-327 | The multiple-choice validation loop is meant only to log malformed items. As written, `"options" not in q` raises TypeError when a parsed item is a number, boolean or null. `q.get` raises AttributeError when the item is a string or list containing "options". The block's `except` re-raises, so the whole quiz fails. | A model reply of `[1]` to the multiple-choice prompt: `/api/generate_quiz` answers 500 "Error generating quiz: …" | Malformed items are logged and kept, and the block succeeds with the parsed list | not executed | Gateway.NumericQuestionFailsEndpoint | Gateway.GenerateQuizIntended |
