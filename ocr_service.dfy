/**
 * The backend's `OCRService.extract_text`: Tesseract's output stripped, a
 * fixed message in place of an empty text, and every failure wrapped.
 */
module OcrService {
  import opened Wrappers
  import opened PyStr
  import opened Errors
  import opened Outcomes
  import OcrEndpoint

  const NoTextMessage :=
    "No text could be extracted from the image." + " Please ensure the image is clear and contains readable text."
  const ExtractFailurePrefix := "Failed to extract text from image: "

  /**
   * `extract_text` (lines 25-56), from the outcome of opening the image and
   * running Tesseract on it.
   */
  function ExtractText(run: OcrRun): (r: Result<string, Exception>)
    ensures r.Failure? <==> run.OcrRaised?
    ensures r.Failure? ==> r.error == Raised(ExtractFailurePrefix + run.message)
    ensures r.Success? ==> r.value != ""
    ensures r.Success? && Strip(run.raw) != "" ==> r.value == Strip(run.raw)
    ensures r.Success? && Strip(run.raw) == "" ==> r.value == NoTextMessage
  {
    match run
    case OcrRaised(message) => Failure(Raised(ExtractFailurePrefix + message))
    case OcrText(raw) =>
      var text := Strip(raw);
      if text == "" then Success(NoTextMessage) else Success(text)
  }

  /**
   * For the same Tesseract output, the backend's OCR service and the OCR
   * microservice return the same text, fallback message included.
   */
  lemma AgreesWithOcrMicroservice(raw: string)
    ensures ExtractText(OcrText(raw)) == Success(OcrEndpoint.NormaliseExtracted(raw))
  {
  }

  /** A non-blank result is returned without further change: it is its own strip. */
  lemma ResultIsStripped(run: OcrRun)
    requires ExtractText(run).Success?
    ensures Strip(ExtractText(run).value) == ExtractText(run).value
  {
    StripIdempotent(run.raw);
    if Strip(run.raw) == "" {
      StripTrimmed(NoTextMessage);
    }
  }
}
