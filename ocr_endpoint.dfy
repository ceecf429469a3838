/**
 * The OCR microservice: `/health`, and `/extract` with its content-type
 * check, temporary file, resize decision, text normalisation and status
 * mapping.
 */
module OcrEndpoint {
  import opened Wrappers
  import opened PyStr
  import opened Json
  import opened Errors
  import opened Outcomes
  import opened FileStore

  /** `/health` (lines 45-48). */
  function Health(): (body: map<string, Value>)
    ensures body.Keys == {"status"} && body["status"] == JString("healthy")
  {
    map["status" := JString("healthy")]
  }

  /** The longest side an image may have before it is scaled down (line 85). */
  const MaxSize := 2000

  /** What lines 87-94 do to an image of a given size. */
  datatype ResizePlan =
    | Keep
    /** The width becomes `MaxSize`; the height is scaled. */
    | FixWidth
    /** The height becomes `MaxSize`; the width is scaled. */
    | FixHeight

  /** The resize branch: only an image with a side over 2000 is scaled, on its wider side, ties by height. */
  function ResizeDecision(width: nat, height: nat): (plan: ResizePlan)
    ensures plan == Keep <==> width <= MaxSize && height <= MaxSize
    ensures plan == FixWidth <==> (width > MaxSize || height > MaxSize) && width > height
    ensures plan == FixHeight <==> (width > MaxSize || height > MaxSize) && width <= height
  {
    if width > MaxSize || height > MaxSize then
      if width > height then FixWidth else FixHeight
    else Keep
  }

  /**
   * A resize only ever shrinks: the side set to 2000 was the longest and
   * was over 2000.
   */
  lemma ResizeShrinksLongestSide(width: nat, height: nat)
    ensures ResizeDecision(width, height) == FixWidth ==> width > MaxSize && width > height
    ensures ResizeDecision(width, height) == FixHeight ==> height > MaxSize && height >= width
  {
  }

  const NoTextMessage :=
    "No text could be extracted from the image." + " Please ensure the image is clear and contains readable text."

  /** Lines 105-109: the text stripped, or the fixed message when nothing is left. */
  function NormaliseExtracted(raw: string): (text: string)
    ensures text != ""
    ensures Strip(raw) != "" ==> text == Strip(raw)
    ensures Strip(raw) == "" ==> text == NoTextMessage
  {
    if Strip(raw) == "" then NoTextMessage else Strip(raw)
  }

  /** A normalised text has no surrounding whitespace: normalising it again changes nothing. */
  lemma NormaliseIdempotent(raw: string)
    ensures NormaliseExtracted(NormaliseExtracted(raw)) == NormaliseExtracted(raw)
  {
    StripIdempotent(raw);
    if Strip(raw) == "" {
      StripTrimmed(NoTextMessage);
    }
  }

  const ImageError := "Error processing image: "
  const NotAnImage := "File must be an image"

  /** Line 66: a content type that is missing, empty or not "image/..." is refused. */
  predicate IsImageType(contentType: Option<string>) {
    contentType.Some? && contentType.value != "" && StartsWith(contentType.value, "image/")
  }

  /**
   * `/extract` as a value: the content type is checked first; opening the
   * image or running Tesseract may raise; every exception, the 400 for a
   * non-image included, leaves as a 500. Tesseract's output depends on the
   * resize applied to the opened image.
   */
  function ExtractResponse(contentType: Option<string>, image: ImageOpen, tesseract: ResizePlan -> OcrRun): (r: Response<string>)
    ensures r.HttpError? ==> r.status == 500 && StartsWith(r.detail, ImageError)
    ensures r.Ok? ==> r.body != ""
    ensures !IsImageType(contentType) ==> r == Rewrapped(ImageError, HTTPException(400, NotAnImage))
    ensures r.Ok? <==> IsImageType(contentType) && image.Opened? && tesseract(ResizeDecision(image.width, image.height)).OcrText?
    ensures r.Ok? ==> r.body == NormaliseExtracted(tesseract(ResizeDecision(image.width, image.height)).raw)
    ensures IsImageType(contentType) && image.OpenFailed? ==> r == HttpError(500, ImageError + image.message)
    ensures IsImageType(contentType) && image.Opened? && tesseract(ResizeDecision(image.width, image.height)).OcrRaised? ==>
      r == HttpError(500, ImageError + tesseract(ResizeDecision(image.width, image.height)).message)
  {
    if !IsImageType(contentType) then Rewrapped(ImageError, HTTPException(400, NotAnImage))
    else
      match image
      case OpenFailed(message) => Rewrapped(ImageError, Raised(message))
      case Opened(width, height) =>
        match tesseract(ResizeDecision(width, height))
        case OcrRaised(message) => Rewrapped(ImageError, Raised(message))
        case OcrText(raw) => Ok(NormaliseExtracted(raw))
  }

  /** A successful extraction carries Tesseract's text for the resized image, stripped, or the fixed message. */
  lemma ExtractSuccess(contentType: Option<string>, width: nat, height: nat, tesseract: ResizePlan -> OcrRun)
    requires IsImageType(contentType) && tesseract(ResizeDecision(width, height)).OcrText?
    ensures var raw := tesseract(ResizeDecision(width, height)).raw;
      ExtractResponse(contentType, Opened(width, height), tesseract) == Ok(NormaliseExtracted(raw))
  {
  }

  /** A refused content type is the 500 "Error processing image: 400: File must be an image". */
  lemma NonImageIs500(contentType: Option<string>, image: ImageOpen, tesseract: ResizePlan -> OcrRun)
    requires !IsImageType(contentType)
    ensures ExtractResponse(contentType, image, tesseract) == HttpError(500, ImageError + "400: " + NotAnImage)
  {
    assert NatToString(400) == "400";
  }

  /**
   * `/extract` (lines 51-126), step by step: the upload is written to a new
   * temporary file, which the `finally` block removes whatever happens.
   */
  method ExtractText(store: Store, contentType: Option<string>, tmpPath: string, image: ImageOpen,
                     tesseract: ResizePlan -> OcrRun) returns (r: Response<string>)
    requires tmpPath !in store.existing
    modifies store
    ensures r == ExtractResponse(contentType, image, tesseract)
    ensures store.existing == old(store.existing)
  {
    if !IsImageType(contentType) {
      return Rewrapped(ImageError, HTTPException(400, NotAnImage));
    }
    store.Write(tmpPath);
    var img := image;
    if img.OpenFailed? {
      r := Rewrapped(ImageError, Raised(img.message));
    } else {
      var plan := ResizeDecision(img.width, img.height);
      var run := tesseract(plan);
      if run.OcrRaised? {
        r := Rewrapped(ImageError, Raised(run.message));
      } else {
        var text := run.raw;
        text := Strip(text);
        if text == "" {
          text := NoTextMessage;
        }
        r := Ok(text);
      }
    }
    if store.Exists(tmpPath) {
      store.Remove(tmpPath);
    }
  }
}
