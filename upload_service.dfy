/** lib/pdf/upload-service.ts: accept a PDF upload, extract its embedded
    text, fall back to Document AI OCR when that text is too thin, and split
    the final text into sections. */
module UploadService {
  import opened Wrappers
  import opened JsText
  import opened PdfParser

  /** Fewer non-whitespace UTF-16 code units than this call for OCR. */
  const MinEmbeddedTextCharacters: nat := 25

  const PdfMimeType: string := "application/pdf"
  const OcrProvider: string := "documentai"

  const OnlyPdfMessage: string := "Only PDF uploads are supported."
  const InsufficientTextMessage: string := "Embedded text insufficient. OCR fallback required."
  const OcrSucceededMessage: string := "Text extracted via Document AI OCR."
  const OcrEmptyMessage: string := "Document AI OCR did not detect readable text."
  const OcrFailedMessage: string := "OCR fallback failed. Please try again later."

  /** An uploaded file: its MIME type, its name and its contents. */
  datatype UploadFile = UploadFile(mimeType: string, name: string, bytes: seq<byte>)

  /** What `runDocumentAiOcr` gives: recognised text and a page count, or an exception. */
  datatype OcrOutcome = OcrReturned(text: string, pageCount: int) | OcrThrew

  datatype OcrSummary = OcrSummary(provider: string, success: bool, pageCount: int)

  /** The variables the OCR branch settles: `text`, `needsOcr`, `message`
      and `ocrSummary`. */
  datatype OcrState = OcrState(text: string, needsOcr: bool, message: Option<string>, ocr: Option<OcrSummary>)

  /** The result of `processPdfUpload`, over the (not modelled) section type
      `normalizePdfText` produces. */
  datatype ProcessedUpload<S> = ProcessedUpload(
    metadata: PdfMetadata,
    sections: seq<S>,
    text: string,
    needsOcr: bool,
    message: Option<string>,
    ocr: Option<OcrSummary>)

  /** Why `processPdfUpload` throws: the file is not a PDF, or the extractor threw. */
  datatype UploadError = NotPdf(message: string) | ExtractionFailed(cause: ExtractError)

  // ---------------------------------------------------------------------------
  // The two checks
  // ---------------------------------------------------------------------------

  /** `requiresOcrFallback(text)`: the JavaScript length of the text with all
      whitespace removed is zero or below the threshold. */
  function RequiresOcrFallback(text: string): (r: bool)
    ensures r <==> Utf16Length(Compact(text)) < MinEmbeddedTextCharacters
  {
    var compact := Compact(text);
    if Utf16Length(compact) == 0 then true
    else Utf16Length(compact) < MinEmbeddedTextCharacters
  }

  /** On text from the Basic Multilingual Plane the threshold counts
      characters: fewer than 25 non-whitespace characters call for OCR. */
  lemma OcrThresholdOnBmpText(text: string)
    requires forall i :: 0 <= i < |text| ==> text[i] as int < 0x1_0000
    ensures RequiresOcrFallback(text) <==> |Compact(text)| < MinEmbeddedTextCharacters
  {
    var compact := Compact(text);
    CompactKeepsBmp(text);
    Utf16LengthOfBmp(compact);
  }

  lemma {:induction false} CompactKeepsBmp(text: string)
    requires forall i :: 0 <= i < |text| ==> text[i] as int < 0x1_0000
    ensures forall i :: 0 <= i < |Compact(text)| ==> Compact(text)[i] as int < 0x1_0000
  {
    if text != [] {
      CompactKeepsBmp(text[1..]);
    }
  }

  /** Twenty-four letters are too few, twenty-five are enough, and text made
      only of whitespace, the empty text included, always is too little. */
  lemma OcrThresholdBoundary(text: string)
    ensures |text| == 24 && (forall i :: 0 <= i < |text| ==> 'a' <= text[i] <= 'z') ==> RequiresOcrFallback(text)
    ensures |text| == 25 && (forall i :: 0 <= i < |text| ==> 'a' <= text[i] <= 'z') ==> !RequiresOcrFallback(text)
    ensures AllWhitespace(text) ==> RequiresOcrFallback(text)
  {
    if forall i :: 0 <= i < |text| ==> 'a' <= text[i] <= 'z' {
      CompactOfSolid(text);
      Utf16LengthOfBmp(text);
    }
  }

  /** Text that does not call for OCR has something left after trimming. */
  lemma SufficientTextIsNotBlank(text: string)
    requires !RequiresOcrFallback(text)
    ensures Trim(text) != []
  {
    TrimEmptyIffBlank(text);
  }

  /** The file's type is the PDF type or its name ends in `.pdf` in any case. */
  predicate IsPdf(file: UploadFile)
  {
    file.mimeType == PdfMimeType || EndsWith(ToLowerAscii(file.name), ".pdf")
  }

  /** `assertPdf(file)`: passes a PDF, throws the rejection message otherwise. */
  function AssertPdf(file: UploadFile): (r: Outcome<string>)
    ensures r.Pass? <==>
      || file.mimeType == "application/pdf"
      || (&& |file.name| >= 4
          && file.name[|file.name| - 4] == '.'
          && (file.name[|file.name| - 3] == 'p' || file.name[|file.name| - 3] == 'P')
          && (file.name[|file.name| - 2] == 'd' || file.name[|file.name| - 2] == 'D')
          && (file.name[|file.name| - 1] == 'f' || file.name[|file.name| - 1] == 'F'))
    ensures r.Fail? ==> r.error == "Only PDF uploads are supported."
  {
    PdfSuffixIgnoresCase(file.name);
    if IsPdf(file) then Pass else Fail(OnlyPdfMessage)
  }

  // ---------------------------------------------------------------------------
  // The OCR fallback
  // ---------------------------------------------------------------------------

  /** The state after the OCR branch, from the embedded text and what OCR
      does when it is consulted. */
  function OcrFallback(embedded: string, ocr: OcrOutcome): OcrState
  {
    if !RequiresOcrFallback(embedded) then OcrState(embedded, false, None, None)
    else match ocr
      case OcrThrew => OcrState(embedded, true, Some(OcrFailedMessage), Some(OcrSummary(OcrProvider, false, 0)))
      case OcrReturned(t, n) =>
        if |t| > 0 then OcrState(t, false, Some(OcrSucceededMessage), Some(OcrSummary(OcrProvider, true, n)))
        else OcrState(embedded, true, Some(OcrEmptyMessage), Some(OcrSummary(OcrProvider, false, n)))
  }

  /** The outcome of each branch of the fallback. */
  lemma OcrFallbackBranches(embedded: string, ocr: OcrOutcome)
    ensures !RequiresOcrFallback(embedded) ==>
      OcrFallback(embedded, ocr) == OcrState(embedded, false, None, None)
    ensures RequiresOcrFallback(embedded) && ocr.OcrReturned? && ocr.text != [] ==>
      OcrFallback(embedded, ocr) == OcrState(ocr.text, false, Some("Text extracted via Document AI OCR."),
        Some(OcrSummary("documentai", true, ocr.pageCount)))
    ensures RequiresOcrFallback(embedded) && ocr.OcrReturned? && ocr.text == [] ==>
      OcrFallback(embedded, ocr) == OcrState(embedded, true, Some("Document AI OCR did not detect readable text."),
        Some(OcrSummary("documentai", false, ocr.pageCount)))
    ensures RequiresOcrFallback(embedded) && ocr.OcrThrew? ==>
      OcrFallback(embedded, ocr) == OcrState(embedded, true, Some("OCR fallback failed. Please try again later."),
        Some(OcrSummary("documentai", false, 0)))
  {
  }

  /** What every outcome of the fallback has in common: OCR is summarised
      exactly when it was consulted, it succeeded exactly when it cleared the
      need for it, a message accompanies every consultation, the text changes
      only to what OCR returned, and the "OCR fallback required" message is
      always replaced before the state is returned. */
  lemma OcrFallbackInvariants(embedded: string, ocr: OcrOutcome)
    ensures var st := OcrFallback(embedded, ocr);
      && (st.ocr.Some? <==> RequiresOcrFallback(embedded))
      && (st.ocr.Some? ==> st.ocr.value.provider == OcrProvider && (st.ocr.value.success <==> !st.needsOcr))
      && (st.message.Some? <==> st.ocr.Some?)
      && (st.text == embedded || (ocr.OcrReturned? && st.text == ocr.text && st.text != []))
      && (st.needsOcr ==> st.text == embedded && RequiresOcrFallback(embedded))
      && st.message != Some(InsufficientTextMessage)
  {
  }

  /** Any non-empty OCR text is accepted, even one made only of whitespace,
      which then trims to nothing. */
  lemma WhitespaceOcrTextAccepted(embedded: string, t: string, n: int)
    requires RequiresOcrFallback(embedded)
    requires t != [] && AllWhitespace(t)
    ensures OcrFallback(embedded, OcrReturned(t, n)) ==
      OcrState(t, false, Some(OcrSucceededMessage), Some(OcrSummary(OcrProvider, true, n)))
    ensures Trim(OcrFallback(embedded, OcrReturned(t, n)).text) == []
  {
    TrimEmptyIffBlank(t);
  }

  // ---------------------------------------------------------------------------
  // processPdfUpload
  // ---------------------------------------------------------------------------

  /** The steps that settle `text`, `needsOcr`, `message` and `ocrSummary`
      after extraction; the ingest route repeats them. */
  method RunOcrFallback(embedded: string, ocr: OcrOutcome)
    returns (text: string, needsOcr: bool, message: Option<string>, ocrSummary: Option<OcrSummary>)
    ensures OcrState(text, needsOcr, message, ocrSummary) == OcrFallback(embedded, ocr)
  {
    text := embedded;
    needsOcr := RequiresOcrFallback(text);
    message := if needsOcr then Some(InsufficientTextMessage) else None;
    ocrSummary := None;

    if needsOcr {
      match ocr {
        case OcrReturned(ocrText, pageCount) =>
          ocrSummary := Some(OcrSummary(OcrProvider, |ocrText| > 0, pageCount));
          if |ocrText| > 0 {
            text := ocrText;
            needsOcr := false;
            message := Some(OcrSucceededMessage);
          } else {
            message := Some(OcrEmptyMessage);
          }
        case OcrThrew =>
          ocrSummary := Some(OcrSummary(OcrProvider, false, 0));
          message := Some(OcrFailedMessage);
      }
    }
  }

  /** The result of `processPdfUpload` given the result of the extraction. */
  function UploadOutcome<S>(file: UploadFile, parsed: Result<ParsedPdf, ExtractError>, ocr: OcrOutcome,
                            normalizePdfText: string -> seq<S>): Result<ProcessedUpload<S>, UploadError>
  {
    if !IsPdf(file) then Failure(NotPdf(OnlyPdfMessage))
    else match parsed
      case Failure(e) => Failure(ExtractionFailed(e))
      case Success(p) =>
        var st := OcrFallback(p.text, ocr);
        Success(ProcessedUpload(p.metadata, normalizePdfText(st.text), st.text, st.needsOcr, st.message, st.ocr))
  }

  /** `processPdfUpload(file)`. The extractor is asked only for a PDF; OCR's
      outcome is used only when the embedded text is insufficient. */
  method ProcessPdfUpload<S>(extractor: PdfTextExtractor, file: UploadFile,
                             pdfModule: PdfModule, setupSucceeds: bool, run: ParserRun,
                             ocr: OcrOutcome, normalizePdfText: string -> seq<S>)
    returns (r: Result<ProcessedUpload<S>, UploadError>)
    modifies extractor
    ensures r == UploadOutcome(file,
      ExtractOutcome(file.bytes, pdfModule, old(extractor.workerConfigured), setupSucceeds, run), ocr, normalizePdfText)
    ensures extractor.workerConfigured ==
      if IsPdf(file) then ConfiguredAfter(file.bytes, pdfModule, old(extractor.workerConfigured), setupSucceeds)
      else old(extractor.workerConfigured)
  {
    var check := AssertPdf(file);
    if check.Fail? {
      return Failure(NotPdf(check.error));
    }
    var parsedResult := extractor.ExtractPdfText(file.bytes, pdfModule, setupSucceeds, run);
    if parsedResult.Failure? {
      return Failure(ExtractionFailed(parsedResult.error));
    }
    var parsed := parsedResult.value;

    var text, needsOcr, message, ocrSummary := RunOcrFallback(parsed.text, ocr);

    var sections := normalizePdfText(text);
    return Success(ProcessedUpload(parsed.metadata, sections, text, needsOcr, message, ocrSummary));
  }

  /** A successful upload passes the extractor's metadata through and splits
      the final text, whichever branch produced it. */
  lemma UploadSectionsFromFinalText<S>(file: UploadFile, parsed: Result<ParsedPdf, ExtractError>, ocr: OcrOutcome,
                                       normalizePdfText: string -> seq<S>)
    requires UploadOutcome(file, parsed, ocr, normalizePdfText).Success?
    ensures IsPdf(file) && parsed.Success?
    ensures var u := UploadOutcome(file, parsed, ocr, normalizePdfText).value;
      && u.metadata == parsed.value.metadata
      && u.sections == normalizePdfText(u.text)
      && u.text == OcrFallback(parsed.value.text, ocr).text
  {
  }

  /** OCR failing never makes the upload fail: only a non-PDF file or an
      extractor exception does. */
  lemma UploadFailsOnlyBeforeOcr<S>(file: UploadFile, parsed: Result<ParsedPdf, ExtractError>, ocr: OcrOutcome,
                                    normalizePdfText: string -> seq<S>)
    ensures UploadOutcome(file, parsed, ocr, normalizePdfText).Failure? <==> !IsPdf(file) || parsed.Failure?
    ensures UploadOutcome(file, parsed, ocr, normalizePdfText).Success? ==>
      UploadOutcome(file, parsed, OcrThrew, normalizePdfText).Success?
  {
  }
}
