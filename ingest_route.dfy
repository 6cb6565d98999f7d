/** The decision logic of `POST` in app/api/ingest/route.ts: check the form
    field, accept only PDFs, extract the embedded text, fall back to OCR,
    split the text into sections and, when the text is usable and a lesson
    workflow is configured, start that workflow. The HTTP envelope is reduced
    to a status and a body. */
module IngestRoute {
  import opened Wrappers
  import opened JsText
  import opened PdfParser
  import opened UploadService

  const ExpectedFileMessage: string := "Expected a PDF file upload under the `file` field."
  const IngestFailedMessage: string := "Unable to ingest PDF. Please try again."

  /** What reading the form's `file` entry gives: reading the form threw,
      the entry is missing, it is not a file, or the file. */
  datatype FormField = FormUnreadable | NoFile | NotAFile | FileField(file: UploadFile)

  /** What `openai.responses.create` gives: a response id, or an exception. */
  datatype WorkflowOutcome = WorkflowCreated(responseId: string) | WorkflowThrew

  /** The success body. It carries no `text` field. */
  datatype IngestBody<S> = IngestBody(
    metadata: PdfMetadata,
    needsOcr: bool,
    sections: seq<S>,
    ocr: Option<OcrSummary>,
    message: Option<string>,
    lessonWorkflow: Option<string>)

  datatype IngestResponse<S> = Ok(body: IngestBody<S>) | ErrorStatus(status: int, error: string)

  /** `process.env.LESSON_WORKFLOW_ID` is truthy: defined and non-empty. */
  predicate EnvSet(lessonWorkflowId: Option<string>)
  {
    lessonWorkflowId.Some? && lessonWorkflowId.value != []
  }

  /** The guard in front of the workflow call. */
  predicate ShouldTriggerWorkflow(st: OcrState, lessonWorkflowId: Option<string>)
  {
    !st.needsOcr && Utf16Length(Trim(st.text)) > 0 && EnvSet(lessonWorkflowId)
  }

  /** The response once a PDF has been accepted, from the extraction result
      and the outcomes of OCR and of the workflow call. */
  function IngestParsed<S>(parsed: Result<ParsedPdf, ExtractError>, ocr: OcrOutcome,
                           normalizePdfText: string -> seq<S>, lessonWorkflowId: Option<string>,
                           workflow: WorkflowOutcome): IngestResponse<S>
  {
    match parsed
    case Failure(_) => ErrorStatus(500, IngestFailedMessage)
    case Success(p) =>
      var st := OcrFallback(p.text, ocr);
      var lessonWorkflow :=
        if ShouldTriggerWorkflow(st, lessonWorkflowId) && workflow.WorkflowCreated?
        then Some(workflow.responseId) else None;
      Ok(IngestBody(p.metadata, st.needsOcr, normalizePdfText(st.text), st.ocr, st.message, lessonWorkflow))
  }

  /** The response for a form field, the extraction result, and the outcomes
      of OCR and of the workflow call. */
  function IngestOutcome<S>(form: FormField, parsed: Result<ParsedPdf, ExtractError>, ocr: OcrOutcome,
                            normalizePdfText: string -> seq<S>, lessonWorkflowId: Option<string>,
                            workflow: WorkflowOutcome): IngestResponse<S>
  {
    match form
    case FormUnreadable => ErrorStatus(500, IngestFailedMessage)
    case NoFile => ErrorStatus(400, ExpectedFileMessage)
    case NotAFile => ErrorStatus(400, ExpectedFileMessage)
    case FileField(file) =>
      if !IsPdf(file) then ErrorStatus(400, OnlyPdfMessage)
      else IngestParsed(parsed, ocr, normalizePdfText, lessonWorkflowId, workflow)
  }

  /** The workflow step: call the workflow when the guard holds, and keep
      its response id unless the call threw. */
  method TriggerLessonWorkflow(text: string, needsOcr: bool, lessonWorkflowId: Option<string>, workflow: WorkflowOutcome)
    returns (lessonWorkflow: Option<string>)
    ensures lessonWorkflow ==
      if ShouldTriggerWorkflow(OcrState(text, needsOcr, None, None), lessonWorkflowId) && workflow.WorkflowCreated?
      then Some(workflow.responseId) else None
  {
    lessonWorkflow := None;
    if !needsOcr && Utf16Length(Trim(text)) > 0 && EnvSet(lessonWorkflowId) {
      match workflow {
        case WorkflowCreated(id) =>
          lessonWorkflow := Some(id);
        case WorkflowThrew =>
      }
    }
  }

  /** The steps of `POST` after the file was accepted as a PDF: extract,
      fall back to OCR, split into sections, and start the workflow. */
  method IngestFile<S>(extractor: PdfTextExtractor, file: UploadFile,
                       pdfModule: PdfModule, setupSucceeds: bool, run: ParserRun,
                       ocr: OcrOutcome, normalizePdfText: string -> seq<S>,
                       lessonWorkflowId: Option<string>, workflow: WorkflowOutcome)
    returns (response: IngestResponse<S>)
    modifies extractor
    ensures response == IngestParsed(
      ExtractOutcome(file.bytes, pdfModule, old(extractor.workerConfigured), setupSucceeds, run),
      ocr, normalizePdfText, lessonWorkflowId, workflow)
    ensures extractor.workerConfigured ==
      ConfiguredAfter(file.bytes, pdfModule, old(extractor.workerConfigured), setupSucceeds)
  {
    var parsedResult := extractor.ExtractPdfText(file.bytes, pdfModule, setupSucceeds, run);
    if parsedResult.Failure? {
      return ErrorStatus(500, IngestFailedMessage);
    }
    var parsed := parsedResult.value;

    var text, needsOcr, message, ocrSummary := RunOcrFallback(parsed.text, ocr);

    var sections := normalizePdfText(text);

    var lessonWorkflow := TriggerLessonWorkflow(text, needsOcr, lessonWorkflowId, workflow);

    return Ok(IngestBody(parsed.metadata, needsOcr, sections, ocrSummary, message, lessonWorkflow));
  }

  /** `POST(request)`. The extractor is reached only for a PDF file. */
  method Post<S>(extractor: PdfTextExtractor, form: FormField,
                 pdfModule: PdfModule, setupSucceeds: bool, run: ParserRun,
                 ocr: OcrOutcome, normalizePdfText: string -> seq<S>,
                 lessonWorkflowId: Option<string>, workflow: WorkflowOutcome)
    returns (response: IngestResponse<S>)
    modifies extractor
    ensures var extracted := if form.FileField? then form.file.bytes else [];
      response == IngestOutcome(form,
        ExtractOutcome(extracted, pdfModule, old(extractor.workerConfigured), setupSucceeds, run),
        ocr, normalizePdfText, lessonWorkflowId, workflow)
    ensures !(form.FileField? && IsPdf(form.file)) ==> extractor.workerConfigured == old(extractor.workerConfigured)
    ensures form.FileField? && IsPdf(form.file) ==>
      extractor.workerConfigured == ConfiguredAfter(form.file.bytes, pdfModule, old(extractor.workerConfigured), setupSucceeds)
  {
    if form.FormUnreadable? {
      return ErrorStatus(500, IngestFailedMessage);
    }
    if !form.FileField? {
      return ErrorStatus(400, ExpectedFileMessage);
    }
    var file := form.file;
    if !IsPdf(file) {
      return ErrorStatus(400, OnlyPdfMessage);
    }
    response := IngestFile(extractor, file, pdfModule, setupSucceeds, run, ocr, normalizePdfText,
      lessonWorkflowId, workflow);
  }

  /** The status depends only on the form field, the file and the
      extraction: neither OCR nor the workflow can turn a success into an
      error. */
  lemma StatusIndependentOfOcrAndWorkflow<S>(form: FormField, parsed: Result<ParsedPdf, ExtractError>,
                                             ocr1: OcrOutcome, ocr2: OcrOutcome, normalizePdfText: string -> seq<S>,
                                             id1: Option<string>, id2: Option<string>,
                                             workflow1: WorkflowOutcome, workflow2: WorkflowOutcome)
    ensures IngestOutcome(form, parsed, ocr1, normalizePdfText, id1, workflow1).Ok? ==
            IngestOutcome(form, parsed, ocr2, normalizePdfText, id2, workflow2).Ok?
    ensures IngestOutcome(form, parsed, ocr1, normalizePdfText, id1, workflow1).Ok? <==>
            form.FileField? && IsPdf(form.file) && parsed.Success?
    ensures IngestOutcome(form, parsed, ocr1, normalizePdfText, id1, workflow1).ErrorStatus? ==>
      var e := IngestOutcome(form, parsed, ocr1, normalizePdfText, id1, workflow1);
      && (e.status == 400 <==> form.NoFile? || form.NotAFile? || (form.FileField? && !IsPdf(form.file)))
      && (e.status == 500 <==> form.FormUnreadable? || (form.FileField? && IsPdf(form.file) && parsed.Failure?))
  {
  }

  /** A workflow is reported only when OCR is not needed, the text is not
      blank after trimming, the workflow id is configured, and the call
      returned; a failed call leaves every other field as it is. */
  lemma WorkflowGuard<S>(p: ParsedPdf, ocr: OcrOutcome,
                         normalizePdfText: string -> seq<S>, lessonWorkflowId: Option<string>,
                         workflow: WorkflowOutcome)
    ensures var b := IngestParsed(Success(p), ocr, normalizePdfText, lessonWorkflowId, workflow).body;
      var st := OcrFallback(p.text, ocr);
      && (b.lessonWorkflow.Some? <==> !b.needsOcr && Trim(st.text) != [] && EnvSet(lessonWorkflowId) && workflow.WorkflowCreated?)
      && (b.lessonWorkflow.Some? ==> b.lessonWorkflow.value == workflow.responseId)
      && IngestParsed(Success(p), ocr, normalizePdfText, lessonWorkflowId, WorkflowThrew).body
         == b.(lessonWorkflow := None)
  {
    var st := OcrFallback(p.text, ocr);
    IngestParsedShape(p, ocr, normalizePdfText, lessonWorkflowId, workflow);
    IngestParsedShape(p, ocr, normalizePdfText, lessonWorkflowId, WorkflowThrew);
    GuardReadsTrimmedText(st, lessonWorkflowId);
  }

  /** The success body, field by field. */
  lemma IngestParsedShape<S>(p: ParsedPdf, ocr: OcrOutcome,
                             normalizePdfText: string -> seq<S>, lessonWorkflowId: Option<string>,
                             workflow: WorkflowOutcome)
    ensures var st := OcrFallback(p.text, ocr);
      IngestParsed(Success(p), ocr, normalizePdfText, lessonWorkflowId, workflow)
      == Ok(IngestBody(p.metadata, st.needsOcr, normalizePdfText(st.text), st.ocr, st.message,
              if ShouldTriggerWorkflow(st, lessonWorkflowId) && workflow.WorkflowCreated?
              then Some(workflow.responseId) else None))
  {
  }

  /** The length test in the guard is a test for non-blank text. */
  lemma GuardReadsTrimmedText(st: OcrState, lessonWorkflowId: Option<string>)
    ensures ShouldTriggerWorkflow(st, lessonWorkflowId) <==>
      !st.needsOcr && Trim(st.text) != [] && EnvSet(lessonWorkflowId)
  {
    TrimNonEmptyIffPositiveLength(st.text);
  }

  lemma TrimNonEmptyIffPositiveLength(s: string)
    ensures Utf16Length(Trim(s)) > 0 <==> Trim(s) != []
  {
  }

  /** The route and the upload service, which repeat the same logic, agree
      on every field they share. */
  lemma AgreesWithUploadService<S>(file: UploadFile, parsed: Result<ParsedPdf, ExtractError>, ocr: OcrOutcome,
                                   normalizePdfText: string -> seq<S>, lessonWorkflowId: Option<string>,
                                   workflow: WorkflowOutcome)
    ensures var ingest := IngestOutcome(FileField(file), parsed, ocr, normalizePdfText, lessonWorkflowId, workflow);
      var upload := UploadOutcome(file, parsed, ocr, normalizePdfText);
      && (ingest.Ok? <==> upload.Success?)
      && (ingest.Ok? ==>
          && ingest.body.metadata == upload.value.metadata
          && ingest.body.needsOcr == upload.value.needsOcr
          && ingest.body.sections == upload.value.sections
          && ingest.body.ocr == upload.value.ocr
          && ingest.body.message == upload.value.message)
  {
  }

  /** Text that cleared the threshold without OCR is never blank, so with a
      configured workflow id the workflow is always attempted. */
  lemma EmbeddedTextTriggersWorkflow<S>(p: ParsedPdf, ocr: OcrOutcome,
                                        normalizePdfText: string -> seq<S>, id: string, responseId: string)
    requires !RequiresOcrFallback(p.text) && id != []
    ensures IngestParsed(Success(p), ocr, normalizePdfText, Some(id), WorkflowCreated(responseId))
      .body.lessonWorkflow == Some(responseId)
  {
    var st := OcrFallback(p.text, ocr);
    assert st.text == p.text && !st.needsOcr;
    SufficientTextIsNotBlank(p.text);
    TrimNonEmptyIffPositiveLength(p.text);
  }
}
