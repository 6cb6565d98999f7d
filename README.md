# memorang-chatkit core in Dafny

This project models the deterministic glue of memorang-chatkit, a
PDF-to-quiz application. It covers the parts that sit between the
application's external services: the PDF text extractor, Document AI OCR,
the OpenAI workflow call and the quiz agent.

**Widget state**
- `WidgetStateSchema` is the strict zod schema of the quiz widget's state. It works over a small `Json` datatype whose objects are maps, so strictness is exact key-set equality.
- It also holds the typed `WidgetState` with its encoding and decoding.
- `ParseWidgetState` is `widgetStateSchema.parse`.

**Projection and quiz responses**
- `MapLessonPlanToWidget` is the projection of a lesson plan onto the initial widget state. Questions and choices are renumbered from 1, and the correct choice is resolved by `findIndex` with a fallback to 1. The result then passes through the final `parse`.
- `QuizResponseBuilder` is `buildQuizResponse`: parse the plan, project it, parse the widget state again, and package both.
- `QuizService` is `generateQuizFromText`. The agent's `finalOutput` is an input.

**PDF handling**
- `PdfParser` holds the `isLikelyImageOnlyPdf` heuristic over bytes. It also holds `extractPdfText`, as a class whose field is the module-level `workerConfigured` flag.
- `UploadService` holds `requiresOcrFallback` and `assertPdf`. It also holds the OCR fallback of `processPdfUpload`, written as an imperative method and proved against the function `OcrFallback`.
- `IngestRoute` holds the decision logic of `POST` in the ingest route. Its responses are reduced to a status and a body.

**Helper modules**
- `JsText` models the JavaScript string operations the code relies on: the `\s` class, `trim`, `length` in UTF-16 code units, and `toLowerCase().endsWith(".pdf")`.
- `LessonPlans` is the lesson-plan shape the projector reads.
- `Wrappers` holds `Option`, `Result` and `Outcome`.

**Collaborators as inputs**
- The lesson-plan schema is a function parameter returning `Option`.
- `normalizePdfText` is a function parameter.
- What the pdf-parse module, the parser run, OCR and the workflow call do is given as datatype values (`PdfModule`, `ParserRun`, `OcrOutcome`, `WorkflowOutcome`).
- Whether the worker setup succeeds is the bool `setupSucceeds`.
- Whether `LESSON_WORKFLOW_ID` is set is an `Option<string>`.

**Three behaviours of the code are worth noting:**
- The extractor is fail-soft only around the parser run. A failure to load the pdf-parse module, or a missing `PDFParse` constructor, escapes `extractPdfText` (`ExtractError`). It then fails `processPdfUpload`, and the ingest route turns it into a 500.
- `generateQuizFromText` does not validate the lesson plan itself; the agent SDK has already checked `finalOutput` against the lesson-plan schema, which is the agent's output type. It only projects it, and that projection ends with the widget-state `parse`.
- The silent fallback of an unmatched `correct_choice_id` to 1 is kept. `ResolveCorrectChoiceId` states it.

## Model

| member | source | states |
|---|---|---|
| WidgetStateSchema.ValidChoice | lib/agent/widget-state-schema.ts:3-6 | a choice is an object with exactly the number `id` and the string `label`; its round trip is ChoicesRoundTrip / ChoicesFromJson |
| WidgetStateSchema.ValidChoices | lib/agent/widget-state-schema.ts:11 | an array of exactly five valid choices; QuestionNeedsFiveChoices states the count |
| WidgetStateSchema.ValidQuestion | lib/agent/widget-state-schema.ts:8-15 | a question has exactly its six keys with their types; QuestionRoundTrip / QuestionFromJson |
| WidgetStateSchema.ValidQuestions | lib/agent/widget-state-schema.ts:21 | an array of valid questions; QuestionsRoundTrip / QuestionsFromJson |
| WidgetStateSchema.ValidLesson | lib/agent/widget-state-schema.ts:17-22 | a lesson has exactly title, source, description and questions; LessonRoundTrip / LessonFromJson |
| WidgetStateSchema.ValidRadioOption | lib/agent/widget-state-schema.ts:24-28 | label and value strings, `disabled` an optional boolean, no other key; DisabledMayBeAbsent |
| WidgetStateSchema.ValidOptionList | lib/agent/widget-state-schema.ts:56 | an array of valid radio options; OptionListRoundTrip / OptionListFromJson |
| WidgetStateSchema.ValidAnswerState | lib/agent/widget-state-schema.ts:30-35 | an answer record with a nullable numeric selection; SelectedChoiceNullable and AnswerStateFromJson |
| WidgetStateSchema.ValidAnswers | lib/agent/widget-state-schema.ts:58 | an array of valid answer records; AnswersRoundTrip / AnswersFromJson |
| WidgetStateSchema.ValidProgress | lib/agent/widget-state-schema.ts:37-40 | exactly the numbers index and total; ProgressFromJson |
| WidgetStateSchema.ValidControls | lib/agent/widget-state-schema.ts:42-46 | exactly can_back, can_next and next_label; ControlsFromJson |
| WidgetStateSchema.ValidScore | lib/agent/widget-state-schema.ts:63 | exactly the numbers correct and total; ScoreFromJson |
| WidgetStateSchema.ValidMode | lib/agent/widget-state-schema.ts:50 | one of the three mode strings; ModeIsEnum states it |
| WidgetStateSchema.ValidWidgetState | lib/agent/widget-state-schema.ts:48-64 | the strict widget-state object, `current_answer_value` optional and `current_question` nullable; WidgetStateValidIff and WidgetStateFromJson |
| WidgetStateSchema.ParseWidgetState | lib/agent/widget-state-schema.ts:48-66 | parse succeeds exactly when the value satisfies the strict schema, and a successful parse loses nothing (re-encoding gives the input back) |
| WidgetStateSchema.ParseEncoded | lib/agent/widget-state-schema.ts:48-66 | parsing the encoding of a typed state returns that state unchanged when every question has five choices, and fails otherwise |
| WidgetStateSchema.WidgetStateValidIff | lib/agent/widget-state-schema.ts:48-64 | the encoding of a typed state is valid if and only if every listed question and the current question have exactly five choices |
| WidgetStateSchema.WidgetStateRoundTrip | lib/agent/widget-state-schema.ts:48-64 | decoding the encoding of a well-formed state gives the state back |
| WidgetStateSchema.WidgetStateFromJson | lib/agent/widget-state-schema.ts:48-64 | every valid Json widget state is the encoding of its decoding |
| WidgetStateSchema.ChoicesRoundTrip | lib/agent/widget-state-schema.ts:3-6 | encoded choices are valid, one per choice, and decode back to the choices |
| WidgetStateSchema.ChoicesFromJson | lib/agent/widget-state-schema.ts:3-6 | a list of valid choice objects is the encoding of its decoding |
| WidgetStateSchema.QuestionRoundTrip | lib/agent/widget-state-schema.ts:8-15 | an encoded question is valid if and only if it has five choices, and then decodes back to itself |
| WidgetStateSchema.QuestionFromJson | lib/agent/widget-state-schema.ts:8-15 | a valid question object is the encoding of its decoding |
| WidgetStateSchema.QuestionsRoundTrip | lib/agent/widget-state-schema.ts:21 | an encoded question list is valid if and only if every question has five choices, and then decodes back |
| WidgetStateSchema.QuestionsFromJson | lib/agent/widget-state-schema.ts:21 | a list of valid question objects is the encoding of its decoding |
| WidgetStateSchema.LessonRoundTrip | lib/agent/widget-state-schema.ts:17-22 | an encoded lesson is valid if and only if all its questions have five choices, and then decodes back |
| WidgetStateSchema.LessonFromJson | lib/agent/widget-state-schema.ts:17-22 | a valid lesson object is the encoding of its decoding |
| WidgetStateSchema.OptionListRoundTrip | lib/agent/widget-state-schema.ts:24-28 | encoded radio options are always valid and decode back, `disabled` present or not |
| WidgetStateSchema.OptionListFromJson | lib/agent/widget-state-schema.ts:24-28 | a list of valid radio options, with or without `disabled`, is the encoding of its decoding |
| WidgetStateSchema.AnswersRoundTrip | lib/agent/widget-state-schema.ts:30-35 | encoded answer records are valid and decode back |
| WidgetStateSchema.AnswerStateFromJson | lib/agent/widget-state-schema.ts:30-35 | a valid answer record is the encoding of its decoding, a null `selected_choice_id` included |
| WidgetStateSchema.AnswersFromJson | lib/agent/widget-state-schema.ts:58 | a list of valid answer records is the encoding of its decoding |
| WidgetStateSchema.ProgressFromJson | lib/agent/widget-state-schema.ts:37-40 | a valid progress object is the encoding of its decoding |
| WidgetStateSchema.ControlsFromJson | lib/agent/widget-state-schema.ts:42-46 | a valid controls object is the encoding of its decoding |
| WidgetStateSchema.ScoreFromJson | lib/agent/widget-state-schema.ts:63 | a valid score object is the encoding of its decoding |
| WidgetStateSchema.ModeFromJson | lib/agent/widget-state-schema.ts:50 | a valid mode is the encoding of its decoding |
| WidgetStateSchema.UnknownKeyRejected | lib/agent/widget-state-schema.ts:3-64 | every object schema is strict: any object with a key outside its declared keys is rejected |
| WidgetStateSchema.MissingKeyRejected | lib/agent/widget-state-schema.ts:3-64 | every non-optional key is required: any object missing it is rejected |
| WidgetStateSchema.QuestionNeedsFiveChoices | lib/agent/widget-state-schema.ts:11 | a valid question has exactly five choices |
| WidgetStateSchema.DisabledMayBeAbsent | lib/agent/widget-state-schema.ts:27 | a valid radio option stays valid without `disabled` |
| WidgetStateSchema.AnswerValueMayBeAbsent | lib/agent/widget-state-schema.ts:57 | a valid widget state stays valid without `current_answer_value` |
| WidgetStateSchema.ModeIsEnum | lib/agent/widget-state-schema.ts:50 | `mode` is valid exactly when it is "intro", "question" or "summary" |
| WidgetStateSchema.SelectedChoiceNullable | lib/agent/widget-state-schema.ts:32 | in a valid answer record, `selected_choice_id` may be replaced by any value that is null or a number, and by nothing else |
| WidgetStateSchema.CurrentQuestionNullable | lib/agent/widget-state-schema.ts:55 | in a valid widget state, `current_question` may be replaced by null or by any valid question, and by nothing else |
| WidgetStateSchema.NumbersUnconstrained | lib/agent/widget-state-schema.ts:3-63 | choice, question and answer ids, progress index and total, and score correct and total are not range-checked: any number keeps a valid object valid |
| WidgetStateSchema.CurrentPageUnconstrained | lib/agent/widget-state-schema.ts:51 | any number as `current_page` keeps a valid widget state valid |
| WidgetStateSchema.CorrectChoiceIdUnconstrained | lib/agent/widget-state-schema.ts:14 | any number may stand as `correct_choice_id` in a valid question |
| MapLessonPlanToWidget.BuildQuestionChoices | lib/agent/map-lesson-plan-to-widget.ts:10-16 | choices renumbered from 1 with their labels; stated by ProjectQuestionSpec |
| MapLessonPlanToWidget.ProjectQuestion | lib/agent/map-lesson-plan-to-widget.ts:30-37 | one plan question as the widget shows it; stated by ProjectQuestionSpec |
| MapLessonPlanToWidget.ProjectQuestions | lib/agent/map-lesson-plan-to-widget.ts:30-37 | the questions projected in order; stated by ProjectedLesson |
| MapLessonPlanToWidget.InitialAnswers | lib/agent/map-lesson-plan-to-widget.ts:54-59 | one unattempted record per question; stated by InitialAnswerRecords |
| MapLessonPlanToWidget.BaseState | lib/agent/map-lesson-plan-to-widget.ts:39-69 | the state assembled before the parse; stated by ProjectedLesson, InitialUiFields and BaseStateWellFormedIff |
| MapLessonPlanToWidget.MapLessonPlanToWidgetData | lib/agent/map-lesson-plan-to-widget.ts:27-72 | the projection followed by the schema parse; stated by MapLessonPlanToWidgetDataSpec |
| MapLessonPlanToWidget.FindChoiceIndex | lib/agent/map-lesson-plan-to-widget.ts:21-23 | `findIndex`: the first position whose id matches, or -1 exactly when no choice matches |
| MapLessonPlanToWidget.ResolveCorrectChoiceId | lib/agent/map-lesson-plan-to-widget.ts:18-25 | p+1 for the first matching position p, 1 when nothing matches; always within 1..k when there are k ≥ 1 choices |
| MapLessonPlanToWidget.MatchingChoiceResolvesToPosition | lib/agent/map-lesson-plan-to-widget.ts:18-25 | with choices c1..c5 and c3 correct, the projected id is 3 |
| MapLessonPlanToWidget.DuplicateIdResolvesToFirst | lib/agent/map-lesson-plan-to-widget.ts:21-24 | once some choice carries the correct id, appending any further choices (repeats of that id included) leaves the resolved id unchanged: the first occurrence wins |
| MapLessonPlanToWidget.ProjectQuestionSpec | lib/agent/map-lesson-plan-to-widget.ts:30-37 | question i gets id i+1, copied text, hint and explanation, choices renumbered 1..k with labels in order, and the resolved correct id |
| MapLessonPlanToWidget.BaseStateWellFormedIff | lib/agent/map-lesson-plan-to-widget.ts:39-69 | the assembled state satisfies the schema if and only if every plan question has five choices |
| MapLessonPlanToWidget.MapLessonPlanToWidgetDataSpec | lib/agent/map-lesson-plan-to-widget.ts:27-72 | the final parse succeeds exactly when every question has five choices and then returns the assembled state unchanged; otherwise it fails with a schema violation |
| MapLessonPlanToWidget.ProjectedLesson | lib/agent/map-lesson-plan-to-widget.ts:30-45 | lesson title, source and description copied; as many questions as the plan, each projected as ProjectQuestionSpec states |
| MapLessonPlanToWidget.InitialAnswerRecords | lib/agent/map-lesson-plan-to-widget.ts:54-59 | one answer per question in order: id i+1, nothing selected, not correct, not attempted |
| MapLessonPlanToWidget.InitialUiFields | lib/agent/map-lesson-plan-to-widget.ts:46-68 | the fixed initial fields: intro mode, page 0, progress and score {0, n}, controls {false, true, "Start"}, labels "Quiz" and "PDF Generated", no current question, no options, answer value "", all flags false |
| MapLessonPlanToWidget.CorrectChoiceWithinChoices | lib/agent/map-lesson-plan-to-widget.ts:30-37 | every projected `correct_choice_id` lies in 1..5 |
| QuizResponseBuilder.BuildQuizResponse | lib/agent/build-quiz-response.ts:15-27 | a rejected raw plan fails; otherwise success exactly when every question has five choices, returning the parsed plan and widget "step_by_step_quiz" carrying the projected state |
| QuizResponseBuilder.ReparseIsIdentity | lib/agent/build-quiz-response.ts:18 | parsing an already parsed widget state returns it unchanged |
| QuizResponseBuilder.WidgetDataIsProjection | lib/agent/build-quiz-response.ts:16-24 | on success the widget data is `mapLessonPlanToWidgetData` of the parsed plan |
| QuizService.GenerateQuizFromText | lib/agent/quiz-service.ts:15-30 | no agent output fails with the no-output error; otherwise the agent's plan and widget "step_by_step_quiz" carrying its projection, failing only as the projection's parse does |
| QuizService.AgreesWithBuildQuizResponse | lib/agent/quiz-service.ts:23-29 | given the plan the lesson-plan schema accepted, the agent path and `buildQuizResponse` return the same result |
| JsText.Compact | lib/pdf/upload-service.ts:30 | removing `\s` characters leaves no whitespace, never lengthens, and leaves nothing exactly when the text is all whitespace |
| JsText.CompactAppend | lib/pdf/upload-service.ts:30 | whitespace removal distributes over concatenation |
| JsText.Utf16Length | lib/pdf/upload-service.ts:31-32 | the JavaScript length lies between the character count and twice it |
| JsText.Utf16LengthOfBmp | lib/pdf/upload-service.ts:31-32 | on Basic Multilingual Plane text the JavaScript length is the character count |
| JsText.LeadingBlank | lib/pdf/pdf-parser.ts:123 | `trim` drops exactly the leading whitespace: all dropped characters are whitespace, the first kept one is not |
| JsText.TrailingBlank | lib/pdf/pdf-parser.ts:123 | `trim` drops exactly the trailing whitespace: all dropped characters are whitespace, the last kept one is not |
| JsText.Trim | lib/pdf/pdf-parser.ts:123 | a trimmed string neither starts nor ends with whitespace |
| JsText.TrimIsSlice | lib/pdf/pdf-parser.ts:123 | `trim` keeps the single slice between the leading blanks and the trailing blanks of the rest |
| JsText.CompactOfTrim | lib/pdf/pdf-parser.ts:123 | trimming removes only whitespace: with whitespace removed, the string is the same before and after |
| JsText.TrimEmptyIffBlank | app/api/ingest/route.ts:114 | the trimmed text is empty exactly when the text is all whitespace |
| JsText.PdfSuffixIgnoresCase | lib/pdf/upload-service.ts:38-39 | the lower-cased name ends with ".pdf" exactly when its last four characters are a dot and p, d, f in either case |
| UploadService.RequiresOcrFallback | lib/pdf/upload-service.ts:27-33 | OCR is needed exactly when the whitespace-free text is shorter than 25 UTF-16 code units; the ingest route's identical copy (route.ts lines 33-39) is modelled by this same function |
| UploadService.OcrThresholdOnBmpText | lib/pdf/upload-service.ts:29-32 | on BMP text, OCR is needed exactly when fewer than 25 non-whitespace characters remain |
| UploadService.OcrThresholdBoundary | lib/pdf/upload-service.ts:27-33 | 24 letters need OCR, 25 do not, whitespace-only and empty text always do |
| UploadService.SufficientTextIsNotBlank | lib/pdf/upload-service.ts:29-32 | text that does not need OCR is not blank after trimming |
| UploadService.AssertPdf | lib/pdf/upload-service.ts:35-44 | passes exactly when the type is "application/pdf" or the name ends in ".pdf" in any letter case; otherwise fails with "Only PDF uploads are supported." |
| UploadService.OcrFallbackBranches | lib/pdf/upload-service.ts:52-84 | the state in each branch: sufficient text untouched with no message or summary; non-empty OCR text adopted with success; empty OCR text kept as needing OCR; OCR exception recorded as {documentai, false, 0} |
| UploadService.OcrFallbackInvariants | lib/pdf/upload-service.ts:52-84 | summary present exactly when OCR was needed, success exactly when OCR is no longer needed, a message with every summary, text changed only to OCR's non-empty text, the "fallback required" message always replaced |
| UploadService.WhitespaceOcrTextAccepted | lib/pdf/upload-service.ts:68-71 | any non-empty OCR text made only of whitespace is adopted as the text with success, clears the need for OCR, and trims to nothing |
| UploadService.IsPdf | lib/pdf/upload-service.ts:36-39 | the PDF test of `assertPdf`; stated by AssertPdf |
| UploadService.OcrFallback | lib/pdf/upload-service.ts:52-84 | the state after the OCR branch; stated by OcrFallbackBranches and OcrFallbackInvariants |
| UploadService.UploadOutcome | lib/pdf/upload-service.ts:46-96 | the result of `processPdfUpload` for given collaborator outcomes; stated by UploadSectionsFromFinalText and UploadFailsOnlyBeforeOcr |
| UploadService.RunOcrFallback | lib/pdf/upload-service.ts:52-84 | the step-by-step updates of `text`, `needsOcr`, `message` and `ocrSummary` end in the state `OcrFallback` gives |
| UploadService.ProcessPdfUpload | lib/pdf/upload-service.ts:46-96 | the result is the upload outcome of the extraction's result; the extractor is reached only for a PDF, and its worker flag evolves as extraction says |
| UploadService.UploadSectionsFromFinalText | lib/pdf/upload-service.ts:86-95 | on success the metadata is the extractor's, the text is the fallback's final text, and the sections are `normalizePdfText` of it |
| UploadService.UploadFailsOnlyBeforeOcr | lib/pdf/upload-service.ts:46-84 | the upload fails exactly for a non-PDF or an extractor exception; OCR throwing never makes it fail |
| IngestRoute.ShouldTriggerWorkflow | app/api/ingest/route.ts:114 | the workflow guard; stated by GuardReadsTrimmedText |
| IngestRoute.IngestParsed | app/api/ingest/route.ts:65-143 | the response for an accepted PDF; stated by WorkflowGuard and AgreesWithUploadService |
| IngestRoute.IngestOutcome | app/api/ingest/route.ts:41-152 | the whole POST response; stated by StatusIndependentOfOcrAndWorkflow |
| IngestRoute.Post | app/api/ingest/route.ts:41-152 | the response is the ingest outcome of the form field and the extraction; the extractor is reached, and its worker flag changed, only for a PDF file |
| IngestRoute.IngestFile | app/api/ingest/route.ts:65-143 | for an accepted PDF: 500 when extraction throws, otherwise the body built from the OCR fallback, the sections and the workflow step |
| IngestRoute.TriggerLessonWorkflow | app/api/ingest/route.ts:112-132 | the workflow id is reported exactly when the guard holds and the call returned |
| IngestRoute.StatusIndependentOfOcrAndWorkflow | app/api/ingest/route.ts:41-152 | success exactly for a PDF file whose extraction did not throw, whatever OCR and the workflow do; 400 exactly for a missing, non-file or non-PDF field; 500 exactly for an unreadable form or an extraction exception |
| IngestRoute.WorkflowGuard | app/api/ingest/route.ts:112-141 | a workflow is reported exactly when OCR is not needed, the trimmed text is non-empty, the id is set and the call returned; a failed call changes nothing but `lessonWorkflow` |
| IngestRoute.GuardReadsTrimmedText | app/api/ingest/route.ts:114 | the guard's length test is a non-blank test on the final text |
| IngestRoute.AgreesWithUploadService | app/api/ingest/route.ts:71-107 | the route and `processPdfUpload` agree on success and on metadata, `needsOcr`, sections, OCR summary and message |
| IngestRoute.EmbeddedTextTriggersWorkflow | app/api/ingest/route.ts:72-124 | embedded text that needs no OCR always triggers a configured workflow |
| PdfParser.Sample | lib/pdf/pdf-parser.ts:150-157 | the first min(length, 32768) bytes of the buffer, a prefix of it |
| PdfParser.TotalLength | lib/pdf/pdf-parser.ts:159-162 | the summed match lengths; stated by MatchedLengthIsLongRunCount |
| PdfParser.HasTextMarkers | lib/pdf/pdf-parser.ts:165-167 | some text marker occurs in the sample; MarkerMeansText |
| PdfParser.IsLikelyImageOnlyPdf | lib/pdf/pdf-parser.ts:149-170 | the image-only heuristic; stated by ImageOnlyClassification and BytesPastSampleIgnored |
| PdfParser.ExtractOutcome | lib/pdf/pdf-parser.ts:73-147 | the extraction result for given collaborator outcomes; stated by ExtractFailure, ParserRunResult, ExtractedTextIsTrimmed and ImageOnlySkipsParser |
| PdfParser.ConfiguredAfter | lib/pdf/pdf-parser.ts:16-34 | the worker flag after an extraction; stated by ConfigurationIsSticky |
| PdfParser.Latin1 | lib/pdf/pdf-parser.ts:157 | Latin-1 decoding yields one character per byte |
| PdfParser.AlnumRunLength | lib/pdf/pdf-parser.ts:158 | the leading run of `[A-Za-z0-9]`: all its characters are in the class, and the next one is not |
| PdfParser.AsciiMatches | lib/pdf/pdf-parser.ts:158 | every match is at least three characters of `[A-Za-z0-9]` |
| PdfParser.MatchedLengthIsLongRunCount | lib/pdf/pdf-parser.ts:158-162 | the summed match lengths equal the number of positions inside maximal runs of three or more class characters |
| PdfParser.ImageOnlyClassification | lib/pdf/pdf-parser.ts:149-170 | an empty buffer is image-only; otherwise image-only exactly when 1000·count < 15·sampleLength and no text marker occurs |
| PdfParser.MarkerMeansText | lib/pdf/pdf-parser.ts:165-169 | a text marker in the sample rules out image-only |
| PdfParser.BytesPastSampleIgnored | lib/pdf/pdf-parser.ts:150-157 | bytes after the first 32 KiB never change the classification |
| PdfParser.NoLongRunIsImageOnly | lib/pdf/pdf-parser.ts:157-169 | a non-empty sample with no run of three class characters and no marker is image-only |
| PdfParser.MetadataOf | lib/pdf/pdf-parser.ts:110-120 | with document info, the whole metadata record: title, author, creator, producer, subject, keywords, creation and modification dates copied, page count from the total; without it every information field is absent |
| PdfParser.PdfTextExtractor.constructor | lib/pdf/pdf-parser.ts:9 | the worker starts unconfigured |
| PdfParser.PdfTextExtractor.EnsureWorkerConfigured | lib/pdf/pdf-parser.ts:16-34 | configures once; the flag is set exactly when it was set or setup succeeds, and a failure reports "Failed to configure PDF worker" |
| PdfParser.PdfTextExtractor.ExtractPdfText | lib/pdf/pdf-parser.ts:73-147 | the result and the new worker flag are those `ExtractOutcome` and `ConfiguredAfter` give |
| PdfParser.ExtractFailure | lib/pdf/pdf-parser.ts:73-90 | extraction fails exactly when the buffer is not image-only and the module failed to load (the loader's error) or lacks `PDFParse` ("PDFParse constructor unavailable") |
| PdfParser.ParserRunResult | lib/pdf/pdf-parser.ts:92-124 | with the module, its constructor, a configured worker and a returned parser run, the result succeeds with the parser's text minus its blank prefix and suffix, losing no other character, and the metadata built from its info and total |
| PdfParser.ExtractedTextIsTrimmed | lib/pdf/pdf-parser.ts:122-136 | successful text is trimmed; the image-only shortcut, a failed worker setup and a parser exception all give {text "", pageCount 0} |
| PdfParser.ImageOnlySkipsParser | lib/pdf/pdf-parser.ts:76-83 | an image-only buffer gives the empty result without touching the module, the worker or the parser |
| PdfParser.ConfigurationIsSticky | lib/pdf/pdf-parser.ts:16-34 | once configured, the worker stays configured and setup is not retried |

## Left out

- HTTP plumbing is not modelled: `NextRequest` and `NextResponse`, reading `formData`, and JSON serialisation. A response is a status with an error string, or the body. The upload and quiz routes (app/api/uploads/route.ts, app/api/quiz/route.ts) are not part of this model.
- lib/pdf/pdf-runtime.ts (module loading, worker path) is not part of this model. Its outcomes are the inputs `PdfModule` and `setupSucceeds`.
- lib/agent/quiz-agent.ts (agent configuration) is not part of this model. The agent's output is an input.
- lib/agent/agent-schemas.ts is not part of this model. The lesson-plan schema is the parameter `lessonPlanSchema`, and `LessonPlans` has only the fields the projector reads.
- lib/pdf/pdf-normalizer.ts is not part of this model. `normalizePdfText` is an uninterpreted function parameter over an abstract section type.
- The pdf-parse calls, Document AI OCR and `openai.responses.create` are outside the model. Their results are inputs.
- The workflow request itself (model id and input text) is not modelled, only whether it returned an id.
- `file.arrayBuffer()` is taken to succeed.
- Logging, `async`/`await` and the parser's `destroy` in `finally` are left out, because none of them can change a result.
- The details of zod's error reports are left out. A schema violation is the single value `SchemaViolation`, and a lesson-plan rejection is `InvalidLessonPlan`.
- `z.number()` is modelled as an integer. The projector only produces integers.
- `typeof file.name === "string"` always holds: a file's name is a string.
- Dates are reduced to an integer timestamp.
- PdfParser.IsLikelyImageOnlyPdf: the floating-point test `count / sampleLength < 0.015` is replaced by `1000 * count < 15 * sampleLength`. The two agree for every sample length up to 32768, which is every sample the function sees.
- JsText.ToLowerAscii: folds only ASCII letters. This decides `.endsWith(".pdf")` exactly, because a non-ASCII character never lower-cases to '.', 'p', 'd' or 'f'.
- Determinism of `buildQuizResponse` needs no statement: every modelled operation is a function of its inputs.
