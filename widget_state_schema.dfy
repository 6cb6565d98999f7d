/** The strict widget-state schema of lib/agent/widget-state-schema.ts.

    A zod schema validates an untyped JavaScript value; here that value is a
    `Json` tree whose objects are maps from keys to values. Every object
    schema is a `z.strictObject`, so validity fixes the key set exactly:
    each required key present, no key outside the declared ones. The typed
    `WidgetState` (zod's inferred type) is encoded into `Json` and decoded
    back; `ParseWidgetState` is `widgetStateSchema.parse`. */
module WidgetStateSchema {
  import opened Wrappers

  /** A JSON value. Numbers are integers: the projector only produces integers. */
  datatype Json =
    | JNull
    | JBool(b: bool)
    | JNum(n: int)
    | JStr(s: string)
    | JArr(items: seq<Json>)
    | JObj(fields: map<string, Json>)

  // ---------------------------------------------------------------------------
  // Validity predicates, one per sub-schema
  // ---------------------------------------------------------------------------

  /** `z.strictObject`: an object whose keys include every required key and
      nothing outside the required and optional keys. */
  predicate StrictKeys(j: Json, required: set<string>, optional: set<string>)
  {
    j.JObj? && required <= j.fields.Keys && j.fields.Keys <= required + optional
  }

  predicate IsNum(j: Json) { j.JNum? }
  predicate IsStr(j: Json) { j.JStr? }
  predicate IsBool(j: Json) { j.JBool? }

  const ChoiceKeys: set<string> := {"id", "label"}
  const QuestionKeys: set<string> :=
    {"id", "question", "choices", "hint", "explanation", "correct_choice_id"}
  const LessonKeys: set<string> := {"title", "source", "description", "questions"}
  const RadioOptionRequired: set<string> := {"label", "value"}
  const RadioOptionOptional: set<string> := {"disabled"}
  const AnswerStateKeys: set<string> :=
    {"question_id", "selected_choice_id", "is_correct", "attempted"}
  const ProgressKeys: set<string> := {"index", "total"}
  const ControlsKeys: set<string> := {"can_back", "can_next", "next_label"}
  const ScoreKeys: set<string> := {"correct", "total"}
  const WidgetStateRequired: set<string> :=
    {"lesson", "mode", "current_page", "progress", "header_label", "badge_label",
     "current_question", "option_list", "answers", "view_locked", "show_hint",
     "show_explanation", "controls", "score"}
  const WidgetStateOptional: set<string> := {"current_answer_value"}

  /** The number of choices every question must have (`.length(5)`). */
  const ChoiceCount: nat := 5

  predicate ValidChoice(j: Json)
  {
    && StrictKeys(j, ChoiceKeys, {})
    && IsNum(j.fields["id"])
    && IsStr(j.fields["label"])
  }

  predicate ValidChoices(j: Json)
  {
    && j.JArr?
    && |j.items| == ChoiceCount
    && forall i :: 0 <= i < |j.items| ==> ValidChoice(j.items[i])
  }

  predicate ValidQuestion(j: Json)
  {
    && StrictKeys(j, QuestionKeys, {})
    && IsNum(j.fields["id"])
    && IsStr(j.fields["question"])
    && ValidChoices(j.fields["choices"])
    && IsStr(j.fields["hint"])
    && IsStr(j.fields["explanation"])
    && IsNum(j.fields["correct_choice_id"])
  }

  predicate ValidQuestions(j: Json)
  {
    j.JArr? && forall i :: 0 <= i < |j.items| ==> ValidQuestion(j.items[i])
  }

  predicate ValidLesson(j: Json)
  {
    && StrictKeys(j, LessonKeys, {})
    && IsStr(j.fields["title"])
    && IsStr(j.fields["source"])
    && IsStr(j.fields["description"])
    && ValidQuestions(j.fields["questions"])
  }

  predicate ValidRadioOption(j: Json)
  {
    && StrictKeys(j, RadioOptionRequired, RadioOptionOptional)
    && IsStr(j.fields["label"])
    && IsStr(j.fields["value"])
    && ("disabled" in j.fields ==> IsBool(j.fields["disabled"]))
  }

  predicate ValidOptionList(j: Json)
  {
    j.JArr? && forall i :: 0 <= i < |j.items| ==> ValidRadioOption(j.items[i])
  }

  predicate ValidAnswerState(j: Json)
  {
    && StrictKeys(j, AnswerStateKeys, {})
    && IsNum(j.fields["question_id"])
    && (j.fields["selected_choice_id"].JNull? || IsNum(j.fields["selected_choice_id"]))
    && IsBool(j.fields["is_correct"])
    && IsBool(j.fields["attempted"])
  }

  predicate ValidAnswers(j: Json)
  {
    j.JArr? && forall i :: 0 <= i < |j.items| ==> ValidAnswerState(j.items[i])
  }

  predicate ValidProgress(j: Json)
  {
    StrictKeys(j, ProgressKeys, {}) && IsNum(j.fields["index"]) && IsNum(j.fields["total"])
  }

  predicate ValidControls(j: Json)
  {
    && StrictKeys(j, ControlsKeys, {})
    && IsBool(j.fields["can_back"])
    && IsBool(j.fields["can_next"])
    && IsStr(j.fields["next_label"])
  }

  predicate ValidScore(j: Json)
  {
    StrictKeys(j, ScoreKeys, {}) && IsNum(j.fields["correct"]) && IsNum(j.fields["total"])
  }

  /** `z.enum(["intro", "question", "summary"])`. */
  predicate ValidMode(j: Json)
  {
    j.JStr? && (j.s == "intro" || j.s == "question" || j.s == "summary")
  }

  predicate ValidWidgetState(j: Json)
  {
    && StrictKeys(j, WidgetStateRequired, WidgetStateOptional)
    && ValidLesson(j.fields["lesson"])
    && ValidMode(j.fields["mode"])
    && IsNum(j.fields["current_page"])
    && ValidProgress(j.fields["progress"])
    && IsStr(j.fields["header_label"])
    && IsStr(j.fields["badge_label"])
    && (j.fields["current_question"].JNull? || ValidQuestion(j.fields["current_question"]))
    && ValidOptionList(j.fields["option_list"])
    && ("current_answer_value" in j.fields ==> IsStr(j.fields["current_answer_value"]))
    && ValidAnswers(j.fields["answers"])
    && IsBool(j.fields["view_locked"])
    && IsBool(j.fields["show_hint"])
    && IsBool(j.fields["show_explanation"])
    && ValidControls(j.fields["controls"])
    && ValidScore(j.fields["score"])
  }

  // ---------------------------------------------------------------------------
  // The inferred TypeScript type `WidgetState`
  // ---------------------------------------------------------------------------

  datatype Choice = Choice(id: int, labelText: string)

  datatype Question = Question(
    id: int,
    question: string,
    choices: seq<Choice>,
    hint: string,
    explanation: string,
    correctChoiceId: int)

  datatype Lesson = Lesson(title: string, source: string, description: string, questions: seq<Question>)

  datatype RadioOption = RadioOption(labelText: string, value: string, disabled: Option<bool>)

  datatype AnswerState = AnswerState(
    questionId: int,
    selectedChoiceId: Option<int>,
    isCorrect: bool,
    attempted: bool)

  datatype Progress = Progress(index: int, total: int)

  datatype Controls = Controls(canBack: bool, canNext: bool, nextLabel: string)

  datatype Score = Score(correct: int, total: int)

  datatype Mode = ModeIntro | ModeQuestion | ModeSummary

  /** `current_question` is nullable (`None` is `null`); `current_answer_value`
      is optional (`None` is an absent key). */
  datatype WidgetState = WidgetState(
    lesson: Lesson,
    mode: Mode,
    currentPage: int,
    progress: Progress,
    headerLabel: string,
    badgeLabel: string,
    currentQuestion: Option<Question>,
    optionList: seq<RadioOption>,
    currentAnswerValue: Option<string>,
    answers: seq<AnswerState>,
    viewLocked: bool,
    showHint: bool,
    showExplanation: bool,
    controls: Controls,
    score: Score)

  /** The one thing the schema checks that the type does not: every
      question, listed or current, has exactly five choices. */
  predicate WellFormedQuestion(q: Question)
  {
    |q.choices| == ChoiceCount
  }

  predicate WellFormed(w: WidgetState)
  {
    && (forall i :: 0 <= i < |w.lesson.questions| ==> WellFormedQuestion(w.lesson.questions[i]))
    && (w.currentQuestion.Some? ==> WellFormedQuestion(w.currentQuestion.value))
  }

  // ---------------------------------------------------------------------------
  // Encoding as Json
  // ---------------------------------------------------------------------------

  function EncodeChoice(c: Choice): Json
  {
    JObj(map["id" := JNum(c.id), "label" := JStr(c.labelText)])
  }

  function EncodeChoices(cs: seq<Choice>): Json
  {
    JArr(seq(|cs|, i requires 0 <= i < |cs| => EncodeChoice(cs[i])))
  }

  function EncodeQuestion(q: Question): Json
  {
    JObj(map[
      "id" := JNum(q.id),
      "question" := JStr(q.question),
      "choices" := EncodeChoices(q.choices),
      "hint" := JStr(q.hint),
      "explanation" := JStr(q.explanation),
      "correct_choice_id" := JNum(q.correctChoiceId)])
  }

  function EncodeQuestions(qs: seq<Question>): Json
  {
    JArr(seq(|qs|, i requires 0 <= i < |qs| => EncodeQuestion(qs[i])))
  }

  function EncodeLesson(l: Lesson): Json
  {
    JObj(map[
      "title" := JStr(l.title),
      "source" := JStr(l.source),
      "description" := JStr(l.description),
      "questions" := EncodeQuestions(l.questions)])
  }

  function EncodeRadioOption(o: RadioOption): Json
  {
    var base := map["label" := JStr(o.labelText), "value" := JStr(o.value)];
    JObj(if o.disabled.Some? then base["disabled" := JBool(o.disabled.value)] else base)
  }

  function EncodeOptionList(os: seq<RadioOption>): Json
  {
    JArr(seq(|os|, i requires 0 <= i < |os| => EncodeRadioOption(os[i])))
  }

  function EncodeAnswerState(a: AnswerState): Json
  {
    JObj(map[
      "question_id" := JNum(a.questionId),
      "selected_choice_id" := (if a.selectedChoiceId.Some? then JNum(a.selectedChoiceId.value) else JNull),
      "is_correct" := JBool(a.isCorrect),
      "attempted" := JBool(a.attempted)])
  }

  function EncodeAnswers(answers: seq<AnswerState>): Json
  {
    JArr(seq(|answers|, i requires 0 <= i < |answers| => EncodeAnswerState(answers[i])))
  }

  function EncodeMode(m: Mode): Json
  {
    match m
    case ModeIntro => JStr("intro")
    case ModeQuestion => JStr("question")
    case ModeSummary => JStr("summary")
  }

  function EncodeProgress(p: Progress): Json
  {
    JObj(map["index" := JNum(p.index), "total" := JNum(p.total)])
  }

  function EncodeControls(c: Controls): Json
  {
    JObj(map["can_back" := JBool(c.canBack), "can_next" := JBool(c.canNext), "next_label" := JStr(c.nextLabel)])
  }

  function EncodeScore(s: Score): Json
  {
    JObj(map["correct" := JNum(s.correct), "total" := JNum(s.total)])
  }

  /** The widget-state object without its optional key. */
  function RequiredObject(
    lesson: Json, mode: Json, currentPage: Json, progress: Json,
    headerLabel: Json, badgeLabel: Json, currentQuestion: Json, optionList: Json,
    answers: Json, viewLocked: Json, showHint: Json,
    showExplanation: Json, controls: Json, score: Json): map<string, Json>
  {
    map k | k in WidgetStateRequired ::
      if k == "lesson" then lesson
      else if k == "mode" then mode
      else if k == "current_page" then currentPage
      else if k == "progress" then progress
      else if k == "header_label" then headerLabel
      else if k == "badge_label" then badgeLabel
      else if k == "current_question" then currentQuestion
      else if k == "option_list" then optionList
      else if k == "answers" then answers
      else if k == "view_locked" then viewLocked
      else if k == "show_hint" then showHint
      else if k == "show_explanation" then showExplanation
      else if k == "controls" then controls
      else score
  }

  /** The widget-state object with the given field values; the optional
      `current_answer_value` key is present only when a value is given. */
  function WidgetObject(
    lesson: Json, mode: Json, currentPage: Json, progress: Json,
    headerLabel: Json, badgeLabel: Json, currentQuestion: Json, optionList: Json,
    currentAnswerValue: Option<Json>, answers: Json, viewLocked: Json, showHint: Json,
    showExplanation: Json, controls: Json, score: Json): map<string, Json>
  {
    var required := RequiredObject(lesson, mode, currentPage, progress, headerLabel, badgeLabel,
      currentQuestion, optionList, answers, viewLocked, showHint, showExplanation, controls, score);
    if currentAnswerValue.Some? then required["current_answer_value" := currentAnswerValue.value] else required
  }

  /** The plain JavaScript object a `WidgetState` value is. */
  function EncodeWidgetState(w: WidgetState): Json
  {
    JObj(WidgetObject(
      EncodeLesson(w.lesson),
      EncodeMode(w.mode),
      JNum(w.currentPage),
      EncodeProgress(w.progress),
      JStr(w.headerLabel),
      JStr(w.badgeLabel),
      if w.currentQuestion.Some? then EncodeQuestion(w.currentQuestion.value) else JNull,
      EncodeOptionList(w.optionList),
      if w.currentAnswerValue.Some? then Some(JStr(w.currentAnswerValue.value)) else None,
      EncodeAnswers(w.answers),
      JBool(w.viewLocked),
      JBool(w.showHint),
      JBool(w.showExplanation),
      EncodeControls(w.controls),
      EncodeScore(w.score)))
  }

  // ---------------------------------------------------------------------------
  // Decoding a valid Json value
  // ---------------------------------------------------------------------------

  function DecodeChoice(j: Json): Choice
    requires ValidChoice(j)
  {
    Choice(j.fields["id"].n, j.fields["label"].s)
  }

  function DecodeChoices(items: seq<Json>): seq<Choice>
    requires forall i :: 0 <= i < |items| ==> ValidChoice(items[i])
  {
    seq(|items|, i requires 0 <= i < |items| => DecodeChoice(items[i]))
  }

  function DecodeQuestion(j: Json): Question
    requires ValidQuestion(j)
  {
    Question(
      j.fields["id"].n,
      j.fields["question"].s,
      DecodeChoices(j.fields["choices"].items),
      j.fields["hint"].s,
      j.fields["explanation"].s,
      j.fields["correct_choice_id"].n)
  }

  function DecodeQuestions(items: seq<Json>): seq<Question>
    requires forall i :: 0 <= i < |items| ==> ValidQuestion(items[i])
  {
    seq(|items|, i requires 0 <= i < |items| => DecodeQuestion(items[i]))
  }

  function DecodeLesson(j: Json): Lesson
    requires ValidLesson(j)
  {
    Lesson(
      j.fields["title"].s,
      j.fields["source"].s,
      j.fields["description"].s,
      DecodeQuestions(j.fields["questions"].items))
  }

  function DecodeRadioOption(j: Json): RadioOption
    requires ValidRadioOption(j)
  {
    RadioOption(
      j.fields["label"].s,
      j.fields["value"].s,
      if "disabled" in j.fields then Some(j.fields["disabled"].b) else None)
  }

  function DecodeOptionList(items: seq<Json>): seq<RadioOption>
    requires forall i :: 0 <= i < |items| ==> ValidRadioOption(items[i])
  {
    seq(|items|, i requires 0 <= i < |items| => DecodeRadioOption(items[i]))
  }

  function DecodeAnswerState(j: Json): AnswerState
    requires ValidAnswerState(j)
  {
    var sel := j.fields["selected_choice_id"];
    AnswerState(
      j.fields["question_id"].n,
      if sel.JNum? then Some(sel.n) else None,
      j.fields["is_correct"].b,
      j.fields["attempted"].b)
  }

  function DecodeAnswers(items: seq<Json>): seq<AnswerState>
    requires forall i :: 0 <= i < |items| ==> ValidAnswerState(items[i])
  {
    seq(|items|, i requires 0 <= i < |items| => DecodeAnswerState(items[i]))
  }

  function DecodeMode(j: Json): Mode
    requires ValidMode(j)
  {
    if j.s == "intro" then ModeIntro
    else if j.s == "question" then ModeQuestion
    else ModeSummary
  }

  function DecodeProgress(j: Json): Progress
    requires ValidProgress(j)
  {
    Progress(j.fields["index"].n, j.fields["total"].n)
  }

  function DecodeControls(j: Json): Controls
    requires ValidControls(j)
  {
    Controls(j.fields["can_back"].b, j.fields["can_next"].b, j.fields["next_label"].s)
  }

  function DecodeScore(j: Json): Score
    requires ValidScore(j)
  {
    Score(j.fields["correct"].n, j.fields["total"].n)
  }

  function DecodeWidgetState(j: Json): WidgetState
    requires ValidWidgetState(j)
  {
    var f := j.fields;
    WidgetState(
      DecodeLesson(f["lesson"]),
      DecodeMode(f["mode"]),
      f["current_page"].n,
      DecodeProgress(f["progress"]),
      f["header_label"].s,
      f["badge_label"].s,
      if f["current_question"].JNull? then None else Some(DecodeQuestion(f["current_question"])),
      DecodeOptionList(f["option_list"].items),
      if "current_answer_value" in f then Some(f["current_answer_value"].s) else None,
      DecodeAnswers(f["answers"].items),
      f["view_locked"].b,
      f["show_hint"].b,
      f["show_explanation"].b,
      DecodeControls(f["controls"]),
      DecodeScore(f["score"]))
  }

  // ---------------------------------------------------------------------------
  // Encoding and decoding are inverse on valid values
  // ---------------------------------------------------------------------------

  lemma ChoicesRoundTrip(cs: seq<Choice>)
    ensures |EncodeChoices(cs).items| == |cs|
    ensures forall i :: 0 <= i < |cs| ==> ValidChoice(EncodeChoices(cs).items[i])
    ensures DecodeChoices(EncodeChoices(cs).items) == cs
  {
  }

  lemma ChoicesFromJson(items: seq<Json>)
    requires forall i :: 0 <= i < |items| ==> ValidChoice(items[i])
    ensures EncodeChoices(DecodeChoices(items)) == JArr(items)
  {
    forall i | 0 <= i < |items|
      ensures EncodeChoice(DecodeChoice(items[i])) == items[i]
    {
      assert items[i].fields.Keys == ChoiceKeys;
    }
  }

  lemma QuestionRoundTrip(q: Question)
    ensures ValidQuestion(EncodeQuestion(q)) <==> WellFormedQuestion(q)
    ensures WellFormedQuestion(q) ==> DecodeQuestion(EncodeQuestion(q)) == q
  {
    ChoicesRoundTrip(q.choices);
  }

  lemma QuestionFromJson(j: Json)
    requires ValidQuestion(j)
    ensures EncodeQuestion(DecodeQuestion(j)) == j
  {
    ChoicesFromJson(j.fields["choices"].items);
    assert j.fields.Keys == QuestionKeys;
  }

  predicate AllWellFormed(qs: seq<Question>)
  {
    forall i :: 0 <= i < |qs| ==> WellFormedQuestion(qs[i])
  }

  lemma QuestionsRoundTrip(qs: seq<Question>)
    ensures |EncodeQuestions(qs).items| == |qs|
    ensures ValidQuestions(EncodeQuestions(qs)) <==> AllWellFormed(qs)
    ensures AllWellFormed(qs) ==> DecodeQuestions(EncodeQuestions(qs).items) == qs
  {
    var items := EncodeQuestions(qs).items;
    forall i | 0 <= i < |qs|
      ensures ValidQuestion(items[i]) <==> WellFormedQuestion(qs[i])
      ensures WellFormedQuestion(qs[i]) ==> DecodeQuestion(items[i]) == qs[i]
    {
      QuestionRoundTrip(qs[i]);
    }
  }

  lemma QuestionsFromJson(items: seq<Json>)
    requires forall i :: 0 <= i < |items| ==> ValidQuestion(items[i])
    ensures EncodeQuestions(DecodeQuestions(items)) == JArr(items)
  {
    forall i | 0 <= i < |items|
      ensures EncodeQuestion(DecodeQuestion(items[i])) == items[i]
    {
      QuestionFromJson(items[i]);
    }
  }

  lemma LessonRoundTrip(l: Lesson)
    ensures ValidLesson(EncodeLesson(l)) <==> AllWellFormed(l.questions)
    ensures AllWellFormed(l.questions) ==> DecodeLesson(EncodeLesson(l)) == l
  {
    QuestionsRoundTrip(l.questions);
  }

  lemma LessonFromJson(j: Json)
    requires ValidLesson(j)
    ensures EncodeLesson(DecodeLesson(j)) == j
  {
    QuestionsFromJson(j.fields["questions"].items);
    assert j.fields.Keys == LessonKeys;
  }

  lemma OptionListRoundTrip(os: seq<RadioOption>)
    ensures ValidOptionList(EncodeOptionList(os))
    ensures DecodeOptionList(EncodeOptionList(os).items) == os
  {
  }

  lemma OptionListFromJson(items: seq<Json>)
    requires forall i :: 0 <= i < |items| ==> ValidRadioOption(items[i])
    ensures EncodeOptionList(DecodeOptionList(items)) == JArr(items)
  {
    forall i | 0 <= i < |items|
      ensures EncodeRadioOption(DecodeRadioOption(items[i])) == items[i]
    {
      var j := items[i];
      if "disabled" in j.fields {
        assert j.fields.Keys == RadioOptionRequired + RadioOptionOptional;
      } else {
        assert j.fields.Keys == RadioOptionRequired;
      }
    }
  }

  lemma AnswersRoundTrip(answers: seq<AnswerState>)
    ensures ValidAnswers(EncodeAnswers(answers))
    ensures DecodeAnswers(EncodeAnswers(answers).items) == answers
  {
  }

  lemma AnswerStateFromJson(j: Json)
    requires ValidAnswerState(j)
    ensures EncodeAnswerState(DecodeAnswerState(j)) == j
  {
    assert j.fields.Keys == AnswerStateKeys;
  }

  lemma AnswersFromJson(items: seq<Json>)
    requires forall i :: 0 <= i < |items| ==> ValidAnswerState(items[i])
    ensures EncodeAnswers(DecodeAnswers(items)) == JArr(items)
  {
    forall i | 0 <= i < |items|
      ensures EncodeAnswerState(DecodeAnswerState(items[i])) == items[i]
    {
      AnswerStateFromJson(items[i]);
    }
  }

  lemma RequiredObjectKeys(
    lesson: Json, mode: Json, currentPage: Json, progress: Json,
    headerLabel: Json, badgeLabel: Json, currentQuestion: Json, optionList: Json,
    answers: Json, viewLocked: Json, showHint: Json,
    showExplanation: Json, controls: Json, score: Json)
    ensures RequiredObject(lesson, mode, currentPage, progress, headerLabel, badgeLabel,
      currentQuestion, optionList, answers, viewLocked, showHint, showExplanation, controls, score).Keys
      == WidgetStateRequired
  {
  }

  lemma AddOptionalKey(m: map<string, Json>, v: Json)
    requires m.Keys == WidgetStateRequired
    ensures m["current_answer_value" := v].Keys == WidgetStateRequired + WidgetStateOptional
  {
  }

  /** A widget-state object has the required keys, and the optional one
      exactly when a value is given for it. */
  lemma WidgetObjectKeys(
    lesson: Json, mode: Json, currentPage: Json, progress: Json,
    headerLabel: Json, badgeLabel: Json, currentQuestion: Json, optionList: Json,
    currentAnswerValue: Option<Json>, answers: Json, viewLocked: Json, showHint: Json,
    showExplanation: Json, controls: Json, score: Json)
    ensures var f := WidgetObject(lesson, mode, currentPage, progress, headerLabel, badgeLabel,
        currentQuestion, optionList, currentAnswerValue, answers, viewLocked, showHint,
        showExplanation, controls, score);
      f.Keys == (if currentAnswerValue.Some? then WidgetStateRequired + WidgetStateOptional else WidgetStateRequired)
  {
    var required := RequiredObject(lesson, mode, currentPage, progress, headerLabel, badgeLabel,
      currentQuestion, optionList, answers, viewLocked, showHint, showExplanation, controls, score);
    RequiredObjectKeys(lesson, mode, currentPage, progress, headerLabel, badgeLabel,
      currentQuestion, optionList, answers, viewLocked, showHint, showExplanation, controls, score);
    if currentAnswerValue.Some? {
      AddOptionalKey(required, currentAnswerValue.value);
    }
  }

  lemma RequiredObjectFieldsA(
    lesson: Json, mode: Json, currentPage: Json, progress: Json,
    headerLabel: Json, badgeLabel: Json, currentQuestion: Json, optionList: Json,
    answers: Json, viewLocked: Json, showHint: Json,
    showExplanation: Json, controls: Json, score: Json)
    ensures var f := RequiredObject(lesson, mode, currentPage, progress, headerLabel, badgeLabel,
      currentQuestion, optionList, answers, viewLocked, showHint, showExplanation, controls, score);
      && f["lesson"] == lesson && f["mode"] == mode && f["current_page"] == currentPage
      && f["progress"] == progress && f["header_label"] == headerLabel
      && f["badge_label"] == badgeLabel && f["current_question"] == currentQuestion
  {
  }

  lemma RequiredObjectFieldsB(
    lesson: Json, mode: Json, currentPage: Json, progress: Json,
    headerLabel: Json, badgeLabel: Json, currentQuestion: Json, optionList: Json,
    answers: Json, viewLocked: Json, showHint: Json,
    showExplanation: Json, controls: Json, score: Json)
    ensures var f := RequiredObject(lesson, mode, currentPage, progress, headerLabel, badgeLabel,
      currentQuestion, optionList, answers, viewLocked, showHint, showExplanation, controls, score);
      && f["option_list"] == optionList
      && f["answers"] == answers && f["view_locked"] == viewLocked && f["show_hint"] == showHint
      && f["show_explanation"] == showExplanation && f["controls"] == controls && f["score"] == score
  {
  }

  /** `f` holds, key by key, the encoding of the fields of `w`. */
  predicate HoldsEncodingOf(f: map<string, Json>, w: WidgetState)
  {
    && f.Keys == (if w.currentAnswerValue.Some? then WidgetStateRequired + WidgetStateOptional else WidgetStateRequired)
    && f["lesson"] == EncodeLesson(w.lesson)
    && f["mode"] == EncodeMode(w.mode)
    && f["current_page"] == JNum(w.currentPage)
    && f["progress"] == EncodeProgress(w.progress)
    && f["header_label"] == JStr(w.headerLabel)
    && f["badge_label"] == JStr(w.badgeLabel)
    && f["current_question"] == (if w.currentQuestion.Some? then EncodeQuestion(w.currentQuestion.value) else JNull)
    && f["option_list"] == EncodeOptionList(w.optionList)
    && (w.currentAnswerValue.Some? ==> f["current_answer_value"] == JStr(w.currentAnswerValue.value))
    && f["answers"] == EncodeAnswers(w.answers)
    && f["view_locked"] == JBool(w.viewLocked)
    && f["show_hint"] == JBool(w.showHint)
    && f["show_explanation"] == JBool(w.showExplanation)
    && f["controls"] == EncodeControls(w.controls)
    && f["score"] == EncodeScore(w.score)
  }

  /** Each key of a widget-state object holds the value given for it. */
  lemma WidgetObjectFields(
    lesson: Json, mode: Json, currentPage: Json, progress: Json,
    headerLabel: Json, badgeLabel: Json, currentQuestion: Json, optionList: Json,
    currentAnswerValue: Option<Json>, answers: Json, viewLocked: Json, showHint: Json,
    showExplanation: Json, controls: Json, score: Json)
    ensures var f := WidgetObject(lesson, mode, currentPage, progress, headerLabel, badgeLabel,
        currentQuestion, optionList, currentAnswerValue, answers, viewLocked, showHint,
        showExplanation, controls, score);
      && f.Keys == (if currentAnswerValue.Some? then WidgetStateRequired + WidgetStateOptional else WidgetStateRequired)
      && f["lesson"] == lesson && f["mode"] == mode && f["current_page"] == currentPage
      && f["progress"] == progress && f["header_label"] == headerLabel
      && f["badge_label"] == badgeLabel && f["current_question"] == currentQuestion
      && f["option_list"] == optionList
      && (currentAnswerValue.Some? ==> f["current_answer_value"] == currentAnswerValue.value)
      && f["answers"] == answers && f["view_locked"] == viewLocked && f["show_hint"] == showHint
      && f["show_explanation"] == showExplanation && f["controls"] == controls && f["score"] == score
  {
    var required := RequiredObject(lesson, mode, currentPage, progress, headerLabel, badgeLabel,
      currentQuestion, optionList, answers, viewLocked, showHint, showExplanation, controls, score);
    WidgetObjectKeys(lesson, mode, currentPage, progress, headerLabel, badgeLabel, currentQuestion, optionList,
      currentAnswerValue, answers, viewLocked, showHint, showExplanation, controls, score);
    RequiredObjectKeys(lesson, mode, currentPage, progress, headerLabel, badgeLabel, currentQuestion, optionList,
      answers, viewLocked, showHint, showExplanation, controls, score);
    RequiredObjectFieldsA(lesson, mode, currentPage, progress, headerLabel, badgeLabel, currentQuestion, optionList,
      answers, viewLocked, showHint, showExplanation, controls, score);
    RequiredObjectFieldsB(lesson, mode, currentPage, progress, headerLabel, badgeLabel, currentQuestion, optionList,
      answers, viewLocked, showHint, showExplanation, controls, score);
    if currentAnswerValue.Some? {
      OptionalKeyKeepsRequired(required, currentAnswerValue.value);
    }
  }

  /** Adding the optional key leaves every required key's value as it was. */
  lemma OptionalKeyKeepsRequired(m: map<string, Json>, v: Json)
    requires m.Keys == WidgetStateRequired
    ensures forall k | k in WidgetStateRequired :: m["current_answer_value" := v][k] == m[k]
  {
    assert "current_answer_value" !in WidgetStateRequired;
  }

  lemma EncodingHoldsEncoding(w: WidgetState)
    ensures HoldsEncodingOf(EncodeWidgetState(w).fields, w)
  {
    WidgetObjectFields(
      EncodeLesson(w.lesson),
      EncodeMode(w.mode),
      JNum(w.currentPage),
      EncodeProgress(w.progress),
      JStr(w.headerLabel),
      JStr(w.badgeLabel),
      if w.currentQuestion.Some? then EncodeQuestion(w.currentQuestion.value) else JNull,
      EncodeOptionList(w.optionList),
      if w.currentAnswerValue.Some? then Some(JStr(w.currentAnswerValue.value)) else None,
      EncodeAnswers(w.answers),
      JBool(w.viewLocked),
      JBool(w.showHint),
      JBool(w.showExplanation),
      EncodeControls(w.controls),
      EncodeScore(w.score));
  }

  /** The fields of the encoding that hold records and lists. */
  lemma NestedFieldsValid(f: map<string, Json>, w: WidgetState)
    requires HoldsEncodingOf(f, w)
    ensures ValidLesson(f["lesson"]) <==> AllWellFormed(w.lesson.questions)
    ensures AllWellFormed(w.lesson.questions) ==> DecodeLesson(f["lesson"]) == w.lesson
    ensures (f["current_question"].JNull? || ValidQuestion(f["current_question"])) <==>
      (w.currentQuestion.Some? ==> WellFormedQuestion(w.currentQuestion.value))
    ensures ValidOptionList(f["option_list"]) && DecodeOptionList(f["option_list"].items) == w.optionList
    ensures ValidAnswers(f["answers"]) && DecodeAnswers(f["answers"].items) == w.answers
  {
    LessonRoundTrip(w.lesson);
    if w.currentQuestion.Some? {
      QuestionRoundTrip(w.currentQuestion.value);
    }
    OptionListRoundTrip(w.optionList);
    AnswersRoundTrip(w.answers);
  }

  /** The fields of the encoding that hold the mode and the progress record. */
  lemma ModeProgressValid(f: map<string, Json>, w: WidgetState)
    requires "mode" in f && f["mode"] == EncodeMode(w.mode)
    requires "progress" in f && f["progress"] == EncodeProgress(w.progress)
    ensures ValidMode(f["mode"]) && DecodeMode(f["mode"]) == w.mode
    ensures ValidProgress(f["progress"]) && DecodeProgress(f["progress"]) == w.progress
  {
  }

  /** The fields of the encoding that hold the controls and the score. */
  lemma ControlsScoreValid(f: map<string, Json>, w: WidgetState)
    requires "controls" in f && f["controls"] == EncodeControls(w.controls)
    requires "score" in f && f["score"] == EncodeScore(w.score)
    ensures ValidControls(f["controls"]) && DecodeControls(f["controls"]) == w.controls
    ensures ValidScore(f["score"]) && DecodeScore(f["score"]) == w.score
  {
  }

  /** The encoding has the required keys, and the optional one exactly when
      there is a current answer value. */
  lemma EncodedKeysStrict(f: map<string, Json>, w: WidgetState)
    requires f.Keys == (if w.currentAnswerValue.Some? then WidgetStateRequired + WidgetStateOptional else WidgetStateRequired)
    ensures StrictKeys(JObj(f), WidgetStateRequired, WidgetStateOptional)
    ensures "current_answer_value" in f <==> w.currentAnswerValue.Some?
  {
  }

  lemma ValidIffOnFields(f: map<string, Json>, w: WidgetState)
    requires HoldsEncodingOf(f, w)
    ensures ValidWidgetState(JObj(f)) <==> WellFormed(w)
  {
    EncodedKeysStrict(f, w);
    NestedFieldsValid(f, w);
    ModeProgressValid(f, w);
    ControlsScoreValid(f, w);
  }

  lemma DecodeOnFields(f: map<string, Json>, w: WidgetState)
    requires HoldsEncodingOf(f, w) && WellFormed(w)
    ensures ValidWidgetState(JObj(f)) && DecodeWidgetState(JObj(f)) == w
  {
    EncodedKeysStrict(f, w);
    NestedFieldsValid(f, w);
    ModeProgressValid(f, w);
    ControlsScoreValid(f, w);
    if w.currentQuestion.Some? {
      QuestionRoundTrip(w.currentQuestion.value);
    }
  }

  /** The schema accepts the encoding of a typed widget state exactly when
      every question has five choices; ids, indices, totals and
      `correct_choice_id` may be any numbers. */
  lemma WidgetStateValidIff(w: WidgetState)
    ensures ValidWidgetState(EncodeWidgetState(w)) <==> WellFormed(w)
  {
    EncodingHoldsEncoding(w);
    ValidIffOnFields(EncodeWidgetState(w).fields, w);
  }

  /** Decoding the encoding of a well-formed state gives the state back. */
  lemma WidgetStateRoundTrip(w: WidgetState)
    requires WellFormed(w)
    ensures ValidWidgetState(EncodeWidgetState(w))
    ensures DecodeWidgetState(EncodeWidgetState(w)) == w
  {
    EncodingHoldsEncoding(w);
    DecodeOnFields(EncodeWidgetState(w).fields, w);
  }

  /** The widget-state object rebuilt key by key from its own values. */
  function RebuildWidgetFields(f: map<string, Json>): map<string, Json>
    requires WidgetStateRequired <= f.Keys
  {
    WidgetObject(f["lesson"], f["mode"], f["current_page"], f["progress"], f["header_label"],
      f["badge_label"], f["current_question"], f["option_list"],
      if "current_answer_value" in f then Some(f["current_answer_value"]) else None,
      f["answers"], f["view_locked"], f["show_hint"], f["show_explanation"], f["controls"], f["score"])
  }

  /** `f` restricted to the required keys. */
  function RequiredPart(f: map<string, Json>): map<string, Json>
  {
    map k | k in WidgetStateRequired && k in f :: f[k]
  }

  lemma RebuildRequiredPart(f: map<string, Json>)
    requires WidgetStateRequired <= f.Keys
    ensures RequiredObject(f["lesson"], f["mode"], f["current_page"], f["progress"], f["header_label"],
      f["badge_label"], f["current_question"], f["option_list"], f["answers"], f["view_locked"],
      f["show_hint"], f["show_explanation"], f["controls"], f["score"]) == RequiredPart(f)
  {
  }

  lemma RequiredPartAndOptional(f: map<string, Json>)
    requires WidgetStateRequired <= f.Keys <= WidgetStateRequired + WidgetStateOptional
    ensures f == if "current_answer_value" in f then RequiredPart(f)["current_answer_value" := f["current_answer_value"]] else RequiredPart(f)
  {
  }

  lemma RebuildIsIdentity(f: map<string, Json>)
    requires WidgetStateRequired <= f.Keys <= WidgetStateRequired + WidgetStateOptional
    ensures RebuildWidgetFields(f) == f
  {
    RebuildRequiredPart(f);
    RequiredPartAndOptional(f);
  }

  lemma ProgressFromJson(j: Json)
    requires ValidProgress(j)
    ensures EncodeProgress(DecodeProgress(j)) == j
  {
    assert j.fields.Keys == ProgressKeys;
  }

  lemma ControlsFromJson(j: Json)
    requires ValidControls(j)
    ensures EncodeControls(DecodeControls(j)) == j
  {
    assert j.fields.Keys == ControlsKeys;
  }

  lemma ScoreFromJson(j: Json)
    requires ValidScore(j)
    ensures EncodeScore(DecodeScore(j)) == j
  {
    assert j.fields.Keys == ScoreKeys;
  }

  lemma ModeFromJson(j: Json)
    requires ValidMode(j)
    ensures EncodeMode(DecodeMode(j)) == j
  {
  }

  /** A valid Json widget state is the encoding of its decoding: the schema
      drops and rewrites nothing. */
  lemma WidgetStateFromJson(j: Json)
    requires ValidWidgetState(j)
    ensures EncodeWidgetState(DecodeWidgetState(j)) == j
  {
    var f := j.fields;
    var w := DecodeWidgetState(j);
    LessonFromJson(f["lesson"]);
    ModeFromJson(f["mode"]);
    ProgressFromJson(f["progress"]);
    if !f["current_question"].JNull? {
      QuestionFromJson(f["current_question"]);
    }
    OptionListFromJson(f["option_list"].items);
    AnswersFromJson(f["answers"].items);
    ControlsFromJson(f["controls"]);
    ScoreFromJson(f["score"]);
    RebuildIsIdentity(f);
  }

  // ---------------------------------------------------------------------------
  // Parsing
  // ---------------------------------------------------------------------------

  /** The error `parse` throws on a value the schema rejects. */
  datatype SchemaViolation = SchemaViolation

  /** `widgetStateSchema.parse(j)`: the typed state when `j` is valid, an
      error otherwise. A successful parse loses nothing: re-encoding its
      result gives `j` back. */
  function ParseWidgetState(j: Json): (r: Result<WidgetState, SchemaViolation>)
    ensures r.Success? <==> ValidWidgetState(j)
    ensures r.Success? ==> EncodeWidgetState(r.value) == j
  {
    if ValidWidgetState(j) then
      WidgetStateFromJson(j);
      Success(DecodeWidgetState(j))
    else
      Failure(SchemaViolation)
  }

  /** Parsing the encoding of a typed state succeeds, returning it unchanged,
      exactly when every question has five choices. */
  lemma ParseEncoded(w: WidgetState)
    ensures ParseWidgetState(EncodeWidgetState(w)) ==
      if WellFormed(w) then Success(w) else Failure(SchemaViolation)
  {
    WidgetStateValidIff(w);
    if WellFormed(w) {
      WidgetStateRoundTrip(w);
    }
  }

  // ---------------------------------------------------------------------------
  // Properties of the schema itself
  // ---------------------------------------------------------------------------

  /** Every object schema is strict: adding a key outside its declared keys
      makes any object invalid. */
  lemma UnknownKeyRejected(fields: map<string, Json>, k: string, v: Json)
    ensures k !in ChoiceKeys ==> !ValidChoice(JObj(fields[k := v]))
    ensures k !in QuestionKeys ==> !ValidQuestion(JObj(fields[k := v]))
    ensures k !in LessonKeys ==> !ValidLesson(JObj(fields[k := v]))
    ensures k !in RadioOptionRequired + RadioOptionOptional ==> !ValidRadioOption(JObj(fields[k := v]))
    ensures k !in AnswerStateKeys ==> !ValidAnswerState(JObj(fields[k := v]))
    ensures k !in ProgressKeys ==> !ValidProgress(JObj(fields[k := v]))
    ensures k !in ControlsKeys ==> !ValidControls(JObj(fields[k := v]))
    ensures k !in ScoreKeys ==> !ValidScore(JObj(fields[k := v]))
    ensures k !in WidgetStateRequired + WidgetStateOptional ==> !ValidWidgetState(JObj(fields[k := v]))
  {
  }

  /** Every non-optional key is required: removing it makes any object invalid. */
  lemma MissingKeyRejected(fields: map<string, Json>, k: string)
    ensures k in ChoiceKeys ==> !ValidChoice(JObj(fields - {k}))
    ensures k in QuestionKeys ==> !ValidQuestion(JObj(fields - {k}))
    ensures k in LessonKeys ==> !ValidLesson(JObj(fields - {k}))
    ensures k in RadioOptionRequired ==> !ValidRadioOption(JObj(fields - {k}))
    ensures k in AnswerStateKeys ==> !ValidAnswerState(JObj(fields - {k}))
    ensures k in ProgressKeys ==> !ValidProgress(JObj(fields - {k}))
    ensures k in ControlsKeys ==> !ValidControls(JObj(fields - {k}))
    ensures k in ScoreKeys ==> !ValidScore(JObj(fields - {k}))
    ensures k in WidgetStateRequired ==> !ValidWidgetState(JObj(fields - {k}))
  {
  }

  /** A question is valid only with exactly five choices. */
  lemma QuestionNeedsFiveChoices(j: Json)
    requires ValidQuestion(j)
    ensures j.fields["choices"].JArr? && |j.fields["choices"].items| == 5
  {
  }

  /** `disabled` may be left out of a valid radio option. */
  lemma DisabledMayBeAbsent(j: Json)
    requires ValidRadioOption(j)
    ensures ValidRadioOption(JObj(j.fields - {"disabled"}))
  {
  }

  /** `current_answer_value` may be left out of a valid widget state. */
  lemma AnswerValueMayBeAbsent(j: Json)
    requires ValidWidgetState(j)
    ensures ValidWidgetState(JObj(j.fields - {"current_answer_value"}))
  {
    var g := j.fields - {"current_answer_value"};
    assert g.Keys == WidgetStateRequired;
  }

  /** `mode` is valid exactly when it is the encoding of one of the three modes. */
  lemma ModeIsEnum(j: Json)
    ensures ValidMode(j) <==> j == EncodeMode(ModeIntro) || j == EncodeMode(ModeQuestion) || j == EncodeMode(ModeSummary)
  {
  }

  /** `selected_choice_id` may be `null` or any number, and nothing else. */
  lemma SelectedChoiceNullable(j: Json, v: Json)
    requires ValidAnswerState(j)
    ensures ValidAnswerState(JObj(j.fields["selected_choice_id" := v])) <==> v.JNull? || v.JNum?
  {
    assert "selected_choice_id" in AnswerStateKeys;
  }

  /** `current_question` may be `null` or a valid question, and nothing
      else. */
  lemma CurrentQuestionNullable(j: Json, q: Json)
    requires ValidWidgetState(j)
    ensures ValidWidgetState(JObj(j.fields["current_question" := JNull]))
    ensures ValidWidgetState(JObj(j.fields["current_question" := q])) <==> q.JNull? || ValidQuestion(q)
  {
    assert "current_question" in WidgetStateRequired;
  }

  /** No range is checked on the ids, positions and totals: a valid value
      stays valid whatever numbers replace them. */
  lemma NumbersUnconstrained(j: Json, n: int)
    ensures ValidChoice(j) ==> ValidChoice(JObj(j.fields["id" := JNum(n)]))
    ensures ValidQuestion(j) ==> ValidQuestion(JObj(j.fields["id" := JNum(n)]))
    ensures ValidAnswerState(j) ==> ValidAnswerState(JObj(j.fields["question_id" := JNum(n)]))
    ensures ValidProgress(j) ==> ValidProgress(JObj(j.fields["index" := JNum(n)]))
    ensures ValidProgress(j) ==> ValidProgress(JObj(j.fields["total" := JNum(n)]))
    ensures ValidScore(j) ==> ValidScore(JObj(j.fields["correct" := JNum(n)]))
    ensures ValidScore(j) ==> ValidScore(JObj(j.fields["total" := JNum(n)]))
  {
  }

  /** Nor is `current_page` range-checked. */
  lemma CurrentPageUnconstrained(j: Json, n: int)
    requires ValidWidgetState(j)
    ensures ValidWidgetState(JObj(j.fields["current_page" := JNum(n)]))
  {
    assert "current_page" in WidgetStateRequired;
  }

  /** No range is checked on `correct_choice_id`: a valid question stays valid
      whatever number replaces it. */
  lemma CorrectChoiceIdUnconstrained(j: Json, n: int)
    requires ValidQuestion(j)
    ensures ValidQuestion(JObj(j.fields["correct_choice_id" := JNum(n)]))
  {
  }
}
