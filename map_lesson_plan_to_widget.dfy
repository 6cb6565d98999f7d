/** `mapLessonPlanToWidgetData`: the projection of a lesson plan onto the
    initial state of the step-by-step quiz widget, validated by the widget
    state schema. */
module MapLessonPlanToWidget {
  import opened Wrappers
  import opened LessonPlans
  import opened WidgetStateSchema

  const HeaderLabel: string := "Quiz"
  const BadgeLabel: string := "PDF Generated"
  const StartLabel: string := "Start"

  /** The plan's choices renumbered 1..k, labels kept in order. */
  function BuildQuestionChoices(choices: seq<PlanChoice>): seq<Choice>
  {
    seq(|choices|, j requires 0 <= j < |choices| => Choice(j + 1, choices[j].labelText))
  }

  /** `choices.findIndex(c => c.id === id)`: the first position holding `id`,
      or -1 when there is none. */
  function FindChoiceIndex(choices: seq<PlanChoice>, id: string): (r: int)
    ensures -1 <= r < |choices|
    ensures 0 <= r ==> choices[r].id == id && forall p :: 0 <= p < r ==> choices[p].id != id
    ensures r == -1 ==> forall p :: 0 <= p < |choices| ==> choices[p].id != id
  {
    if choices == [] then -1
    else if choices[0].id == id then 0
    else
      var r := FindChoiceIndex(choices[1..], id);
      if r < 0 then -1 else r + 1
  }

  /** `p` is the first position whose choice id is `id`. */
  predicate FirstMatch(choices: seq<PlanChoice>, id: string, p: int)
  {
    && 0 <= p < |choices|
    && choices[p].id == id
    && forall p' :: 0 <= p' < p ==> choices[p'].id != id
  }

  /** The 1-based position of the first choice whose id is the question's
      `correct_choice_id`, falling back to 1 when no choice has it. */
  function ResolveCorrectChoiceId(q: PlanQuestion): (r: int)
    ensures 1 <= r
    ensures |q.choices| >= 1 ==> r <= |q.choices|
    ensures forall p :: FirstMatch(q.choices, q.correctChoiceId, p) ==> r == p + 1
    ensures (forall p :: 0 <= p < |q.choices| ==> q.choices[p].id != q.correctChoiceId) ==> r == 1
  {
    var p := FindChoiceIndex(q.choices, q.correctChoiceId);
    if p >= 0 then p + 1 else 1
  }

  /** Question `index` (0-based) of the plan as the widget shows it. */
  function ProjectQuestion(q: PlanQuestion, index: nat): Question
  {
    Question(index + 1, q.question, BuildQuestionChoices(q.choices), q.hint, q.explanation,
      ResolveCorrectChoiceId(q))
  }

  function ProjectQuestions(qs: seq<PlanQuestion>): seq<Question>
  {
    seq(|qs|, i requires 0 <= i < |qs| => ProjectQuestion(qs[i], i))
  }

  /** One unattempted answer record per question, in order. */
  function InitialAnswers(questions: seq<Question>): seq<AnswerState>
  {
    seq(|questions|, i requires 0 <= i < |questions| => AnswerState(questions[i].id, None, false, false))
  }

  /** The state assembled before the final `parse`. */
  function BaseState(plan: LessonPlan): WidgetState
  {
    var questions := ProjectQuestions(plan.questions);
    WidgetState(
      Lesson(plan.lesson.title, plan.lesson.source, plan.lesson.description, questions),
      ModeIntro,
      0,
      Progress(0, |questions|),
      HeaderLabel,
      BadgeLabel,
      None,
      [],
      Some(""),
      InitialAnswers(questions),
      false,
      false,
      false,
      Controls(false, true, StartLabel),
      Score(0, |questions|))
  }

  /** `mapLessonPlanToWidgetData(plan)`: the base state passed through
      `widgetStateSchema.parse`, which throws (here: fails) on a schema
      violation. */
  function MapLessonPlanToWidgetData(plan: LessonPlan): Result<WidgetState, SchemaViolation>
  {
    ParseWidgetState(EncodeWidgetState(BaseState(plan)))
  }

  /** The base state satisfies the schema exactly when every question of the
      plan has five choices. */
  lemma BaseStateWellFormedIff(plan: LessonPlan)
    ensures WellFormed(BaseState(plan)) <==> EveryQuestionHasChoices(plan, ChoiceCount)
  {
    var qs := BaseState(plan).lesson.questions;
    assert forall i :: 0 <= i < |qs| ==> |qs[i].choices| == |plan.questions[i].choices|;
  }

  /** The final `parse` succeeds exactly when every question has five
      choices, and then returns the assembled state unchanged. */
  lemma MapLessonPlanToWidgetDataSpec(plan: LessonPlan)
    ensures MapLessonPlanToWidgetData(plan).Success? <==> EveryQuestionHasChoices(plan, ChoiceCount)
    ensures MapLessonPlanToWidgetData(plan).Success? ==> MapLessonPlanToWidgetData(plan).value == BaseState(plan)
    ensures MapLessonPlanToWidgetData(plan).Failure? ==> MapLessonPlanToWidgetData(plan).error == SchemaViolation
  {
    BaseStateWellFormedIff(plan);
    ParseEncoded(BaseState(plan));
  }

  /** Question `i` of the widget is question `i` of the plan with id `i + 1`,
      its text copied and its choices renumbered 1..k with labels in order. */
  predicate ProjectsQuestion(q: Question, pq: PlanQuestion, i: int)
  {
    && q.id == i + 1
    && q.question == pq.question
    && q.hint == pq.hint
    && q.explanation == pq.explanation
    && q.correctChoiceId == ResolveCorrectChoiceId(pq)
    && |q.choices| == |pq.choices|
    && forall j :: 0 <= j < |pq.choices| ==> q.choices[j].id == j + 1 && q.choices[j].labelText == pq.choices[j].labelText
  }

  lemma ProjectQuestionSpec(pq: PlanQuestion, i: nat)
    ensures ProjectsQuestion(ProjectQuestion(pq, i), pq, i)
  {
  }

  /** The projected lesson: metadata copied, questions in plan order, each
      projected as `ProjectsQuestion` says. */
  lemma ProjectedLesson(plan: LessonPlan, w: WidgetState)
    requires MapLessonPlanToWidgetData(plan) == Success(w)
    ensures w.lesson.title == plan.lesson.title
    ensures w.lesson.source == plan.lesson.source
    ensures w.lesson.description == plan.lesson.description
    ensures |w.lesson.questions| == |plan.questions|
    ensures forall i :: 0 <= i < |plan.questions| ==> ProjectsQuestion(w.lesson.questions[i], plan.questions[i], i)
  {
    MapLessonPlanToWidgetDataSpec(plan);
    forall i | 0 <= i < |plan.questions|
      ensures ProjectsQuestion(w.lesson.questions[i], plan.questions[i], i)
    {
      ProjectQuestionSpec(plan.questions[i], i);
    }
  }

  /** One answer record per question, in order, none selected, correct or
      attempted. */
  lemma InitialAnswerRecords(plan: LessonPlan, w: WidgetState)
    requires MapLessonPlanToWidgetData(plan) == Success(w)
    ensures |w.answers| == |plan.questions|
    ensures forall i :: 0 <= i < |w.answers| ==> w.answers[i] == AnswerState(i + 1, None, false, false)
  {
    MapLessonPlanToWidgetDataSpec(plan);
  }

  /** The fixed initial user-interface fields of the widget. */
  lemma InitialUiFields(plan: LessonPlan, w: WidgetState)
    requires MapLessonPlanToWidgetData(plan) == Success(w)
    ensures w.mode == ModeIntro && w.currentPage == 0
    ensures w.progress == Progress(0, |plan.questions|)
    ensures w.score == Score(0, |plan.questions|)
    ensures w.controls == Controls(false, true, "Start")
    ensures w.headerLabel == "Quiz" && w.badgeLabel == "PDF Generated"
    ensures w.currentQuestion == None && w.optionList == [] && w.currentAnswerValue == Some("")
    ensures !w.viewLocked && !w.showHint && !w.showExplanation
  {
    MapLessonPlanToWidgetDataSpec(plan);
  }

  /** The schema does not range-check `correct_choice_id`, but the projector
      only ever produces a position among the five choices. */
  lemma CorrectChoiceWithinChoices(plan: LessonPlan, w: WidgetState)
    requires MapLessonPlanToWidgetData(plan) == Success(w)
    ensures forall i :: 0 <= i < |w.lesson.questions| ==> 1 <= w.lesson.questions[i].correctChoiceId <= ChoiceCount
  {
    MapLessonPlanToWidgetDataSpec(plan);
    forall i | 0 <= i < |w.lesson.questions|
      ensures 1 <= w.lesson.questions[i].correctChoiceId <= ChoiceCount
    {
      assert w.lesson.questions[i] == ProjectQuestion(plan.questions[i], i);
    }
  }

  /** With choices "c1".."c5" and "c3" correct, the projected id is 3. */
  lemma MatchingChoiceResolvesToPosition()
    ensures ResolveCorrectChoiceId(PlanQuestion("q",
      [PlanChoice("c1", "A"), PlanChoice("c2", "B"), PlanChoice("c3", "C"), PlanChoice("c4", "D"),
       PlanChoice("c5", "E")], "c3", "h", "e")) == 3
  {
    var cs := [PlanChoice("c1", "A"), PlanChoice("c2", "B"), PlanChoice("c3", "C"), PlanChoice("c4", "D"),
       PlanChoice("c5", "E")];
    assert FirstMatch(cs, "c3", 2);
  }

  /** Choice ids need not be unique: once some choice carries the correct id,
      appending further choices, whatever their ids (duplicates included),
      leaves the resolved position unchanged, so the first occurrence wins. */
  lemma DuplicateIdResolvesToFirst(q: PlanQuestion, extra: seq<PlanChoice>)
    requires exists p :: 0 <= p < |q.choices| && q.choices[p].id == q.correctChoiceId
    ensures ResolveCorrectChoiceId(q.(choices := q.choices + extra)) == ResolveCorrectChoiceId(q)
  {
    var p := FindChoiceIndex(q.choices, q.correctChoiceId);
    assert FirstMatch(q.choices, q.correctChoiceId, p);
    assert FirstMatch(q.choices + extra, q.correctChoiceId, p);
  }
}
