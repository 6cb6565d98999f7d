/** `buildQuizResponse`: validate a raw lesson plan, project it onto the
    widget state, validate that state again, and package both. */
module QuizResponseBuilder {
  import opened Wrappers
  import opened LessonPlans
  import opened WidgetStateSchema
  import opened MapLessonPlanToWidget

  /** The id of the step-by-step quiz widget. */
  const WidgetId: string := "step_by_step_quiz"

  datatype Widget = Widget(id: string, data: WidgetState)

  datatype QuizResponse = QuizResponse(lessonPlan: LessonPlan, widget: Widget)

  /** Why building a quiz fails: the lesson-plan schema or the widget-state
      schema threw, or the agent produced nothing. */
  datatype QuizError = InvalidLessonPlan | InvalidWidgetState | NoAgentOutput(message: string)

  /** `buildQuizResponse(raw)`. The lesson-plan schema is not part of this
      model, so its `parse` is the parameter `lessonPlanSchema`: the parsed
      plan, or `None` where it throws. */
  function BuildQuizResponse<Raw>(raw: Raw, lessonPlanSchema: Raw -> Option<LessonPlan>): (r: Result<QuizResponse, QuizError>)
    ensures lessonPlanSchema(raw).None? ==> r == Failure(InvalidLessonPlan)
    ensures lessonPlanSchema(raw).Some? ==>
      var plan := lessonPlanSchema(raw).value;
      && (r.Success? <==> EveryQuestionHasChoices(plan, ChoiceCount))
      && (r.Failure? ==> r.error == InvalidWidgetState)
      && (r.Success? ==> r.value == QuizResponse(plan, Widget(WidgetId, BaseState(plan))))
  {
    match lessonPlanSchema(raw)
    case None => Failure(InvalidLessonPlan)
    case Some(plan) =>
      MapLessonPlanToWidgetDataSpec(plan);
      match MapLessonPlanToWidgetData(plan)
      case Failure(_) => Failure(InvalidWidgetState)
      case Success(widgetData) =>
        match ParseWidgetState(EncodeWidgetState(widgetData))
        case Failure(_) => Failure(InvalidWidgetState)
        case Success(validated) => Success(QuizResponse(plan, Widget(WidgetId, validated)))
  }

  /** Parsing a state a parse has produced gives it back unchanged. */
  lemma ReparseIsIdentity(j: Json, w: WidgetState)
    requires ParseWidgetState(j) == Success(w)
    ensures ParseWidgetState(EncodeWidgetState(w)) == Success(w)
  {
    ParseEncoded(w);
    WidgetStateValidIff(w);
  }

  /** The second `parse` changes nothing: the widget data is what
      `mapLessonPlanToWidgetData` returned for the parsed plan. */
  lemma WidgetDataIsProjection<Raw>(raw: Raw, lessonPlanSchema: Raw -> Option<LessonPlan>)
    requires BuildQuizResponse(raw, lessonPlanSchema).Success?
    ensures lessonPlanSchema(raw).Some?
    ensures var plan := lessonPlanSchema(raw).value;
      && MapLessonPlanToWidgetData(plan).Success?
      && BuildQuizResponse(raw, lessonPlanSchema).value ==
         QuizResponse(plan, Widget(WidgetId, MapLessonPlanToWidgetData(plan).value))
  {
    MapLessonPlanToWidgetDataSpec(lessonPlanSchema(raw).value);
  }
}
