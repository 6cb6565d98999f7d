/** `generateQuizFromText`: run the quiz agent on the text and project its
    lesson plan onto the widget. The agent run is outside the model; its
    `finalOutput` is the input. */
module QuizService {
  import opened Wrappers
  import opened LessonPlans
  import opened WidgetStateSchema
  import opened MapLessonPlanToWidget
  import opened QuizResponseBuilder

  /** The message of the error thrown when the agent produced nothing. */
  const NoAgentOutputMessage: string := "Quiz agent returned no output"

  /** The result for the agent's `finalOutput`, `None` when it produced nothing. */
  function GenerateQuizFromText(finalOutput: Option<LessonPlan>): (r: Result<QuizResponse, QuizError>)
    ensures finalOutput.None? ==> r == Failure(NoAgentOutput("Quiz agent returned no output"))
    ensures finalOutput.Some? ==>
      var plan := finalOutput.value;
      && (r.Success? <==> MapLessonPlanToWidgetData(plan).Success?)
      && (r.Failure? ==> r.error == InvalidWidgetState)
      && (r.Success? ==> r.value == QuizResponse(plan, Widget(WidgetId, MapLessonPlanToWidgetData(plan).value)))
  {
    match finalOutput
    case None => Failure(NoAgentOutput(NoAgentOutputMessage))
    case Some(plan) =>
      match MapLessonPlanToWidgetData(plan)
      case Failure(_) => Failure(InvalidWidgetState)
      case Success(data) => Success(QuizResponse(plan, Widget(WidgetId, data)))
  }

  /** The agent path and the raw-plan path agree: given the plan the schema
      accepted, both return the same response or fail on the same schema. */
  lemma AgreesWithBuildQuizResponse<Raw>(raw: Raw, lessonPlanSchema: Raw -> Option<LessonPlan>)
    requires lessonPlanSchema(raw).Some?
    ensures GenerateQuizFromText(lessonPlanSchema(raw)) == BuildQuizResponse(raw, lessonPlanSchema)
  {
    MapLessonPlanToWidgetDataSpec(lessonPlanSchema(raw).value);
  }
}
