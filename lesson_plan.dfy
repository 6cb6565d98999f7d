/** The lesson plan the quiz agent produces. Its schema lives in
    lib/agent/agent-schemas.ts, which is not part of this model; the shape
    here is the one the projector reads. */
module LessonPlans {

  /** A plan choice, identified by a string id. */
  datatype PlanChoice = PlanChoice(id: string, labelText: string)

  datatype PlanQuestion = PlanQuestion(
    question: string,
    choices: seq<PlanChoice>,
    correctChoiceId: string,
    hint: string,
    explanation: string)

  datatype PlanLesson = PlanLesson(title: string, source: string, description: string)

  datatype LessonPlan = LessonPlan(lesson: PlanLesson, questions: seq<PlanQuestion>)

  /** Every question of the plan offers exactly `k` choices. */
  predicate EveryQuestionHasChoices(plan: LessonPlan, k: nat)
  {
    forall i :: 0 <= i < |plan.questions| ==> |plan.questions[i].choices| == k
  }
}
