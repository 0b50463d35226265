/**
 * The radio and select widgets. Both list `params` in order, each option
 * valued by its position as a decimal string, and write the chosen value
 * at `[questionId]`.
 */
module ChoiceView {
  import opened Wrappers
  import opened Objects
  import opened Decimal
  import opened SurveyTypes
  import opened ResponseTypes
  import opened AnswerStore

  /** `onChange([questionId], v)` for the value the user picked. */
  function Choose(questionId: string, v: string): Edit {
    SetAnswer(questionId, Some(Text(v)))
  }

  /**
   * Picking option i of a question records i's index string, leaves every
   * other answer alone, and the recorded value resolves back to option i's
   * label.
   */
  lemma PickOption(store: Store, questionId: string, q: Question, i: nat)
    requires i < |ChoiceOptions(q.params)|
    ensures var after := Apply(store, Choose(questionId, ChoiceOptions(q.params)[i].0));
      && Get(after, questionId) == Some(Text(IndexString(i)))
      && ResolveLabel(q.params, Get(after, questionId).value.s) == q.params.value[i]
      && forall k :: k != questionId ==> Get(after, k) == Get(store, k)
  {
    ChoiceOptionResolves(q.params, i);
  }

  datatype CardHeader = CardHeader(requiredMark: bool, errorAlert: bool)

  /** The card header every widget draws: the `*` marker and the error alert. */
  function Header(q: Question, error: string): (h: CardHeader)
    ensures h.requiredMark <==> q.required == Some(true)
    ensures h.errorAlert <==> error != ""
  {
    CardHeader(IsRequired(q), error != "")
  }
}
