/**
 * The survey-taking page: the answers being filled in, the per-question
 * error messages, and whether the response has been sent. Each handler is
 * one state update of the page.
 */
module SurveyView {
  import opened Wrappers
  import opened Objects
  import opened Decimal
  import opened SurveyTypes
  import opened ResponseTypes
  import opened AnswerStore
  import GroupView

  /** What `handleSubmit` posts: `{surveyId: id, answers: responses}`. */
  datatype SubmitPayload = SubmitPayload(surveyId: Option<string>, answers: Store)

  /** The list a checkbox click leaves: appended on check, filtered out on uncheck. */
  function CheckboxList(current: seq<string>, value: string, checked: bool): (r: seq<string>)
    ensures checked ==> r == current + [value]
    ensures !checked ==> value !in r && forall y :: y != value ==> (y in r <==> y in current)
  {
    if checked then current + [value] else Without(current, value)
  }

  /** Checking and then unchecking the same option leaves no trace of it. */
  lemma CheckboxUndo(current: seq<string>, value: string)
    requires value !in current
    ensures CheckboxList(CheckboxList(current, value, true), value, false) == current
  {
    CheckThenUncheck(current, value);
  }

  /**
   * The value this page's own inputs record for option i: the option's
   * label for radio buttons and checkboxes, its index string for the
   * searchable select.
   */
  function InlineChoiceValue(t: QuestionType, labels: seq<string>, i: nat): string
    requires i < |labels|
  {
    if t == Select then IndexString(i) else labels[i]
  }

  /**
   * Labels are recorded where indices are read back: a select answer made
   * on this page resolves to its label, while a radio or checkbox answer
   * resolves to `''` when its label is an ordinary word, and to the option
   * count when the label is `length`.
   */
  lemma InlineChoiceResolution(t: QuestionType, labels: seq<string>, i: nat)
    requires i < |labels|
    ensures t == Select ==> ResolveLabel(Some(labels), InlineChoiceValue(t, labels, i)) == labels[i]
    ensures (t == Radio || t == Checkbox) && !Canonical(labels[i]) && labels[i] !in ArrayMembers ==>
      ResolveLabel(Some(labels), InlineChoiceValue(t, labels, i)) == ""
    ensures (t == Radio || t == Checkbox) && labels[i] == "length" ==>
      ResolveLabel(Some(labels), InlineChoiceValue(t, labels, i)) == IndexString(|labels|)
  {
    if t == Select {
      ParseIndexString(i);
    }
  }

  class SurveyViewPage {
    var responses: Store
    var errors: Obj<string>
    var isSent: bool

    predicate Valid()
      reads this
    {
      Wf(responses) && Wf(errors)
    }

    /** The page opens with no answers, no errors, and nothing sent. */
    constructor ()
      ensures Valid()
      ensures responses == [] && errors == [] && !isSent
    {
      responses := [];
      errors := [];
      isSent := false;
    }

    /** `handleTextChange`: the answer becomes the typed text and the error is cleared. */
    method HandleTextChange(questionId: string, value: string)
      requires Valid()
      modifies this
      ensures Valid()
      ensures responses == Put(old(responses), questionId, Text(value))
      ensures errors == Put(old(errors), questionId, "")
      ensures isSent == old(isSent)
    {
      responses := Put(responses, questionId, Text(value));
      errors := Put(errors, questionId, "");
    }

    /** `handleMultipleChoiceChange`: the same update for a picked option's value. */
    method HandleMultipleChoiceChange(questionId: string, value: string)
      requires Valid()
      modifies this
      ensures Valid()
      ensures responses == Put(old(responses), questionId, Text(value))
      ensures errors == Put(old(errors), questionId, "")
      ensures isSent == old(isSent)
    {
      HandleTextChange(questionId, value);
    }

    /**
     * `handleCheckboxChange`: the current list (`[]` when absent) with the
     * value appended on check, or with every occurrence removed on uncheck.
     * Unlike the checkbox widget, an uncheck with no list writes `[]`.
     */
    method HandleCheckboxChange(questionId: string, value: string, checked: bool)
      requires Valid()
      requires var a := Get(responses, questionId); a.Some? ==> Fits(Checkbox, a.value)
      modifies this
      ensures Valid()
      ensures var a := old(Get(responses, questionId));
        var current := if a.Some? then ListItems(a.value) else [];
        responses == Put(old(responses), questionId, List(CheckboxList(current, value, checked)))
      ensures errors == Put(old(errors), questionId, "")
      ensures isSent == old(isSent)
    {
      var a := Get(responses, questionId);
      var current := if a.Some? then ListItems(a.value) else [];
      responses := Put(responses, questionId, List(CheckboxList(current, value, checked)));
      errors := Put(errors, questionId, "");
    }

    /**
     * `hanleQuestionGroupChange`: `_.set` of the value at
     * `[questionId, ...path]` on a deep clone of the answers. The error
     * messages are not touched.
     */
    method HandleGroupChange(e: Edit)
      requires Valid()
      requires !e.SetAnswer? && Applicable(responses, e)
      modifies this
      ensures Valid()
      ensures responses == Apply(old(responses), e)
      ensures errors == old(errors) && isSent == old(isSent)
    {
      responses := Apply(responses, e);
    }

    /** "Add answer": an empty instance at index = the current instance count. */
    method AddGroupAnswer(questionId: string)
      requires Valid() && TableAt(responses, questionId)
      modifies this
      ensures Valid() && TableAt(responses, questionId)
      ensures Instances(responses, questionId) == old(Instances(responses, questionId)) + [[]]
      ensures forall k :: k != questionId ==> Get(responses, k) == old(Get(responses, k))
      ensures errors == old(errors) && isSent == old(isSent)
    {
      var count := |Instances(responses, questionId)|;
      ghost var before := responses;
      HandleGroupChange(SetInstance(questionId, count, []));
      assert Instances(responses, questionId) == Instances(before, questionId) + [[]];
    }

    /** The number of instances the group section draws: `length || 1`. */
    function InstancesShown(questionId: string): (n: nat)
      reads this
      requires TableAt(responses, questionId)
      ensures n >= 1 && n >= |Instances(responses, questionId)|
      ensures |Instances(responses, questionId)| > 0 ==> n == |Instances(responses, questionId)|
    {
      GroupView.Shown(Instances(responses, questionId))
    }

    /**
     * `handleSubmit`: posts the survey id and the answers as they stand;
     * `ok` is whether the result kind was `'ok'`, and only then is the page
     * marked sent.
     */
    method Submit(id: Option<string>, ok: bool) returns (payload: SubmitPayload)
      requires Valid()
      modifies this
      ensures Valid()
      ensures payload == SubmitPayload(id, old(responses))
      ensures isSent == (old(isSent) || ok)
      ensures responses == old(responses) && errors == old(errors)
    {
      payload := SubmitPayload(id, responses);
      if ok {
        isSent := true;
      }
    }
  }
}
