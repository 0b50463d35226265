/** The checkbox widget: which options show checked, and the list a click writes. */
module CheckBoxView {
  import opened Wrappers
  import opened Decimal
  import opened ResponseTypes
  import opened AnswerStore

  /** `checked?.includes(index.toString())`: an absent list checks nothing. */
  predicate IsChecked(value: Option<seq<string>>, index: nat) {
    value.Some? && IndexString(index) in value.value
  }

  /**
   * The list a click on option `index` produces: checking appends the
   * option's index string to the list (`[]` when absent); unchecking
   * filters every occurrence out, and leaves an absent list `undefined`.
   */
  function Toggled(value: Option<seq<string>>, index: nat, check: bool): (r: Option<seq<string>>)
    ensures check ==> r.Some? && IsChecked(r, index)
    ensures check ==> |r.value| == |value.GetOr([])| + 1 && r.value[..|value.GetOr([])|] == value.GetOr([])
    ensures !check ==> !IsChecked(r, index)
    ensures !check ==> (r.None? <==> value.None?)
    ensures !check && value.Some? ==> r.value == Without(value.value, IndexString(index))
    ensures forall other: nat :: other != index ==> (IsChecked(r, other) <==> IsChecked(value, other))
  {
    var key := IndexString(index);
    var r :=
      if check then Some(value.GetOr([]) + [key])
      else if value.None? then None
      else Some(Without(value.value, key));
    assert forall other: nat :: other != index ==> IndexString(other) != key by {
      forall other: nat | IndexString(other) == key ensures other == index {
        IndexStringInjective(other, index);
      }
    }
    r
  }

  /** `onChange([questionId], updated)`. */
  function OnCheckedChange(questionId: string, value: Option<seq<string>>, index: nat, check: bool): (e: Edit)
    ensures e.SetAnswer? && e.qid == questionId
    ensures e.answer.Some? <==> Toggled(value, index, check).Some?
    ensures e.answer.Some? ==> e.answer.value == List(Toggled(value, index, check).value)
  {
    var updated := Toggled(value, index, check);
    SetAnswer(questionId, if updated.Some? then Some(List(updated.value)) else None)
  }

  /** Checking an option of an unanswered question records exactly that option. */
  lemma FirstCheck(index: nat)
    ensures Toggled(None, index, true) == Some([IndexString(index)])
  {
  }
}
