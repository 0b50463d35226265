/**
 * The survey editor's question list: questions appended, edited field by
 * field, given options, and removed. Every operation builds a new list.
 */
module SurveyEdit {
  import opened Wrappers

  /** A question as the editor holds it; `id` is the clock reading at its creation. */
  datatype EditorQuestion = EditorQuestion(id: int, qtype: string, text: string, options: Option<seq<string>>)

  /** The fields the editor's inputs write through `updateQuestion`. */
  datatype QuestionField = TypeField | TextField

  /** `{ ...q, [field]: value }`. */
  function WithField(q: EditorQuestion, field: QuestionField, value: string): EditorQuestion {
    match field
    case TypeField => q.(qtype := value)
    case TextField => q.(text := value)
  }

  /** The field an input reads back. */
  function FieldOf(q: EditorQuestion, field: QuestionField): string {
    match field
    case TypeField => q.qtype
    case TextField => q.text
  }

  /** `addQuestion`, with `Date.now()` given as `now`: a blank text question at the end. */
  function AddQuestion(qs: seq<EditorQuestion>, now: int): (r: seq<EditorQuestion>)
    ensures |r| == |qs| + 1
    ensures r[..|qs|] == qs
    ensures r[|qs|].id == now && r[|qs|].qtype == "text" && r[|qs|].text == "" && r[|qs|].options.None?
  {
    qs + [EditorQuestion(now, "text", "", None)]
  }

  /**
   * `updateQuestion`: every question with the id gets the field set; no
   * other field and no other question changes, and the list keeps its
   * length and order.
   */
  function UpdateQuestion(qs: seq<EditorQuestion>, id: int, field: QuestionField, value: string): (r: seq<EditorQuestion>)
    ensures |r| == |qs|
    ensures forall i :: 0 <= i < |qs| && qs[i].id != id ==> r[i] == qs[i]
    ensures forall i :: 0 <= i < |qs| && qs[i].id == id ==>
      && FieldOf(r[i], field) == value
      && r[i].id == qs[i].id && r[i].options == qs[i].options
      && (forall other :: other != field ==> FieldOf(r[i], other) == FieldOf(qs[i], other))
  {
    if qs == [] then []
    else [if qs[0].id == id then WithField(qs[0], field, value) else qs[0]] + UpdateQuestion(qs[1..], id, field, value)
  }

  /** Writing the same value twice is writing it once. */
  lemma {:induction false} UpdateQuestionIdempotent(qs: seq<EditorQuestion>, id: int, field: QuestionField, value: string)
    ensures UpdateQuestion(UpdateQuestion(qs, id, field, value), id, field, value) == UpdateQuestion(qs, id, field, value)
  {
    if qs != [] {
      UpdateQuestionIdempotent(qs[1..], id, field, value);
      var r := UpdateQuestion(qs, id, field, value);
      assert r[1..] == UpdateQuestion(qs[1..], id, field, value);
    }
  }

  /** `addOption`: the matching questions get a blank option at the end, `['']` when they had none. */
  function AddOption(qs: seq<EditorQuestion>, id: int): (r: seq<EditorQuestion>)
    ensures |r| == |qs|
    ensures forall i :: 0 <= i < |qs| && qs[i].id != id ==> r[i] == qs[i]
    ensures forall i :: 0 <= i < |qs| && qs[i].id == id ==>
      && r[i] == qs[i].(options := r[i].options)
      && r[i].options.Some?
      && |r[i].options.value| == |qs[i].options.GetOr([])| + 1
      && r[i].options.value[..|qs[i].options.GetOr([])|] == qs[i].options.GetOr([])
      && r[i].options.value[|qs[i].options.GetOr([])|] == ""
  {
    if qs == [] then []
    else
      var q := qs[0];
      [if q.id == id then q.(options := Some(q.options.GetOr([]) + [""])) else q] + AddOption(qs[1..], id)
  }

  /** `q.options?.map((opt, i) => (i === index ? value : opt))`. */
  function ReplaceAt(opts: seq<string>, index: int, value: string): (r: seq<string>)
    ensures |r| == |opts|
    ensures forall i :: 0 <= i < |opts| ==> r[i] == (if i == index then value else opts[i])
  {
    if opts == [] then []
    else [if index == 0 then value else opts[0]] + ReplaceAt(opts[1..], index - 1, value)
  }

  /**
   * `updateOption`: position `index` of the matching questions' options
   * becomes `value`. Lengths are kept, an index outside the list changes
   * nothing, and absent options stay absent.
   */
  function UpdateOption(qs: seq<EditorQuestion>, id: int, index: int, value: string): (r: seq<EditorQuestion>)
    ensures |r| == |qs|
    ensures forall i :: 0 <= i < |qs| && qs[i].id != id ==> r[i] == qs[i]
    ensures forall i :: 0 <= i < |qs| && qs[i].id == id ==>
      && r[i] == qs[i].(options := r[i].options)
      && (qs[i].options.None? ==> r[i].options.None?)
      && (qs[i].options.Some? ==> r[i].options.Some? && |r[i].options.value| == |qs[i].options.value|)
  {
    if qs == [] then []
    else
      var q := qs[0];
      var q' := if q.id == id then q.(options := if q.options.None? then None else Some(ReplaceAt(q.options.value, index, value))) else q;
      [q'] + UpdateOption(qs[1..], id, index, value)
  }

  /** The edited option reads back as written, and every other option is kept. */
  lemma {:induction false} UpdateOptionAt(qs: seq<EditorQuestion>, id: int, index: int, value: string, i: nat, j: nat)
    requires i < |qs| && qs[i].id == id && qs[i].options.Some? && j < |qs[i].options.value|
    ensures UpdateOption(qs, id, index, value)[i].options.value[j] == if j == index then value else qs[i].options.value[j]
  {
    if i > 0 {
      UpdateOptionAt(qs[1..], id, index, value, i - 1, j);
    }
  }

  /** `removeQuestion`: every question with the id dropped, the rest kept in order. */
  function RemoveQuestion(qs: seq<EditorQuestion>, id: int): (r: seq<EditorQuestion>)
    ensures |r| <= |qs|
    ensures forall q :: q in r ==> q in qs && q.id != id
    ensures forall q :: q in qs && q.id != id ==> q in r
  {
    if qs == [] then []
    else if qs[0].id == id then RemoveQuestion(qs[1..], id)
    else [qs[0]] + RemoveQuestion(qs[1..], id)
  }

  /** Removal keeps order: removing from two lists joined is joining the two removals. */
  lemma {:induction false} RemoveQuestionConcat(a: seq<EditorQuestion>, b: seq<EditorQuestion>, id: int)
    ensures RemoveQuestion(a + b, id) == RemoveQuestion(a, id) + RemoveQuestion(b, id)
  {
    if a == [] {
      assert a + b == b;
    } else {
      assert (a + b)[0] == a[0] && (a + b)[1..] == a[1..] + b;
      RemoveQuestionConcat(a[1..], b, id);
    }
  }

  /** Removing an id no question carries changes nothing. */
  lemma {:induction false} RemoveAbsent(qs: seq<EditorQuestion>, id: int)
    requires forall q :: q in qs ==> q.id != id
    ensures RemoveQuestion(qs, id) == qs
  {
    if qs != [] {
      assert qs == [qs[0]] + qs[1..];
      RemoveAbsent(qs[1..], id);
    }
  }

  /** A question added under a fresh id and then removed leaves the list as it was. */
  lemma AddThenRemove(qs: seq<EditorQuestion>, now: int)
    requires forall q :: q in qs ==> q.id != now
    ensures RemoveQuestion(AddQuestion(qs, now), now) == qs
  {
    RemoveQuestionConcat(qs, [EditorQuestion(now, "text", "", None)], now);
    RemoveAbsent(qs, now);
  }

  /** The option editor shows for the `multipleChoice` and `checkbox` types only. */
  predicate ShowsOptionEditor(q: EditorQuestion) {
    q.qtype == "multipleChoice" || q.qtype == "checkbox"
  }

  /** A new question is a text question, so it shows no option editor until its type is changed. */
  lemma NewQuestionHasNoOptions(qs: seq<EditorQuestion>, now: int)
    ensures !ShowsOptionEditor(AddQuestion(qs, now)[|qs|])
    ensures ShowsOptionEditor(UpdateQuestion(AddQuestion(qs, now), now, TypeField, "checkbox")[|qs|])
  {
  }
}
