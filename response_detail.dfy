/**
 * The response detail dialog: every decoded answer of one response shown
 * as its question's title and the answer's text, with choice indices
 * resolved to labels and group instances laid out one block each.
 */
module ResponseDetail {
  import opened Wrappers
  import opened Objects
  import opened Decimal
  import opened SurveyTypes
  import opened ResponseTypes
  import opened Labels
  import SurveyResult

  /** One cell of a group instance: the sub-question's `content` (absent without sub-questions) and the text. */
  datatype Field = Field(caption: Option<string>, text: string)

  /** One group instance, headed "answer <number>". */
  datatype Instance = Instance(number: nat, fields: seq<Field>)

  /** What `getTextRespone` renders for one answer. */
  datatype Shown =
    | Line(title: string, text: string)
    | Block(title: string, instances: seq<Instance>)
    | Blank

  /**
   * Where rendering throws: an answer whose question the survey lacks, or a
   * group cell past the end of the question's sub-question list.
   */
  datatype DetailError = UnknownQuestion(id: string) | NoSuchSubQuestion(id: string, field: nat)

  /**
   * `v.map((vv, kk) => ... question.subQuestions?.[kk].content ...)`: each
   * cell with its label. Without sub-questions the label is absent; with
   * them, a cell beyond their count reads `.content` of `undefined` and
   * rendering fails.
   */
  function Fields(subs: Option<seq<SubQuestion>>, cells: seq<string>): (r: Option<seq<Field>>)
    ensures r.None? <==> subs.Some? && |cells| > |subs.value|
    ensures r.Some? ==> |r.value| == |cells|
  {
    if cells == [] then Some([])
    else
      var n := |cells| - 1;
      match Fields(subs, cells[..n])
      case None => None
      case Some(fs) =>
        if subs.None? then Some(fs + [Field(None, cells[n])])
        else if n < |subs.value| then Some(fs + [Field(Some(subs.value[n].content), cells[n])])
        else None
  }

  /** Cell kk shows its text under sub-question kk's content. */
  lemma {:induction false} FieldShown(subs: Option<seq<SubQuestion>>, cells: seq<string>, kk: nat)
    requires Fields(subs, cells).Some? && kk < |cells|
    ensures subs.Some? ==> kk < |subs.value|
    ensures Fields(subs, cells).value[kk]
         == Field(if subs.Some? then Some(subs.value[kk].content) else None, cells[kk])
  {
    var n := |cells| - 1;
    if kk < n {
      assert cells[..n][kk] == cells[kk];
      FieldShown(subs, cells[..n], kk);
    }
  }

  /** `value.map((v, k) => ...)`: one block per instance, numbered from 1. */
  function Instances(subs: Option<seq<SubQuestion>>, rows: seq<seq<string>>): (r: Option<seq<Instance>>)
    ensures r.None? <==> subs.Some? && exists k :: 0 <= k < |rows| && |rows[k]| > |subs.value|
    ensures r.Some? ==> |r.value| == |rows|
  {
    if rows == [] then Some([])
    else
      var n := |rows| - 1;
      var before := Instances(subs, rows[..n]);
      assert forall k :: 0 <= k < n ==> rows[..n][k] == rows[k];
      match before
      case None => None
      case Some(blocks) =>
        match Fields(subs, rows[n])
        case None => None
        case Some(fs) => Some(blocks + [Instance(n + 1, fs)])
  }

  /** Instance k is block k, numbered k + 1, showing instance k's cells. */
  lemma {:induction false} InstanceShown(subs: Option<seq<SubQuestion>>, rows: seq<seq<string>>, k: nat)
    requires Instances(subs, rows).Some? && k < |rows|
    ensures Fields(subs, rows[k]).Some?
    ensures Instances(subs, rows).value[k] == Instance(k + 1, Fields(subs, rows[k]).value)
  {
    var n := |rows| - 1;
    if k < n {
      assert rows[..n][k] == rows[k];
      InstanceShown(subs, rows[..n], k);
    }
  }

  /**
   * `getTextRespone`: input verbatim; radio and select as the label the
   * recorded index names; checkbox as the labels joined with `", "`; a
   * group as its instances. Textarea, unit and any other type show nothing.
   */
  function TextResponse(qid: string, q: Question, a: Answer): (r: Result<Shown, DetailError>)
    requires Fits(q.qtype, a)
    ensures r.Failure? <==>
      q.qtype == QuestionGroup && q.subQuestions.Some?
      && exists k :: 0 <= k < |GroupRows(a)| && |GroupRows(a)[k]| > |q.subQuestions.value|
    ensures r.Failure? ==> r.error == NoSuchSubQuestion(qid, |q.subQuestions.value|)
    ensures r == Success(Blank) <==> q.qtype.Textarea? || q.qtype.Unit? || q.qtype.Other?
    ensures q.qtype == QuestionGroup && r.Success? ==> r.value.Block? && |r.value.instances| == |GroupRows(a)|
  {
    match q.qtype
    case Input => Success(Line(q.text, a.s))
    case Radio => Success(Line(q.text, ResolveLabel(q.params, a.s)))
    case Select => Success(Line(q.text, ResolveLabel(q.params, a.s)))
    case Checkbox => Success(Line(q.text, CheckboxText(q.params, ListItems(a))))
    case QuestionGroup =>
      (match Instances(q.subQuestions, GroupRows(a))
       case None => Failure(NoSuchSubQuestion(qid, |q.subQuestions.value|))
       case Some(blocks) => Success(Block(q.text, blocks)))
    case Textarea => Success(Blank)
    case Unit => Success(Blank)
    case Other(_) => Success(Blank)
  }

  /**
   * The dialog and the spreadsheet resolve answers alike: an input, radio,
   * select or checkbox answer shows the text its export cell holds.
   */
  lemma DetailAgreesWithExport(qid: string, q: Question, a: Answer, cities: Obj<City>)
    requires Fits(q.qtype, a)
    requires q.qtype in {Input, Radio, Select, Checkbox}
    ensures SurveyResult.CellText(q, a, cities).Some?
    ensures TextResponse(qid, q, a) == Success(Line(q.text, SurveyResult.CellText(q, a, cities).value))
  {
  }

  /** A radio or select answer recorded by its widget shows the option's label. */
  lemma ChoiceShowsLabel(qid: string, q: Question, i: nat)
    requires q.qtype == Radio || q.qtype == Select
    requires q.params.Some? && i < |q.params.value|
    ensures TextResponse(qid, q, Text(IndexString(i))) == Success(Line(q.text, q.params.value[i]))
  {
    ParseIndexString(i);
  }

  /** Group cell (k, kk) shows its text under sub-question kk's content, in block k + 1. */
  lemma GroupCellShown(qid: string, q: Question, a: Answer, k: nat, kk: nat)
    requires q.qtype == QuestionGroup && Fits(QuestionGroup, a)
    requires TextResponse(qid, q, a).Success?
    requires k < |GroupRows(a)| && kk < |GroupRows(a)[k]|
    ensures q.subQuestions.Some? ==> kk < |q.subQuestions.value|
    ensures var b := TextResponse(qid, q, a).value;
      && b.Block? && b.title == q.text && |b.instances| == |GroupRows(a)|
      && b.instances[k].number == k + 1
      && |b.instances[k].fields| == |GroupRows(a)[k]|
      && b.instances[k].fields[kk]
         == Field(if q.subQuestions.Some? then Some(q.subQuestions.value[kk].content) else None, GroupRows(a)[k][kk])
  {
    InstanceShown(q.subQuestions, GroupRows(a), k);
    FieldShown(q.subQuestions, GroupRows(a)[k], kk);
  }

  /** `getTextRespone(_.get(survey.questions, [questionId]), response)`: a missing question throws. */
  function EntryShown(questions: Obj<Question>, entry: (string, Answer)): (r: Result<Shown, DetailError>)
    requires Shaped(questions, entry)
    ensures !HasKey(questions, entry.0) ==> r == Failure(UnknownQuestion(entry.0))
  {
    match Get(questions, entry.0)
    case None => Failure(UnknownQuestion(entry.0))
    case Some(q) => TextResponse(entry.0, q, entry.1)
  }

  /**
   * `Object.entries(answers).map(...)`: one rendering per answer in the
   * order the answers are listed; the first one that throws ends it.
   */
  function Entries(questions: Obj<Question>, answers: Answers): (r: Result<seq<Shown>, DetailError>)
    requires WellShaped(questions, answers)
    ensures r.Failure? <==> exists i :: 0 <= i < |answers| && EntryShown(questions, answers[i]).Failure?
    ensures r.Success? ==> |r.value| == |answers|
  {
    if answers == [] then Success([])
    else
      assert Shaped(questions, answers[0]);
      assert WellShaped(questions, answers[1..]) by {
        assert forall i :: 0 <= i < |answers| - 1 ==> answers[1..][i] == answers[i + 1];
      }
      var rest := Entries(questions, answers[1..]);
      assert forall i :: 1 <= i < |answers| ==> answers[i] == answers[1..][i - 1];
      match EntryShown(questions, answers[0])
      case Failure(e) => Failure(e)
      case Success(s) =>
        match rest
        case Failure(e) => Failure(e)
        case Success(more) => Success([s] + more)
  }

  /** On success, line i of the dialog is answer i's rendering. */
  lemma {:induction false} EntryAt(questions: Obj<Question>, answers: Answers, i: nat)
    requires WellShaped(questions, answers) && i < |answers|
    requires Entries(questions, answers).Success?
    ensures Shaped(questions, answers[i])
    ensures EntryShown(questions, answers[i]) == Success(Entries(questions, answers).value[i])
  {
    assert Shaped(questions, answers[i]);
    if i > 0 {
      assert WellShaped(questions, answers[1..]) by {
        assert forall j :: 0 <= j < |answers| - 1 ==> answers[1..][j] == answers[j + 1];
      }
      assert answers[1..][i - 1] == answers[i];
      EntryAt(questions, answers[1..], i - 1);
    }
  }

  /** The dialog fails with the first answer that fails to render, whatever follows. */
  lemma {:induction false} FirstFailureWins(questions: Obj<Question>, answers: Answers, i: nat)
    requires WellShaped(questions, answers) && i < |answers|
    requires forall j :: 0 <= j < i ==> EntryShown(questions, answers[j]).Success?
    requires EntryShown(questions, answers[i]).Failure?
    ensures Entries(questions, answers) == Failure(EntryShown(questions, answers[i]).error)
  {
    if i > 0 {
      assert WellShaped(questions, answers[1..]) by {
        assert forall j :: 0 <= j < |answers| - 1 ==> answers[1..][j] == answers[j + 1];
      }
      assert answers[1..][i - 1] == answers[i];
      assert forall j :: 0 <= j < i - 1 ==> answers[1..][j] == answers[j + 1];
      FirstFailureWins(questions, answers[1..], i - 1);
    }
  }

  /**
   * The dialog body for a response whose stored answers decode to
   * `answers`; a missing or empty answers string reads as `'{}'`.
   */
  function Detail(survey: Survey, answers: Option<Answers>): (r: Result<seq<Shown>, DetailError>)
    requires answers.Some? ==> WellShaped(survey.questions, answers.value)
    ensures answers.None? ==> r == Success([])
    ensures answers.Some? && r.Success? ==> |r.value| == |answers.value|
  {
    match answers
    case None => Success([])
    case Some(entries) => Entries(survey.questions, entries)
  }
}
