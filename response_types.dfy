/** Stored responses and the decoded answer map. */
module ResponseTypes {
  import opened Wrappers
  import opened Objects
  import opened SurveyTypes

  /** One answer: `string | string[] | string[][]`. */
  datatype Answer = Text(s: string) | List(items: seq<string>) | Table(rows: seq<seq<string>>)

  /** A decoded answer map, question id to answer, in the order the object lists them. */
  type Answers = Obj<Answer>

  /**
   * A stored response. Its answers stay one encoded string; readers decode
   * it into `Answers` first.
   */
  datatype Response = Response(
    id: string,
    surveyId: string,
    user: Option<string>,
    answers: string,
    createdAt: int)

  /**
   * The shape each widget records for its question type, which readers
   * take for granted when they cast the value. An empty array is both an
   * empty list and an empty table.
   */
  predicate Fits(t: QuestionType, a: Answer) {
    match t
    case Input => a.Text?
    case Textarea => a.Text?
    case Radio => a.Text?
    case Select => a.Text?
    case Checkbox => a.List? || a == Table([])
    case Unit => a.List? || a == Table([])
    case QuestionGroup => a.Table? || a == List([])
    case Other(_) => true
  }

  /** The instances of a group answer: its rows, none for an empty array. */
  function GroupRows(a: Answer): seq<seq<string>>
    requires Fits(QuestionGroup, a)
  {
    if a.Table? then a.rows else []
  }

  /** The entries of a list answer: its items, none for an empty array. */
  function ListItems(a: Answer): seq<string>
    requires Fits(Checkbox, a)
  {
    if a.List? then a.items else []
  }

  /** Every answer whose question exists has the shape its question's widget records. */
  predicate WellShaped(questions: Obj<Question>, answers: Answers) {
    forall i :: 0 <= i < |answers| ==> Shaped(questions, answers[i])
  }

  predicate Shaped(questions: Obj<Question>, entry: (string, Answer)) {
    HasKey(questions, entry.0) ==> Fits(Get(questions, entry.0).value.qtype, entry.1)
  }
}
