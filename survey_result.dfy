/**
 * The results page's spreadsheet export. The header maps each column key to
 * its title; each response's decoded answers are spread over rows, a group
 * answer's instance k going to the response's row k and every other answer
 * to its row 0.
 */
module SurveyResult {
  import opened Wrappers
  import opened Objects
  import opened Decimal
  import opened SurveyTypes
  import opened ResponseTypes
  import opened Labels

  /** One spreadsheet row: column key to cell text. */
  type Row = Obj<string>

  /** Rows as `_.set` leaves them: an index it skipped over is a hole. */
  type Rows = seq<Option<Row>>

  /** Reading `survey.questions[key].type` throws when the answer's question is missing. */
  datatype ExportError = UnknownQuestion(key: string)

  /** The header row and the response rows, in the order they are written. */
  datatype Sheet = Sheet(header: Row, rows: Rows)

  function Max(a: nat, b: nat): nat {
    if a < b then b else a
  }

  /** `survey?.questions ?? {}`. */
  function QuestionsOf(survey: Option<Survey>): Obj<Question> {
    if survey.Some? then survey.value.questions else []
  }

  /** The column of sub-question `index` of question `key`: `` `${key}-${index}` ``. */
  function Column(key: string, index: nat): string {
    key + "-" + IndexString(index)
  }

  /** Different sub-questions of one question never share a column. */
  lemma ColumnInjective(key: string, m: nat, n: nat)
    requires Column(key, m) == Column(key, n)
    ensures m == n
  {
    assert Column(key, m)[|key| + 1..] == IndexString(m);
    assert Column(key, n)[|key| + 1..] == IndexString(n);
    IndexStringInjective(m, n);
  }

  lemma ColumnsDiffer(key: string, m: nat, n: nat)
    requires m != n
    ensures Column(key, m) != Column(key, n)
  {
    if Column(key, m) == Column(key, n) {
      ColumnInjective(key, m, n);
    }
  }

  // ---------------------------------------------------------------- header

  /**
   * The columns one question contributes: one per sub-question when it has
   * a sub-question list (none for an empty one), else one keyed by its id.
   */
  function ColumnsOf(key: string, q: Question): seq<(string, string)> {
    if q.subQuestions.Some? then SubColumns(key, q.text, q.subQuestions.value)
    else [(key, q.text)]
  }

  /** `subQuestions.forEach((sub, index) => ...)`: one column per sub-question, in order. */
  function SubColumns(key: string, text: string, subs: seq<SubQuestion>): (cols: seq<(string, string)>)
    ensures |cols| == |subs|
  {
    if subs == [] then []
    else
      var n := |subs| - 1;
      SubColumns(key, text, subs[..n]) + [(Column(key, n), text + " - " + subs[n].content)]
  }

  /** Sub-question i's column is `"<key>-<i>"`, titled `"<text> - <content>"`. */
  lemma {:induction false} SubColumnAt(key: string, text: string, subs: seq<SubQuestion>, i: nat)
    requires i < |subs|
    ensures SubColumns(key, text, subs)[i] == (Column(key, i), text + " - " + subs[i].content)
  {
    var n := |subs| - 1;
    if i < n {
      SubColumnAt(key, text, subs[..n], i);
    }
  }

  /** Every question's columns, in question order. */
  function Columns(questions: Obj<Question>): seq<(string, string)> {
    if questions == [] then []
    else
      var n := |questions| - 1;
      Columns(questions[..n]) + ColumnsOf(questions[n].0, questions[n].1)
  }

  /**
   * Each question lists its columns: its sub-question columns, titled
   * `"<text> - <content>"`, or its own id titled with its text.
   */
  lemma {:induction false} ColumnsListed(questions: Obj<Question>, p: nat, i: nat)
    requires p < |questions|
    ensures var (key, q) := questions[p];
      && (q.subQuestions.Some? && i < |q.subQuestions.value| ==>
            (Column(key, i), q.text + " - " + q.subQuestions.value[i].content) in Columns(questions))
      && (q.subQuestions.None? ==> (key, q.text) in Columns(questions))
  {
    var n := |questions| - 1;
    var (key, q) := questions[p];
    if p < n {
      ColumnsListed(questions[..n], p, i);
    } else {
      if q.subQuestions.Some? && i < |q.subQuestions.value| {
        SubColumnAt(key, q.text, q.subQuestions.value, i);
        assert ColumnsOf(key, q)[i] == (Column(key, i), q.text + " - " + q.subQuestions.value[i].content);
      } else if q.subQuestions.None? {
        assert ColumnsOf(key, q)[0] == (key, q.text);
      }
    }
  }

  lemma FromPairsSnoc(pairs: seq<(string, string)>, p: (string, string))
    ensures FromPairs(pairs + [p]) == Put(FromPairs(pairs), p.0, p.1)
  {
    assert (pairs + [p])[..|pairs|] == pairs;
  }

  lemma ColumnsStep(questions: Obj<Question>, i: nat)
    requires i < |questions|
    ensures Columns(questions[..i + 1]) == Columns(questions[..i]) + ColumnsOf(questions[i].0, questions[i].1)
  {
    assert questions[..i + 1][..i] == questions[..i];
  }

  lemma HeaderStep(done: seq<(string, string)>, key: string, text: string, subs: seq<SubQuestion>, j: nat)
    requires j < |subs|
    ensures FromPairs(done + SubColumns(key, text, subs[..j + 1]))
         == Put(FromPairs(done + SubColumns(key, text, subs[..j])), Column(key, j), text + " - " + subs[j].content)
  {
    var cell := (Column(key, j), text + " - " + subs[j].content);
    assert subs[..j + 1][..j] == subs[..j];
    assert done + SubColumns(key, text, subs[..j + 1]) == (done + SubColumns(key, text, subs[..j])) + [cell];
    FromPairsSnoc(done + SubColumns(key, text, subs[..j]), cell);
  }

  /** The inner `forEach` of the header loop: one column per sub-question. */
  method AddSubColumns(header: Row, ghost done: seq<(string, string)>, key: string, text: string, subs: seq<SubQuestion>)
    returns (r: Row)
    requires header == FromPairs(done)
    ensures r == FromPairs(done + SubColumns(key, text, subs))
  {
    r := header;
    assert done + SubColumns(key, text, subs[..0]) == done;
    for j := 0 to |subs|
      invariant r == FromPairs(done + SubColumns(key, text, subs[..j]))
    {
      HeaderStep(done, key, text, subs, j);
      r := Put(r, Column(key, j), text + " - " + subs[j].content);
    }
    assert subs[..|subs|] == subs;
  }

  /**
   * The header loop: each column assigned in turn into `{}`. A column key
   * that repeats keeps its first place and takes its last title; when no
   * key repeats, the header is the column list itself.
   */
  method BuildHeader(questions: Obj<Question>) returns (header: Row)
    ensures header == FromPairs(Columns(questions))
    ensures forall c :: Get(header, c) == LastValue(Columns(questions), c)
    ensures Wf(Columns(questions)) ==> header == Columns(questions)
  {
    header := [];
    for i := 0 to |questions|
      invariant header == FromPairs(Columns(questions[..i]))
    {
      var key := questions[i].0;
      var q := questions[i].1;
      ghost var done := Columns(questions[..i]);
      ColumnsStep(questions, i);
      if q.subQuestions.Some? {
        header := AddSubColumns(header, done, key, q.text, q.subQuestions.value);
      } else {
        FromPairsSnoc(done, (key, q.text));
        header := Put(header, key, q.text);
      }
    }
    assert questions[..|questions|] == questions;
    forall c ensures Get(header, c) == LastValue(Columns(questions), c) {
      FromPairsGet(Columns(questions), c);
    }
    if Wf(Columns(questions)) {
      FromDistinctPairs(Columns(questions));
    }
  }

  // ------------------------------------------------------------------ rows

  /** `tmp[k]?.[col]`: the cell at row k and column col, if written. */
  function CellOf(rows: Rows, k: nat, col: string): Option<string> {
    if k < |rows| && rows[k].Some? then Get(rows[k].value, col) else None
  }

  /**
   * `_.set(tmp, [k, col], v)`: row k gets the cell, creating the row (and
   * leaving holes before it) when the rows stop short of it. No other cell
   * changes.
   */
  function SetCell(rows: Rows, k: nat, col: string, v: string): (r: Rows)
    ensures |r| == Max(|rows|, k + 1)
    ensures CellOf(r, k, col) == Some(v)
    ensures forall m :: 0 <= m < |rows| && m != k ==> r[m] == rows[m]
    ensures forall m :: |rows| <= m < k ==> r[m].None?
    ensures r[k].Some?
  {
    var row := if k < |rows| && rows[k].Some? then rows[k].value else [];
    var updated := Some(Put(row, col, v));
    if k < |rows| then rows[k := updated] else rows + seq(k - |rows|, _ => None) + [updated]
  }

  /** Setting one cell leaves every other cell as it was. */
  lemma SetCellKeeps(rows: Rows, k: nat, col: string, v: string, m: nat, c: string)
    requires m != k || c != col
    ensures CellOf(SetCell(rows, k, col, v), m, c) == CellOf(rows, m, c)
  {
    var r := SetCell(rows, k, col, v);
    if m == k {
      var row := if k < |rows| && rows[k].Some? then rows[k].value else [];
      assert r[k] == Some(Put(row, col, v));
    }
  }

  /** Instance k of a group answer: `v.forEach((vv, kk) => _.set(tmp, [k, `${key}-${kk}`], vv))`. */
  function WriteCells(rows: Rows, k: nat, key: string, cells: seq<string>): (r: Rows)
    ensures |r| == if cells == [] then |rows| else Max(|rows|, k + 1)
    ensures forall m :: 0 <= m < |rows| && m != k ==> r[m] == rows[m]
  {
    if cells == [] then rows
    else
      var n := |cells| - 1;
      SetCell(WriteCells(rows, k, key, cells[..n]), k, Column(key, n), cells[n])
  }

  /** Field kk of the instance lands in column `"<key>-<kk>"` of row k; later fields do not overwrite it. */
  lemma {:induction false} WriteCellsPlaces(rows: Rows, k: nat, key: string, cells: seq<string>, kk: nat)
    requires kk < |cells|
    ensures CellOf(WriteCells(rows, k, key, cells), k, Column(key, kk)) == Some(cells[kk])
  {
    var n := |cells| - 1;
    var prev := WriteCells(rows, k, key, cells[..n]);
    WriteCellsSnoc(rows, k, key, cells, n);
    assert cells[..n + 1] == cells;
    if kk < n {
      assert cells[..n][kk] == cells[kk];
      WriteCellsPlaces(rows, k, key, cells[..n], kk);
      ColumnsDiffer(key, kk, n);
      SetCellKeeps(prev, k, Column(key, n), cells[n], k, Column(key, kk));
    }
  }

  /** One past the last group instance that has a cell; 0 when none has. */
  function GroupSpan(instances: seq<seq<string>>): (s: nat)
    ensures s <= |instances|
    ensures s > 0 ==> instances[s - 1] != []
    ensures forall i :: s <= i < |instances| ==> instances[i] == []
  {
    if instances == [] then 0
    else if instances[|instances| - 1] != [] then |instances|
    else GroupSpan(instances[..|instances| - 1])
  }

  /**
   * A group answer: each instance's fields written into the row of the
   * same index. The rows grow to cover the last instance that has a cell.
   */
  function WriteGroup(rows: Rows, key: string, instances: seq<seq<string>>): (r: Rows)
    ensures |r| == Max(|rows|, GroupSpan(instances))
    ensures forall m :: |instances| <= m < |rows| ==> r[m] == rows[m]
  {
    if instances == [] then rows
    else
      var n := |instances| - 1;
      WriteCells(WriteGroup(rows, key, instances[..n]), n, key, instances[n])
  }

  /** Field kk of instance k lands in row k under column `"<key>-<kk>"`. */
  lemma {:induction false} WriteGroupPlaces(rows: Rows, key: string, instances: seq<seq<string>>, k: nat, kk: nat)
    requires k < |instances| && kk < |instances[k]|
    ensures CellOf(WriteGroup(rows, key, instances), k, Column(key, kk)) == Some(instances[k][kk])
  {
    var n := |instances| - 1;
    var prev := WriteGroup(rows, key, instances[..n]);
    if k == n {
      WriteCellsPlaces(prev, n, key, instances[n], kk);
    } else {
      assert instances[..n][k] == instances[k];
      WriteGroupPlaces(rows, key, instances[..n], k, kk);
      assert WriteCells(prev, n, key, instances[n])[k] == prev[k];
    }
  }

  /** Writing an instance leaves alone every column outside `"<key>-<kk>"`. */
  lemma {:induction false} WriteCellsKeeps(rows: Rows, k: nat, key: string, cells: seq<string>, m: nat, c: string)
    requires forall kk: nat :: Column(key, kk) != c
    ensures CellOf(WriteCells(rows, k, key, cells), m, c) == CellOf(rows, m, c)
  {
    if cells != [] {
      var n := |cells| - 1;
      WriteCellsKeeps(rows, k, key, cells[..n], m, c);
      SetCellKeeps(WriteCells(rows, k, key, cells[..n]), k, Column(key, n), cells[n], m, c);
    }
  }

  /** Writing a group answer leaves alone every column outside `"<key>-<kk>"`, in every row. */
  lemma {:induction false} WriteGroupKeeps(rows: Rows, key: string, instances: seq<seq<string>>, m: nat, c: string)
    requires forall kk: nat :: Column(key, kk) != c
    ensures CellOf(WriteGroup(rows, key, instances), m, c) == CellOf(rows, m, c)
  {
    if instances != [] {
      var n := |instances| - 1;
      WriteGroupKeeps(rows, key, instances[..n], m, c);
      WriteCellsKeeps(WriteGroup(rows, key, instances[..n]), n, key, instances[n], m, c);
    }
  }

  /**
   * The text a non-group answer puts in its column: inputs verbatim,
   * radio and select resolved to the label, checkbox labels joined with
   * `", "`, unit as its three place names. Other tags write nothing.
   */
  function CellText(q: Question, a: Answer, cities: Obj<City>): Option<string>
    requires Fits(q.qtype, a)
  {
    match q.qtype
    case Input => Some(a.s)
    case Textarea => Some(a.s)
    case Radio => Some(ResolveLabel(q.params, a.s))
    case Select => Some(ResolveLabel(q.params, a.s))
    case Checkbox => Some(CheckboxText(q.params, ListItems(a)))
    case Unit => Some(UnitText(cities, ListItems(a)))
    case QuestionGroup => None
    case Other(_) => None
  }

  /** How many rows an answer needs: its group span, 1 for a cell, 0 for nothing. */
  function AnswerSpan(q: Question, a: Answer, cities: Obj<City>): nat
    requires Fits(q.qtype, a)
  {
    if q.qtype == QuestionGroup then GroupSpan(GroupRows(a))
    else if CellText(q, a, cities).Some? then 1
    else 0
  }

  /**
   * One answer's writes into its response's rows. A non-group answer
   * touches only row 0; a group answer fills one row per instance.
   */
  function WriteAnswer(rows: Rows, key: string, q: Question, a: Answer, cities: Obj<City>): (r: Rows)
    requires Fits(q.qtype, a)
    ensures |r| == Max(|rows|, AnswerSpan(q, a, cities))
    ensures q.qtype != QuestionGroup ==>
      && CellOf(r, 0, key) == (if CellText(q, a, cities).Some? then CellText(q, a, cities) else CellOf(rows, 0, key))
      && forall m :: 1 <= m < |rows| ==> r[m] == rows[m]
  {
    if q.qtype == QuestionGroup then WriteGroup(rows, key, GroupRows(a))
    else
      match CellText(q, a, cities)
      case Some(text) => SetCell(rows, 0, key, text)
      case None => rows
  }

  /**
   * The first answer, in the order the answers are listed, whose question
   * the survey does not have; reading its type is where the export throws.
   */
  function FirstUnknown(questions: Obj<Question>, answers: Answers): (r: Option<string>)
    ensures r.None? <==> forall i :: 0 <= i < |answers| ==> HasKey(questions, answers[i].0)
    ensures r.Some? ==> !HasKey(questions, r.value)
  {
    if answers == [] then None
    else if !HasKey(questions, answers[0].0) then Some(answers[0].0)
    else
      var r := FirstUnknown(questions, answers[1..]);
      assert forall i :: 1 <= i < |answers| ==> answers[i] == answers[1..][i - 1];
      r
  }

  /** The export throws at the first answer without a question, whatever follows it. */
  lemma {:induction false} FirstUnknownAt(questions: Obj<Question>, answers: Answers, i: nat)
    requires i < |answers| && !HasKey(questions, answers[i].0)
    requires forall j :: 0 <= j < i ==> HasKey(questions, answers[j].0)
    ensures FirstUnknown(questions, answers) == Some(answers[i].0)
  {
    if i > 0 {
      assert HasKey(questions, answers[0].0);
      assert answers[1..][i - 1] == answers[i];
      assert forall j :: 0 <= j < i - 1 ==> answers[1..][j] == answers[j + 1];
      FirstUnknownAt(questions, answers[1..], i - 1);
    }
  }

  /**
   * One answer written into `tmp`. An answer whose question is missing
   * writes nothing; one whose shape its question's widget could not have
   * recorded is outside the model and writes nothing either.
   */
  function WriteEntry(questions: Obj<Question>, prev: Rows, entry: (string, Answer), cities: Obj<City>): Rows {
    match Get(questions, entry.0)
    case None => prev
    case Some(q) => if Fits(q.qtype, entry.1) then WriteAnswer(prev, entry.0, q, entry.1, cities) else prev
  }

  /**
   * An answer leaves alone every cell outside its own columns: the column
   * `key` of row 0 for a non-group answer, `"<key>-<kk>"` for a group.
   */
  lemma WriteAnswerKeeps(rows: Rows, key: string, q: Question, a: Answer, cities: Obj<City>, m: nat, c: string)
    requires Fits(q.qtype, a)
    requires q.qtype == QuestionGroup ==> forall kk: nat :: Column(key, kk) != c
    requires q.qtype != QuestionGroup ==> c != key
    ensures CellOf(WriteAnswer(rows, key, q, a, cities), m, c) == CellOf(rows, m, c)
  {
    if q.qtype == QuestionGroup {
      WriteGroupKeeps(rows, key, GroupRows(a), m, c);
    } else if CellText(q, a, cities).Some? {
      SetCellKeeps(rows, 0, key, CellText(q, a, cities).value, m, c);
    }
  }

  /**
   * Whether the answer stored under `key` writes column c: a group answer
   * writes the columns `"<key>-<kk>"`, any other answer the column `key`,
   * and an answer without a question nothing.
   */
  ghost predicate WritesColumn(questions: Obj<Question>, key: string, c: string) {
    && HasKey(questions, key)
    && if Get(questions, key).value.qtype == QuestionGroup then exists kk: nat :: Column(key, kk) == c
       else key == c
  }

  /** An entry that does not write column c leaves that column as it was, in every row. */
  lemma WriteEntryKeeps(questions: Obj<Question>, prev: Rows, entry: (string, Answer), cities: Obj<City>, m: nat, c: string)
    requires !WritesColumn(questions, entry.0, c)
    ensures CellOf(WriteEntry(questions, prev, entry, cities), m, c) == CellOf(prev, m, c)
  {
    match Get(questions, entry.0)
    case None =>
    case Some(q) =>
      if Fits(q.qtype, entry.1) {
        WriteAnswerKeeps(prev, entry.0, q, entry.1, cities, m, c);
      }
  }

  /** Every answer written in turn into `tmp`. */
  function WriteAll(questions: Obj<Question>, answers: Answers, cities: Obj<City>): Rows {
    if answers == [] then []
    else
      var n := |answers| - 1;
      WriteEntry(questions, WriteAll(questions, answers[..n], cities), answers[n], cities)
  }

  /** The rows of one response, or the first answer whose question is missing. */
  function ResponseRows(questions: Obj<Question>, answers: Answers, cities: Obj<City>): Result<Rows, ExportError>
  {
    match FirstUnknown(questions, answers)
    case Some(key) => Failure(UnknownQuestion(key))
    case None => Success(WriteAll(questions, answers, cities))
  }

  /** The largest span among a response's answers. */
  function MaxSpan(questions: Obj<Question>, answers: Answers, cities: Obj<City>): nat {
    if answers == [] then 0
    else
      var n := |answers| - 1;
      var here := match Get(questions, answers[n].0)
        case None => 0
        case Some(q) => if Fits(q.qtype, answers[n].1) then AnswerSpan(q, answers[n].1, cities) else 0;
      Max(MaxSpan(questions, answers[..n], cities), here)
  }

  /**
   * A response contributes as many rows as its widest answer needs, so an
   * empty answer map contributes none.
   */
  lemma {:induction false} WriteAllLength(questions: Obj<Question>, answers: Answers, cities: Obj<City>)
    ensures |WriteAll(questions, answers, cities)| == MaxSpan(questions, answers, cities)
  {
    if answers != [] {
      var n := |answers| - 1;
      WriteAllLength(questions, answers[..n], cities);
    }
  }

  /**
   * A response either fails at an answer whose question is missing, or
   * yields as many rows as its widest answer needs.
   */
  lemma ResponseRowsShape(questions: Obj<Question>, answers: Answers, cities: Obj<City>)
    ensures ResponseRows(questions, answers, cities).Failure? <==>
      exists i :: 0 <= i < |answers| && !HasKey(questions, answers[i].0)
    ensures ResponseRows(questions, answers, cities).Success? ==>
      |ResponseRows(questions, answers, cities).value| == MaxSpan(questions, answers, cities)
  {
    WriteAllLength(questions, answers, cities);
  }

  /** Answers after position i that do not write column c leave it as the first i answers left it. */
  lemma {:induction false} WriteAllKeeps(questions: Obj<Question>, answers: Answers, cities: Obj<City>, i: nat, m: nat, c: string)
    requires i <= |answers|
    requires forall j :: i <= j < |answers| ==> !WritesColumn(questions, answers[j].0, c)
    ensures CellOf(WriteAll(questions, answers, cities), m, c) == CellOf(WriteAll(questions, answers[..i], cities), m, c)
  {
    if i < |answers| {
      var n := |answers| - 1;
      assert answers[..n][..i] == answers[..i];
      WriteAllKeeps(questions, answers[..n], cities, i, m, c);
      WriteEntryKeeps(questions, WriteAll(questions, answers[..n], cities), answers[n], cities, m, c);
    } else {
      assert answers[..i] == answers;
    }
  }

  /** The first i + 1 answers are the first i followed by answer i. */
  lemma WriteAllPrefix(questions: Obj<Question>, answers: Answers, cities: Obj<City>, i: nat)
    requires i < |answers|
    ensures WriteAll(questions, answers[..i + 1], cities)
         == WriteEntry(questions, WriteAll(questions, answers[..i], cities), answers[i], cities)
  {
    assert answers[..i + 1][..i] == answers[..i];
    assert answers[..i + 1][i] == answers[i];
  }

  /**
   * Instance k of a group answer, at any position in the response, fills
   * the response's row k under `"<key>-<kk>"`, as long as no later answer
   * writes the same column.
   */
  lemma GroupAnswerPlaced(questions: Obj<Question>, answers: Answers, cities: Obj<City>, i: nat, k: nat, kk: nat)
    requires i < |answers|
    requires var (key, a) := answers[i];
      HasKey(questions, key) && Get(questions, key).value.qtype == QuestionGroup && Fits(QuestionGroup, a)
      && k < |GroupRows(a)| && kk < |GroupRows(a)[k]|
    requires forall j :: i < j < |answers| ==> !WritesColumn(questions, answers[j].0, Column(answers[i].0, kk))
    ensures var (key, a) := answers[i];
      CellOf(WriteAll(questions, answers, cities), k, Column(key, kk)) == Some(GroupRows(a)[k][kk])
  {
    var (key, a) := answers[i];
    WriteAllPrefix(questions, answers, cities, i);
    WriteGroupPlaces(WriteAll(questions, answers[..i], cities), key, GroupRows(a), k, kk);
    WriteAllKeeps(questions, answers, cities, i + 1, k, Column(key, kk));
  }

  /**
   * A non-group answer, at any position in the response, leaves its text in
   * row 0 under its id, as long as no later answer writes that column;
   * inputs and textareas are copied verbatim.
   */
  lemma CellAnswerPlaced(questions: Obj<Question>, answers: Answers, cities: Obj<City>, i: nat)
    requires i < |answers|
    requires var (key, a) := answers[i];
      HasKey(questions, key) && Get(questions, key).value.qtype != QuestionGroup
      && Fits(Get(questions, key).value.qtype, a)
    requires forall j :: i < j < |answers| ==> !WritesColumn(questions, answers[j].0, answers[i].0)
    ensures var (key, a) := answers[i]; var q := Get(questions, key).value;
      CellText(q, a, cities).Some? ==> CellOf(WriteAll(questions, answers, cities), 0, key) == CellText(q, a, cities)
    ensures var (key, a) := answers[i]; var q := Get(questions, key).value;
      q.qtype in {Input, Textarea} ==> CellOf(WriteAll(questions, answers, cities), 0, key) == Some(a.s)
  {
    var (key, a) := answers[i];
    WriteAllPrefix(questions, answers, cities, i);
    WriteAllKeeps(questions, answers, cities, i + 1, 0, key);
  }

  /** All responses' rows, one response after the other. */
  function ExportRows(questions: Obj<Question>, parsed: seq<Answers>, cities: Obj<City>): Result<Rows, ExportError>
  {
    if parsed == [] then Success([])
    else
      var n := |parsed| - 1;
      match ExportRows(questions, parsed[..n], cities)
      case Failure(e) => Failure(e)
      case Success(rows) =>
        match ResponseRows(questions, parsed[n], cities)
        case Failure(e) => Failure(e)
        case Success(more) => Success(rows + more)
  }

  /** Every response's widest answer, summed. */
  function TotalSpan(questions: Obj<Question>, parsed: seq<Answers>, cities: Obj<City>): nat
  {
    if parsed == [] then 0
    else
      var n := |parsed| - 1;
      TotalSpan(questions, parsed[..n], cities) + MaxSpan(questions, parsed[n], cities)
  }

  /** The export has as many rows as its responses need, taken together. */
  lemma {:induction false} ExportRowsLength(questions: Obj<Question>, parsed: seq<Answers>, cities: Obj<City>)
    ensures ExportRows(questions, parsed, cities).Success? ==>
      |ExportRows(questions, parsed, cities).value| == TotalSpan(questions, parsed, cities)
  {
    if parsed != [] {
      var n := |parsed| - 1;
      ExportRowsLength(questions, parsed[..n], cities);
      WriteAllLength(questions, parsed[n], cities);
    }
  }

  /** One answer to a question the survey lacks, in any response, aborts the export. */
  lemma ExportFailsOnUnknown(questions: Obj<Question>, parsed: seq<Answers>, cities: Obj<City>, i: nat, j: nat)
    requires i < |parsed| && j < |parsed[i]| && !HasKey(questions, parsed[i][j].0)
    ensures ExportRows(questions, parsed, cities).Failure?
  {
    ResponseRowsShape(questions, parsed[i], cities);
    ExportRowsSnoc(questions, parsed, cities, i);
    ExportFailureSticks(questions, parsed, cities, i + 1);
  }

  /** When every answer's question exists, the export succeeds. */
  lemma {:induction false} ExportSucceedsWhenKnown(questions: Obj<Question>, parsed: seq<Answers>, cities: Obj<City>)
    requires forall m, j :: 0 <= m < |parsed| && 0 <= j < |parsed[m]| ==> HasKey(questions, parsed[m][j].0)
    ensures ExportRows(questions, parsed, cities).Success?
  {
    if parsed != [] {
      var n := |parsed| - 1;
      ExportSucceedsWhenKnown(questions, parsed[..n], cities);
      ResponseRowsShape(questions, parsed[n], cities);
    }
  }

  // -------------------------------------------------------------- the loops

  /** One more field of the instance is one more `_.set`. */
  lemma WriteCellsSnoc(rows: Rows, k: nat, key: string, cells: seq<string>, kk: nat)
    requires kk < |cells|
    ensures WriteCells(rows, k, key, cells[..kk + 1])
      == SetCell(WriteCells(rows, k, key, cells[..kk]), k, Column(key, kk), cells[kk])
  {
    assert cells[..kk + 1][..kk] == cells[..kk];
  }

  /** One more instance of the group is one more run of the inner loop. */
  lemma WriteGroupSnoc(rows: Rows, key: string, instances: seq<seq<string>>, k: nat)
    requires k < |instances|
    ensures WriteGroup(rows, key, instances[..k + 1])
      == WriteCells(WriteGroup(rows, key, instances[..k]), k, key, instances[k])
  {
    assert instances[..k + 1][..k] == instances[..k];
  }

  /** The inner `forEach`: instance k's fields, one `_.set` each. */
  method WriteCellsLoop(rows: Rows, k: nat, key: string, cells: seq<string>) returns (r: Rows)
    ensures r == WriteCells(rows, k, key, cells)
  {
    r := rows;
    for kk := 0 to |cells|
      invariant r == WriteCells(rows, k, key, cells[..kk])
    {
      WriteCellsSnoc(rows, k, key, cells, kk);
      r := SetCell(r, k, Column(key, kk), cells[kk]);
    }
    assert cells[..|cells|] == cells;
  }

  /** The outer `forEach` over a group answer's instances. */
  method WriteGroupLoop(rows: Rows, key: string, instances: seq<seq<string>>) returns (r: Rows)
    ensures r == WriteGroup(rows, key, instances)
  {
    r := rows;
    for k := 0 to |instances|
      invariant r == WriteGroup(rows, key, instances[..k])
    {
      WriteGroupSnoc(rows, key, instances, k);
      r := WriteCellsLoop(r, k, key, instances[k]);
    }
    assert instances[..|instances|] == instances;
  }

  /** One answer's `switch` on its question's type. */
  method WriteAnswerStep(rows: Rows, key: string, q: Question, a: Answer, cities: Obj<City>) returns (r: Rows)
    requires Fits(q.qtype, a)
    ensures r == WriteAnswer(rows, key, q, a, cities)
  {
    if q.qtype == QuestionGroup {
      r := WriteGroupLoop(rows, key, GroupRows(a));
    } else {
      match CellText(q, a, cities)
      case Some(text) => r := SetCell(rows, 0, key, text);
      case None => r := rows;
    }
  }

  /** One response: its answers written in turn into `tmp`, stopping at a missing question. */
  method ResponseRowsLoop(questions: Obj<Question>, answers: Answers, cities: Obj<City>)
    returns (r: Result<Rows, ExportError>)
    requires WellShaped(questions, answers)
    ensures r == ResponseRows(questions, answers, cities)
  {
    var tmp: Rows := [];
    for i := 0 to |answers|
      invariant AllKnown(questions, answers[..i])
      invariant tmp == WriteAll(questions, answers[..i], cities)
    {
      var key := answers[i].0;
      var found := Get(questions, key);
      if found.None? {
        ResponseRowsFails(questions, answers, cities, i);
        return Failure(UnknownQuestion(key));
      }
      assert HasKey(questions, key);
      assert Shaped(questions, answers[i]);
      var next := WriteAnswerStep(tmp, key, found.value, answers[i].1, cities);
      WriteAllSnoc(questions, answers, cities, i, found.value, tmp, next);
      AllKnownSnoc(questions, answers, i);
      tmp := next;
    }
    ResponseRowsSucceeds(questions, answers, cities, tmp);
    r := Success(tmp);
  }

  /** Every answer's question exists. */
  predicate AllKnown(questions: Obj<Question>, answers: Answers) {
    forall j :: 0 <= j < |answers| ==> HasKey(questions, answers[j].0)
  }

  lemma AllKnownSnoc(questions: Obj<Question>, answers: Answers, i: nat)
    requires i < |answers| && AllKnown(questions, answers[..i]) && HasKey(questions, answers[i].0)
    ensures AllKnown(questions, answers[..i + 1])
  {
    assert forall j :: 0 <= j < i ==> answers[..i + 1][j] == answers[..i][j];
  }

  lemma ResponseRowsFails(questions: Obj<Question>, answers: Answers, cities: Obj<City>, i: nat)
    requires i < |answers| && !HasKey(questions, answers[i].0)
    requires AllKnown(questions, answers[..i])
    ensures ResponseRows(questions, answers, cities) == Failure(UnknownQuestion(answers[i].0))
  {
    assert forall j :: 0 <= j < i ==> answers[..i][j] == answers[j];
    FirstUnknownAt(questions, answers, i);
  }

  lemma ResponseRowsSucceeds(questions: Obj<Question>, answers: Answers, cities: Obj<City>, tmp: Rows)
    requires AllKnown(questions, answers[..|answers|])
    requires tmp == WriteAll(questions, answers[..|answers|], cities)
    ensures ResponseRows(questions, answers, cities) == Success(tmp)
  {
    assert answers[..|answers|] == answers;
  }

  lemma WriteAllSnoc(questions: Obj<Question>, answers: Answers, cities: Obj<City>, i: nat, q: Question, prev: Rows, next: Rows)
    requires i < |answers| && prev == WriteAll(questions, answers[..i], cities)
    requires Get(questions, answers[i].0) == Some(q) && Fits(q.qtype, answers[i].1)
    requires next == WriteAnswer(prev, answers[i].0, q, answers[i].1, cities)
    ensures next == WriteAll(questions, answers[..i + 1], cities)
  {
    assert answers[..i + 1][..i] == answers[..i];
  }

  /**
   * `exportExcel`: the header from the survey's questions, then every
   * response's rows in order. An answer to a question the survey does not
   * have aborts the export.
   */
  method ExportExcel(survey: Option<Survey>, parsed: seq<Answers>, cities: Obj<City>)
    returns (r: Result<Sheet, ExportError>)
    requires forall i :: 0 <= i < |parsed| ==> WellShaped(QuestionsOf(survey), parsed[i])
    ensures r.Success? <==> ExportRows(QuestionsOf(survey), parsed, cities).Success?
    ensures r.Success? ==>
      r.value == Sheet(FromPairs(Columns(QuestionsOf(survey))), ExportRows(QuestionsOf(survey), parsed, cities).value)
    ensures r.Failure? ==> r.error == ExportRows(QuestionsOf(survey), parsed, cities).error
  {
    var questions := QuestionsOf(survey);
    var header := BuildHeader(questions);
    var result: Rows := [];
    for i := 0 to |parsed|
      invariant ExportRows(questions, parsed[..i], cities) == Success(result)
    {
      var tmp := ResponseRowsLoop(questions, parsed[i], cities);
      ExportRowsSnoc(questions, parsed, cities, i);
      if tmp.Failure? {
        ExportFailureSticks(questions, parsed, cities, i + 1);
        assert parsed[..|parsed|] == parsed;
        return Failure(tmp.error);
      }
      result := result + tmp.value;
    }
    assert parsed[..|parsed|] == parsed;
    r := Success(Sheet(header, result));
  }

  lemma ExportRowsSnoc(questions: Obj<Question>, parsed: seq<Answers>, cities: Obj<City>, i: nat)
    requires i < |parsed|
    ensures ExportRows(questions, parsed[..i + 1], cities) ==
      match ExportRows(questions, parsed[..i], cities)
      case Failure(e) => Failure(e)
      case Success(rows) =>
        match ResponseRows(questions, parsed[i], cities)
        case Failure(e) => Failure(e)
        case Success(more) => Success(rows + more)
  {
    assert parsed[..i + 1][..i] == parsed[..i];
    assert parsed[..i + 1][i] == parsed[i];
  }

  lemma {:induction false} ExportFailureSticks(questions: Obj<Question>, parsed: seq<Answers>, cities: Obj<City>, i: nat)
    requires i <= |parsed|
    requires ExportRows(questions, parsed[..i], cities).Failure?
    ensures ExportRows(questions, parsed, cities) == ExportRows(questions, parsed[..i], cities)
  {
    if i < |parsed| {
      var n := |parsed| - 1;
      assert parsed[..n][..i] == parsed[..i];
      ExportFailureSticks(questions, parsed[..n], cities, i);
    } else {
      assert parsed[..i] == parsed;
    }
  }

  // ------------------------------------------------------ label resolution

  /** A radio or select answer recorded by its widget exports as the option's label. */
  lemma ChoiceExportsLabel(q: Question, i: nat, cities: Obj<City>)
    requires q.qtype == Radio || q.qtype == Select
    requires q.params.Some? && i < |q.params.value|
    ensures CellText(q, Text(IndexString(i)), cities) == Some(q.params.value[i])
  {
    ParseIndexString(i);
  }

  /** A checkbox answer recorded by its widget exports as the checked labels, joined. */
  lemma CheckboxExportsLabels(q: Question, picked: seq<nat>, cities: Obj<City>)
    requires q.qtype == Checkbox && q.params.Some?
    requires forall j :: 0 <= j < |picked| ==> picked[j] < |q.params.value|
    ensures CellText(q, List(seq(|picked|, j requires 0 <= j < |picked| => IndexString(picked[j]))), cities)
         == Some(Join(seq(|picked|, j requires 0 <= j < |picked| => q.params.value[picked[j]]), ", "))
  {
    CheckboxTextOfIndices(q.params.value, picked);
  }

  // ------------------------------------------------------------ answer count

  /** The set of question ids a response answered. */
  function AnsweredIds(answers: Answers): set<string> {
    set i | 0 <= i < |answers| :: answers[i].0
  }

  /** `Object.keys(answers).length`: the number of questions answered. */
  function AnswerCount(answers: Answers): (n: nat)
    ensures Wf(answers) ==> n == |AnsweredIds(answers)|
  {
    DistinctCount(answers);
    |answers|
  }

  lemma {:induction false} DistinctCount(answers: Answers)
    ensures Wf(answers) ==> |answers| == |AnsweredIds(answers)|
  {
    if answers != [] && Wf(answers) {
      var n := |answers| - 1;
      var init := answers[..n];
      assert Wf(init);
      DistinctCount(init);
      assert AnsweredIds(answers) == AnsweredIds(init) + {answers[n].0};
      assert answers[n].0 !in AnsweredIds(init);
    }
  }
}
