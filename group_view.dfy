/** The repeating-group widget: add, delete and edit instances. */
module GroupView {
  import opened Wrappers
  import opened Objects
  import opened ResponseTypes
  import opened AnswerStore

  /** The instances shown: `_.range(responses.length || 1)`, at least one. */
  function Shown(rows: seq<seq<string>>): (n: nat)
    ensures n >= 1 && n >= |rows|
    ensures |rows| > 0 ==> n == |rows|
  {
    if |rows| == 0 then 1 else |rows|
  }

  /** "Add answer": `onChange([questionId, responses.length || 0], [])`. */
  function Add(questionId: string, rows: seq<seq<string>>): Edit {
    SetInstance(questionId, |rows|, [])
  }

  /** Adding an instance appends one empty instance and keeps the others. */
  lemma AddAppends(store: Store, questionId: string)
    requires TableAt(store, questionId)
    ensures var after := Apply(store, Add(questionId, Instances(store, questionId)));
      && TableAt(after, questionId)
      && Instances(after, questionId) == Instances(store, questionId) + [[]]
      && forall k :: k != questionId ==> Get(after, k) == Get(store, k)
  {
    var rows := Instances(store, questionId);
    var after := Apply(store, Add(questionId, rows));
    assert Instances(after, questionId) == rows + [[]];
  }

  /** The delete button is drawn on every shown instance but the first. */
  predicate DeleteOffered(rows: seq<seq<string>>, k: nat) {
    k != 0 && k < Shown(rows)
  }

  /** An instance that offers delete exists; the first one never does. */
  lemma DeleteOfferedExists(rows: seq<seq<string>>, k: nat)
    requires DeleteOffered(rows, k)
    ensures 1 <= k < |rows|
  {
  }

  /** `newResponses.splice(k, 1)` on a deep clone: the list without instance k. */
  function Spliced(rows: seq<seq<string>>, k: nat): (r: seq<seq<string>>)
    requires k < |rows|
    ensures |r| == |rows| - 1
    ensures r[..k] == rows[..k]
    ensures forall m :: k <= m < |r| ==> r[m] == rows[m + 1]
  {
    rows[..k] + rows[k + 1..]
  }

  /** Delete: the spliced list written whole at `[questionId]`. */
  function Delete(questionId: string, rows: seq<seq<string>>, k: nat): Edit
    requires DeleteOffered(rows, k)
  {
    SetAnswer(questionId, Some(Table(Spliced(rows, k))))
  }

  /** Deleting instance k removes exactly it; later instances move down one. */
  lemma DeleteRemovesOne(store: Store, questionId: string, k: nat)
    requires TableAt(store, questionId)
    requires DeleteOffered(Instances(store, questionId), k)
    ensures var rows := Instances(store, questionId);
      var after := Apply(store, Delete(questionId, rows, k));
      && TableAt(after, questionId)
      && |Instances(after, questionId)| == |rows| - 1
      && Instances(after, questionId)[..k] == rows[..k]
      && (forall m :: k <= m < |rows| - 1 ==> Instances(after, questionId)[m] == rows[m + 1])
      && forall key :: key != questionId ==> Get(after, key) == Get(store, key)
  {
  }

  /** Typing into field j of instance i: `onChange([questionId, i, j], text)`. */
  function EditCell(questionId: string, i: nat, j: nat, text: string): Edit {
    SetCell(questionId, i, j, text)
  }

  /** What field j of instance i shows: `responses?.[i]?.[j] || ''`. */
  function CellShown(rows: seq<seq<string>>, i: nat, j: nat): (s: string)
    ensures i < |rows| && j < |rows[i]| ==> s == rows[i][j]
    ensures !(i < |rows| && j < |rows[i]|) ==> s == ""
  {
    if i < |rows| && j < |rows[i]| then rows[i][j] else ""
  }

  /** Typing into a field shows the typed text there and changes no other filled field. */
  lemma EditCellShows(store: Store, questionId: string, i: nat, j: nat, text: string)
    requires TableAt(store, questionId)
    ensures var after := Apply(store, EditCell(questionId, i, j, text));
      && TableAt(after, questionId)
      && CellShown(Instances(after, questionId), i, j) == text
      && forall m, c :: (m != i || c != j) && CellAt(store, questionId, m, c).Some? ==>
           CellShown(Instances(after, questionId), m, c) == CellShown(Instances(store, questionId), m, c)
  {
    var after := Apply(store, EditCell(questionId, i, j, text));
    assert CellAt(after, questionId, i, j) == Some(text);
  }
}
