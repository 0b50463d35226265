/**
 * The answer store and its path-addressed writes. Every widget reports a
 * change as a path rooted at a question id and a value; the page applies
 * it with `_.set` on a deep clone of the store. Only the three path shapes
 * the widgets produce are modelled: `[qid]`, `[qid, n]` and `[qid, i, j]`.
 */
module AnswerStore {
  import opened Wrappers
  import opened Objects
  import opened SurveyTypes
  import opened ResponseTypes

  /** Question id to answer, in insertion order. */
  type Store = Answers

  datatype Edit =
    /** `[qid]`; `None` writes `undefined`. */
    | SetAnswer(qid: string, answer: Option<Answer>)
    /** `[qid, n]`: one instance of a group. */
    | SetInstance(qid: string, n: nat, row: seq<string>)
    /** `[qid, i, j]`: one cell of a group instance. */
    | SetCell(qid: string, i: nat, j: nat, text: string)

  /** The value at qid can be indexed as a table: absent, or an array of arrays. */
  predicate TableAt(store: Store, qid: string) {
    var a := Get(store, qid);
    a.None? || Fits(QuestionGroup, a.value)
  }

  /** The group instances stored at qid; an absent value has none. */
  function Instances(store: Store, qid: string): seq<seq<string>>
    requires TableAt(store, qid)
  {
    var a := Get(store, qid);
    if a.None? then [] else GroupRows(a.value)
  }

  /** The cell `store[qid][i][j]`, if there is one. */
  function CellAt(store: Store, qid: string, i: nat, j: nat): Option<string>
    requires TableAt(store, qid)
  {
    var rows := Instances(store, qid);
    if i < |rows| && j < |rows[i]| then Some(rows[i][j]) else None
  }

  /**
   * Writing index i of a sequence: in place below its length, appended at
   * its length. Beyond the length the gap is filled with `fill`.
   */
  function SetAt<T>(s: seq<T>, i: nat, x: T, fill: T): (r: seq<T>)
    ensures |r| == if i < |s| then |s| else i + 1
    ensures r[i] == x
    ensures forall m :: 0 <= m < |s| && m != i ==> r[m] == s[m]
    ensures forall m :: |s| <= m < i ==> r[m] == fill
  {
    if i < |s| then s[i := x] else s + seq(i - |s|, _ => fill) + [x]
  }

  predicate Applicable(store: Store, e: Edit) {
    e.SetAnswer? || TableAt(store, e.qid)
  }

  /**
   * `_.set(_.cloneDeep(store), path, value)`. The answer at the edit's
   * question id is the only one that changes, and reading the written path
   * back gives the written value.
   */
  function Apply(store: Store, e: Edit): (r: Store)
    requires Applicable(store, e)
    ensures forall k :: k != e.qid ==> Get(r, k) == Get(store, k)
    ensures Wf(store) ==> Wf(r)
    ensures e.SetAnswer? ==> Get(r, e.qid) == e.answer
    ensures !e.SetAnswer? ==> TableAt(r, e.qid)
    ensures e.SetInstance? ==>
      var before := Instances(store, e.qid);
      var after := Instances(r, e.qid);
      && |after| == (if e.n < |before| then |before| else e.n + 1)
      && after[e.n] == e.row
      && (forall m :: 0 <= m < |before| && m != e.n ==> after[m] == before[m])
    ensures e.SetCell? ==>
      && CellAt(r, e.qid, e.i, e.j) == Some(e.text)
      && (forall m, c :: (m != e.i || c != e.j) && CellAt(store, e.qid, m, c).Some? ==>
            CellAt(r, e.qid, m, c) == CellAt(store, e.qid, m, c))
  {
    match e
    case SetAnswer(q, a) =>
      if a.Some? then Put(store, q, a.value) else Delete(store, q)
    case SetInstance(q, n, row) =>
      Put(store, q, Table(SetAt(Instances(store, q), n, row, [])))
    case SetCell(q, i, j, text) =>
      var rows := Instances(store, q);
      var row := if i < |rows| then rows[i] else [];
      Put(store, q, Table(SetAt(rows, i, SetAt(row, j, text, ""), [])))
  }

  /** "Add answer": an empty instance appended after the current ones. */
  function AddInstance(store: Store, qid: string): (r: Store)
    requires TableAt(store, qid)
    ensures TableAt(r, qid)
    ensures Instances(r, qid) == Instances(store, qid) + [[]]
  {
    Put(store, qid, Table(Instances(store, qid) + [[]]))
  }

  /** The button's write is the path write at index = the current instance count. */
  lemma AddInstanceWrites(store: Store, qid: string)
    requires TableAt(store, qid)
    ensures AddInstance(store, qid) == Apply(store, SetInstance(qid, |Instances(store, qid)|, []))
  {
    var rows := Instances(store, qid);
    assert SetAt(rows, |rows|, [], []) == rows + [[]];
  }

  /** `count` presses of "add answer". */
  function AddInstances(store: Store, qid: string, count: nat): (r: Store)
    requires TableAt(store, qid)
    ensures TableAt(r, qid)
  {
    if count == 0 then store else AddInstance(AddInstances(store, qid, count - 1), qid)
  }

  /** Each press adds one empty instance after the others. */
  lemma AddInstancesStep(store: Store, qid: string, count: nat)
    requires TableAt(store, qid) && count > 0
    ensures Instances(AddInstances(store, qid, count), qid) == Instances(AddInstances(store, qid, count - 1), qid) + [[]]
  {
    assert AddInstances(store, qid, count) == AddInstance(AddInstances(store, qid, count - 1), qid);
  }

  /** n empty instances. */
  function Empties(n: nat): (r: seq<seq<string>>)
    ensures |r| == n
    ensures forall i :: 0 <= i < n ==> r[i] == []
  {
    if n == 0 then [] else Empties(n - 1) + [[]]
  }

  /** Pressing "add answer" n times on an unanswered group gives n empty instances. */
  lemma {:induction false} AddInstancesFromEmpty(store: Store, qid: string, count: nat)
    requires Get(store, qid).None?
    ensures Instances(AddInstances(store, qid, count), qid) == Empties(count)
  {
    if count > 0 {
      AddInstancesFromEmpty(store, qid, count - 1);
      AddInstancesStep(store, qid, count);
    }
  }

  /** `list.filter((v) => v !== x)`. */
  function Without(l: seq<string>, x: string): (r: seq<string>)
    ensures x !in r
    ensures forall y :: y != x ==> (y in r <==> y in l)
    ensures |r| <= |l|
  {
    if l == [] then []
    else if l[0] == x then Without(l[1..], x)
    else [l[0]] + Without(l[1..], x)
  }

  /** Filtering keeps the order of what it keeps. */
  lemma {:induction false} WithoutConcat(a: seq<string>, b: seq<string>, x: string)
    ensures Without(a + b, x) == Without(a, x) + Without(b, x)
  {
    if a != [] {
      WithoutConcat(a[1..], b, x);
      assert (a + b)[0] == a[0] && (a + b)[1..] == a[1..] + b;
    } else {
      assert a + b == b;
    }
  }

  /** Removing a value that is not there changes nothing. */
  lemma {:induction false} WithoutAbsent(l: seq<string>, x: string)
    requires x !in l
    ensures Without(l, x) == l
  {
    if l != [] {
      WithoutAbsent(l[1..], x);
    }
  }

  /**
   * Checking an option and then unchecking it gives the list that
   * unchecking alone gives; when the option was not there, the list it
   * started from.
   */
  lemma CheckThenUncheck(l: seq<string>, x: string)
    ensures Without(l + [x], x) == Without(l, x)
    ensures x !in l ==> Without(l + [x], x) == l
  {
    WithoutConcat(l, [x], x);
    assert Without([x], x) == [];
    if x !in l {
      WithoutAbsent(l, x);
    }
  }
}
