/**
 * A JavaScript object with string keys, seen as its entries in insertion
 * order, which is the order `Object.entries`, `Object.keys` and
 * `Object.values` report. Assigning to an existing key keeps its place;
 * assigning to a new key appends it; `delete` removes it.
 */
module Objects {
  import opened Wrappers

  type Obj<V> = seq<(string, V)>

  /** No key occurs twice: every object built by the operations below. */
  predicate Wf<V>(o: Obj<V>) {
    forall i, j :: 0 <= i < j < |o| ==> o[i].0 != o[j].0
  }

  function Keys<V>(o: Obj<V>): seq<string> {
    seq(|o|, i requires 0 <= i < |o| => o[i].0)
  }

  function Values<V>(o: Obj<V>): seq<V> {
    seq(|o|, i requires 0 <= i < |o| => o[i].1)
  }

  predicate HasKey<V>(o: Obj<V>, k: string) {
    exists i :: 0 <= i < |o| && o[i].0 == k
  }

  /** `o[k]`: the value at key k, `None` for `undefined`. */
  function Get<V>(o: Obj<V>, k: string): (r: Option<V>)
    ensures r.Some? <==> HasKey(o, k)
  {
    if o == [] then None
    else if o[0].0 == k then Some(o[0].1)
    else
      HasKeyTail(o, k);
      Get(o[1..], k)
  }

  /** A value `o[k]` yields is stored under k. */
  lemma {:induction false} GetFound<V>(o: Obj<V>, k: string)
    requires HasKey(o, k)
    ensures exists i :: 0 <= i < |o| && o[i] == (k, Get(o, k).value)
  {
    if o[0].0 != k {
      HasKeyTail(o, k);
      GetFound(o[1..], k);
      var i :| 0 <= i < |o[1..]| && o[1..][i] == (k, Get(o[1..], k).value);
      assert o[i + 1] == o[1..][i];
    }
  }

  /** In an object with distinct keys, `o[k]` is the value of the entry with key k. */
  lemma {:induction false} GetAt<V>(o: Obj<V>, i: nat)
    requires Wf(o) && i < |o|
    ensures Get(o, o[i].0) == Some(o[i].1)
  {
    if i > 0 {
      assert o[1..][i - 1] == o[i];
      GetAt(o[1..], i - 1);
    }
  }

  /** Past a first entry with another key, the key is present iff it is present in the rest. */
  lemma HasKeyTail<V>(o: Obj<V>, k: string)
    requires o != [] && o[0].0 != k
    ensures HasKey(o, k) <==> HasKey(o[1..], k)
  {
    if HasKey(o, k) {
      var i :| 0 <= i < |o| && o[i].0 == k;
      assert i != 0;
      assert o[1..][i - 1] == o[i];
    }
    if HasKey(o[1..], k) {
      var i :| 0 <= i < |o[1..]| && o[1..][i].0 == k;
      assert o[i + 1] == o[1..][i];
    }
  }

  /** Keeping the keys in place and appending only a key not yet present keeps keys distinct. */
  lemma KeysKeptWf<V>(o: Obj<V>, r: Obj<V>, k: string)
    requires Wf(o)
    requires |r| == if HasKey(o, k) then |o| else |o| + 1
    requires forall i :: 0 <= i < |o| ==> r[i].0 == o[i].0
    requires !HasKey(o, k) ==> r[|o|].0 == k
    ensures Wf(r)
  {
    forall i, j | 0 <= i < j < |r| ensures r[i].0 != r[j].0 {
      if j == |o| {
        assert r[i].0 == o[i].0;
      }
    }
  }

  /**
   * A first entry with another key, in front of a tail that gives x at k
   * and agrees with o's tail elsewhere, gives an object that gives x at k
   * and agrees with o elsewhere.
   */
  lemma GetCons<V>(o: Obj<V>, r: Obj<V>, k: string, x: Option<V>)
    requires o != [] && r != [] && r[0] == o[0] && o[0].0 != k
    requires Get(r[1..], k) == x
    requires forall k' :: k' != k ==> Get(r[1..], k') == Get(o[1..], k')
    ensures Get(r, k) == x
    ensures forall k' :: k' != k ==> Get(r, k') == Get(o, k')
  {
  }

  /** Keeping the first entry and the keys of the tail keeps every key. */
  lemma KeysKeptCons<V>(o: Obj<V>, r: Obj<V>)
    requires o != [] && r != [] && r[0] == o[0]
    requires |r| >= |o|
    requires forall i :: 0 <= i < |o| - 1 ==> r[1..][i].0 == o[1..][i].0
    ensures forall i :: 0 <= i < |o| ==> r[i].0 == o[i].0
  {
    forall i | 1 <= i < |o| ensures r[i].0 == o[i].0 {
      assert r[i] == r[1..][i - 1] && o[i] == o[1..][i - 1];
    }
  }

  /** `o[k] = v` (and `{...o, [k]: v}`). */
  function Put<V>(o: Obj<V>, k: string, v: V): (r: Obj<V>)
    ensures Get(r, k) == Some(v)
    ensures forall k' :: k' != k ==> Get(r, k') == Get(o, k')
    ensures |r| == if HasKey(o, k) then |o| else |o| + 1
    ensures forall i :: 0 <= i < |o| ==> r[i].0 == o[i].0
    ensures !HasKey(o, k) ==> r[|o|] == (k, v)
    ensures Wf(o) ==> Wf(r)
  {
    if o == [] then [(k, v)]
    else if o[0].0 == k then
      var r := [(k, v)] + o[1..];
      assert Wf(o) ==> Wf(r) by {
        if Wf(o) {
          KeysKeptWf(o, r, k);
        }
      }
      r
    else
      var rest := Put(o[1..], k, v);
      HasKeyTail(o, k);
      var r := [o[0]] + rest;
      assert r[1..] == rest;
      GetCons(o, r, k, Some(v));
      KeysKeptCons(o, r);
      assert Wf(o) ==> Wf(r) by {
        if Wf(o) {
          KeysKeptWf(o, r, k);
        }
      }
      r
  }

  /** `delete o[k]` on a copy (and `{...o}` followed by `delete`). */
  function Delete<V>(o: Obj<V>, k: string): (r: Obj<V>)
    ensures Get(r, k) == None
    ensures forall k' :: k' != k ==> Get(r, k') == Get(o, k')
    ensures |r| <= |o|
    ensures Wf(o) ==> Wf(r)
  {
    if o == [] then []
    else
      var rest := Delete(o[1..], k);
      if o[0].0 == k then rest
      else
        var r := [o[0]] + rest;
        assert r[1..] == rest;
        GetCons(o, r, k, None);
        assert Wf(o) ==> Wf(r) by {
          if Wf(o) {
            assert Get(rest, o[0].0) == Get(o[1..], o[0].0);
            WfCons(r);
          }
        }
        r
  }

  /** An entry in front of a tail with distinct keys none of which is its own. */
  lemma WfCons<V>(r: Obj<V>)
    requires r != [] && Wf(r[1..]) && !HasKey(r[1..], r[0].0)
    ensures Wf(r)
  {
    forall i, j | 0 <= i < j < |r| ensures r[i].0 != r[j].0 {
      assert r[j] == r[1..][j - 1];
      if i > 0 {
        assert r[i] == r[1..][i - 1];
      }
    }
  }

  /**
   * The object that `pairs.reduce((acc, p) => { acc[p.0] = p.1; return acc }, {})`
   * builds: keys in order of first occurrence, each with its last value.
   */
  function FromPairs<V>(pairs: seq<(string, V)>): (r: Obj<V>)
    ensures Wf(r)
  {
    if pairs == [] then []
    else Put(FromPairs(pairs[..|pairs| - 1]), pairs[|pairs| - 1].0, pairs[|pairs| - 1].1)
  }

  /** The value of the last pair with key k: the one a left-to-right build leaves. */
  function LastValue<V>(pairs: seq<(string, V)>, k: string): Option<V> {
    if pairs == [] then None
    else if pairs[|pairs| - 1].0 == k then Some(pairs[|pairs| - 1].1)
    else LastValue(pairs[..|pairs| - 1], k)
  }

  lemma {:induction false} FromPairsGet<V>(pairs: seq<(string, V)>, k: string)
    ensures Get(FromPairs(pairs), k) == LastValue(pairs, k)
  {
    if pairs != [] {
      FromPairsGet(pairs[..|pairs| - 1], k);
    }
  }

  /** The pair that wins is the last one with the key: later duplicates override earlier ones. */
  lemma {:induction false} LastValueAt<V>(pairs: seq<(string, V)>, i: nat)
    requires i < |pairs|
    requires forall j :: i < j < |pairs| ==> pairs[j].0 != pairs[i].0
    ensures LastValue(pairs, pairs[i].0) == Some(pairs[i].1)
  {
    var n := |pairs| - 1;
    if i < n {
      assert forall j :: i < j < n ==> pairs[..n][j] == pairs[j];
      LastValueAt(pairs[..n], i);
    }
  }

  /** A key no pair carries has no value. */
  lemma {:induction false} LastValueAbsent<V>(pairs: seq<(string, V)>, k: string)
    requires forall j :: 0 <= j < |pairs| ==> pairs[j].0 != k
    ensures LastValue(pairs, k) == None
  {
    if pairs != [] {
      var n := |pairs| - 1;
      assert forall j :: 0 <= j < n ==> pairs[..n][j] == pairs[j];
      LastValueAbsent(pairs[..n], k);
    }
  }

  /** Building from pairs that already have distinct keys gives back the pairs, in order. */
  lemma {:induction false} FromDistinctPairs<V>(pairs: seq<(string, V)>)
    requires Wf(pairs)
    ensures FromPairs(pairs) == pairs
  {
    if pairs != [] {
      var n := |pairs| - 1;
      var init := pairs[..n];
      assert Wf(init);
      FromDistinctPairs(init);
      assert !HasKey(init, pairs[n].0);
      AppendFresh(init, pairs[n].0, pairs[n].1);
      assert init + [pairs[n]] == pairs;
    }
  }

  /** Putting a key the object does not have appends it. */
  lemma {:induction false} AppendFresh<V>(o: Obj<V>, k: string, v: V)
    requires !HasKey(o, k)
    ensures Put(o, k, v) == o + [(k, v)]
  {
    if o != [] {
      HasKeyTail(o, k);
      AppendFresh(o[1..], k, v);
      assert Put(o, k, v) == [o[0]] + Put(o[1..], k, v);
      assert [o[0]] + (o[1..] + [(k, v)]) == o + [(k, v)];
    }
  }

  /**
   * The reduce loop: each pair is assigned in turn into an accumulator
   * that starts as `{}`.
   */
  method Collect<V>(pairs: seq<(string, V)>) returns (acc: Obj<V>)
    ensures acc == FromPairs(pairs)
    ensures Wf(acc)
    ensures forall k :: Get(acc, k) == LastValue(pairs, k)
  {
    acc := [];
    for i := 0 to |pairs|
      invariant acc == FromPairs(pairs[..i])
    {
      assert pairs[..i + 1][..i] == pairs[..i];
      acc := Put(acc, pairs[i].0, pairs[i].1);
    }
    assert pairs[..|pairs|] == pairs;
    forall k ensures Get(acc, k) == LastValue(pairs, k) {
      FromPairsGet(pairs, k);
    }
  }
}
