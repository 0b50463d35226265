/**
 * The client-side survey cache: a `handling` flag and an optional map from
 * survey id to survey. Each action raises `handling` before its remote
 * call and lowers it when the call returns; the remote call's result is
 * the `...Done` method's parameter.
 */
module SurveyStore {
  import opened Wrappers
  import opened Objects
  import opened SurveyTypes

  /** `surveys.map((survey) => [survey.id, survey])`: the pairs the reduce assigns. */
  function ById(list: seq<Survey>): (r: seq<(string, Survey)>)
    ensures |r| == |list|
    ensures forall i :: 0 <= i < |list| ==> r[i] == (list[i].id, list[i])
  {
    seq(|list|, i requires 0 <= i < |list| => (list[i].id, list[i]))
  }

  /**
   * After a query, the cache holds each listed survey under its id; when
   * two share an id, the later one is kept.
   */
  lemma QueryKeepsLast(list: seq<Survey>, i: nat)
    requires i < |list|
    requires forall j :: i < j < |list| ==> list[j].id != list[i].id
    ensures Get(FromPairs(ById(list)), list[i].id) == Some(list[i])
  {
    FromPairsGet(ById(list), list[i].id);
    LastValueAt(ById(list), i);
  }

  /** A survey id no listed survey has is not cached after a query. */
  lemma QueryDropsUnlisted(list: seq<Survey>, id: string)
    requires forall j :: 0 <= j < |list| ==> list[j].id != id
    ensures Get(FromPairs(ById(list)), id) == None
  {
    FromPairsGet(ById(list), id);
    LastValueAbsent(ById(list), id);
  }

  class Store {
    var handling: bool
    var surveys: Option<Obj<Survey>>

    /** The cache never lists an id twice. */
    predicate Valid()
      reads this
    {
      surveys.Some? ==> Wf(surveys.value)
    }

    /** `surveys || {}`: the cache as spread into a new one. */
    function Cached(): (c: Obj<Survey>)
      reads this
      requires Valid()
      ensures Wf(c)
      ensures surveys.None? ==> c == []
    {
      surveys.GetOr([])
    }

    /** The initial state: not handling, nothing cached. */
    constructor()
      ensures Valid()
      ensures !handling && surveys.None?
    {
      handling := false;
      surveys := None;
    }

    /** The first `set` of every action: `handling` goes up, the cache is untouched. */
    method Begin()
      requires Valid()
      modifies this
      ensures Valid()
      ensures handling
      ensures surveys == old(surveys)
    {
      handling := true;
    }

    /**
     * `getSurveys(id)` after the fetch: a found survey is cached under the
     * requested id and every other entry kept; no survey leaves the cache
     * as it was.
     */
    method GetSurveysDone(id: string, found: Option<Survey>)
      requires Valid()
      modifies this
      ensures Valid() && !handling
      ensures found.None? ==> surveys == old(surveys)
      ensures found.Some? ==> surveys == Some(Put(old(Cached()), id, found.value))
      ensures found.Some? ==> forall k :: k != id ==> Get(Cached(), k) == Get(old(Cached()), k)
    {
      if found.Some? {
        surveys := Some(Put(Cached(), id, found.value));
      }
      handling := false;
    }

    /** `querySurveys` after the fetch: the cache replaced by the fetched list, keyed by id. */
    method QuerySurveysDone(list: seq<Survey>)
      modifies this
      ensures Valid() && !handling
      ensures surveys == Some(FromPairs(ById(list)))
      ensures forall k :: Get(Cached(), k) == LastValue(ById(list), k)
    {
      var acc := Collect(ById(list));
      handling := false;
      surveys := Some(acc);
    }

    /**
     * `createSurvey(data)` after the remote call returned `surveyId`, which
     * is the survey's id, or `''` when creation failed: the data is cached
     * under that id either way.
     */
    method CreateSurveyDone(data: Survey, surveyId: string)
      requires Valid()
      modifies this
      ensures Valid() && !handling
      ensures surveys == Some(Put(old(Cached()), surveyId, data))
    {
      handling := false;
      surveys := Some(Put(Cached(), surveyId, data));
    }

    /**
     * `updateSurvey(id, data)` after the remote call: the data is cached
     * under its own `data.id`, not under `id`, whatever the call's outcome.
     */
    method UpdateSurveyDone(id: string, data: Survey)
      requires Valid()
      modifies this
      ensures Valid() && !handling
      ensures surveys == Some(Put(old(Cached()), data.id, data))
    {
      handling := false;
      surveys := Some(Put(Cached(), data.id, data));
    }

    /**
     * `deleteSurvey(id)` after the remote call: a copy of the cache without
     * `id`. An absent cache becomes an empty one.
     */
    method DeleteSurveyDone(id: string)
      requires Valid()
      modifies this
      ensures Valid() && !handling
      ensures surveys == Some(Delete(old(Cached()), id))
      ensures Get(Cached(), id).None?
      ensures forall k :: k != id ==> Get(Cached(), k) == Get(old(Cached()), k)
    {
      var copy := Cached();
      copy := Delete(copy, id);
      handling := false;
      surveys := Some(copy);
    }
  }
}
