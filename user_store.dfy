/**
 * The client-side user store: a `handling` flag, the signed-in user's
 * record, and the cache of users keyed by email. Remote calls are not
 * part of the model; their results are the `...Done` methods' parameters.
 */
module UserStore {
  import opened Wrappers
  import opened Objects

  /**
   * A user record. The declared type has no `unit`, but every reader and
   * writer of the cache uses it, so the model carries it.
   */
  datatype User = User(uid: string, email: string, avatar: string, displayName: string, unit: string)

  /** `Partial<User>`: any field may be missing. */
  datatype PartialUser = PartialUser(
    uid: Option<string>,
    email: Option<string>,
    avatar: Option<string>,
    displayName: Option<string>,
    unit: Option<string>)

  /** `field || ''`: a missing field and an empty one both read as `''`. */
  function OrEmpty(s: Option<string>): (r: string)
    ensures s.Some? ==> r == s.value
    ensures s.None? ==> r == ""
  {
    if s.Some? && s.value != "" then s.value else ""
  }

  /**
   * The record `addUser` and `updateUser` cache: keyed email as the email,
   * every other field from the partial record or `''`. The partial
   * record's own email is ignored.
   */
  function Record(email: string, info: PartialUser): (u: User)
    ensures u.email == email
    ensures u.uid == OrEmpty(info.uid) && u.avatar == OrEmpty(info.avatar)
    ensures u.displayName == OrEmpty(info.displayName) && u.unit == OrEmpty(info.unit)
  {
    User(OrEmpty(info.uid), email, OrEmpty(info.avatar), OrEmpty(info.displayName), OrEmpty(info.unit))
  }

  /** A complete record, passed as the partial one, is cached unchanged under its own email. */
  lemma RecordOfComplete(u: User)
    ensures Record(u.email, PartialUser(Some(u.uid), Some(u.email), Some(u.avatar), Some(u.displayName), Some(u.unit))) == u
  {
  }

  /** `users.map((user) => [user.email, user])`: the pairs the reduce assigns. */
  function ByEmail(list: seq<User>): (r: seq<(string, User)>)
    ensures |r| == |list|
    ensures forall i :: 0 <= i < |list| ==> r[i] == (list[i].email, list[i])
  {
    seq(|list|, i requires 0 <= i < |list| => (list[i].email, list[i]))
  }

  /** After a fetch, each user is cached under its email; of two with one email the later is kept. */
  lemma FetchKeepsLast(list: seq<User>, i: nat)
    requires i < |list|
    requires forall j :: i < j < |list| ==> list[j].email != list[i].email
    ensures Get(FromPairs(ByEmail(list)), list[i].email) == Some(list[i])
  {
    FromPairsGet(ByEmail(list), list[i].email);
    LastValueAt(ByEmail(list), i);
  }

  class Store {
    var handling: bool
    var information: Option<User>
    var users: Obj<User>

    /** The cache never lists an email twice. */
    predicate Valid()
      reads this
    {
      Wf(users)
    }

    /** The initial state: not handling, nobody signed in, an empty cache. */
    constructor()
      ensures Valid()
      ensures !handling && information.None? && users == []
    {
      handling := false;
      information := None;
      users := [];
    }

    /** The first `set` of `login`: `handling` up and the signed-in record cleared. */
    method LoginBegin()
      requires Valid()
      modifies this
      ensures Valid()
      ensures handling && information.None?
      ensures users == old(users)
    {
      handling := true;
      information := None;
    }

    /** `login` after the remote call: the signed-in record is its result, absent when it failed. */
    method LoginDone(result: Option<User>)
      modifies this
      ensures !handling && information == result
      ensures users == old(users)
    {
      handling := false;
      information := result;
    }

    /** The first `set` of `logout` and of the cache actions: only `handling` changes. */
    method Begin()
      requires Valid()
      modifies this
      ensures Valid()
      ensures handling
      ensures information == old(information) && users == old(users)
    {
      handling := true;
    }

    /** `logout` after signing out: nobody is signed in. */
    method LogoutDone()
      modifies this
      ensures !handling && information.None?
      ensures users == old(users)
    {
      handling := false;
      information := None;
    }

    /**
     * `addUser` and `updateUser` after the remote call: the record built
     * from the partial one is cached under `email`; nothing else changes.
     */
    method PutUserDone(email: string, info: PartialUser)
      requires Valid()
      modifies this
      ensures Valid() && !handling
      ensures information == old(information)
      ensures users == Put(old(users), email, Record(email, info))
      ensures Get(users, email) == Some(Record(email, info))
      ensures forall k :: k != email ==> Get(users, k) == Get(old(users), k)
    {
      handling := false;
      users := Put(users, email, Record(email, info));
    }

    /** `deleteUser` after the remote call: only `email` leaves the cache. */
    method DeleteUserDone(email: string)
      requires Valid()
      modifies this
      ensures Valid() && !handling
      ensures information == old(information)
      ensures users == Delete(old(users), email)
      ensures Get(users, email).None?
      ensures forall k :: k != email ==> Get(users, k) == Get(old(users), k)
    {
      var copy := users;
      copy := Delete(copy, email);
      handling := false;
      users := copy;
    }

    /** `getUsers` after the fetch: the cache replaced by the fetched list, keyed by email. */
    method GetUsersDone(list: seq<User>)
      modifies this
      ensures Valid() && !handling
      ensures information == old(information)
      ensures users == FromPairs(ByEmail(list))
      ensures forall k :: Get(users, k) == LastValue(ByEmail(list), k)
    {
      var acc := Collect(ByEmail(list));
      handling := false;
      users := acc;
    }
  }
}
