/**
 * The user editor dialog: a copy of the user being edited, changed field
 * by field, and a save button that refuses a record without an email or
 * a unit.
 */
module UserEditor {
  import opened UserStore

  /**
   * The units the unit select offers: the keys of the unit table in
   * enumeration order, where an integer-like key comes before the others.
   */
  const UnitChoices: seq<string> := ["91", "xbot"]

  /** What pressing a button leads to: the record handed on, the missing-fields alert, or closing. */
  datatype Outcome = Confirmed(user: User) | MissingInfo | Closed

  /** The save guard: a record is handed on only when it has an email and a unit. */
  function SaveOutcome(u: User): (o: Outcome)
    ensures o != Closed
    ensures o.Confirmed? <==> u.email != "" && u.unit != ""
    ensures o.Confirmed? ==> o.user == u
  {
    if u.email == "" || u.unit == "" then MissingInfo else Confirmed(u)
  }

  /** Every unit the select offers satisfies the unit half of the guard. */
  lemma UnitChoicesNonEmpty(v: string)
    requires v in UnitChoices
    ensures v != ""
  {
  }

  class Editor {
    /** The user the dialog was opened on. */
    const original: User
    /** The record being edited. */
    var newUser: User

    /** The name and email inputs are disabled for a user that already has a uid. */
    predicate Locked() {
      original.uid != ""
    }

    /**
     * What every edit keeps: the uid and avatar are never edited, and a
     * locked user's name and email stay the original ones.
     */
    predicate Valid()
      reads this
    {
      && newUser.uid == original.uid && newUser.avatar == original.avatar
      && (Locked() ==> newUser.email == original.email && newUser.displayName == original.displayName)
    }

    /** Editing starts from the user passed in. */
    constructor(user: User)
      ensures original == user && newUser == user
      ensures Valid()
    {
      original := user;
      newUser := user;
    }

    /** The name input, enabled only for a user without a uid: only `displayName` changes. */
    method EditName(v: string)
      requires Valid() && !Locked()
      modifies this
      ensures Valid()
      ensures newUser == old(newUser).(displayName := v)
    {
      newUser := newUser.(displayName := v);
    }

    /** The email input, enabled only for a user without a uid: only `email` changes. */
    method EditEmail(v: string)
      requires Valid() && !Locked()
      modifies this
      ensures Valid()
      ensures newUser == old(newUser).(email := v)
    {
      newUser := newUser.(email := v);
    }

    /** The unit select: only `unit` changes, locked or not. */
    method ChooseUnit(v: string)
      requires Valid()
      modifies this
      ensures Valid()
      ensures newUser == old(newUser).(unit := v)
    {
      newUser := newUser.(unit := v);
    }

    /**
     * The save button: the alert for a record without an email or a unit,
     * otherwise the edited record handed on, which for a locked user keeps
     * its uid, email and name.
     */
    method Save() returns (o: Outcome)
      requires Valid()
      ensures o == SaveOutcome(newUser)
      ensures o.Confirmed? ==> o.user.uid == original.uid
      ensures o.Confirmed? && Locked() ==> o.user.email == original.email && o.user.displayName == original.displayName
    {
      if newUser.email == "" || newUser.unit == "" {
        o := MissingInfo;
      } else {
        o := Confirmed(newUser);
      }
    }

    /** The cancel button: the dialog closes and nothing is handed on. */
    method Cancel() returns (o: Outcome)
      ensures o == Closed
    {
      o := Closed;
    }
  }
}
