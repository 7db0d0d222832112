/**
 * The authentication context: the signed-in user, kept in memory and in
 * the `comfortillo-user` storage entry, with login, registration, logout,
 * user updates and the events that re-read the stored user.  The clock is
 * a parameter; the simulated wait of login and registration is left out.
 */
module UseAuth {
  import opened Wrappers
  import opened Text
  import opened Records

  /** The storage key of the signed-in user. */
  const USER_KEY := "comfortillo-user"

  /** What `useAuth` hands a component. */
  datatype AuthContext = AuthContext(user: Option<User>, isAuthenticated: bool)

  /** The context value of a user: signed in exactly when there is a user (`Boolean(user)`). */
  function ContextOf(user: Option<User>): (c: AuthContext)
    ensures c.user == user
    ensures c.isAuthenticated <==> user.Some?
  {
    AuthContext(user, user.Some?)
  }

  /** `useAuth`: outside a provider it throws; inside it gives the provider's value. */
  datatype Used = Thrown(message: string) | Context(context: AuthContext)

  const OUTSIDE_PROVIDER := "useAuth must be used within an AuthProvider"

  function UseAuth(provided: Option<AuthContext>): (r: Used)
    ensures r.Thrown? <==> provided.None?
    ensures r.Thrown? ==> r.message == OUTSIDE_PROVIDER
    ensures r.Context? ==> r.context == provided.value
  {
    if provided.None? then Thrown(OUTSIDE_PROVIDER) else Context(provided.value)
  }

  /** The name a login gives: the email up to its first "@" (`email.split("@")[0]`). */
  function NameFromEmail(email: string): (r: string)
    ensures |r| <= |email| && r == email[..|r|] && '@' !in r
    ensures |r| < |email| ==> email[|r|] == '@'
  {
    PrefixBefore(email, '@')
  }

  /** For an address "local@domain" the name is the local part. */
  lemma LoginNameIsLocalPart(local: string, domain: string)
    requires '@' !in local
    ensures NameFromEmail(local + "@" + domain) == local
  {
    assert local + "@" + domain == local + ("@" + domain);
    PrefixBeforeAt(local, "@" + domain, '@');
  }

  /**
   * The user a login or registration creates. The clock is read twice: the
   * first reading, written in decimal, is the id, and the second is the join
   * date.
   */
  function NewUser(name: string, email: string, idNow: nat, joinNow: nat): (u: User)
    ensures u.name == name && u.email == email && u.joinDate == joinNow
    ensures AllDigits(u.id) && DigitsValue(u.id) == idNow
  {
    ParseNatToString(idNow);
    User(NatToString(idNow), name, email, joinNow)
  }

  /**
   * The user in memory after `updateUser`: the update is set, but the two
   * update events it dispatches re-read the stored user, which is set last
   * and so wins whenever a user is stored.
   */
  function AfterUpdate(stored: Option<User>, updated: User): (r: Option<User>)
    ensures stored.Some? ==> r == stored
    ensures stored.None? ==> r == Some(updated)
  {
    if stored.Some? then stored else Some(updated)
  }

  /**
   * The profile editor renames the user with `updateUser` but does not
   * store the renamed user, so the rename is undone at once: a stored user
   * named "a" renamed to "b" is still named "a".
   */
  lemma UpdateLost(u: User)
    requires u.name == "a"
    ensures AfterUpdate(Some(u), u.(name := "b")) == Some(u)
    ensures AfterUpdate(Some(u), u.(name := "b")) != Some(u.(name := "b"))
  {
  }

  /** The provider's state. */
  class Provider {
    var user: Option<User>
    /** The `comfortillo-user` entry; `None` when absent. */
    var stored: Option<User>

    /** Before its first effect the provider has no user. */
    constructor (stored: Option<User>)
      ensures user == None && this.stored == stored
    {
      user := None;
      this.stored := stored;
    }

    /** The value the provider hands down. */
    function Context(): (c: AuthContext)
      reads this
      ensures c.isAuthenticated <==> user.Some?
    {
      ContextOf(user)
    }

    /** The first effect: a stored session is restored. */
    method Mount()
      modifies this
      ensures user == if old(stored).Some? then old(stored) else old(user)
      ensures stored == old(stored)
    {
      if stored.Some? {
        user := stored;
      }
    }

    /**
     * The `storage` event: another tab has already written the shared
     * storage, so this tab's entry now reads as that tab left it. The key is
     * `None` for a `clear()`, which empties the entry. Only a new value of
     * the user entry becomes the user; a removal or a clear keeps the user.
     */
    method StorageEvent(key: Option<string>, newValue: Option<User>)
      modifies this
      ensures user == if key == Some(USER_KEY) && newValue.Some? then newValue else old(user)
      ensures stored == (if key == Some(USER_KEY) then newValue else if key.None? then None else old(stored))
    {
      if key == Some(USER_KEY) {
        stored := newValue;
      } else if key.None? {
        stored := None;
      }
      if key == Some(USER_KEY) && newValue.Some? {
        user := newValue;
      }
    }

    /** The `comfortillo-userUpdated` and `userUpdated` events: the stored user, when there is one, becomes the user. */
    method UserUpdatedEvent()
      modifies this
      ensures user == if old(stored).Some? then old(stored) else old(user)
      ensures stored == old(stored)
    {
      if stored.Some? {
        user := stored;
      }
    }

    /** `login`: any credentials succeed; the name is the email before its "@", and the user is stored. */
    method Login(email: string, password: string, idNow: nat, joinNow: nat) returns (ok: bool)
      modifies this
      ensures ok
      ensures user == Some(NewUser(NameFromEmail(email), email, idNow, joinNow)) && stored == user
      ensures Context().isAuthenticated
    {
      var newUser := NewUser(NameFromEmail(email), email, idNow, joinNow);
      user := Some(newUser);
      stored := Some(newUser);
      return true;
    }

    /** `register`: a user with exactly the given name and email is created and stored. */
    method Register(name: string, email: string, password: string, idNow: nat, joinNow: nat) returns (ok: bool)
      modifies this
      ensures ok
      ensures user == Some(NewUser(name, email, idNow, joinNow)) && stored == user
      ensures Context().isAuthenticated
    {
      var newUser := NewUser(name, email, idNow, joinNow);
      user := Some(newUser);
      stored := Some(newUser);
      return true;
    }

    /** `logout`: no user, nothing stored. */
    method Logout()
      modifies this
      ensures user == None && stored == None
      ensures !Context().isAuthenticated
    {
      user := None;
      stored := None;
    }

    /**
     * `updateUser` as written: the update is set, then both update events
     * fire and re-read the stored user.
     */
    method UpdateUser(updated: User)
      modifies this
      ensures user == AfterUpdate(old(stored), updated)
      ensures stored == old(stored)
    {
      user := Some(updated);
      UserUpdatedEvent();
      UserUpdatedEvent();
    }

    /**
     * `updateUser` as intended: the update is stored before the events
     * fire, so it is the user afterwards and survives a reload.
     */
    method UpdateUserStored(updated: User)
      modifies this
      ensures user == Some(updated) && stored == Some(updated)
    {
      stored := Some(updated);
      user := Some(updated);
      UserUpdatedEvent();
      UserUpdatedEvent();
    }
  }

  /**
   * Another tab signs out, then this tab updates its user: the entry is
   * gone, so the update events find nothing stored and the update is kept.
   */
  method OtherTabLogoutThenUpdate(p: Provider, updated: User)
    modifies p
    ensures p.stored == None && p.user == Some(updated)
  {
    p.StorageEvent(Some(USER_KEY), None);
    p.UpdateUser(updated);
  }
}
