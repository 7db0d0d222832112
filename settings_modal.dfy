/**
 * The account settings dialog: changing the e-mail address, the password
 * checks, deleting the account with everything it wrote, and closing.
 * Each handler waits before it takes effect; the model splits such a
 * handler into the check that starts it and the step that finishes it, so
 * that a close request in between can be expressed.
 */
module SettingsModal {
  import opened Wrappers
  import opened Records
  import opened Seqs
  import Text
  import UseAuth

  // ---------------------------------------------------------------------
  // Password checks
  // ---------------------------------------------------------------------

  /** The shortest new password accepted. */
  const MIN_PASSWORD := 6

  /** The outcome of the password checks, in the order they are made. */
  datatype PasswordCheck = FieldsMissing | Mismatch | TooShort | Accepted

  /** `handleChangePassword`'s checks: all fields filled, the two new ones equal, at least six UTF-16 code units. */
  function CheckPassword(current: string, next: string, confirm: string): (r: PasswordCheck)
    ensures r == FieldsMissing <==> current == [] || next == [] || confirm == []
    ensures r == Mismatch <==> current != [] && next != [] && confirm != [] && next != confirm
    ensures r == TooShort <==> current != [] && next != [] && next == confirm && Text.Utf16Length(next) < MIN_PASSWORD
    ensures r == Accepted <==> current != [] && next == confirm && Text.Utf16Length(next) >= MIN_PASSWORD
  {
    if current == [] || next == [] || confirm == [] then FieldsMissing
    else if next != confirm then Mismatch
    else if Text.Utf16Length(next) < MIN_PASSWORD then TooShort
    else Accepted
  }

  /** Length is counted in code units: three emoji make a password of six, which is accepted. */
  lemma EmojiPasswordAccepted()
    ensures CheckPassword("a", "\U{1F600}\U{1F600}\U{1F600}", "\U{1F600}\U{1F600}\U{1F600}") == Accepted
  {
    Text.SurrogatePairsCountTwice();
  }

  // ---------------------------------------------------------------------
  // Account deletion
  // ---------------------------------------------------------------------

  /** Keeps what someone else wrote (an item without author included). */
  function NotPostedBy(userId: string): Post -> bool {
    (p: Post) => !AuthoredBy(p.authorId, userId)
  }

  /** Keeps the replies someone else wrote. */
  function NotRepliedBy(userId: string): Reply -> bool {
    (r: Reply) => !AuthoredBy(r.authorId, userId)
  }

  /**
   * What deleting the account leaves in storage, in the handler's order: no
   * user, no profile for the user, then the post list and then the reply
   * list without the user's items, an absent list read as empty. A
   * malformed list throws, so nothing after it is written.
   */
  function AccountRemoved(store: Store, user: User): (r: Store)
    ensures r.user == None
    ensures r.profiles == store.profiles - {user.id}
    ensures r.posts == if store.posts.Malformed? then Malformed
                       else Present(Filter(store.posts.ItemsOr(), NotPostedBy(user.id)))
    ensures r.replies == if store.posts.Malformed? || store.replies.Malformed? then store.replies
                         else Present(Filter(store.replies.ItemsOr(), NotRepliedBy(user.id)))
  {
    var removed := store.(user := None, profiles := store.profiles - {user.id});
    if store.posts.Malformed? then removed
    else
      var withPosts := removed.(posts := Present(Filter(store.posts.ItemsOr(), NotPostedBy(user.id))));
      if store.replies.Malformed? then withPosts
      else withPosts.(replies := Present(Filter(store.replies.ItemsOr(), NotRepliedBy(user.id))))
  }

  /** `handleDeleteAccount` reaches `logout` and `onClose` exactly when neither stored list is malformed. */
  predicate DeleteCompletes(store: Store) {
    !store.posts.Malformed? && !store.replies.Malformed?
  }

  /** After a completed deletion the stored lists hold exactly the others' items, and nothing by the user. */
  lemma AccountRemovedMembership(store: Store, user: User, p: Post, r: Reply)
    requires DeleteCompletes(store)
    ensures p in AccountRemoved(store, user).posts.items <==>
      p in store.posts.ItemsOr() && !AuthoredBy(p.authorId, user.id)
    ensures r in AccountRemoved(store, user).replies.items <==>
      r in store.replies.ItemsOr() && !AuthoredBy(r.authorId, user.id)
  {
    FilterMembership(store.posts.ItemsOr(), NotPostedBy(user.id), p);
    FilterMembership(store.replies.ItemsOr(), NotRepliedBy(user.id), r);
  }

  // ---------------------------------------------------------------------
  // The dialog
  // ---------------------------------------------------------------------

  /** Which awaited handler is in flight, with what its closure captured at the click. */
  datatype Pending = Idle | SavingEmail(user: User, email: string) | ChangingPassword | Deleting(user: User)

  /** The state of `SettingsModal`. */
  class Dialog {
    var email: string
    var currentPassword: string
    var newPassword: string
    var confirmPassword: string
    var isLoading: bool
    var showDeleteWarning: bool
    var deleteConfirmation: string
    /** The handler waiting to finish; `isLoading` is set exactly while there is one. */
    var pending: Pending

    constructor ()
      ensures email == "" && currentPassword == "" && newPassword == "" && confirmPassword == ""
      ensures !isLoading && !showDeleteWarning && deleteConfirmation == "" && pending == Idle
    {
      email := "";
      currentPassword := "";
      newPassword := "";
      confirmPassword := "";
      isLoading := false;
      showDeleteWarning := false;
      deleteConfirmation := "";
      pending := Idle;
    }

    /** `isLoading` is on exactly while a handler waits. */
    predicate Valid()
      reads this
    {
      isLoading <==> pending != Idle
    }

    /** Opening the dialog for a user fills in the e-mail field. */
    method Open(user: Option<User>, isOpen: bool)
      modifies this
      ensures email == if user.Some? && isOpen then user.value.email else old(email)
      ensures currentPassword == old(currentPassword) && newPassword == old(newPassword) && confirmPassword == old(confirmPassword)
      ensures isLoading == old(isLoading) && pending == old(pending)
      ensures showDeleteWarning == old(showDeleteWarning) && deleteConfirmation == old(deleteConfirmation)
    {
      if user.Some? && isOpen {
        email := user.value.email;
      }
    }

    /** `handleSaveEmail` up to its wait: needs a user. */
    method StartSaveEmail(user: Option<User>) returns (started: bool)
      requires Valid() && !isLoading
      modifies this
      ensures Valid()
      ensures started <==> user.Some?
      ensures started ==> pending == SavingEmail(user.value, email)
      ensures !started ==> pending == old(pending)
      ensures email == old(email) && currentPassword == old(currentPassword) && newPassword == old(newPassword)
      ensures confirmPassword == old(confirmPassword)
      ensures showDeleteWarning == old(showDeleteWarning) && deleteConfirmation == old(deleteConfirmation)
    {
      if user.None? {
        return false;
      }
      isLoading := true;
      pending := SavingEmail(user.value, email);
      return true;
    }

    /** The end of `handleSaveEmail`: the stored user gets the e-mail captured at the click, nothing else changes. */
    method FinishSaveEmail(store: Store) returns (newStore: Store)
      requires Valid() && pending.SavingEmail?
      modifies this
      ensures Valid() && !isLoading
      ensures newStore == store.(user := Some(old(pending).user.(email := old(pending).email)))
      ensures email == old(email) && currentPassword == old(currentPassword) && newPassword == old(newPassword)
      ensures confirmPassword == old(confirmPassword)
      ensures showDeleteWarning == old(showDeleteWarning) && deleteConfirmation == old(deleteConfirmation)
    {
      newStore := store.(user := Some(pending.user.(email := pending.email)));
      isLoading := false;
      pending := Idle;
    }

    /** `handleChangePassword` up to its wait: the checks, then loading when they pass. */
    method StartChangePassword() returns (check: PasswordCheck)
      requires Valid() && !isLoading
      modifies this
      ensures Valid()
      ensures check == CheckPassword(currentPassword, newPassword, confirmPassword)
      ensures check == Accepted ==> pending == ChangingPassword
      ensures check != Accepted ==> pending == old(pending)
      ensures email == old(email) && currentPassword == old(currentPassword) && newPassword == old(newPassword)
      ensures confirmPassword == old(confirmPassword)
      ensures showDeleteWarning == old(showDeleteWarning) && deleteConfirmation == old(deleteConfirmation)
    {
      check := CheckPassword(currentPassword, newPassword, confirmPassword);
      if check == Accepted {
        isLoading := true;
        pending := ChangingPassword;
      }
    }

    /** The end of `handleChangePassword`: the three fields are cleared. */
    method FinishChangePassword()
      requires Valid() && pending == ChangingPassword
      modifies this
      ensures Valid() && !isLoading
      ensures currentPassword == "" && newPassword == "" && confirmPassword == ""
      ensures email == old(email)
      ensures showDeleteWarning == old(showDeleteWarning) && deleteConfirmation == old(deleteConfirmation)
    {
      currentPassword := "";
      newPassword := "";
      confirmPassword := "";
      isLoading := false;
      pending := Idle;
    }

    /** `handleDeleteAccount` up to its wait: needs a user and the e-mail typed exactly. */
    method StartDeleteAccount(user: Option<User>) returns (started: bool)
      requires Valid() && !isLoading
      modifies this
      ensures Valid()
      ensures started <==> user.Some? && deleteConfirmation == user.value.email
      ensures started ==> pending == Deleting(user.value)
      ensures !started ==> pending == old(pending)
      ensures email == old(email) && currentPassword == old(currentPassword) && newPassword == old(newPassword)
      ensures confirmPassword == old(confirmPassword)
      ensures showDeleteWarning == old(showDeleteWarning) && deleteConfirmation == old(deleteConfirmation)
    {
      if user.None? || deleteConfirmation != user.value.email {
        return false;
      }
      isLoading := true;
      pending := Deleting(user.value);
      return true;
    }

    /**
     * The end of `handleDeleteAccount`: storage loses the account, then
     * `logout()` signs the user out of the context, then the dialog asks its
     * parent to close it (`onClose`, not `handleClose`, so the fields stay).
     * A malformed stored list throws before `logout()`: the removals made
     * before it stay, the context is untouched and the dialog stays open.
     */
    method FinishDeleteAccount(store: Store, auth: UseAuth.Provider) returns (newStore: Store, closed: bool)
      requires Valid() && pending.Deleting?
      modifies this, auth
      ensures Valid() && !isLoading
      ensures newStore == AccountRemoved(store, old(pending).user)
      ensures closed <==> DeleteCompletes(store)
      ensures closed ==> auth.user == None && auth.stored == None && !auth.Context().isAuthenticated
      ensures !closed ==> auth.user == old(auth.user) && auth.stored == old(auth.stored)
      ensures email == old(email) && currentPassword == old(currentPassword) && newPassword == old(newPassword)
      ensures confirmPassword == old(confirmPassword)
      ensures showDeleteWarning == old(showDeleteWarning) && deleteConfirmation == old(deleteConfirmation)
    {
      newStore := AccountRemoved(store, pending.user);
      isLoading := false;
      pending := Idle;
      if !DeleteCompletes(store) {
        return newStore, false;
      }
      auth.Logout();
      closed := true;
    }

    /** `handleClose`: ignored while loading; otherwise the warning, the confirmation and the passwords are reset. */
    method Close() returns (closed: bool)
      modifies this
      ensures closed <==> !old(isLoading)
      ensures old(isLoading) ==>
        && showDeleteWarning == old(showDeleteWarning) && deleteConfirmation == old(deleteConfirmation)
        && currentPassword == old(currentPassword) && newPassword == old(newPassword) && confirmPassword == old(confirmPassword)
      ensures !old(isLoading) ==>
        !showDeleteWarning && deleteConfirmation == "" && currentPassword == "" && newPassword == "" && confirmPassword == ""
      ensures email == old(email) && isLoading == old(isLoading) && pending == old(pending)
    {
      if isLoading {
        return false;
      }
      showDeleteWarning := false;
      deleteConfirmation := "";
      currentPassword := "";
      newPassword := "";
      confirmPassword := "";
      return true;
    }
  }
}
