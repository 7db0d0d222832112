/**
 * The profile editor: the interest list, the age field and its NSFW rule,
 * the NSFW switch with its warning, and saving, which also writes the new
 * name onto the user's stored posts and replies.
 */
module ProfileSettings {
  import opened Wrappers
  import opened Records
  import opened Text
  import UseAuth

  // ---------------------------------------------------------------------
  // The default profile
  // ---------------------------------------------------------------------

  /** The city of a new profile. */
  const DEFAULT_CITY := "\U{130}stanbul"
  /** The bio of a new profile. */
  const DEFAULT_BIO := "Hen\U{FC}z bir bio eklenmedi."

  /**
   * The profile shown when none is stored: the user's name, the first
   * space-separated word of it as nickname, age 25, NSFW off, no points.
   */
  function DefaultProfile(user: User): (p: Profile)
    ensures p.id == user.id && p.name == user.name && p.joinDate == user.joinDate
    ensures |p.nickname| <= |user.name| && p.nickname == user.name[..|p.nickname|] && ' ' !in p.nickname
    ensures |p.nickname| < |user.name| ==> user.name[|p.nickname|] == ' '
    ensures p.age == 25 && !p.nsfwEnabled && p.interests == []
    ensures p.heroicaPoints == Some(0) && p.comforterPoints.None?
    ensures p.postsCount == 0 && p.repliesCount == 0 && p.solutionsCount == 0 && p.likesReceived == 0
  {
    Profile(user.id, user.name, PrefixBefore(user.name, ' '), 25, DEFAULT_CITY, DEFAULT_BIO, [], None,
            user.joinDate, 0, 0, 0, 0, false, None, Some(0))
  }

  // ---------------------------------------------------------------------
  // Interests
  // ---------------------------------------------------------------------

  /** No interest occurs twice. */
  predicate NoDup(s: seq<string>) {
    forall i, j :: 0 <= i < j < |s| ==> s[i] != s[j]
  }

  /** `handleAddInterest` on the list: the trimmed text is appended when it is non-empty and new. */
  function WithInterest(interests: seq<string>, raw: string): (r: seq<string>)
    ensures Trim(raw) != [] ==> Trim(raw) in r
    ensures forall x :: x in r <==> x in interests || (x == Trim(raw) && x != [])
    ensures |interests| <= |r| <= |interests| + 1 && r[..|interests|] == interests
    ensures NoDup(interests) ==> NoDup(r)
  {
    var t := Trim(raw);
    if t != [] && t !in interests then interests + [t] else interests
  }

  /** `interests.filter((i) => i !== interest)`. */
  function Without(interests: seq<string>, interest: string): (r: seq<string>)
    ensures |r| <= |interests|
  {
    if interests == [] then []
    else (if interests[0] == interest then [] else [interests[0]]) + Without(interests[1..], interest)
  }

  /** Removing deletes every copy of the interest and keeps all others. */
  lemma {:induction false} WithoutMembership(interests: seq<string>, interest: string, x: string)
    ensures x in Without(interests, interest) <==> x in interests && x != interest
  {
    if interests != [] {
      WithoutMembership(interests[1..], interest, x);
      assert x in interests <==> x == interests[0] || x in interests[1..];
    }
  }

  /** Removing keeps the list free of duplicates. */
  lemma {:induction false} WithoutNoDup(interests: seq<string>, interest: string)
    requires NoDup(interests)
    ensures NoDup(Without(interests, interest))
  {
    if interests != [] {
      var rest := interests[1..];
      assert NoDup(rest) by {
        forall i, j | 0 <= i < j < |rest| ensures rest[i] != rest[j] {
          assert rest[i] == interests[i + 1] && rest[j] == interests[j + 1];
        }
      }
      WithoutNoDup(rest, interest);
      if interests[0] != interest {
        WithoutMembership(rest, interest, interests[0]);
        assert interests[0] !in rest by {
          forall k | 0 <= k < |rest| ensures rest[k] != interests[0] {
            assert rest[k] == interests[k + 1];
          }
        }
      }
    }
  }

  /** A list without the interest is left as it is. */
  lemma {:induction false} WithoutAbsent(interests: seq<string>, interest: string)
    requires interest !in interests
    ensures Without(interests, interest) == interests
  {
    if interests != [] {
      assert interest !in interests[1..];
      WithoutAbsent(interests[1..], interest);
    }
  }

  /** Removing an interest that was just added restores the list. */
  lemma {:induction false} AddThenRemove(interests: seq<string>, raw: string)
    requires Trim(raw) != [] && Trim(raw) !in interests
    ensures Without(WithInterest(interests, raw), Trim(raw)) == interests
  {
    WithoutAppend(interests, [Trim(raw)], Trim(raw));
    WithoutAbsent(interests, Trim(raw));
  }

  /** Removing distributes over concatenation. */
  lemma {:induction false} WithoutAppend(a: seq<string>, b: seq<string>, interest: string)
    ensures Without(a + b, interest) == Without(a, interest) + Without(b, interest)
  {
    if a != [] {
      assert (a + b)[1..] == a[1..] + b;
      WithoutAppend(a[1..], b, interest);
    } else {
      assert a + b == b;
    }
  }

  // ---------------------------------------------------------------------
  // Age and NSFW
  // ---------------------------------------------------------------------

  /** The oldest age the field accepts. */
  const MAX_AGE := 120
  /** The age from which NSFW content may be enabled. */
  const ADULT_AGE := 18

  /** The age field's value: digits only (`/^\d*$/`), the empty field reading as 0. */
  function AgeOf(value: string): (r: Option<nat>)
    ensures r.Some? <==> AllDigits(value)
    ensures value == [] ==> r == Some(0)
  {
    if !AllDigits(value) then None
    else if value == [] then Some(0)
    else Some(DigitsValue(value))
  }

  /** The profile never shows NSFW enabled under 18. */
  predicate NsfwRespectsAge(p: Profile) {
    p.nsfwEnabled ==> p.age >= ADULT_AGE
  }

  /**
   * `handleAgeChange` on the profile: a digit string up to 120 becomes the
   * age, and an age under 18 switches NSFW off; anything else is ignored.
   */
  function WithAge(p: Profile, value: string): (r: Profile)
    ensures AgeOf(value).Some? && AgeOf(value).value <= MAX_AGE ==>
      r.age == AgeOf(value).value && r.nsfwEnabled == (p.nsfwEnabled && r.age >= ADULT_AGE)
    ensures AgeOf(value).None? || AgeOf(value).value > MAX_AGE ==> r == p
    ensures r.(age := p.age, nsfwEnabled := p.nsfwEnabled) == p
    ensures NsfwRespectsAge(p) ==> NsfwRespectsAge(r)
  {
    match AgeOf(value)
    case None => p
    case Some(age) =>
      if age <= MAX_AGE then
        var updated := p.(age := age);
        if age < ADULT_AGE then updated.(nsfwEnabled := false) else updated
      else p
  }

  // ---------------------------------------------------------------------
  // Saving
  // ---------------------------------------------------------------------

  /** The stored posts after a rename: the user's posts carry the new name. */
  function RenamePosts(posts: seq<Post>, userId: string, name: string): (r: seq<Post>)
    ensures |r| == |posts|
    ensures forall k :: 0 <= k < |posts| ==>
      r[k] == if AuthoredBy(posts[k].authorId, userId) then posts[k].(authorName := Some(name)) else posts[k]
  {
    if posts == [] then []
    else
      [if AuthoredBy(posts[0].authorId, userId) then posts[0].(authorName := Some(name)) else posts[0]]
      + RenamePosts(posts[1..], userId, name)
  }

  /** The stored replies after a rename: the user's replies carry the new name. */
  function RenameReplies(replies: seq<Reply>, userId: string, name: string): (r: seq<Reply>)
    ensures |r| == |replies|
    ensures forall k :: 0 <= k < |replies| ==>
      r[k] == if AuthoredBy(replies[k].authorId, userId) then replies[k].(authorName := name) else replies[k]
  {
    if replies == [] then []
    else
      [if AuthoredBy(replies[0].authorId, userId) then replies[0].(authorName := name) else replies[0]]
      + RenameReplies(replies[1..], userId, name)
  }

  /** Renaming twice to the same name is renaming once. */
  lemma RenameIdempotent(posts: seq<Post>, replies: seq<Reply>, userId: string, name: string)
    ensures RenamePosts(RenamePosts(posts, userId, name), userId, name) == RenamePosts(posts, userId, name)
    ensures RenameReplies(RenameReplies(replies, userId, name), userId, name) == RenameReplies(replies, userId, name)
  {
    var p1 := RenamePosts(posts, userId, name);
    var p2 := RenamePosts(p1, userId, name);
    forall k | 0 <= k < |posts| ensures p2[k] == p1[k] {
      assert p1[k].authorId == posts[k].authorId;
    }
    var r1 := RenameReplies(replies, userId, name);
    var r2 := RenameReplies(r1, userId, name);
    forall k | 0 <= k < |replies| ensures r2[k] == r1[k] {
      assert r1[k].authorId == replies[k].authorId;
    }
  }

  /**
   * What `handleSave` writes, in its order: the profile under the user's id,
   * then the renamed post list, then the renamed reply list. An absent list
   * is skipped. A malformed list throws, so nothing after it is written.
   */
  function SavedStore(store: Store, user: User, profile: Profile): (r: Store)
    ensures r.user == store.user
    ensures r.profiles == store.profiles[user.id := profile]
    ensures r.posts == if store.posts.Present? then Present(RenamePosts(store.posts.items, user.id, profile.name))
                       else store.posts
    ensures r.replies == if !store.posts.Malformed? && store.replies.Present?
                         then Present(RenameReplies(store.replies.items, user.id, profile.name))
                         else store.replies
  {
    var withProfile := store.(profiles := store.profiles[user.id := profile]);
    if store.posts.Malformed? then withProfile
    else
      var withPosts := if store.posts.Present?
        then withProfile.(posts := Present(RenamePosts(store.posts.items, user.id, profile.name)))
        else withProfile;
      if store.replies.Present?
      then withPosts.(replies := Present(RenameReplies(store.replies.items, user.id, profile.name)))
      else withPosts
  }

  /** `handleSave` reaches `onClose` exactly when neither stored list is malformed. */
  predicate SaveCompletes(store: Store) {
    !store.posts.Malformed? && !store.replies.Malformed?
  }

  // ---------------------------------------------------------------------
  // The editor
  // ---------------------------------------------------------------------

  /** What a waiting `handleSave` captured at the click: the signed-in user and the profile being edited. */
  datatype SaveRequest = SaveRequest(user: User, profile: Profile)

  /** The state of `ProfileSettings`. */
  class Editor {
    var profile: Option<Profile>
    var newInterest: string
    var showNsfwWarning: bool
    var isLoading: bool
    /** The save waiting to finish; `isLoading` is set exactly while there is one. */
    var pending: Option<SaveRequest>

    constructor ()
      ensures profile == None && newInterest == "" && !showNsfwWarning && !isLoading && pending == None
    {
      profile := None;
      newInterest := "";
      showNsfwWarning := false;
      isLoading := false;
      pending := None;
    }

    /** `isLoading` is on exactly while a save waits. */
    predicate Valid()
      reads this
    {
      isLoading <==> pending.Some?
    }

    /** Opening the editor for a user loads the stored profile, or the default. */
    method Load(user: Option<User>, isOpen: bool, profiles: map<string, Profile>)
      modifies this
      ensures user.Some? && isOpen ==>
        profile == Some(if user.value.id in profiles then profiles[user.value.id] else DefaultProfile(user.value))
      ensures !(user.Some? && isOpen) ==> profile == old(profile)
      ensures newInterest == old(newInterest) && showNsfwWarning == old(showNsfwWarning) && isLoading == old(isLoading) && pending == old(pending)
    {
      if user.Some? && isOpen {
        profile := Some(if user.value.id in profiles then profiles[user.value.id] else DefaultProfile(user.value));
      }
    }

    /** `handleAddInterest`: the field is cleared only when the interest was added. */
    method AddInterest()
      modifies this
      ensures profile.Some? <==> old(profile).Some?
      ensures old(profile).Some? ==> profile.value == old(profile).value.(interests := WithInterest(old(profile).value.interests, old(newInterest)))
      ensures newInterest == if old(profile).Some? && Trim(old(newInterest)) != [] && Trim(old(newInterest)) !in old(profile).value.interests
                             then "" else old(newInterest)
      ensures showNsfwWarning == old(showNsfwWarning) && isLoading == old(isLoading) && pending == old(pending)
    {
      var t := Trim(newInterest);
      if t != [] && profile.Some? && t !in profile.value.interests {
        profile := Some(profile.value.(interests := profile.value.interests + [t]));
        newInterest := "";
      }
    }

    /** `handleRemoveInterest`. */
    method RemoveInterest(interest: string)
      modifies this
      ensures profile.Some? <==> old(profile).Some?
      ensures old(profile).Some? ==> profile.value == old(profile).value.(interests := Without(old(profile).value.interests, interest))
      ensures newInterest == old(newInterest) && showNsfwWarning == old(showNsfwWarning) && isLoading == old(isLoading) && pending == old(pending)
    {
      if profile.Some? {
        profile := Some(profile.value.(interests := Without(profile.value.interests, interest)));
      }
    }

    /** `handleAgeChange`. */
    method AgeChange(value: string)
      modifies this
      ensures profile.Some? <==> old(profile).Some?
      ensures old(profile).Some? ==> profile.value == WithAge(old(profile).value, value)
      ensures newInterest == old(newInterest) && showNsfwWarning == old(showNsfwWarning) && isLoading == old(isLoading) && pending == old(pending)
    {
      if AllDigits(value) && profile.Some? {
        var age := if value == "" then 0 else DigitsValue(value);
        if age <= MAX_AGE {
          var updated := profile.value.(age := age);
          if age < ADULT_AGE {
            updated := updated.(nsfwEnabled := false);
          }
          profile := Some(updated);
        }
      }
    }

    /**
     * `handleNsfwToggle`: nothing without a profile or under 18; switching
     * on only opens the warning, switching off takes effect at once.
     */
    method NsfwToggle(enabled: bool)
      modifies this
      ensures old(profile).None? || old(profile).value.age < ADULT_AGE ==>
        profile == old(profile) && showNsfwWarning == old(showNsfwWarning)
      ensures old(profile).Some? && old(profile).value.age >= ADULT_AGE && enabled ==>
        profile == old(profile) && showNsfwWarning
      ensures old(profile).Some? && old(profile).value.age >= ADULT_AGE && !enabled ==>
        profile == Some(old(profile).value.(nsfwEnabled := false)) && showNsfwWarning == old(showNsfwWarning)
      ensures newInterest == old(newInterest) && isLoading == old(isLoading) && pending == old(pending)
    {
      if profile.None? {
        return;
      }
      if profile.value.age < ADULT_AGE {
        return;
      }
      if enabled {
        showNsfwWarning := true;
      } else {
        profile := Some(profile.value.(nsfwEnabled := false));
      }
    }

    /** `confirmNsfwEnable`: NSFW on, warning closed (the age is not checked again). */
    method ConfirmNsfwEnable()
      modifies this
      ensures old(profile).Some? ==> profile == Some(old(profile).value.(nsfwEnabled := true))
      ensures old(profile).None? ==> profile == None
      ensures !showNsfwWarning
      ensures newInterest == old(newInterest) && isLoading == old(isLoading) && pending == old(pending)
    {
      if profile.Some? {
        profile := Some(profile.value.(nsfwEnabled := true));
      }
      showNsfwWarning := false;
    }

    /**
     * `handleSave` up to its wait: with a profile and a user, loading starts
     * and both are captured; otherwise nothing. While it waits the Save and
     * Cancel buttons are disabled, so no second save starts.
     */
    method StartSave(user: Option<User>) returns (started: bool)
      requires Valid() && !isLoading
      modifies this
      ensures Valid()
      ensures started <==> old(profile).Some? && user.Some?
      ensures started ==> pending == Some(SaveRequest(user.value, old(profile).value))
      ensures !started ==> pending == old(pending)
      ensures profile == old(profile) && newInterest == old(newInterest) && showNsfwWarning == old(showNsfwWarning)
    {
      if profile.None? || user.None? {
        return false;
      }
      isLoading := true;
      pending := Some(SaveRequest(user.value, profile.value));
      return true;
    }

    /**
     * The end of `handleSave`: the captured profile is stored, `updateUser`
     * receives the user under the profile's name, the user's stored posts
     * and replies are renamed, and the dialog asks its parent to close it.
     * A malformed stored list throws: the writes made before it stay, the
     * dialog stays open, and loading ends either way. The context keeps the
     * stored user when one is stored (see `UseAuth.AfterUpdate`), since the
     * user entry is not rewritten.
     */
    method FinishSave(store: Store, auth: UseAuth.Provider) returns (newStore: Store, closed: bool)
      requires Valid() && pending.Some?
      modifies this, auth
      ensures Valid() && !isLoading
      ensures newStore == SavedStore(store, old(pending).value.user, old(pending).value.profile)
      ensures auth.user == UseAuth.AfterUpdate(old(auth.stored),
                                               old(pending).value.user.(name := old(pending).value.profile.name))
      ensures auth.stored == old(auth.stored)
      ensures closed <==> SaveCompletes(store)
      ensures profile == old(profile) && newInterest == old(newInterest) && showNsfwWarning == old(showNsfwWarning)
    {
      var req := pending.value;
      isLoading := false;
      pending := None;
      newStore := store.(profiles := store.profiles[req.user.id := req.profile]);
      auth.UpdateUser(req.user.(name := req.profile.name));
      if store.posts.Malformed? {
        return newStore, false;
      }
      if store.posts.Present? {
        newStore := newStore.(posts := Present(RenamePosts(store.posts.items, req.user.id, req.profile.name)));
      }
      if store.replies.Malformed? {
        return newStore, false;
      }
      if store.replies.Present? {
        newStore := newStore.(replies := Present(RenameReplies(store.replies.items, req.user.id, req.profile.name)));
      }
      closed := true;
    }
  }
}
