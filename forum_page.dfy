/**
 * The forum: the post list, the reply list and the stored profiles the
 * handlers of `ForumPage` update.  Every handler replaces the in-memory
 * list and writes it back to storage; the three sample posts are shown
 * but never stored.
 */
module ForumPage {
  import opened Wrappers
  import opened Records
  import opened Seqs
  import opened Text

  // ---------------------------------------------------------------------
  // Sample posts and persistence
  // ---------------------------------------------------------------------

  /** The ids of `SAMPLE_POSTS`. */
  const SAMPLE_IDS: set<string> := {"1", "2", "3"}

  /** Milliseconds in an hour. */
  const HOUR_MS := 3600000

  /** The texts of the three sample posts. */
  const SAMPLE_TEXT_1: string := "Son zamanlarda kendimi \U{E7}ok yaln\U{131}z hissediyorum. Arkada\U{15F}lar\U{131}m var ama onlarla bile konu\U{15F}urken bir bo\U{15F}luk hissediyorum. Sanki kimse beni ger\U{E7}ekten anlam\U{131}yor..."
  const SAMPLE_TEXT_2: string := "Her g\U{FC}n i\U{15F}e giderken midem bulan\U{131}yor. Patronumun bask\U{131}s\U{131}, s\U{FC}rekli artan i\U{15F} y\U{FC}k\U{FC}... Bazen nefes alam\U{131}yorum sanki. Bu b\U{F6}yle devam edemez."
  const SAMPLE_TEXT_3: string := "Ailem beni hi\U{E7} anlam\U{131}yor. S\U{FC}rekli ele\U{15F}tiri, s\U{FC}rekli beklentiler. Kendi hayat\U{131}m\U{131} ya\U{15F}ayam\U{131}yorum. 25 ya\U{15F}\U{131}nday\U{131}m ama hala \U{E7}ocuk muamelesi g\U{F6}r\U{FC}yorum."

  /** `SAMPLE_POSTS`, whose times are taken from the clock when the module loads. */
  function SamplePosts(loadTime: int): (r: seq<Post>)
    ensures |r| == 3 && forall k :: 0 <= k < |r| ==> r[k].id in SAMPLE_IDS
  {
    [ Post("1", "Yaln\U{131}zl\U{131}k hissi beni t\U{FC}ketmeye ba\U{15F}lad\U{131}", "Yaln\U{131}zl\U{131}k",
           SAMPLE_TEXT_1, None, loadTime - HOUR_MS, 12, None, None, None),
      Post("2", "\U{130}\U{15F} stresi dayan\U{131}lmaz hale geldi", "Stres",
           SAMPLE_TEXT_2, None, loadTime - 2 * HOUR_MS, 8, None, None, None),
      Post("3", "Ailemle olan sorunlar", "Aile",
           SAMPLE_TEXT_3, None, loadTime - 3 * HOUR_MS, 15, None, None, None) ]
  }

  /** A post that is not one of the samples. */
  predicate IsUserPost(p: Post) {
    p.id !in SAMPLE_IDS
  }

  /** `userPosts`: what is written to `comfortillo-posts`. */
  function UserPosts(posts: seq<Post>): seq<Post> {
    Filter(posts, IsUserPost)
  }

  /** The stored list holds exactly the non-sample posts of the list, in order. */
  lemma UserPostsMembership(posts: seq<Post>, p: Post)
    ensures p in UserPosts(posts) <==> p in posts && p.id !in SAMPLE_IDS
  {
    FilterMembership(posts, IsUserPost, p);
  }

  /**
   * Storing and loading agree: the list loaded as samples followed by the
   * stored posts is stored back as exactly those stored posts.
   */
  lemma StoreAfterLoad(loadTime: int, saved: seq<Post>)
    requires forall k :: 0 <= k < |saved| ==> saved[k].id !in SAMPLE_IDS
    ensures UserPosts(SamplePosts(loadTime) + saved) == saved
  {
    FilterAppend(SamplePosts(loadTime), saved, IsUserPost);
    FilterNone(SamplePosts(loadTime), IsUserPost);
    FilterAll(saved, IsUserPost);
  }

  // ---------------------------------------------------------------------
  // The list updates the handlers make
  // ---------------------------------------------------------------------

  /**
   * The post `handleCreatePost` builds: no support yet, the user as author.
   * The clock is read twice, first for the id and then for the time stamp,
   * and the two readings need not agree.
   */
  function NewPost(draft: Draft, user: Option<User>, idNow: nat, stampNow: nat): (p: Post)
    ensures p.supportCount == 0 && p.timestamp == stampNow
    ensures AllDigits(p.id) && DigitsValue(p.id) == idNow
    ensures p.authorId.Some? <==> user.Some?
    ensures user.Some? ==> p.authorId == Some(user.value.id)
    ensures p.title == draft.title && p.category == draft.category && p.content == draft.content
    ensures p.media == draft.media && p.isNsfw == draft.isNsfw
  {
    ParseNatToString(idNow);
    Post(NatToString(idNow), draft.title, draft.category, draft.content, draft.media, stampNow, 0,
         if user.Some? then Some(user.value.id) else None, draft.isNsfw, None)
  }

  /** Keeps the posts with another id. */
  function OtherPost(postId: string): Post -> bool {
    (p: Post) => p.id != postId
  }

  /** Keeps the replies to another post. */
  function OtherPostReply(postId: string): Reply -> bool {
    (r: Reply) => r.postId != postId
  }

  /** Deleting keeps exactly the other posts and the replies to other posts. */
  lemma DeleteMembership(posts: seq<Post>, replies: seq<Reply>, postId: string, p: Post, r: Reply)
    ensures p in Filter(posts, OtherPost(postId)) <==> p in posts && p.id != postId
    ensures r in Filter(replies, OtherPostReply(postId)) <==> r in replies && r.postId != postId
  {
    FilterMembership(posts, OtherPost(postId), p);
    FilterMembership(replies, OtherPostReply(postId), r);
  }

  /** `posts.map`: one more supporter on every post with the id, the others as they were. */
  function Supported(posts: seq<Post>, postId: string): (r: seq<Post>)
    ensures |r| == |posts|
    ensures forall k :: 0 <= k < |posts| ==>
      r[k] == if posts[k].id == postId then posts[k].(supportCount := posts[k].supportCount + 1) else posts[k]
  {
    if posts == [] then []
    else
      [if posts[0].id == postId then posts[0].(supportCount := posts[0].supportCount + 1) else posts[0]]
      + Supported(posts[1..], postId)
  }

  /** A reply with its like flipped and its count moved with it. */
  function Toggled(x: Reply): Reply {
    x.(likes := if x.isLiked then x.likes - 1 else x.likes + 1, isLiked := !x.isLiked)
  }

  /** `replies.map` of `handleLikeReply`: flips the like of every reply with the id and moves its count with it. */
  function ToggleLike(replies: seq<Reply>, replyId: string): (r: seq<Reply>)
    ensures |r| == |replies|
    ensures forall k :: 0 <= k < |replies| ==> r[k] == if replies[k].id == replyId then Toggled(replies[k]) else replies[k]
  {
    if replies == [] then []
    else
      var x := replies[0];
      var rest := ToggleLike(replies[1..], replyId);
      var r := [if x.id == replyId then Toggled(x) else x] + rest;
      assert forall k :: 1 <= k < |replies| ==> r[k] == rest[k - 1] && replies[k] == replies[1..][k - 1];
      r
  }

  /** Liking twice gives the list back. */
  lemma ToggleLikeTwice(replies: seq<Reply>, replyId: string)
    ensures ToggleLike(ToggleLike(replies, replyId), replyId) == replies
  {
    var once := ToggleLike(replies, replyId);
    var twice := ToggleLike(once, replyId);
    forall k | 0 <= k < |replies| ensures twice[k] == replies[k] {
      assert once[k].id == replies[k].id;
    }
  }

  /** A liked reply counts one like more than the same reply not liked. */
  lemma ToggleLikeCounts(replies: seq<Reply>, replyId: string, k: nat)
    requires k < |replies| && replies[k].id == replyId
    ensures var r := ToggleLike(replies, replyId)[k];
      r.isLiked != replies[k].isLiked && r.likes == replies[k].likes + (if r.isLiked then 1 else -1)
  {
  }

  /** `replies.map` of `handleMarkSolution`: flips the solution mark of every reply with the id. */
  function ToggleSolution(replies: seq<Reply>, replyId: string): (r: seq<Reply>)
    ensures |r| == |replies|
    ensures forall k :: 0 <= k < |replies| ==>
      r[k] == if replies[k].id == replyId then replies[k].(isSolution := !replies[k].isSolution) else replies[k]
  {
    if replies == [] then []
    else
      var x := replies[0];
      [if x.id == replyId then x.(isSolution := !x.isSolution) else x] + ToggleSolution(replies[1..], replyId)
  }

  /** Marking twice gives the list back. */
  lemma ToggleSolutionTwice(replies: seq<Reply>, replyId: string)
    ensures ToggleSolution(ToggleSolution(replies, replyId), replyId) == replies
  {
    var once := ToggleSolution(replies, replyId);
    var twice := ToggleSolution(once, replyId);
    forall k | 0 <= k < |replies| ensures twice[k] == replies[k] {
      assert once[k].id == replies[k].id;
    }
  }

  /** `replies.find`: the first reply with the id. */
  function FindReply(replies: seq<Reply>, replyId: string): (r: Option<nat>)
    ensures r.Some? ==> r.value < |replies| && replies[r.value].id == replyId
    ensures r.Some? ==> forall k :: 0 <= k < r.value ==> replies[k].id != replyId
    ensures r.None? <==> forall k :: 0 <= k < |replies| ==> replies[k].id != replyId
  {
    if replies == [] then None
    else if replies[0].id == replyId then Some(0)
    else
      match FindReply(replies[1..], replyId)
      case None => None
      case Some(k) => Some(k + 1)
  }

  /**
   * The author's new points: five more when the reply becomes a solution,
   * five fewer but not below zero when it stops being one; absent points count as 0.
   */
  function SolutionPoints(points: Option<int>, wasSolution: bool): (r: int)
    ensures !wasSolution ==> r == points.GetOr(0) + 5
    ensures wasSolution ==> r >= 0 && (points.GetOr(0) >= 5 ==> r == points.GetOr(0) - 5)
    ensures wasSolution && points.GetOr(0) < 5 ==> r == 0
  {
    if !wasSolution then points.GetOr(0) + 5
    else if points.GetOr(0) - 5 > 0 then points.GetOr(0) - 5 else 0
  }

  /** Marking and then unmarking gives a non-negative score back. */
  lemma SolutionPointsRoundTrip(points: int)
    requires points >= 0
    ensures SolutionPoints(Some(SolutionPoints(Some(points), false)), true) == points
  {
  }

  /**
   * The reply `handleAddReply` builds for the user; its points come from the
   * stored profile, 0 when there is none. Id and time stamp come from two
   * readings of the clock.
   */
  function NewReply(user: User, profiles: map<string, Profile>, postId: string, content: string,
                    parentReplyId: Option<string>, idNow: nat, stampNow: nat): (r: Reply)
    ensures r.likes == 0 && !r.isLiked && !r.isSolution
    ensures r.authorId == Some(user.id) && r.authorName == user.name
    ensures r.postId == postId && r.content == content && r.parentReplyId == parentReplyId
    ensures r.timestamp == stampNow && AllDigits(r.id) && DigitsValue(r.id) == idNow
    ensures r.comforterPoints == if user.id in profiles then profiles[user.id].comforterPoints else Some(0)
  {
    ParseNatToString(idNow);
    Reply(NatToString(idNow), postId, parentReplyId, content, user.name, Some(user.id), stampNow, 0, false, false,
          if user.id in profiles then profiles[user.id].comforterPoints else Some(0))
  }

  /** Keeps the posts of the chosen category. */
  function InCategory(category: string): Post -> bool {
    (p: Post) => p.category == category
  }

  /**
   * `displayPosts`: search results when there are any (an empty result
   * list included), otherwise every post for "all" or the posts of the
   * chosen category, in list order.
   */
  function DisplayPosts(searchResults: Option<seq<Post>>, selectedCategory: string, posts: seq<Post>): (r: seq<Post>)
    ensures searchResults.Some? ==> r == searchResults.value
    ensures searchResults.None? && selectedCategory == "all" ==> r == posts
    ensures |r| <= if searchResults.Some? then |searchResults.value| else |posts|
  {
    if searchResults.Some? then searchResults.value
    else if selectedCategory == "all" then posts
    else Filter(posts, InCategory(selectedCategory))
  }

  /** Without search results, a post is shown exactly when it is in the list and in the category. */
  lemma DisplayMembership(selectedCategory: string, posts: seq<Post>, p: Post)
    ensures p in DisplayPosts(None, selectedCategory, posts) <==>
      p in posts && (selectedCategory == "all" || p.category == selectedCategory)
  {
    FilterMembership(posts, InCategory(selectedCategory), p);
  }

  // ---------------------------------------------------------------------
  // The page
  // ---------------------------------------------------------------------

  /** The state of `ForumPage` and the storage keys it writes. */
  class Forum {
    /** `SAMPLE_POSTS`. */
    const samples: seq<Post>
    var posts: seq<Post>
    var replies: seq<Reply>
    /** `comfortillo-posts` and `comfortillo-replies`; `None` when never written. */
    var storedPosts: Option<seq<Post>>
    var storedReplies: Option<seq<Reply>>
    /** `comfortillo-profile-<id>`, by user id. */
    var profiles: map<string, Profile>

    /** The two loading effects: samples followed by the stored posts, and the stored replies. */
    constructor (loadTime: int, saved: Option<seq<Post>>, savedReplies: Option<seq<Reply>>, storedProfiles: map<string, Profile>)
      ensures samples == SamplePosts(loadTime)
      ensures posts == samples + saved.GetOr([]) && replies == savedReplies.GetOr([])
      ensures storedPosts == saved && storedReplies == savedReplies && profiles == storedProfiles
    {
      samples := SamplePosts(loadTime);
      posts := SamplePosts(loadTime) + saved.GetOr([]);
      replies := savedReplies.GetOr([]);
      storedPosts := saved;
      storedReplies := savedReplies;
      profiles := storedProfiles;
    }

    /** The `userUpdated` listener reloads whichever lists are stored. */
    method Reload()
      modifies this
      ensures posts == if old(storedPosts).Some? then samples + old(storedPosts).value else old(posts)
      ensures replies == if old(storedReplies).Some? then old(storedReplies).value else old(replies)
      ensures storedPosts == old(storedPosts) && storedReplies == old(storedReplies) && profiles == old(profiles)
    {
      if storedPosts.Some? {
        posts := samples + storedPosts.value;
      }
      if storedReplies.Some? {
        replies := storedReplies.value;
      }
    }

    /** `handleCreatePost`: the new post goes first. */
    method CreatePost(draft: Draft, user: Option<User>, idNow: nat, stampNow: nat)
      modifies this
      ensures posts == [NewPost(draft, user, idNow, stampNow)] + old(posts)
      ensures storedPosts == Some(UserPosts(posts))
      ensures replies == old(replies) && storedReplies == old(storedReplies) && profiles == old(profiles)
    {
      posts := [NewPost(draft, user, idNow, stampNow)] + posts;
      storedPosts := Some(UserPosts(posts));
    }

    /** `handleDeletePost`: the post and every reply to it go. */
    method DeletePost(postId: string)
      modifies this
      ensures posts == Filter(old(posts), OtherPost(postId))
      ensures replies == Filter(old(replies), OtherPostReply(postId))
      ensures storedPosts == Some(UserPosts(posts)) && storedReplies == Some(replies)
      ensures profiles == old(profiles)
    {
      posts := Filter(posts, OtherPost(postId));
      storedPosts := Some(UserPosts(posts));
      replies := Filter(replies, OtherPostReply(postId));
      storedReplies := Some(replies);
    }

    /** `handleSupportPost`: asks for a login, or adds a supporter. */
    method SupportPost(isAuthenticated: bool, postId: string) returns (authRequired: bool)
      modifies this
      ensures authRequired <==> !isAuthenticated
      ensures !isAuthenticated ==> posts == old(posts) && storedPosts == old(storedPosts)
      ensures isAuthenticated ==> posts == Supported(old(posts), postId) && storedPosts == Some(UserPosts(posts))
      ensures replies == old(replies) && storedReplies == old(storedReplies) && profiles == old(profiles)
    {
      if !isAuthenticated {
        return true;
      }
      posts := Supported(posts, postId);
      storedPosts := Some(UserPosts(posts));
      return false;
    }

    /** `handleAddReply`: a signed-in user's reply is appended; otherwise nothing happens. */
    method AddReply(isAuthenticated: bool, user: Option<User>, postId: string, content: string,
                    parentReplyId: Option<string>, idNow: nat, stampNow: nat)
      modifies this
      ensures !isAuthenticated || user.None? ==> replies == old(replies) && storedReplies == old(storedReplies)
      ensures isAuthenticated && user.Some? ==>
        && replies == old(replies) + [NewReply(user.value, profiles, postId, content, parentReplyId, idNow, stampNow)]
        && storedReplies == Some(replies)
      ensures posts == old(posts) && storedPosts == old(storedPosts) && profiles == old(profiles)
    {
      if !isAuthenticated || user.None? {
        return;
      }
      replies := replies + [NewReply(user.value, profiles, postId, content, parentReplyId, idNow, stampNow)];
      storedReplies := Some(replies);
    }

    /** `handleLikeReply`. */
    method LikeReply(replyId: string)
      modifies this
      ensures replies == ToggleLike(old(replies), replyId) && storedReplies == Some(replies)
      ensures posts == old(posts) && storedPosts == old(storedPosts) && profiles == old(profiles)
    {
      replies := ToggleLike(replies, replyId);
      storedReplies := Some(replies);
    }

    /**
     * `handleMarkSolution`: nothing for an unknown reply or one without an
     * author; otherwise the mark flips, and the author's stored points
     * follow the first reply with the id.
     */
    method MarkSolution(replyId: string)
      modifies this
      ensures var found := FindReply(old(replies), replyId);
        found.None? || old(replies)[found.value].authorId.None? || old(replies)[found.value].authorId == Some("") ==>
          replies == old(replies) && storedReplies == old(storedReplies) && profiles == old(profiles)
      ensures var found := FindReply(old(replies), replyId);
        found.Some? && old(replies)[found.value].authorId.Some? && old(replies)[found.value].authorId != Some("") ==>
          var reply := old(replies)[found.value];
          var author := reply.authorId.value;
          && replies == ToggleSolution(old(replies), replyId)
          && storedReplies == Some(replies)
          && profiles == if author in old(profiles)
                         then old(profiles)[author := old(profiles)[author].(comforterPoints :=
                                Some(SolutionPoints(old(profiles)[author].comforterPoints, reply.isSolution)))]
                         else old(profiles)
      ensures posts == old(posts) && storedPosts == old(storedPosts)
    {
      var found := FindReply(replies, replyId);
      if found.None? {
        return;
      }
      var reply := replies[found.value];
      if reply.authorId.None? || reply.authorId.value == "" {
        return;
      }
      replies := ToggleSolution(replies, replyId);
      storedReplies := Some(replies);
      var author := reply.authorId.value;
      if author in profiles {
        var profile := profiles[author];
        profiles := profiles[author := profile.(comforterPoints := Some(SolutionPoints(profile.comforterPoints, reply.isSolution)))];
      }
    }
  }
}
