/**
 * The profile page: the signed-in user's profile (a default one is
 * written the first time), the user's own posts and replies, and the
 * counts shown from them.
 */
module ProfilePage {
  import opened Wrappers
  import opened Records
  import opened Seqs
  import opened Text
  import TimeAgo
  import ProfileSettings

  // ---------------------------------------------------------------------
  // The profile
  // ---------------------------------------------------------------------

  /** This page's default profile: like the editor's, but with 0 comforter points and no heroica points. */
  function DefaultProfile(user: User): (p: Profile)
    ensures p.id == user.id && p.name == user.name && p.joinDate == user.joinDate
    ensures |p.nickname| <= |user.name| && p.nickname == user.name[..|p.nickname|] && ' ' !in p.nickname
    ensures |p.nickname| < |user.name| ==> user.name[|p.nickname|] == ' '
    ensures p.city == ProfileSettings.DEFAULT_CITY && p.bio == ProfileSettings.DEFAULT_BIO
    ensures p.comforterPoints == Some(0) && p.heroicaPoints.None?
    ensures p.age == 25 && p.interests == [] && !p.nsfwEnabled
    ensures p.postsCount == 0 && p.repliesCount == 0 && p.solutionsCount == 0 && p.likesReceived == 0
  {
    Profile(user.id, user.name, PrefixBefore(user.name, ' '), 25, ProfileSettings.DEFAULT_CITY, ProfileSettings.DEFAULT_BIO,
            [], None, user.joinDate, 0, 0, 0, 0, false, Some(0), None)
  }

  /**
   * The profile the page shows, and storage after loading it: a stored
   * profile is shown as it is; a missing one is replaced by the default,
   * which is written back.
   */
  function LoadProfile(store: Store, user: User): (r: (Profile, Store))
    ensures user.id in store.profiles ==> r.0 == store.profiles[user.id] && r.1 == store
    ensures user.id !in store.profiles ==> r.0 == DefaultProfile(user) && r.1 == store.(profiles := store.profiles[user.id := r.0])
    ensures user.id in r.1.profiles && r.1.profiles[user.id] == r.0
  {
    if user.id in store.profiles then (store.profiles[user.id], store)
    else (DefaultProfile(user), store.(profiles := store.profiles[user.id := DefaultProfile(user)]))
  }

  /** Loading twice is loading once: the second load finds the profile the first wrote. */
  lemma LoadProfileIdempotent(store: Store, user: User)
    ensures LoadProfile(LoadProfile(store, user).1, user) == LoadProfile(store, user)
  {
  }

  // ---------------------------------------------------------------------
  // The user's posts and replies
  // ---------------------------------------------------------------------

  /** Keeps the user's posts. */
  function PostedBy(userId: string): Post -> bool {
    (p: Post) => AuthoredBy(p.authorId, userId)
  }

  /** Keeps the user's replies. */
  function RepliedBy(userId: string): Reply -> bool {
    (r: Reply) => AuthoredBy(r.authorId, userId)
  }

  /** `userPosts`: the stored posts written by the user, in stored order; none when nothing is stored. */
  function UserPosts(stored: Option<seq<Post>>, userId: string): seq<Post> {
    Filter(stored.GetOr([]), PostedBy(userId))
  }

  /** `userReplies`: the stored replies written by the user. */
  function UserReplies(stored: Option<seq<Reply>>, userId: string): seq<Reply> {
    Filter(stored.GetOr([]), RepliedBy(userId))
  }

  /** The page lists exactly the user's own stored posts and replies. */
  lemma UserItemsMembership(posts: Option<seq<Post>>, replies: Option<seq<Reply>>, userId: string, p: Post, r: Reply)
    ensures p in UserPosts(posts, userId) <==> p in posts.GetOr([]) && p.authorId == Some(userId)
    ensures r in UserReplies(replies, userId) <==> r in replies.GetOr([]) && r.authorId == Some(userId)
  {
    FilterMembership(posts.GetOr([]), PostedBy(userId), p);
    FilterMembership(replies.GetOr([]), RepliedBy(userId), r);
  }

  // ---------------------------------------------------------------------
  // Counts
  // ---------------------------------------------------------------------

  /** A reply marked as a solution. */
  predicate IsSolution(r: Reply) {
    r.isSolution
  }

  /** `reduce((total, reply) => total + reply.likes, 0)`. */
  function TotalLikes(replies: seq<Reply>): int {
    if replies == [] then 0 else replies[0].likes + TotalLikes(replies[1..])
  }

  /** The likes the user's replies received, counted over the whole stored list. */
  function LikesBy(replies: seq<Reply>, userId: string): int {
    if replies == [] then 0
    else (if AuthoredBy(replies[0].authorId, userId) then replies[0].likes else 0) + LikesBy(replies[1..], userId)
  }

  /** The likes total of the page is the user's share of all likes. */
  lemma {:induction false} TotalLikesOfUser(replies: seq<Reply>, userId: string)
    ensures TotalLikes(Filter(replies, RepliedBy(userId))) == LikesBy(replies, userId)
  {
    if replies != [] {
      TotalLikesOfUser(replies[1..], userId);
      var rest := Filter(replies[1..], RepliedBy(userId));
      if RepliedBy(userId)(replies[0]) {
        assert ([replies[0]] + rest)[1..] == rest;
      } else {
        assert Filter(replies, RepliedBy(userId)) == rest;
      }
    }
  }

  /** Likes are never taken below zero, so neither is the total. */
  lemma {:induction false} TotalLikesNonNegative(replies: seq<Reply>)
    requires forall k :: 0 <= k < |replies| ==> replies[k].likes >= 0
    ensures TotalLikes(replies) >= 0
  {
    if replies != [] {
      TotalLikesNonNegative(replies[1..]);
    }
  }

  /** The solutions the user wrote, counted over the whole stored list. */
  function SolutionsBy(replies: seq<Reply>, userId: string): nat {
    if replies == [] then 0
    else (if AuthoredBy(replies[0].authorId, userId) && replies[0].isSolution then 1 else 0) + SolutionsBy(replies[1..], userId)
  }

  /** The solution count of the page (`filter((r) => r.isSolution).length` of the user's replies). */
  lemma {:induction false} SolutionCountOfUser(replies: seq<Reply>, userId: string)
    ensures Count(Filter(replies, RepliedBy(userId)), IsSolution) == SolutionsBy(replies, userId)
    ensures SolutionsBy(replies, userId) <= |Filter(replies, RepliedBy(userId))|
  {
    if replies != [] {
      SolutionCountOfUser(replies[1..], userId);
      var rest := Filter(replies[1..], RepliedBy(userId));
      if RepliedBy(userId)(replies[0]) {
        assert ([replies[0]] + rest)[1..] == rest;
      } else {
        assert Filter(replies, RepliedBy(userId)) == rest;
      }
    }
  }

  /** Keeps the replies to one post. */
  function ToPost(postId: string): Reply -> bool {
    (r: Reply) => r.postId == postId
  }

  /** A post's reply count on the page: the user's own replies to it. */
  function OwnReplyCount(userReplies: seq<Reply>, postId: string): (n: nat)
    ensures n <= |userReplies|
  {
    Count(userReplies, ToPost(postId))
  }

  /** Counting the user's replies to a post counts the replies to it that the user wrote. */
  lemma {:induction false} OwnReplyCountOfUser(replies: seq<Reply>, userId: string, postId: string)
    ensures OwnReplyCount(Filter(replies, RepliedBy(userId)), postId) ==
      Count(replies, (r: Reply) => AuthoredBy(r.authorId, userId) && r.postId == postId)
  {
    if replies != [] {
      OwnReplyCountOfUser(replies[1..], userId, postId);
      var rest := Filter(replies[1..], RepliedBy(userId));
      if RepliedBy(userId)(replies[0]) {
        assert ([replies[0]] + rest)[1..] == rest;
      } else {
        assert Filter(replies, RepliedBy(userId)) == rest;
      }
    }
  }

  /** `formatTimeAgo` of the page: whole days and whole hours, each from the difference; the same label as a reply's. */
  function PageTimeAgo(now: int, timestamp: int): (r: string)
    ensures r == TimeAgo.ReplyTimeAgo(now, timestamp)
    ensures now - timestamp < TimeAgo.HOUR_MS <==> r == TimeAgo.NOW_TR
  {
    TimeAgo.Describe(TimeAgo.ByDays(now, timestamp), TimeAgo.DAYS_TR, TimeAgo.HOURS_TR, TimeAgo.NOW_TR)
  }
}
