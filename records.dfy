/**
 * The records the application keeps in browser storage (users, posts,
 * replies, profiles) and the part of storage that several components read
 * and write.  Optional JSON fields are `Option`s; a missing key is `None`.
 */
module Records {
  import opened Wrappers

  /** The signed-in user (`comfortillo-user`). */
  datatype User = User(id: string, name: string, email: string, joinDate: int)

  /**
   * A forum post.  `authorName` is not part of the declared interface but is
   * written onto stored posts when their author renames themself.
   */
  datatype Post = Post(
    id: string,
    title: string,
    category: string,
    content: string,
    media: Option<string>,
    timestamp: int,
    supportCount: int,
    authorId: Option<string>,
    isNsfw: Option<bool>,
    authorName: Option<string>)

  /** What the post form hands to the forum: a post without id, time, support count or author. */
  datatype Draft = Draft(
    title: string,
    category: string,
    content: string,
    media: Option<string>,
    isNsfw: Option<bool>)

  /** A reply to a post, optionally to another reply (`parentReplyId`). */
  datatype Reply = Reply(
    id: string,
    postId: string,
    parentReplyId: Option<string>,
    content: string,
    authorName: string,
    authorId: Option<string>,
    timestamp: int,
    likes: int,
    isLiked: bool,
    isSolution: bool,
    comforterPoints: Option<int>)

  /**
   * A stored profile (`comfortillo-profile-<user id>`).  The profile editor
   * writes `heroicaPoints`, the profile page and the forum `comforterPoints`;
   * either may be absent.
   */
  datatype Profile = Profile(
    id: string,
    name: string,
    nickname: string,
    age: int,
    city: string,
    bio: string,
    interests: seq<string>,
    profilePhoto: Option<string>,
    joinDate: int,
    postsCount: int,
    repliesCount: int,
    solutionsCount: int,
    likesReceived: int,
    nsfwEnabled: bool,
    comforterPoints: Option<int>,
    heroicaPoints: Option<int>)

  /**
   * A stored list: a key never written (or holding the empty string), text
   * that `JSON.parse` rejects or that is not an array, or a readable list.
   */
  datatype StoredList<T> = Absent | Malformed | Present(items: seq<T>) {
    /** The list, with an absent or malformed key read as empty. */
    function ItemsOr(): seq<T> {
      if Present? then items else []
    }
  }

  /**
   * The storage keys shared between components: the user record, the
   * profiles by user id, the post list (without the sample posts) and the
   * reply list.  `None` is a user key that was never written.
   */
  datatype Store = Store(
    user: Option<User>,
    profiles: map<string, Profile>,
    posts: StoredList<Post>,
    replies: StoredList<Reply>)

  /** `item.authorId === user.id`. */
  predicate AuthoredBy(authorId: Option<string>, userId: string) {
    authorId == Some(userId)
  }
}
