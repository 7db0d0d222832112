/**
 * The card of one forum post: its "time ago" label, the colour and label of
 * its category, who may delete it, and what its buttons do.  The
 * translator of the interface language is a parameter.
 */
module PostCard {
  import opened Wrappers
  import opened Text
  import opened Records
  import opened TimeAgo
  import CreatePostModal

  const DAYS_KEY := "post.timeAgo.days"
  const HOURS_KEY := "post.timeAgo.hours"
  const NOW_KEY := "post.timeAgo.now"

  /**
   * `formatTimeAgo`: whole days when at least a day has passed, whole hours
   * when at least an hour has, otherwise the translated "now".
   */
  function FormatTimeAgo(now: int, timestamp: int, t: string -> string): (r: string)
    ensures now - timestamp < HOUR_MS ==> r == t(NOW_KEY)
    ensures now - timestamp >= DAY_MS ==>
      exists k :: 0 < k < |r| && r[k..] == " " + t(DAYS_KEY) && AllDigits(r[..k]) && DigitsValue(r[..k]) == (now - timestamp) / DAY_MS
    ensures HOUR_MS <= now - timestamp < DAY_MS ==>
      exists k :: 0 < k < |r| && r[k..] == " " + t(HOURS_KEY) && AllDigits(r[..k]) && DigitsValue(r[..k]) == (now - timestamp) / HOUR_MS
  {
    ElapsedQuotients(now, timestamp);
    Describe(ByHours(now, timestamp), t(DAYS_KEY), t(HOURS_KEY), t(NOW_KEY))
  }

  /** The number shown is the whole days, or whole hours, of the difference. */
  lemma ElapsedQuotients(now: int, timestamp: int)
    ensures ByHours(now, timestamp).DaysAgo? ==> ByHours(now, timestamp).days == (now - timestamp) / DAY_MS
    ensures ByHours(now, timestamp).HoursAgo? ==> ByHours(now, timestamp).hours == (now - timestamp) / HOUR_MS
  {
    FloorOfFloor(now - timestamp);
  }

  /** With the Turkish words, a post card shows the same label as a reply. */
  lemma SameLabelAsReplies(now: int, timestamp: int, t: string -> string)
    requires t(DAYS_KEY) == DAYS_TR && t(HOURS_KEY) == HOURS_TR && t(NOW_KEY) == NOW_TR
    ensures FormatTimeAgo(now, timestamp, t) == ReplyTimeAgo(now, timestamp)
  {
  }

  // ---------------------------------------------------------------------
  // Categories
  // ---------------------------------------------------------------------

  const LONELINESS_COLOR := "bg-gradient-to-r from-blue-100 to-blue-200 text-blue-800 border-blue-300 dark:from-blue-900 dark:to-blue-800 dark:text-blue-100 dark:border-blue-600"
  const STRESS_COLOR := "bg-gradient-to-r from-red-100 to-red-200 text-red-800 border-red-300 dark:from-red-900 dark:to-red-800 dark:text-red-100 dark:border-red-600"
  const FAMILY_COLOR := "bg-gradient-to-r from-green-100 to-green-200 text-green-800 border-green-300 dark:from-green-900 dark:to-green-800 dark:text-green-100 dark:border-green-600"
  const RELATIONSHIPS_COLOR := "bg-gradient-to-r from-pink-100 to-pink-200 text-pink-800 border-pink-300 dark:from-pink-900 dark:to-pink-800 dark:text-pink-100 dark:border-pink-600"
  const ANXIETY_COLOR := "bg-gradient-to-r from-[#F8F5F0] to-[#F0EBE5] text-[#8B8478] border-[#E0D6CB] dark:from-[#2E2A25] dark:to-[#332F2B] dark:text-[#E0D6CB] dark:border-[#5C5248]"
  const DEPRESSION_COLOR := "bg-gradient-to-r from-purple-100 to-purple-200 text-purple-800 border-purple-300 dark:from-purple-900 dark:to-purple-800 dark:text-purple-100 dark:border-purple-600"
  /** The grey of "other", also used for every category without a colour of its own. */
  const GRAY := "bg-gradient-to-r from-gray-100 to-gray-200 text-gray-800 border-gray-300 dark:from-gray-900 dark:to-gray-800 dark:text-gray-100 dark:border-gray-600"

  /** The colour table, by English category key. */
  const CATEGORY_COLORS: map<string, string> := map[
    "loneliness" := LONELINESS_COLOR,
    "stress" := STRESS_COLOR,
    "family" := FAMILY_COLOR,
    "relationships" := RELATIONSHIPS_COLOR,
    "anxiety" := ANXIETY_COLOR,
    "depression" := DEPRESSION_COLOR,
    "other" := GRAY
  ]

  /** `getCategoryColor`: the colour of a key of the table; grey for anything else. */
  function CategoryColor(category: string): (r: string)
    ensures category in CATEGORY_COLORS ==> r == CATEGORY_COLORS[category]
    ensures category !in CATEGORY_COLORS ==> r == GRAY
  {
    if category in CATEGORY_COLORS && CATEGORY_COLORS[category] != "" then CATEGORY_COLORS[category] else GRAY
  }

  /**
   * The post form offers Turkish category names, which are not keys of the
   * table: every post made with the form shows the grey of "other".
   */
  lemma FormCategoriesGray(j: int)
    requires 0 <= j < |CreatePostModal.CATEGORIES|
    ensures CategoryColor(CreatePostModal.CATEGORIES[j]) == GRAY
  {
    var c := CreatePostModal.CATEGORIES[j];
    assert |c| != 6 && |c| != 7 && |c| != 10 && |c| != 13;
    if |c| == 5 {
      assert c[0] != 'o';
    }
    assert c !in CATEGORY_COLORS;
  }

  /** Prefix of the translation key of a category. */
  const CATEGORY_KEY_PREFIX := "category."

  /** `getCategoryLabel`: the translation of "category.<name>", or the name itself when the translator has none. */
  function CategoryLabel(category: string, t: string -> string): (r: string)
    ensures t(CATEGORY_KEY_PREFIX + category) != CATEGORY_KEY_PREFIX + category ==> r == t(CATEGORY_KEY_PREFIX + category)
    ensures t(CATEGORY_KEY_PREFIX + category) == CATEGORY_KEY_PREFIX + category ==> r == category
  {
    var key := CATEGORY_KEY_PREFIX + category;
    var translated := t(key);
    if translated != key then translated else category
  }

  /** The label never shows the raw translation key. */
  lemma LabelIsNeverKey(category: string, t: string -> string)
    ensures CategoryLabel(category, t) != CATEGORY_KEY_PREFIX + category
  {
    assert |CATEGORY_KEY_PREFIX + category| > |category|;
  }

  // ---------------------------------------------------------------------
  // Buttons
  // ---------------------------------------------------------------------

  /** `canDelete`: a signed-in user who wrote the post. */
  predicate CanDelete(user: Option<User>, post: Post) {
    user.Some? && AuthoredBy(post.authorId, user.value.id)
  }

  /** What a button asks of the page. */
  datatype Effect = AuthRequired | Support(postId: string) | Delete(postId: string) | Nothing

  /** `handleSupport`: the sign-in dialog for visitors, support of the post otherwise. */
  function SupportEffect(isAuthenticated: bool, post: Post): (e: Effect)
    ensures e.AuthRequired? <==> !isAuthenticated
    ensures isAuthenticated ==> e == Support(post.id)
  {
    if !isAuthenticated then AuthRequired else Support(post.id)
  }

  /**
   * `handleDelete`: the delete button is shown only to who may delete, and
   * deletes only once the user confirms.
   */
  function DeleteEffect(user: Option<User>, post: Post, confirmed: bool): (e: Effect)
    ensures e.Delete? <==> CanDelete(user, post) && confirmed
    ensures e.Delete? ==> e.postId == post.id
    ensures !e.Delete? ==> e == Nothing
  {
    if CanDelete(user, post) && confirmed then Delete(post.id) else Nothing
  }

  /** Only the author can ever delete a post, whatever is confirmed. */
  lemma OnlyAuthorDeletes(user: Option<User>, post: Post, confirmed: bool)
    requires DeleteEffect(user, post, confirmed).Delete?
    ensures user.Some? && post.authorId == Some(user.value.id)
  {
  }

  /** The state of one card. */
  class Card {
    const post: Post
    var showReplies: bool
    var showReportModal: bool

    constructor (post: Post)
      ensures this.post == post && !showReplies && !showReportModal
    {
      this.post := post;
      showReplies := false;
      showReportModal := false;
    }

    /** `handleToggleReplies`: visitors are asked to sign in; signed-in users open or close the replies. */
    method ToggleReplies(isAuthenticated: bool) returns (e: Effect)
      modifies this
      ensures e == if isAuthenticated then Nothing else AuthRequired
      ensures showReplies == if isAuthenticated then !old(showReplies) else old(showReplies)
      ensures showReportModal == old(showReportModal)
    {
      if !isAuthenticated {
        return AuthRequired;
      }
      showReplies := !showReplies;
      return Nothing;
    }

    /** The report button opens the report dialog, for visitors too. */
    method OpenReport()
      modifies this
      ensures showReportModal && showReplies == old(showReplies)
    {
      showReportModal := true;
    }

    /** The report dialog closes. */
    method CloseReport()
      modifies this
      ensures !showReportModal && showReplies == old(showReplies)
    {
      showReportModal := false;
    }
  }
}
