/**
 * The search bar: a case-insensitive substring search of the stored posts
 * by title, content and category.
 */
module SearchBar {
  import opened Records
  import opened Seqs
  import opened Text

  /** What the stored post list looks like to the search: absent, unreadable, or a list. */
  datatype SavedPosts = NothingSaved | Unreadable | Saved(posts: seq<Post>)

  /** What the search reports to the page. */
  datatype Outcome = Cleared | Results(posts: seq<Post>)

  /** The lower-cased title, content or category contains the lower-cased query. */
  function MatchesQuery(query: string): Post -> bool {
    (p: Post) =>
      || Contains(ToLower(p.title), ToLower(query))
      || Contains(ToLower(p.content), ToLower(query))
      || Contains(ToLower(p.category), ToLower(query))
  }

  /**
   * `handleSearch`: a blank query clears the search; otherwise the stored
   * posts matching the untrimmed query, in stored order, none when nothing
   * is stored, and none when the list cannot be read.
   */
  function Search(query: string, saved: SavedPosts): (r: Outcome)
    ensures r.Cleared? <==> Blank(query)
    ensures r.Results? && !saved.Saved? ==> r.posts == []
    ensures r.Results? && saved.Saved? ==> |r.posts| <= |saved.posts|
  {
    TrimEmptyIffBlank(query);
    if Trim(query) == [] then Cleared
    else match saved
      case Saved(posts) => Results(Filter(posts, MatchesQuery(query)))
      case _ => Results([])
  }

  /** The results are exactly the stored posts that match, each as often as it is stored. */
  lemma SearchResults(query: string, posts: seq<Post>, p: Post)
    requires !Blank(query)
    ensures p in Search(query, Saved(posts)).posts <==> p in posts && MatchesQuery(query)(p)
    ensures multiset(Search(query, Saved(posts)).posts)[p] == if MatchesQuery(query)(p) then multiset(posts)[p] else 0
  {
    SearchSaved(query, posts);
    FilterMembership(posts, MatchesQuery(query), p);
    FilterCount(posts, MatchesQuery(query), p);
  }

  /** Searching the concatenation of two lists is searching each in turn: the stored order is kept. */
  lemma SearchKeepsOrder(query: string, front: seq<Post>, back: seq<Post>)
    requires !Blank(query)
    ensures Search(query, Saved(front + back)).posts ==
      Search(query, Saved(front)).posts + Search(query, Saved(back)).posts
  {
    SearchSaved(query, front + back);
    SearchSaved(query, front);
    SearchSaved(query, back);
    FilterAppend(front, back, MatchesQuery(query));
  }

  /** A non-blank query searches the stored list with the query's filter. */
  lemma SearchSaved(query: string, posts: seq<Post>)
    requires !Blank(query)
    ensures Search(query, Saved(posts)) == Results(Filter(posts, MatchesQuery(query)))
  {
    TrimEmptyIffBlank(query);
  }

  /**
   * The query is not trimmed: a query that starts with a space only finds
   * posts where a space occurs in the lower-cased title, content or
   * category.
   */
  lemma PaddedQueryNeedsSpace(query: string, p: Post)
    requires MatchesQuery(" " + query)(p)
    ensures ' ' in ToLower(p.title) || ' ' in ToLower(p.content) || ' ' in ToLower(p.category)
  {
    ToLowerAppend(" ", query);
    assert ToLower(" ") == " ";
    var needle := ToLower(" " + query);
    assert needle[0] == ' ';
    if Contains(ToLower(p.title), needle) {
      SpaceFound(ToLower(p.title), needle);
    } else if Contains(ToLower(p.content), needle) {
      SpaceFound(ToLower(p.content), needle);
    } else {
      SpaceFound(ToLower(p.category), needle);
    }
  }

  /** A text containing a needle that starts with a space contains a space. */
  lemma SpaceFound(s: string, needle: string)
    requires needle != [] && needle[0] == ' ' && Contains(s, needle)
    ensures ' ' in s
  {
    ContainsIff(s, needle);
    var i :| OccursAt(s, needle, i);
    assert s[i] == s[i..i + |needle|][0];
  }
}
