/**
 * The comforter leaderboard: a scan of the stored profiles, a sort by
 * comforter points (highest first) and the ten best, with the styling of
 * the first three ranks.
 */
module Leaderboard {
  import opened Wrappers
  import opened Text
  import opened Seqs

  /** The storage key prefix of a profile. */
  const PROFILE_PREFIX := "comfortillo-profile-"
  /** How many users the table shows. */
  const TOP := 10

  /** The fields of a stored profile the table reads; a missing field is `None`. */
  datatype StoredProfile = StoredProfile(
    id: Option<string>,
    name: Option<string>,
    nickname: Option<string>,
    profilePhoto: Option<string>,
    comforterPoints: Option<int>)

  /** A stored value: a JSON object or text that does not parse. */
  datatype Parsed = Malformed | Json(profile: StoredProfile)

  /** One storage entry, in the order the storage enumerates keys. */
  datatype Entry = Entry(key: string, value: Parsed)

  /** A row of the table. */
  datatype Ranked = Ranked(id: string, name: string, nickname: string, profilePhoto: Option<string>, comforterPoints: int)

  /** A JavaScript string is truthy when it is not empty. */
  predicate Truthy(s: Option<string>) {
    s.Some? && s.value != []
  }

  /** A profile entry that parses and has both an id and a name. */
  predicate Eligible(e: Entry) {
    StartsWith(e.key, PROFILE_PREFIX) && e.value.Json? && Truthy(e.value.profile.id) && Truthy(e.value.profile.name)
  }

  /** The row made of an eligible profile: nickname defaults to the first word of the name, points to 0. */
  function RowOf(p: StoredProfile): (r: Ranked)
    requires Truthy(p.id) && Truthy(p.name)
    ensures r.id == p.id.value && r.name == p.name.value && r.profilePhoto == p.profilePhoto
    ensures Truthy(p.nickname) ==> r.nickname == p.nickname.value
    ensures !Truthy(p.nickname) ==> r.nickname == PrefixBefore(p.name.value, ' ')
    ensures r.comforterPoints == if p.comforterPoints.Some? then p.comforterPoints.value else 0
  {
    Ranked(p.id.value, p.name.value,
           if Truthy(p.nickname) then p.nickname.value else PrefixBefore(p.name.value, ' '),
           p.profilePhoto, p.comforterPoints.GetOr(0))
  }

  /** The rows of the eligible entries, in storage order (the specification of the scan). */
  function Candidates(entries: seq<Entry>): seq<Ranked> {
    if entries == [] then []
    else
      var e := entries[|entries| - 1];
      Candidates(entries[..|entries| - 1]) + (if Eligible(e) then [RowOf(e.value.profile)] else [])
  }

  /** The scan of two parts of storage is the scan of each: an entry that is skipped stops nothing. */
  lemma {:induction false} CandidatesAppend(a: seq<Entry>, b: seq<Entry>)
    ensures Candidates(a + b) == Candidates(a) + Candidates(b)
    decreases |b|
  {
    if b == [] {
      assert a + b == a;
    } else {
      var front := b[..|b| - 1];
      assert (a + b)[..|a + b| - 1] == a + front;
      CandidatesAppend(a, front);
    }
  }

  /** A row is in the scan exactly when an eligible entry gives it. */
  lemma {:induction false} CandidatesMembership(entries: seq<Entry>, r: Ranked)
    ensures r in Candidates(entries) <==>
      exists k :: 0 <= k < |entries| && Eligible(entries[k]) && r == RowOf(entries[k].value.profile)
  {
    if entries != [] {
      var front := entries[..|entries| - 1];
      CandidatesMembership(front, r);
      if r in Candidates(front) {
        var k :| 0 <= k < |front| && Eligible(front[k]) && r == RowOf(front[k].value.profile);
        assert entries[k] == front[k];
      }
      if exists k :: 0 <= k < |entries| && Eligible(entries[k]) && r == RowOf(entries[k].value.profile) {
        var k :| 0 <= k < |entries| && Eligible(entries[k]) && r == RowOf(entries[k].value.profile);
        if k < |front| {
          assert front[k] == entries[k];
        }
      }
    }
  }

  // ---------------------------------------------------------------------
  // Sorting by points, highest first
  // ---------------------------------------------------------------------

  /** Points never increase along the list. */
  predicate Descending(s: seq<Ranked>) {
    forall i, j :: 0 <= i < j < |s| ==> s[i].comforterPoints >= s[j].comforterPoints
  }

  /** Inserts a row before the first row with no more points than it has, so that ties keep their order. */
  function Insert(x: Ranked, s: seq<Ranked>): (r: seq<Ranked>)
    requires Descending(s)
    ensures Descending(r)
    ensures multiset(r) == multiset(s) + multiset{x}
    ensures |r| == |s| + 1
  {
    if s == [] || x.comforterPoints >= s[0].comforterPoints then
      ConsDescending(x, s);
      [x] + s
    else
      var rest := Insert(x, s[1..]);
      assert s == [s[0]] + s[1..];
      RestBelowHead(x, s, rest);
      ConsDescending(s[0], rest);
      [s[0]] + rest
  }

  /** A row with at least the points of the head of a descending list can go in front. */
  lemma ConsDescending(h: Ranked, t: seq<Ranked>)
    requires Descending(t) && (t != [] ==> t[0].comforterPoints <= h.comforterPoints)
    ensures Descending([h] + t)
  {
    var r := [h] + t;
    forall i, j | 0 <= i < j < |r| ensures r[i].comforterPoints >= r[j].comforterPoints {
      if i == 0 {
        assert r[j] == t[j - 1];
        assert t[0].comforterPoints >= t[j - 1].comforterPoints || j - 1 == 0;
      } else {
        assert r[i] == t[i - 1] && r[j] == t[j - 1];
      }
    }
  }

  /** Every row of the rest, the inserted one included, has no more points than the head. */
  lemma RestBelowHead(x: Ranked, s: seq<Ranked>, rest: seq<Ranked>)
    requires Descending(s) && s != [] && x.comforterPoints < s[0].comforterPoints
    requires multiset(rest) == multiset(s[1..]) + multiset{x}
    ensures rest != [] ==> rest[0].comforterPoints <= s[0].comforterPoints
  {
    if rest != [] {
      assert rest[0] in multiset(rest);
      if rest[0] != x {
        assert rest[0] in multiset(s[1..]);
        var k :| 0 <= k < |s[1..]| && s[1..][k] == rest[0];
        assert s[k + 1] == rest[0];
      }
    }
  }

  /**
   * The order of `users.sort((a, b) => b.comforterPoints - a.comforterPoints)`:
   * the sort is stable, so this stable insertion sort gives the same list.
   */
  function SortByPoints(s: seq<Ranked>): (r: seq<Ranked>)
    ensures Descending(r)
    ensures multiset(r) == multiset(s)
    ensures |r| == |s|
  {
    if s == [] then []
    else
      assert s == [s[0]] + s[1..];
      Insert(s[0], SortByPoints(s[1..]))
  }

  /** Keeps the rows with a given number of points. */
  function WithPoints(v: int): Ranked -> bool {
    (x: Ranked) => x.comforterPoints == v
  }

  /** Inserting a row keeps the rows tied with any score in order, the new one first among its equals. */
  lemma {:induction false} InsertStable(x: Ranked, s: seq<Ranked>, v: int)
    requires Descending(s)
    ensures Filter(Insert(x, s), WithPoints(v)) == Filter([x] + s, WithPoints(v))
  {
    if s == [] || x.comforterPoints >= s[0].comforterPoints {
    } else {
      InsertStable(x, s[1..], v);
      var p := WithPoints(v);
      var rest := Insert(x, s[1..]);
      assert ([s[0]] + rest)[1..] == rest;
      assert ([x] + s)[1..] == s;
      assert ([x] + s[1..])[1..] == s[1..];
      assert !p(s[0]) || !p(x);
    }
  }

  /** The sort is stable: rows with equal points keep their stored order. */
  lemma {:induction false} SortStable(s: seq<Ranked>, v: int)
    ensures Filter(SortByPoints(s), WithPoints(v)) == Filter(s, WithPoints(v))
  {
    if s != [] {
      SortStable(s[1..], v);
      InsertStable(s[0], SortByPoints(s[1..]), v);
      var p := WithPoints(v);
      assert ([s[0]] + SortByPoints(s[1..]))[1..] == SortByPoints(s[1..]);
    }
  }

  // ---------------------------------------------------------------------
  // The table
  // ---------------------------------------------------------------------

  /** At most the first ten rows of a list (`slice(0, 10)`). */
  function Top(s: seq<Ranked>): (r: seq<Ranked>)
    ensures |r| == if |s| < TOP then |s| else TOP
    ensures r == s[..|r|]
  {
    if |s| < TOP then s else s[..TOP]
  }

  /**
   * `loadLeaderboard`: scans the storage entries in order, collecting the
   * rows of eligible profiles, then sorts them and keeps the ten best.
   */
  method LoadLeaderboard(entries: seq<Entry>) returns (top: seq<Ranked>)
    ensures top == Top(SortByPoints(Candidates(entries)))
  {
    var users: seq<Ranked> := [];
    for i := 0 to |entries|
      invariant users == Candidates(entries[..i])
    {
      var e := entries[i];
      assert entries[..i + 1][..i] == entries[..i];
      if StartsWith(e.key, PROFILE_PREFIX) {
        match e.value
        case Json(profile) =>
          if Truthy(profile.id) && Truthy(profile.name) {
            users := users + [RowOf(profile)];
          }
        case Malformed =>
      }
    }
    assert entries[..|entries|] == entries;
    users := SortByPoints(users);
    top := Top(users);
  }

  /** The table is ordered by points, holds at most ten rows, and no row left out has more points than a row shown. */
  lemma TableIsTopTen(entries: seq<Entry>)
    ensures Descending(Top(SortByPoints(Candidates(entries))))
    ensures |Top(SortByPoints(Candidates(entries)))| <= TOP
    ensures forall x, y :: x in Top(SortByPoints(Candidates(entries))) && y in SortByPoints(Candidates(entries))[|Top(SortByPoints(Candidates(entries)))|..] ==>
      x.comforterPoints >= y.comforterPoints
  {
    var s := SortByPoints(Candidates(entries));
    var t := Top(s);
    forall x, y | x in t && y in s[|t|..] ensures x.comforterPoints >= y.comforterPoints {
      var i :| 0 <= i < |t| && t[i] == x;
      var j :| 0 <= j < |s[|t|..]| && s[|t|..][j] == y;
      assert s[i] == x && s[|t| + j] == y;
    }
  }

  /** The table shows every eligible profile when there are at most ten, each exactly once per entry. */
  lemma TableWhenFew(entries: seq<Entry>)
    requires |Candidates(entries)| <= TOP
    ensures multiset(Top(SortByPoints(Candidates(entries)))) == multiset(Candidates(entries))
  {
    var sorted := SortByPoints(Candidates(entries));
    assert Top(sorted) == sorted[..|sorted|] == sorted;
  }

  // ---------------------------------------------------------------------
  // Rank styling
  // ---------------------------------------------------------------------

  /** The icon next to a rank. */
  datatype RankIcon = Crown | Trophy | Medal | Award

  /** `getRankIcon`: crown, trophy and medal for the first three ranks, an award for the rest. */
  function RankIconOf(rank: int): (r: RankIcon)
    ensures rank == 1 <==> r == Crown
    ensures rank == 2 <==> r == Trophy
    ensures rank == 3 <==> r == Medal
    ensures r == Award <==> rank != 1 && rank != 2 && rank != 3
  {
    if rank == 1 then Crown else if rank == 2 then Trophy else if rank == 3 then Medal else Award
  }

  const BG_FIRST := "bg-gradient-to-r from-yellow-100 to-orange-100 border-yellow-300 shadow-lg"
  const BG_SECOND := "bg-gradient-to-r from-gray-100 to-slate-100 border-gray-300 shadow-md"
  const BG_THIRD := "bg-gradient-to-r from-orange-100 to-red-100 border-orange-300 shadow-md"
  const BG_DEFAULT := "luxury-card border-luxury-warm"

  /** `getRankBg`: three distinct backgrounds for the podium, one shared by every other rank. */
  function RankBackground(rank: int): (r: string)
    ensures 1 <= rank <= 3 ==> r != BG_DEFAULT
    ensures !(1 <= rank <= 3) ==> r == BG_DEFAULT
  {
    assert |BG_FIRST| == 74 && |BG_SECOND| == 69 && |BG_THIRD| == 71 && |BG_DEFAULT| == 30;
    if rank == 1 then BG_FIRST else if rank == 2 then BG_SECOND else if rank == 3 then BG_THIRD else BG_DEFAULT
  }

  /** The first three ranks look different from each other, in icon and in background. */
  lemma PodiumDistinct(a: int, b: int)
    requires 1 <= a <= 3 && 1 <= b <= 3 && a != b
    ensures RankIconOf(a) != RankIconOf(b)
    ensures RankBackground(a) != RankBackground(b)
  {
    assert |BG_FIRST| == 74 && |BG_SECOND| == 69 && |BG_THIRD| == 71;
  }
}
