/**
 * Moderation of post titles and contents: a fixed list of banned words and
 * a fixed list of harmful phrases, searched for in the lower-cased text,
 * then limits on the trimmed length.  A banned word also yields a
 * suggested edit in which every case-insensitive occurrence of that word is
 * replaced by three asterisks.
 */
module ContentModeration {
  import opened Wrappers
  import opened Text

  /** Offensive, harmful and inappropriate words, in the order they are searched. */
  const BANNED_WORDS: seq<string> := OFFENSIVE_WORDS + HARMFUL_WORDS + ADULT_WORDS

  const OFFENSIVE_WORDS: seq<string> := [
    "aptal", "salak", "gerizekal\U{131}", "mal", "ahmak", "budala", "dangalak",
    "pislik", "k\U{F6}pek", "domuz", "e\U{15F}ek", "kat\U{131}r", "\U{F6}k\U{FC}z",
    "lanet", "kahretsin", "cehennem", "\U{15F}eytan"
  ]

  const HARMFUL_WORDS: seq<string> := [
    "intihar", "kendimi \U{F6}ld\U{FC}r", "\U{F6}lmek istiyorum", "kendime zarar",
    "bomba", "silah", "\U{F6}ld\U{FC}r", "katlet", "zarar ver"
  ]

  const ADULT_WORDS: seq<string> := [
    "seks", "porno", "\U{E7}\U{131}plak", "nude"
  ]

  /** Phrases aimed at another person, searched after the banned words. */
  const HARMFUL_PHRASES: seq<string> := [
    "kendini \U{F6}ld\U{FC}r", "intihar et", "ya\U{15F}amaya de\U{11F}mez",
    "\U{F6}lsen daha iyi", "kimse seni sevmiyor", "de\U{11F}ersizsin",
    "hi\U{E7}bir i\U{15F}e yaramazs\U{131}n"
  ]

  const CONTENT_INAPPROPRIATE := "\U{130}\U{E7}eri\U{11F}inizde uygunsuz kelimeler bulunmaktad\U{131}r. L\U{FC}tfen daha nazik bir dil kullan\U{131}n."
  const CONTENT_HARMFUL := "\U{130}\U{E7}eri\U{11F}inizde zararl\U{131} ifadeler tespit edildi. L\U{FC}tfen destekleyici ve pozitif bir dil kullan\U{131}n."
  const HARMFUL_EDIT := "Bu i\U{E7}erik moderasyon nedeniyle d\U{FC}zenlenmeli."
  const CONTENT_TOO_SHORT := "\U{130}\U{E7}erik \U{E7}ok k\U{131}sa. L\U{FC}tfen daha detayl\U{131} bir a\U{E7}\U{131}klama yap\U{131}n."
  const CONTENT_TOO_LONG := "\U{130}\U{E7}erik \U{E7}ok uzun. L\U{FC}tfen 2000 karakterden k\U{131}sa tutun."
  const TITLE_INAPPROPRIATE := "Ba\U{15F}l\U{131}kta uygunsuz kelimeler bulunmaktad\U{131}r."
  const TITLE_TOO_SHORT := "Ba\U{15F}l\U{131}k \U{E7}ok k\U{131}sa. En az 5 karakter olmal\U{131}."
  const TITLE_TOO_LONG := "Ba\U{15F}l\U{131}k \U{E7}ok uzun. En fazla 100 karakter olmal\U{131}."
  const MASK := "***"

  /** The verdict; a rejection carries a reason and sometimes a suggested edit. */
  datatype ModerationResult = ModerationResult(isAllowed: bool, reason: Option<string>, suggestedEdit: Option<string>)

  function Allowed(): ModerationResult {
    ModerationResult(true, None, None)
  }

  function Rejected(reason: string): ModerationResult {
    ModerationResult(false, Some(reason), None)
  }

  function RejectedWithEdit(reason: string, edit: string): ModerationResult {
    ModerationResult(false, Some(reason), Some(edit))
  }

  /** The lower-cased form of the word occurs in the (already lower-cased) text. */
  predicate Mentions(lower: string, word: string) {
    Contains(lower, ToLower(word))
  }

  /** The index of the first word of the list that the text mentions. */
  function FirstMentioned(words: seq<string>, lower: string): (r: Option<nat>)
    ensures r.Some? ==> r.value < |words| && Mentions(lower, words[r.value])
    ensures r.Some? ==> forall j :: 0 <= j < r.value ==> !Mentions(lower, words[j])
    ensures r.None? <==> forall j :: 0 <= j < |words| ==> !Mentions(lower, words[j])
  {
    if words == [] then None
    else if Mentions(lower, words[0]) then Some(0)
    else match FirstMentioned(words[1..], lower)
      case None => None
      case Some(k) => Some(k + 1)
  }

  // ---------------------------------------------------------------------
  // Case-insensitive replacement
  // ---------------------------------------------------------------------

  /**
   * `s.replace(new RegExp(w, "gi"), rep)` for a pattern without special
   * characters: scanning from the left, each case-insensitive match of `w`
   * is replaced and the scan resumes after it.
   */
  function ReplaceAllFolded(s: string, w: string, rep: string): string
    decreases |s|
  {
    if |w| == 0 then
      // an empty pattern matches before every character and at the end
      if s == [] then rep else rep + [s[0]] + ReplaceAllFolded(s[1..], w, rep)
    else if |s| < |w| then s
    else if Fold(s[..|w|]) == Fold(w) then rep + ReplaceAllFolded(s[|w|..], w, rep)
    else [s[0]] + ReplaceAllFolded(s[1..], w, rep)
  }

  /** The text holds no asterisk. */
  predicate NoStar(s: string) {
    '*' !in s
  }

  /** A star-free start of the output is an unchanged start of the input. */
  lemma {:induction false} UnmaskedPrefix(s: string, w: string, n: nat)
    requires |w| > 0 && n <= |ReplaceAllFolded(s, w, MASK)|
    ensures NoStar(ReplaceAllFolded(s, w, MASK)[..n]) ==> n <= |s| && ReplaceAllFolded(s, w, MASK)[..n] == s[..n]
    decreases |s|
  {
    var r := ReplaceAllFolded(s, w, MASK);
    if |s| < |w| {
    } else if Fold(s[..|w|]) == Fold(w) {
      if n > 0 {
        assert r[..n][0] == '*';
      }
    } else if n > 0 {
      var r' := ReplaceAllFolded(s[1..], w, MASK);
      assert r == [s[0]] + r';
      assert r[..n][1..] == r'[..n - 1];
      assert r[..n] == [s[0]] + r'[..n - 1];
      UnmaskedPrefix(s[1..], w, n - 1);
    }
  }

  /** A window that matches a star-free pattern holds no star. */
  lemma FoldMatchNoStar(window: string, w: string)
    requires NoStar(w)
    ensures Fold(window) == Fold(w) ==> NoStar(window)
  {
    if Fold(window) == Fold(w) {
      forall k | 0 <= k < |window| ensures window[k] != '*' {
        assert Fold(window)[k] == LowerChar(window[k]);
        assert Fold(w)[k] == LowerChar(w[k]);
      }
    }
  }

  /** A star-free front of `[x] + t` has a star-free front of `t` behind its first character. */
  lemma NoStarTail(x: char, t: string, k: nat)
    requires k <= |t|
    ensures ([x] + t)[..k + 1] == [x] + t[..k]
    ensures NoStar(([x] + t)[..k + 1]) ==> NoStar(t[..k])
  {
    assert ([x] + t)[..k + 1] == [x] + t[..k];
  }

  /** Where the scan found no match at the front, a star-free front window of the output is the input's. */
  lemma FrontKept(s: string, w: string)
    requires |w| > 0 && |s| >= |w| && Fold(s[..|w|]) != Fold(w)
    ensures |ReplaceAllFolded(s, w, MASK)| >= |w| && NoStar(ReplaceAllFolded(s, w, MASK)[..|w|]) ==>
      ReplaceAllFolded(s, w, MASK)[..|w|] == s[..|w|]
  {
    var r' := ReplaceAllFolded(s[1..], w, MASK);
    assert ReplaceAllFolded(s, w, MASK) == [s[0]] + r';
    if |r'| >= |w| - 1 {
      NoStarTail(s[0], r', |w| - 1);
      UnmaskedPrefix(s[1..], w, |w| - 1);
      assert s[..|w|] == [s[0]] + s[1..][..|w| - 1];
    }
  }

  /** An occurrence behind a prefix is an occurrence in the rest. */
  lemma OccursBehind(p: string, t: string, w: string, i: int)
    requires i >= |p|
    ensures FoldOccursAt(p + t, w, i) <==> FoldOccursAt(t, w, i - |p|)
  {
    if i + |w| <= |p + t| {
      assert (p + t)[i..i + |w|] == t[i - |p|..i - |p| + |w|];
    }
  }

  /** A star-free word does not occur over a star. */
  lemma StarBlocks(r: string, w: string, i: int)
    requires |w| > 0 && NoStar(w) && 0 <= i < |r| && r[i] == '*'
    ensures !FoldOccursAt(r, w, i)
  {
    if i + |w| <= |r| {
      assert r[i..i + |w|][0] == '*';
      FoldMatchNoStar(r[i..i + |w|], w);
    }
  }

  /** Stars followed by a text without the word: a star-free word cannot overlap the stars. */
  lemma StarsThenClean(p: string, t: string, w: string)
    requires |w| > 0 && NoStar(w) && forall k :: 0 <= k < |p| ==> p[k] == '*'
    requires forall i :: !FoldOccursAt(t, w, i)
    ensures forall i :: !FoldOccursAt(p + t, w, i)
  {
    forall i ensures !FoldOccursAt(p + t, w, i) {
      if 0 <= i < |p| {
        StarBlocks(p + t, w, i);
      } else if |p| <= i {
        OccursBehind(p, t, w, i);
      }
    }
  }

  /** After a skipped character the output's front window is the input's, which did not match. */
  lemma KeptFront(s: string, w: string)
    requires |w| > 0 && NoStar(w) && |s| >= |w| && Fold(s[..|w|]) != Fold(w)
    requires forall i :: !FoldOccursAt(ReplaceAllFolded(s[1..], w, MASK), w, i)
    ensures forall i :: !FoldOccursAt(ReplaceAllFolded(s, w, MASK), w, i)
  {
    var r' := ReplaceAllFolded(s[1..], w, MASK);
    var r := ReplaceAllFolded(s, w, MASK);
    assert r == [s[0]] + r';
    forall i ensures !FoldOccursAt(r, w, i) {
      if i == 0 && |w| <= |r| {
        FrontKept(s, w);
        FoldMatchNoStar(r[..|w|], w);
        assert r[0..|w|] == r[..|w|];
      } else if 1 <= i {
        OccursBehind([s[0]], r', w, i);
      }
    }
  }

  /**
   * Masking removes the word: once every case-insensitive occurrence of a
   * star-free word is replaced by asterisks, none is left in the result.
   */
  lemma {:induction false} MaskRemovesWord(s: string, w: string)
    requires |w| > 0 && NoStar(w)
    ensures forall i :: !FoldOccursAt(ReplaceAllFolded(s, w, MASK), w, i)
    decreases |s|
  {
    if |s| < |w| {
    } else if Fold(s[..|w|]) == Fold(w) {
      MaskRemovesWord(s[|w|..], w);
      StarsThenClean(MASK, ReplaceAllFolded(s[|w|..], w, MASK), w);
    } else {
      MaskRemovesWord(s[1..], w);
      KeptFront(s, w);
    }
  }

  /** Text without a case-insensitive occurrence of the word is left as it is. */
  lemma {:induction false} ReplaceWithoutMatch(s: string, w: string, rep: string)
    requires |w| > 0
    requires forall i :: !FoldOccursAt(s, w, i)
    ensures ReplaceAllFolded(s, w, rep) == s
    decreases |s|
  {
    if |s| >= |w| {
      assert !FoldOccursAt(s, w, 0);
      assert s[..|w|] == s[0..|w|];
      forall i ensures !FoldOccursAt(s[1..], w, i) {
        if FoldOccursAt(s[1..], w, i) {
          assert s[1..][i..i + |w|] == s[i + 1..i + 1 + |w|];
          assert FoldOccursAt(s, w, i + 1);
        }
      }
      ReplaceWithoutMatch(s[1..], w, rep);
    }
  }
  /**
   * Text in front of the first match is copied unchanged: when no match
   * starts inside `a`, replacing in `a + b` keeps `a` and goes on in `b`.
   */
  lemma {:induction false} ReplaceKeepsUnmatched(a: string, b: string, w: string, rep: string)
    requires |w| > 0
    requires forall i :: 0 <= i < |a| ==> !FoldOccursAt(a + b, w, i)
    ensures ReplaceAllFolded(a + b, w, rep) == a + ReplaceAllFolded(b, w, rep)
    decreases |a|
  {
    if a == [] {
      assert a + b == b;
    } else if |a + b| < |w| {
      assert ReplaceAllFolded(b, w, rep) == b;
    } else {
      var s := a + b;
      assert !FoldOccursAt(s, w, 0);
      assert s[..|w|] == s[0..|w|];
      assert s[1..] == a[1..] + b;
      assert [a[0]] + (a[1..] + b) == s;
      forall i | 0 <= i < |a[1..]| ensures !FoldOccursAt(a[1..] + b, w, i) {
        OccursBehind([a[0]], a[1..] + b, w, i + 1);
        assert !FoldOccursAt(s, w, i + 1);
      }
      ReplaceKeepsUnmatched(a[1..], b, w, rep);
    }
  }

  /** A match is replaced as a whole, and replacing goes on right behind it. */
  lemma ReplaceAtMatch(m: string, b: string, w: string, rep: string)
    requires |w| > 0 && |m| == |w| && Fold(m) == Fold(w)
    ensures ReplaceAllFolded(m + b, w, rep) == rep + ReplaceAllFolded(b, w, rep)
  {
    assert (m + b)[..|w|] == m && (m + b)[|w|..] == b;
  }


  // ---------------------------------------------------------------------
  // The verdicts
  // ---------------------------------------------------------------------

  /** No word of the list is mentioned in the lower-cased text. */
  predicate MentionsNone(words: seq<string>, lower: string) {
    forall j :: 0 <= j < |words| ==> !Mentions(lower, words[j])
  }

  /**
   * `moderateContent`: the first check that fails decides.  The word lists
   * are parameters; the application passes `BANNED_WORDS` and
   * `HARMFUL_PHRASES`.
   */
  function ModerateContent(banned: seq<string>, harmful: seq<string>, content: string): (r: ModerationResult)
    ensures r.isAllowed <==> r.reason.None?
    ensures r.isAllowed ==> r.suggestedEdit.None?
  {
    var lower := ToLower(content);
    match FirstMentioned(banned, lower)
    case Some(k) => RejectedWithEdit(CONTENT_INAPPROPRIATE, ReplaceAllFolded(content, banned[k], MASK))
    case None =>
      if FirstMentioned(harmful, lower).Some? then RejectedWithEdit(CONTENT_HARMFUL, HARMFUL_EDIT)
      else if Utf16Length(Trim(content)) < 10 then Rejected(CONTENT_TOO_SHORT)
      else if Utf16Length(Trim(content)) > 2000 then Rejected(CONTENT_TOO_LONG)
      else Allowed()
  }

  /** `moderateTitle` (with `BANNED_WORDS`): banned words, then 5 to 100 UTF-16 code units once trimmed; harmful phrases are not checked. */
  function ModerateTitle(banned: seq<string>, title: string): (r: ModerationResult)
    ensures r.isAllowed <==> r.reason.None?
    ensures r.isAllowed ==> r.suggestedEdit.None?
  {
    match FirstMentioned(banned, ToLower(title))
    case Some(k) => RejectedWithEdit(TITLE_INAPPROPRIATE, ReplaceAllFolded(title, banned[k], MASK))
    case None =>
      if Utf16Length(Trim(title)) < 5 then Rejected(TITLE_TOO_SHORT)
      else if Utf16Length(Trim(title)) > 100 then Rejected(TITLE_TOO_LONG)
      else Allowed()
  }

  // ---------------------------------------------------------------------
  // Properties of the verdicts
  // ---------------------------------------------------------------------

  /** Every word of a list is non-empty and holds no asterisk. */
  predicate Maskable(words: seq<string>) {
    forall j :: 0 <= j < |words| ==> |words[j]| > 0 && NoStar(words[j])
  }

  /** The module's lists are maskable. */
  lemma ListsMaskable()
    ensures Maskable(BANNED_WORDS) && Maskable(HARMFUL_PHRASES)
  {
    BannedMaskable();
  }

  lemma BannedMaskable()
    ensures Maskable(BANNED_WORDS)
  {
    GroupsMaskable();
    MaskableAppend(OFFENSIVE_WORDS, HARMFUL_WORDS);
    MaskableAppend(OFFENSIVE_WORDS + HARMFUL_WORDS, ADULT_WORDS);
  }

  /** Each group of banned words is maskable. */
  lemma GroupsMaskable()
    ensures Maskable(OFFENSIVE_WORDS) && Maskable(HARMFUL_WORDS) && Maskable(ADULT_WORDS)
  {
    OffensiveMaskable();
    HarmfulMaskable();
    AdultMaskable();
  }

  lemma OffensiveMaskable()
    ensures Maskable(OFFENSIVE_WORDS)
  {
  }

  lemma HarmfulMaskable()
    ensures Maskable(HARMFUL_WORDS)
  {
  }

  lemma AdultMaskable()
    ensures Maskable(ADULT_WORDS)
  {
  }

  /** Two maskable lists together are maskable. */
  lemma MaskableAppend(a: seq<string>, b: seq<string>)
    requires Maskable(a) && Maskable(b)
    ensures Maskable(a + b)
  {
    forall j | 0 <= j < |a + b| ensures |(a + b)[j]| > 0 && NoStar((a + b)[j]) {
      if j < |a| { assert (a + b)[j] == a[j]; } else { assert (a + b)[j] == b[j - |a|]; }
    }
  }

  /**
   * Each reason is given exactly in its case, in the order of the checks;
   * only the two word checks suggest an edit.
   */
  lemma ModerateContentReasons(banned: seq<string>, harmful: seq<string>, content: string)
    ensures var r := ModerateContent(banned, harmful, content); var lower := ToLower(content);
      && (r.isAllowed <==> MentionsNone(banned, lower) && MentionsNone(harmful, lower) && 10 <= Utf16Length(Trim(content)) <= 2000)
      && (r.reason == Some(CONTENT_INAPPROPRIATE) <==> !MentionsNone(banned, lower))
      && (r.reason == Some(CONTENT_HARMFUL) <==> MentionsNone(banned, lower) && !MentionsNone(harmful, lower))
      && (r.reason == Some(CONTENT_HARMFUL) ==> r.suggestedEdit == Some(HARMFUL_EDIT))
      && (r.reason == Some(CONTENT_TOO_SHORT) <==>
            MentionsNone(banned, lower) && MentionsNone(harmful, lower) && Utf16Length(Trim(content)) < 10)
      && (r.reason == Some(CONTENT_TOO_LONG) <==>
            MentionsNone(banned, lower) && MentionsNone(harmful, lower) && Utf16Length(Trim(content)) > 2000)
      && (r.suggestedEdit.Some? <==> !MentionsNone(banned, lower) || !MentionsNone(harmful, lower))
  {
  }

  /** A title passes exactly when it mentions no banned word and trims to 5 to 100 UTF-16 code units. */
  lemma ModerateTitleReasons(banned: seq<string>, title: string)
    ensures var r := ModerateTitle(banned, title); var lower := ToLower(title);
      && (r.isAllowed <==> MentionsNone(banned, lower) && 5 <= Utf16Length(Trim(title)) <= 100)
      && (r.reason == Some(TITLE_INAPPROPRIATE) <==> !MentionsNone(banned, lower))
      && (r.reason == Some(TITLE_TOO_SHORT) <==> MentionsNone(banned, lower) && Utf16Length(Trim(title)) < 5)
      && (r.reason == Some(TITLE_TOO_LONG) <==> MentionsNone(banned, lower) && Utf16Length(Trim(title)) > 100)
      && (r.suggestedEdit.Some? <==> !MentionsNone(banned, lower))
  {
  }

  /**
   * The suggested edit for a banned word masks the first banned word the
   * text mentions: no case-insensitive occurrence of it is left.
   */
  lemma ContentEditMasks(banned: seq<string>, harmful: seq<string>, content: string) returns (k: nat)
    requires Maskable(banned) && !MentionsNone(banned, ToLower(content))
    ensures k < |banned| && Mentions(ToLower(content), banned[k])
    ensures forall j :: 0 <= j < k ==> !Mentions(ToLower(content), banned[j])
    ensures ModerateContent(banned, harmful, content).suggestedEdit == Some(ReplaceAllFolded(content, banned[k], MASK))
    ensures forall i :: !FoldOccursAt(ModerateContent(banned, harmful, content).suggestedEdit.value, banned[k], i)
  {
    k := FirstMentioned(banned, ToLower(content)).value;
    MaskRemovesWord(content, banned[k]);
  }

  /** The same for titles, whose only edit is for banned words. */
  lemma TitleEditMasks(banned: seq<string>, title: string) returns (k: nat)
    requires Maskable(banned) && !MentionsNone(banned, ToLower(title))
    ensures k < |banned| && Mentions(ToLower(title), banned[k])
    ensures forall j :: 0 <= j < k ==> !Mentions(ToLower(title), banned[j])
    ensures ModerateTitle(banned, title).reason == Some(TITLE_INAPPROPRIATE)
    ensures ModerateTitle(banned, title).suggestedEdit == Some(ReplaceAllFolded(title, banned[k], MASK))
    ensures forall i :: !FoldOccursAt(ModerateTitle(banned, title).suggestedEdit.value, banned[k], i)
  {
    k := FirstMentioned(banned, ToLower(title)).value;
    MaskRemovesWord(title, banned[k]);
  }

  /** Whatever the trimmed text mentions, the text mentions too. */
  lemma TrimMentionsLess(words: seq<string>, s: string)
    ensures MentionsNone(words, ToLower(s)) ==> MentionsNone(words, ToLower(Trim(s)))
  {
    forall k | 0 <= k < |words| && Mentions(ToLower(Trim(s)), words[k])
      ensures Mentions(ToLower(s), words[k])
    {
      TrimmedMentionKept(words[k], s);
    }
  }

  /** A word the trimmed text mentions is mentioned by the text. */
  lemma TrimmedMentionKept(word: string, s: string)
    requires Mentions(ToLower(Trim(s)), word)
    ensures Mentions(ToLower(s), word)
  {
    var i, j := TrimSlice(s);
    LowerSliceContains(s, i, j, ToLower(word));
  }

  /**
   * A post stores its trimmed title and content; what was allowed stays
   * allowed after trimming.
   */
  lemma TrimmedStillAllowed(banned: seq<string>, harmful: seq<string>, title: string, content: string)
    ensures ModerateContent(banned, harmful, content).isAllowed ==> ModerateContent(banned, harmful, Trim(content)).isAllowed
    ensures ModerateTitle(banned, title).isAllowed ==> ModerateTitle(banned, Trim(title)).isAllowed
  {
    TrimIdempotent(content);
    TrimIdempotent(title);
    ModerateContentReasons(banned, harmful, content);
    ModerateContentReasons(banned, harmful, Trim(content));
    ModerateTitleReasons(banned, title);
    ModerateTitleReasons(banned, Trim(title));
    TrimMentionsLess(banned, content);
    TrimMentionsLess(harmful, content);
    TrimMentionsLess(banned, title);
  }

  /**
   * Words are matched as substrings: any text with "normal" in it, in any
   * letter case, is rejected, because it contains the banned word "mal".
   */
  lemma NormalIsRejected(content: string)
    requires Contains(ToLower(content), "normal")
    ensures ModerateContent(BANNED_WORDS, HARMFUL_PHRASES, content).reason == Some(CONTENT_INAPPROPRIATE)
  {
    NormalContainsMal(ToLower(content));
    MalIsBanned();
    ToLowerUnchanged("mal");
    MentionRejects(BANNED_WORDS, HARMFUL_PHRASES, content, 3);
  }

  /** The fourth banned word is "mal". */
  lemma MalIsBanned()
    ensures |BANNED_WORDS| > 3 && BANNED_WORDS[3] == "mal"
  {
    assert BANNED_WORDS[3] == OFFENSIVE_WORDS[3];
  }

  /** "mal" is the end of "normal". */
  lemma NormalContainsMal(lower: string)
    requires Contains(lower, "normal")
    ensures Contains(lower, "mal")
  {
    ContainsIff(lower, "normal");
    var i :| OccursAt(lower, "normal", i);
    assert lower[i + 3..i + 6] == lower[i..i + 6][3..];
    ContainsAt(lower, "mal", i + 3);
  }

  /** Content that mentions any banned word is rejected as inappropriate. */
  lemma MentionRejects(banned: seq<string>, harmful: seq<string>, content: string, k: int)
    requires 0 <= k < |banned| && Mentions(ToLower(content), banned[k])
    ensures ModerateContent(banned, harmful, content).reason == Some(CONTENT_INAPPROPRIATE)
  {
    ModerateContentReasons(banned, harmful, content);
  }
}
