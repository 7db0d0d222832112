# Comfortillo core, modelled in Dafny

Comfortillo is a Turkish-language peer-support web application. Visitors can read the welcome and about pages. Signed-in users can also:

- post their feelings to a community forum;
- reply in nested threads and mark helpful replies as solutions;
- earn Comforter and Heroica points that place them on a level ladder and a leaderboard;
- report posts;
- search the stored posts;
- keep a profile with interests, an age and an NSFW setting;
- talk to an AI support chat that shows emergency resources when a message holds a crisis phrase.

Everything is held in the browser's storage. A mock authentication provider signs anyone in.

This project models that core as Dafny:

- **Pure helpers** become functions with lemmas: the level tables, content moderation, time-ago labels, the reply-tree organiser, the leaderboard ranking and the search.
- **Stateful components** become classes whose fields are the component's state and whose methods are its handlers. These are the forms and dialogs, the forum page, the chat page, the application shell and the authentication provider.

The model treats the outside world as follows:

- **Browser storage:** passed in and out as values, the `Store` record and the `Saved…` datatypes.
- **The clock** (`Date.now()`): the parameter `now`.
- **Translation:** the function `t`.
- **JSON parsing of the chat stream:** the function `parse`.
- **Asynchronous waits:** a handler that awaits is split into the check that starts it and the step that finishes it. The reply composer's send is the exception, listed under "## Left out".
- **The signed-in user's storage entry** (`comfortillo-user`) appears twice: as `Store.user` in the storage snapshot and as `UseAuth.Provider.stored`. They are separate snapshots of the same entry. A caller that runs a handler writing one of them (such as `SettingsModal.Dialog.FinishSaveEmail`) keeps the other in step.
- **The post, reply and profile keys** likewise appear both in `Store` (written by the profile save and the account deletion) and in `ForumPage.Forum`'s own `storedPosts`, `storedReplies` and `profiles` fields. They are separate snapshots of the same keys. The forum sees another dialog's writes only when a caller copies them in before `Reload`.
- **Integers** are unbounded, and **strings** are sequences of Unicode scalar values. Where the source compares a string's `length`, the model counts UTF-16 code units (`Text.Utf16Length`): a character above U+FFFF counts twice.
- **Lower-casing** (`toLowerCase`) is modelled for ASCII, Latin-1 and the Turkish letters Ğ, Ş, İ and I. Among them, İ becomes "i" followed by a combining dot above.

Shared modules:

- `Wrappers`: `Option`.
- `Text`: trimming, lower-casing, substring search, line splitting, decimal digits.
- `Seqs`: filtering and counting.
- `Records`: the stored post, reply, user and profile records, and the storage snapshot.
- `LevelTable`: the level lookup shared by both point systems.

## Model

| member | source | states |
|---|---|---|
| Text.Trim | utils/content-moderation.ts:81 | `trim()`; its meaning is stated by TrimSlice, TrimEdges, TrimEmptyIffBlank and TrimIdempotent |
| Text.TrimSlice | utils/content-moderation.ts:81 | `trim()` cuts only whitespace: the result is a slice of the input with only whitespace before and after it |
| Text.TrimEdges | utils/content-moderation.ts:81 | a non-empty trimmed text starts and ends with a non-whitespace character |
| Text.TrimEmptyIffBlank | components/report-modal.tsx:39 | `!s.trim()` holds exactly when every character of `s` is whitespace |
| Text.TrimIdempotent | components/create-post-modal.tsx:74-76 | trimming an already trimmed text changes nothing |
| Text.ContainsIff | utils/content-moderation.ts:60 | `includes` holds exactly when the word occurs at some index |
| Text.ToLower | utils/content-moderation.ts:56 | `toLowerCase()`, character by character; see ToLowerAppend and ToLowerUnchanged |
| Text.ToLowerAppend | utils/content-moderation.ts:56 | lower-casing works character by character: it distributes over concatenation |
| Text.ToLowerUnchanged | utils/content-moderation.ts:60 | a text made of characters that are their own lower case is unchanged by lower-casing |
| Text.PrefixBefore | components/profile-page.tsx:66 | `split(" ")[0]` is the longest prefix without the separator, and it ends at the first separator |
| Text.SplitLines | components/ai-chat-page.tsx:121 | `split("\n")` gives at least one part and no part holds a newline |
| Text.JoinSplitLines | components/ai-chat-page.tsx:121 | joining the parts of a split with newlines gives the text back |
| Text.SplitJoinLines | components/ai-chat-page.tsx:121 | splitting newline-joined, newline-free parts gives the parts back |
| Text.NatToString | components/forum-page.tsx:100 | `toString` of a number gives at least one character |
| Text.Utf16Length | utils/content-moderation.ts:81 | `length` counts one or two code units per character, exactly as many as characters when none is above U+FFFF |
| Text.Utf16LengthAppend | utils/content-moderation.ts:81 | the code units of a concatenation add up |
| Text.SurrogatePairsCountTwice | components/settings-modal.tsx:64 | three emoji are three characters but six code units |
| Text.ParseNatToString | components/forum-page.tsx:100 | the decimal string of a time stamp (`Date.now().toString()`) is all digits and reads back as the number |
| Seqs.Filter | components/forum-page.tsx:114 | `filter` never lengthens the list |
| Seqs.FilterMembership | components/forum-page.tsx:114 | an element is in the filtered list exactly when it is in the list and passes the test |
| Seqs.FilterCount | components/forum-page.tsx:114 | filtering keeps every copy of a passing element and no copy of a failing one |
| Seqs.FilterAppend | components/forum-page.tsx:114 | filtering keeps order: filtering a concatenation concatenates the filtered parts |
| Seqs.FilterAll | components/forum-page.tsx:109 | a list whose elements all pass is kept whole |
| Seqs.FilterNone | components/forum-page.tsx:109 | a list whose elements all fail is emptied |
| Seqs.Count | components/profile-page.tsx:260 | `filter(p).length` is at most the list's length and is the length of the filtered list |
| LevelTable.FindIndex | utils/comforter-system.ts:131-133 | `findIndex`: the first level whose range holds the score, and -1 exactly when no level does |
| LevelTable.MinPointsIncrease | utils/comforter-system.ts:15-124 | in a tiling table, minimum points strictly increase and each bounded level ends below the next one's start |
| LevelTable.TilesCover | utils/comforter-system.ts:127 | in a tiling table every non-negative score lies in exactly one level |
| LevelTable.BelowZeroInNoLevel | utils/comforter-system.ts:127 | a negative score lies in no level |
| LevelTable.LevelOf | utils/comforter-system.ts:126-128 | the current level of a score, or the first level when no level holds it; see LevelOfSpec |
| LevelTable.NextLevel | utils/comforter-system.ts:130-135 | the level after the current one, or null; see NextLevelSpec |
| LevelTable.Progress | utils/comforter-system.ts:137-144 | the percentage towards the next level; see ProgressSpec |
| LevelTable.LevelOfSpec | utils/comforter-system.ts:126-128 | the level found holds a non-negative score and is the only level that does; a negative score falls back to the first level |
| LevelTable.NextLevelSpec | utils/comforter-system.ts:130-135 | there is no next level exactly from the last level's minimum on; otherwise the next level starts right after the current one ends; a negative score gets the first level |
| LevelTable.ProgressSpec | utils/comforter-system.ts:137-144 | progress is 100 from the last level on, the share of the current level below it, never above 100, and negative infinity for a negative score |
| ComforterSystem.ComforterLevelsTile | utils/comforter-system.ts:15-124 | the nine Comforter ranges start at 0, follow each other without gap or overlap, and the last is unbounded |
| ComforterSystem.GetComforterLevel | utils/comforter-system.ts:126-128 | the one level whose range holds a non-negative score; "Yeni Başlayan" for a negative score |
| ComforterSystem.GetNextLevel | utils/comforter-system.ts:130-135 | null exactly from 3200 points on; otherwise the level starting right after the current one; the first level for a negative score |
| ComforterSystem.GetProgressToNextLevel | utils/comforter-system.ts:137-144 | 100 from 3200 points on, never above 100, negative infinity for a negative score |
| ComforterSystem.ProgressWithinLevel | utils/comforter-system.ts:137-144 | below 3200 the progress is the covered share of the current level, 0 at its start and under 100 |
| HeroicaSystem.HeroicaLevelsTile | utils/heroica-system.ts:14-103 | the Heroica ranges start at 0, follow each other without gap or overlap, and the last is unbounded |
| HeroicaSystem.GetHeroicaLevel | utils/heroica-system.ts:105-107 | the one level whose range holds a non-negative score; the first level for a negative score |
| HeroicaSystem.GetNextLevel | utils/heroica-system.ts:109-112 | null exactly from 1600 points on; otherwise the level starting right after the current one |
| HeroicaSystem.GetProgressToNextLevel | utils/heroica-system.ts:114-121 | 100 from 1600 points on, never above 100, negative infinity for a negative score |
| HeroicaSystem.ProgressWithinLevel | utils/heroica-system.ts:114-121 | below 1600 the progress is the covered share of the current level, 0 at its start and under 100 |
| ContentModeration.FirstMentioned | utils/content-moderation.ts:59-60 | the first word of the list whose lower case the lower-cased text contains, and none exactly when no word is contained |
| ContentModeration.MaskRemovesWord | utils/content-moderation.ts:64 | after `replace(new RegExp(word, "gi"), "***")` no case-insensitive occurrence of a non-empty, star-free word is left |
| ContentModeration.ReplaceAllFolded | utils/content-moderation.ts:64 | the case-insensitive replace-all of a banned word by "***"; see MaskRemovesWord, ReplaceWithoutMatch, ReplaceKeepsUnmatched and ReplaceAtMatch |
| ContentModeration.ReplaceWithoutMatch | utils/content-moderation.ts:64 | a text without a case-insensitive occurrence of the word is left unchanged by the replacement |
| ContentModeration.ReplaceKeepsUnmatched | utils/content-moderation.ts:64 | the replacement copies the text in front of the first match unchanged |
| ContentModeration.ReplaceAtMatch | utils/content-moderation.ts:64 | a match is replaced by "***" as a whole and the replacement goes on right behind it |
| ContentModeration.ModerateContent | utils/content-moderation.ts:55-96 | content is allowed exactly when no reason is given, and an allowed verdict suggests no edit |
| ContentModeration.ModerateContentReasons | utils/content-moderation.ts:55-96 | allowed iff no banned word, no harmful phrase and 10 to 2000 UTF-16 code units once trimmed; each reason is given exactly in its case, in check order; only the word and phrase checks suggest an edit |
| ContentModeration.ModerateTitle | utils/content-moderation.ts:98-127 | a title is allowed exactly when no reason is given, and an allowed verdict suggests no edit |
| ContentModeration.ModerateTitleReasons | utils/content-moderation.ts:98-127 | allowed iff no banned word and 5 to 100 UTF-16 code units once trimmed; each reason exactly in its case; harmful phrases are not checked |
| ContentModeration.ListsMaskable | utils/content-moderation.ts:2-47 | every banned word and harmful phrase is non-empty and holds no asterisk |
| ContentModeration.ContentEditMasks | utils/content-moderation.ts:59-66 | the edit suggested for a banned word is the content with every case-insensitive occurrence of the first banned word it mentions replaced by "***" (`ReplaceKeepsUnmatched` and `ReplaceAtMatch` pin that text down), and no occurrence is left |
| ContentModeration.TitleEditMasks | utils/content-moderation.ts:102-110 | the same for titles: the rejection carries the inappropriate-title reason and the title with every occurrence of the first banned word replaced by "***", none left |
| ContentModeration.TrimMentionsLess | utils/content-moderation.ts:60 | a word the trimmed text mentions is mentioned by the untrimmed text too |
| ContentModeration.TrimmedMentionKept | utils/content-moderation.ts:60 | one word at a time: a mention in the trimmed text is a mention in the text |
| ContentModeration.TrimmedStillAllowed | utils/content-moderation.ts:81-93 | content or a title that passes still passes once trimmed, which is what is stored |
| ContentModeration.NormalIsRejected | utils/content-moderation.ts:7 | words are matched as substrings: any text containing "normal" is rejected as inappropriate because of "mal" |
| ContentModeration.MentionRejects | utils/content-moderation.ts:59-66 | content that mentions any banned word is rejected as inappropriate |
| TimeAgo.ByHours | components/nested-reply-system.tsx:52-65 | days when at least a day has passed, hours when at least an hour but under a day, "now" under an hour; each count is the whole number of periods |
| TimeAgo.ByDays | components/profile-page.tsx:106-119 | the profile page's variant, days taken straight from the difference, picks the same label and count as the reply variant |
| TimeAgo.FloorOfFloor | components/profile-page.tsx:109-110 | whole days of whole hours are whole days of the difference, with floor division |
| TimeAgo.Describe | components/nested-reply-system.tsx:58-64 | the label is the "now" word, or a decimal count that reads back as the days or hours followed by a space and the word |
| TimeAgo.NumberThen | components/nested-reply-system.tsx:59 | `${n} word` is a decimal string reading back as `n`, then a space and the word |
| TimeAgo.ReplyTimeAgo | components/nested-reply-system.tsx:52-65 | the reply label is "Az önce" exactly when under an hour has passed |
| ReplyTree.NodeMap | components/nested-reply-system.tsx:261-266 | the map's keys are the reply ids; each id maps to a reply of the list carrying that id |
| ReplyTree.BuildNodeMap | components/nested-reply-system.tsx:264-266 | the first pass of `organizeReplies` builds that map |
| ReplyTree.Place | components/nested-reply-system.tsx:268-277 | one step of the second pass appends the reply's node to its present parent's list, or to the roots, keeping the lists built so far |
| ReplyTree.OrganizeReplies | components/nested-reply-system.tsx:260-280 | the roots and children lists the two passes build are the forest of the reply list |
| ReplyTree.NodeIsReply | components/nested-reply-system.tsx:265 | with unique ids every reply is its own node |
| ReplyTree.ForestIsFilter | components/nested-reply-system.tsx:268-279 | the roots are exactly the replies without a present parent, and each children list exactly the replies under that parent, each in input order |
| ReplyTree.PlacedExactlyOnce | components/nested-reply-system.tsx:268-277 | every reply is placed exactly once, in its own slot's list and nowhere else |
| ReplyTree.ForestMembership | components/nested-reply-system.tsx:270-276 | a reply is a root iff it has no present, non-empty parent id, and is a child of `p` iff its parent id is `p` |
| ReplyTree.ForestShaped | components/nested-reply-system.tsx:260-280 | the forest built from a unique-id list has that shape |
| ReplyTree.RenderedIsInput | components/nested-reply-system.tsx:167-179 | everything rendered at any depth comes from the input list |
| ReplyTree.RenderedChild | components/nested-reply-system.tsx:167-179 | a reply rendered below the roots sits under the reply its parent id names, rendered one level up |
| ReplyTree.ParentNode | components/nested-reply-system.tsx:270 | a reply has a parent node exactly when its parent id is set, non-empty and present; that node carries the id |
| ReplyTree.CycleUnreachable | components/nested-reply-system.tsx:268-301 | replies on a parent cycle are never rendered |
| ReplyTree.SelfParentHidden | components/nested-reply-system.tsx:268-301 | a reply that names itself as parent is never rendered |
| ReplyTree.RenderedAt | components/nested-reply-system.tsx:167-179 | in any forest of that shape whose parent links are acyclic (a rank falls from each reply to its parent), every reply is rendered at some depth |
| ReplyTree.EveryReplyRendered | components/nested-reply-system.tsx:260-301 | with unique ids and acyclic parent links every reply is rendered at some depth, whatever the order of the list |
| ReplyTree.ChildBeforeParentRendered | components/nested-reply-system.tsx:264-279 | a reply listed before its parent is still rendered under it |
| ReplyTree.ParentsFirstRanked | components/forum-page.tsx:140-163 | a list in which every parent comes before its replies, as the forum appends them, has acyclic parent links |
| ReplyTree.Click | components/nested-reply-system.tsx:67-89 | like, reply and mark-solution ask for a login when signed out, and otherwise emit the reply's id |
| ReplyTree.ButtonsInForest | components/nested-reply-system.tsx:140-162 | the solution button shows exactly on unmarked root replies; a reply with the reply button has its answers rendered one level below it, at most at depth 3 |
| ReplyTree.ReplyComposer.constructor | components/nested-reply-system.tsx:194-197 | the form starts empty, not submitting, with no error and no target |
| ReplyTree.ReplyComposer.ReplyTo | components/nested-reply-system.tsx:252-258 | the next reply answers the given reply; nothing else changes |
| ReplyTree.ReplyComposer.CancelReplyTo | components/nested-reply-system.tsx:313 | the target is cleared; nothing else changes |
| ReplyTree.ReplyComposer.Submit | components/nested-reply-system.tsx:221-250 | a signed-out user is sent to log in; blank text is ignored; rejected text shows the moderation reason; otherwise the trimmed text is sent and the form is cleared |
| ReplyTree.ReplyComposer.Send | components/nested-reply-system.tsx:237-249 | the trimmed text goes to the target, and the form ends empty, without error and not submitting |
| ReplyTree.ReplyComposer.Target | components/nested-reply-system.tsx:242 | `replyingTo \|\| undefined`: an empty target id counts as none |
| PostCard.FormatTimeAgo | components/post-card.tsx:41-54 | the card's label uses the translated "now", days and hours words on the same thresholds |
| PostCard.ElapsedQuotients | components/post-card.tsx:43-45 | the days and hours shown are the floor quotients of the elapsed time |
| PostCard.SameLabelAsReplies | components/post-card.tsx:41-54 | with the Turkish words the card shows the same label as a reply |
| PostCard.CategoryColor | components/post-card.tsx:56-67 | a category in the colour table gets its colour; any other category gets gray |
| PostCard.FormCategoriesGray | components/post-card.tsx:56-66 | every category the post form offers is a Turkish label, not a key of the colour table, so every such post is gray |
| PostCard.CategoryLabel | components/post-card.tsx:69-73 | the translation of `category.<c>` when one exists, the category itself otherwise |
| PostCard.LabelIsNeverKey | components/post-card.tsx:69-73 | the label is never the untranslated key |
| PostCard.SupportEffect | components/post-card.tsx:75-81 | supporting asks for a login when signed out, and otherwise supports this post |
| PostCard.DeleteEffect | components/post-card.tsx:83-97 | deletion happens exactly for the post's author after confirming |
| PostCard.OnlyAuthorDeletes | components/post-card.tsx:83-97 | a deletion implies a signed-in user whose id is the post's author id |
| PostCard.Card.constructor | components/post-card.tsx:36-37 | replies and the report dialog start hidden |
| PostCard.Card.ToggleReplies | components/post-card.tsx:89-95 | signed in, the replies flip between shown and hidden; signed out, a login is asked and nothing flips |
| PostCard.Card.OpenReport | components/post-card.tsx:181 | the report dialog opens; the replies are untouched |
| PostCard.Card.CloseReport | components/post-card.tsx:207 | the report dialog closes; the replies are untouched |
| ForumPage.SamplePosts | components/forum-page.tsx:19-47 | three sample posts whose ids are the sample ids |
| ForumPage.UserPostsMembership | components/forum-page.tsx:109 | the stored list holds exactly the posts that are not samples |
| ForumPage.StoreAfterLoad | components/forum-page.tsx:57-65 | storing right after loading writes back exactly the stored user posts |
| ForumPage.NewPost | components/forum-page.tsx:97-104 | a new post keeps the draft's fields, takes its id from the first reading of the clock and its time stamp from the second, has no support, and has the signed-in user as author |
| ForumPage.DeleteMembership | components/forum-page.tsx:113-123 | deleting removes exactly the post with that id and exactly the replies to it |
| ForumPage.Supported | components/forum-page.tsx:131-133 | the post with that id gains one support; every other post is unchanged |
| ForumPage.ToggleLike | components/forum-page.tsx:165-170 | the reply with that id flips its like and its count moves by one; every other reply is unchanged |
| ForumPage.ToggleLikeTwice | components/forum-page.tsx:165-170 | liking twice gives the replies back |
| ForumPage.ToggleLikeCounts | components/forum-page.tsx:168 | an unliked reply gains a like and a liked one loses one |
| ForumPage.ToggleSolution | components/forum-page.tsx:179 | the reply with that id flips its solution mark; every other reply is unchanged |
| ForumPage.ToggleSolutionTwice | components/forum-page.tsx:179 | marking twice gives the replies back |
| ForumPage.FindReply | components/forum-page.tsx:176 | `find`: the first reply with that id, and none exactly when no reply has it |
| ForumPage.SolutionPoints | components/forum-page.tsx:183-197 | marking adds 5 to the author's points (missing counts as 0); unmarking takes 5 away but never goes below 0 |
| ForumPage.SolutionPointsRoundTrip | components/forum-page.tsx:183-197 | marking then unmarking gives non-negative points back |
| ForumPage.NewReply | components/forum-page.tsx:140-158 | a new reply carries the user as author, its id from the first reading of the clock and its time stamp from the second, no likes, no mark, and the stored profile's points (0 when no profile is stored) |
| ForumPage.DisplayPosts | components/forum-page.tsx:202-203 | search results win; otherwise "all" shows every post, and a category shows a subset |
| ForumPage.DisplayMembership | components/forum-page.tsx:202-203 | without search results a post is shown exactly when it is in the forum and "all" is selected or its category is the selected one |
| ForumPage.Forum.constructor | components/forum-page.tsx:57-72 | the forum shows the samples and then the stored posts, and the stored replies |
| ForumPage.Forum.Reload | components/forum-page.tsx:75-88 | on a user update, posts and replies are reloaded from storage when stored and kept otherwise |
| ForumPage.Forum.CreatePost | components/forum-page.tsx:97-111 | the new post goes first, and storage holds exactly the non-sample posts |
| ForumPage.Forum.DeletePost | components/forum-page.tsx:113-123 | the post and its replies are removed from the page and from storage |
| ForumPage.Forum.SupportPost | components/forum-page.tsx:125-138 | signed out, a login is asked and nothing changes; otherwise the post gains a support, which is stored |
| ForumPage.Forum.AddReply | components/forum-page.tsx:140-163 | without a signed-in user nothing changes; otherwise the new reply is appended and stored |
| ForumPage.Forum.LikeReply | components/forum-page.tsx:165-173 | the like is toggled and the replies are stored |
| ForumPage.Forum.MarkSolution | components/forum-page.tsx:175-198 | a missing reply or one without an author id changes nothing; otherwise the mark is toggled and stored, and the author's stored profile gains or loses 5 points |
| ProfilePage.DefaultProfile | components/profile-page.tsx:63-77 | the default profile: the user's id, name and join date, the first word of the name as nickname, age 25, "İstanbul", zero counts and points |
| ProfilePage.LoadProfile | components/profile-page.tsx:57-80 | a stored profile is used as it is; otherwise the default is shown and stored |
| ProfilePage.LoadProfileIdempotent | components/profile-page.tsx:57-80 | loading a second time changes nothing more |
| ProfilePage.UserItemsMembership | components/profile-page.tsx:82-94 | the page lists exactly the stored posts and replies whose author id is the user's |
| ProfilePage.TotalLikes | components/profile-page.tsx:268 | the `reduce` sum of the replies' likes; see TotalLikesOfUser and TotalLikesNonNegative |
| ProfilePage.TotalLikesOfUser | components/profile-page.tsx:268 | the likes received are the sum of the likes of the user's replies |
| ProfilePage.TotalLikesNonNegative | components/profile-page.tsx:268 | with non-negative like counts the total is non-negative |
| ProfilePage.SolutionsBy | components/profile-page.tsx:260 | the number of the user's replies marked as solutions; see SolutionCountOfUser |
| ProfilePage.SolutionCountOfUser | components/profile-page.tsx:260 | the solution count is the number of the user's replies marked as solutions, at most the number of the user's replies |
| ProfilePage.OwnReplyCount | components/profile-page.tsx:316 | the reply count shown under a post is at most the number of the user's replies |
| ProfilePage.OwnReplyCountOfUser | components/profile-page.tsx:316 | that count is the number of the user's own replies to the post |
| ProfilePage.PageTimeAgo | components/profile-page.tsx:106-119 | the profile page's label is the reply label: "Az önce" exactly under an hour |
| ProfileSettings.DefaultProfile | components/profile-settings.tsx:54-69 | the settings dialog's default: the user's id, name and join date, the first word of the name, age 25, NSFW off, no interests, Heroica points 0 |
| ProfileSettings.WithInterest | components/profile-settings.tsx:147-155 | a non-blank, new, trimmed interest is appended; the list is otherwise unchanged and stays free of duplicates |
| ProfileSettings.Without | components/profile-settings.tsx:157-164 | removing an interest never lengthens the list |
| ProfileSettings.WithoutMembership | components/profile-settings.tsx:161 | after removal exactly the other interests remain |
| ProfileSettings.WithoutNoDup | components/profile-settings.tsx:161 | removal keeps a duplicate-free list duplicate-free |
| ProfileSettings.WithoutAbsent | components/profile-settings.tsx:161 | removing an absent interest changes nothing |
| ProfileSettings.AddThenRemove | components/profile-settings.tsx:147-164 | adding a new interest and removing it again gives the list back |
| ProfileSettings.WithoutAppend | components/profile-settings.tsx:161 | removal keeps order: it distributes over concatenation |
| ProfileSettings.AgeOf | components/profile-settings.tsx:169-170 | the field is accepted exactly when it is all digits, and empty reads as 0 |
| ProfileSettings.WithAge | components/profile-settings.tsx:166-186 | a digit-only age up to 120 is set, under 18 turns NSFW off, anything else changes nothing; no other field changes; a profile whose NSFW respects the age still does |
| ProfileSettings.RenamePosts | components/profile-settings.tsx:92-99 | exactly the user's posts take the new author name; all else is unchanged |
| ProfileSettings.RenameReplies | components/profile-settings.tsx:102-109 | exactly the user's replies take the new author name; all else is unchanged |
| ProfileSettings.RenameIdempotent | components/profile-settings.tsx:92-109 | renaming twice is renaming once |
| ProfileSettings.SavedStore | components/profile-settings.tsx:84-109 | saving stores the profile, then renames exactly the user's stored posts, then their replies; an absent list stays absent, a malformed post list stops the writes before both renames, a malformed reply list stops them after the posts, and the stored user is untouched |
| ProfileSettings.Editor.constructor | components/profile-settings.tsx:43-46 | no profile, an empty interest field, no warning, not loading |
| ProfileSettings.Editor.Load | components/profile-settings.tsx:48-73 | when open with a user, the stored profile or the default is shown; otherwise nothing changes |
| ProfileSettings.Editor.AddInterest | components/profile-settings.tsx:147-155 | the profile's interests become `WithInterest`, and the field is cleared exactly when an interest was added |
| ProfileSettings.Editor.RemoveInterest | components/profile-settings.tsx:157-164 | the profile's interests become `Without` the given one |
| ProfileSettings.Editor.AgeChange | components/profile-settings.tsx:166-186 | the profile becomes `WithAge` of the typed value |
| ProfileSettings.Editor.NsfwToggle | components/profile-settings.tsx:188-206 | under 18 nothing changes; turning on only opens the warning; turning off takes effect at once |
| ProfileSettings.Editor.ConfirmNsfwEnable | components/profile-settings.tsx:208-216 | NSFW is turned on, without rechecking the age, and the warning closes |
| ProfileSettings.Editor.StartSave | components/profile-settings.tsx:75-78 | without a profile or a user nothing happens; otherwise loading starts with the user and the profile captured at the click |
| ProfileSettings.Editor.FinishSave | components/profile-settings.tsx:80-117 | the store becomes `SavedStore` of the captured user and profile; `updateUser` receives the renamed user, so the context holds `AfterUpdate` of the stored user; the parent is asked to close the dialog exactly when no stored list is malformed; loading ends either way |
| SettingsModal.CheckPassword | components/settings-modal.tsx:53-67 | the first failing check in order (missing field, mismatch, under 6 UTF-16 code units) decides, each exactly in its case |
| SettingsModal.EmojiPasswordAccepted | components/settings-modal.tsx:64 | a password of three emoji is six code units long and is accepted |
| SettingsModal.AccountRemoved | components/settings-modal.tsx:95-104 | the stored user and the user's profile are removed, then exactly the user's posts, then their replies are dropped (an absent list reads as empty); a malformed list stops the writes at that list |
| SettingsModal.AccountRemovedMembership | components/settings-modal.tsx:98-104 | when no stored list is malformed, a post or reply survives exactly when it is stored and not the user's |
| SettingsModal.Dialog.constructor | components/settings-modal.tsx:22-29 | every field empty, not loading, no warning |
| SettingsModal.Dialog.Open | components/settings-modal.tsx:31-35 | opening with a user copies the user's e-mail into the field |
| SettingsModal.Dialog.StartSaveEmail | components/settings-modal.tsx:37-40 | the save starts exactly when a user is signed in, capturing the user and the field's e-mail |
| SettingsModal.Dialog.FinishSaveEmail | components/settings-modal.tsx:41-50 | the stored user gets the e-mail the field held at the click, whatever the field holds now, and loading ends |
| SettingsModal.Dialog.StartChangePassword | components/settings-modal.tsx:53-69 | the change starts exactly when `CheckPassword` accepts |
| SettingsModal.Dialog.FinishChangePassword | components/settings-modal.tsx:70-80 | the three password fields are cleared and loading ends |
| SettingsModal.Dialog.StartDeleteAccount | components/settings-modal.tsx:83-91 | the deletion starts exactly when a user is signed in and the confirmation equals the user's e-mail |
| SettingsModal.Dialog.FinishDeleteAccount | components/settings-modal.tsx:92-113 | the store becomes `AccountRemoved`; when no stored list is malformed the auth context is signed out (no user, nothing stored) and the parent is asked to close the dialog, otherwise the context is untouched and the dialog stays open; loading ends either way |
| SettingsModal.Dialog.Close | components/settings-modal.tsx:116-125 | ignored while loading; otherwise the warning, confirmation and password fields are reset |
| Leaderboard.RowOf | components/leaderboard.tsx:29-36 | a row keeps the id, name and photo, uses the nickname or the name's first word, and counts missing points as 0 |
| Leaderboard.CandidatesAppend | components/leaderboard.tsx:24-42 | the scan of storage keys works key by key, in order |
| Leaderboard.Candidates | components/leaderboard.tsx:24-42 | the rows the key scan collects, in key order; see CandidatesAppend and CandidatesMembership |
| Leaderboard.CandidatesMembership | components/leaderboard.tsx:24-42 | a row is a candidate exactly when some profile key holds a profile with a truthy id and name that gives that row |
| Leaderboard.Insert | components/leaderboard.tsx:44 | inserting into a descending list keeps it descending and adds exactly the one row |
| Leaderboard.SortByPoints | components/leaderboard.tsx:44 | the sort is a descending permutation of the rows |
| Leaderboard.InsertStable | components/leaderboard.tsx:44 | insertion keeps the relative order of rows with equal points |
| Leaderboard.SortStable | components/leaderboard.tsx:44 | the sort is stable: rows with equal points keep their storage order |
| Leaderboard.Top | components/leaderboard.tsx:45 | `slice(0, 10)`: the first ten rows, or all when fewer |
| Leaderboard.LoadLeaderboard | components/leaderboard.tsx:21-46 | the table is the top ten of the sorted candidates |
| Leaderboard.TableIsTopTen | components/leaderboard.tsx:44-45 | the table is descending, has at most ten rows, and no row left out has more points than a row shown |
| Leaderboard.TableWhenFew | components/leaderboard.tsx:44-45 | with at most ten candidates every candidate is shown |
| Leaderboard.RankIconOf | components/leaderboard.tsx:51-62 | crown, trophy and medal for ranks 1 to 3, the award icon exactly for every other rank |
| Leaderboard.RankBackground | components/leaderboard.tsx:64-75 | ranks 1 to 3 get their own backgrounds, every other rank the default |
| Leaderboard.PodiumDistinct | components/leaderboard.tsx:51-75 | the three podium ranks differ in icon and background |
| CreatePostModal.SubmitCheck | components/create-post-modal.tsx:47-65 | the guard and moderation chain of `handleSubmit`; see SubmitCheckOrder and StartedDraftAllowed |
| CreatePostModal.SubmitCheckOrder | components/create-post-modal.tsx:47-65 | a blank title, no category or blank content is ignored; then the title's and then the content's moderation reason is shown; the post starts exactly when both pass |
| CreatePostModal.MediaOf | components/create-post-modal.tsx:77 | `media \|\| undefined`: no media exactly for the empty name |
| CreatePostModal.DraftOf | components/create-post-modal.tsx:73-80 | the draft keeps the category, media and NSFW flag |
| CreatePostModal.StartedDraftAllowed | components/create-post-modal.tsx:47-80 | a started post carries a non-empty trimmed title and content, both of which still pass moderation |
| CreatePostModal.PostForm.constructor | components/create-post-modal.tsx:25-33 | the form starts empty, not submitting, with no error and no profile, and moderates with the shipped word lists |
| CreatePostModal.PostForm.LoadProfile | components/create-post-modal.tsx:37-45 | when open with a user and a stored profile, that profile is loaded; otherwise nothing changes |
| CreatePostModal.PostForm.SetNsfw | components/create-post-modal.tsx:113-194 | the NSFW switch moves only for a profile aged 18 or more with NSFW enabled |
| CreatePostModal.PostForm.StartSubmit | components/create-post-modal.tsx:47-68 | the result is `SubmitCheck`; a refusal shows its reason; a start clears the error and captures the draft |
| CreatePostModal.PostForm.FinishSubmit | components/create-post-modal.tsx:73-89 | the captured draft is handed over, the form is reset, and the parent is asked to close the dialog |
| CreatePostModal.PostForm.Close | components/create-post-modal.tsx:92-102 | ignored while submitting; otherwise the form and the error are reset |
| MediaPreview.KindOf | components/media-preview.tsx:19-21 | image, video and audio exactly by the case-insensitive extension lists |
| MediaPreview.KindIgnoresCase | components/media-preview.tsx:19-21 | names that differ only in letter case have the same kind |
| MediaPreview.OggIsVideoAndAudio | components/media-preview.tsx:20-21 | an ".ogg" file is both video and audio, so it is shown twice and never as a plain file |
| MediaPreview.ImageUrl | components/media-preview.tsx:46-57 | data and blob URLs pass through; anything else becomes a placeholder URL carrying the encoded name |
| MediaPreview.Viewer.constructor | components/media-preview.tsx:15-17 | an NSFW medium starts blurred; the viewer and the warning start closed |
| MediaPreview.Viewer.Click | components/media-preview.tsx:23-29 | a blurred medium opens the warning; otherwise the viewer opens |
| MediaPreview.Viewer.PlayAudio | components/media-preview.tsx:156 | the audio button opens the viewer, even while blurred |
| MediaPreview.Viewer.ConfirmView | components/media-preview.tsx:31-35 | confirming unblurs, closes the warning and opens the viewer |
| MediaPreview.Viewer.CancelWarning | components/media-preview.tsx:247 | cancelling closes the warning and changes nothing else |
| MediaPreview.Viewer.ToggleBlur | components/media-preview.tsx:37-43 | an unblurred NSFW medium is blurred again; a blurred one opens the warning; a safe one is untouched |
| MediaPreview.Viewer.CloseViewer | components/media-preview.tsx:188 | the viewer closes |
| AiChatPage.AnyOccursIff | components/ai-chat-page.tsx:66 | `some(k => text.includes(k))` holds exactly when some keyword occurs |
| AiChatPage.HasCrisisKeyword | components/ai-chat-page.tsx:55-67 | `checkForCrisisKeywords` as written, with `toLowerCase`; see CrisisKeywordIff and DottedCapitalMissed |
| AiChatPage.CrisisKeywordIff | components/ai-chat-page.tsx:55-67 | the check as written flags a text exactly when its lower case contains one of the eight phrases |
| AiChatPage.KeywordsLower | components/ai-chat-page.tsx:56-66 | the phrases are written in lower case, so `toLowerCase` leaves them as they are |
| AiChatPage.PhraseInTextFlagged | components/ai-chat-page.tsx:55-67 | any text that contains one of the phrases verbatim is flagged |
| AiChatPage.DottedCapitalMissed | components/ai-chat-page.tsx:55-67 | the check as written flags "intihar" but not "İntihar" |
| AiChatPage.CrisisFoldChar | components/ai-chat-page.tsx:66 | the corrected folding maps every character other than İ as `toLowerCase` does, one character for one |
| AiChatPage.CrisisFold | components/ai-chat-page.tsx:66 | the corrected folding keeps the length |
| AiChatPage.HasCrisisKeywordFolded | components/ai-chat-page.tsx:55-67 | the corrected check, which folds a capital İ to "i"; see CrisisFoldedFlagsMore and FoldedFlagsDottedCapital |
| AiChatPage.CrisisFoldedFlagsMore | components/ai-chat-page.tsx:55-67 | the corrected check flags every text the check as written flags |
| AiChatPage.FoldedFlagsDottedCapital | components/ai-chat-page.tsx:55-67 | the corrected check flags "İntihar" |
| AiChatPage.Welcome | components/ai-chat-page.tsx:40-47 | the welcome message is the assistant's greeting, stamped now |
| AiChatPage.Apology | components/ai-chat-page.tsx:159-164 | the error message is the assistant's apology, stamped now |
| AiChatPage.Payload | components/ai-chat-page.tsx:98-103 | the request's message list; see PayloadOrder |
| AiChatPage.PayloadOrder | components/ai-chat-page.tsx:98-103 | the request carries each message's role and content, in order, one entry per message |
| AiChatPage.DeltaText | components/ai-chat-page.tsx:127-128 | a frame adds its text delta, or "undefined" when the frame has none |
| AiChatPage.LineDelta | components/ai-chat-page.tsx:124-128 | only a line starting with "0:" can add text |
| AiChatPage.UnframedLinesSkipped | components/ai-chat-page.tsx:123-124 | lines without the "0:" prefix add nothing |
| AiChatPage.LineText | components/ai-chat-page.tsx:124-141 | the text one line adds; see LineDelta and UnframedLinesSkipped |
| AiChatPage.LinesText | components/ai-chat-page.tsx:121-145 | the text the lines of one chunk add, in order; see LinesTextAppend |
| AiChatPage.StreamText | components/ai-chat-page.tsx:116-145 | the answer the chunks give, each split on its own; see StreamTextAppend, SplitFrameLost and ReadStream |
| AiChatPage.LinesTextAppend | components/ai-chat-page.tsx:121-145 | the text of a list of lines is the text of its parts, in order |
| AiChatPage.StreamTextAppend | components/ai-chat-page.tsx:116-145 | the answer of a list of chunks is the answers of its parts, in order |
| AiChatPage.SplitFrameLost | components/ai-chat-page.tsx:120-143 | a frame cut between two chunks adds nothing, although the whole frame would |
| AiChatPage.ChatPage.constructor | components/ai-chat-page.tsx:35-49 | the stored history, or the welcome message when none is stored |
| AiChatPage.ChatPage.Suggest | components/ai-chat-page.tsx:69-71 | a suggestion becomes the input; nothing else changes |
| AiChatPage.ChatPage.StartSubmit | components/ai-chat-page.tsx:73-90 | ignored for blank input or while loading; otherwise the trimmed input is added as the user's message, the input is cleared, loading starts, a crisis phrase, found with the corrected folding, shows the resources, and the request carries every message |
| AiChatPage.ChatPage.Send | components/ai-chat-page.tsx:83-90 | the updated conversation is shown, the input cleared, loading started, and the resources shown on a crisis |
| AiChatPage.ChatPage.Receive | components/ai-chat-page.tsx:92-171 | the conversation ends with the streamed answer, or the apology when the request broke (which also shows the resources); it is stored and loading ends |
| AiChatPage.ChatPage.ReadStream | components/ai-chat-page.tsx:116-145 | the answer is the text of all chunks, and the shown conversation is either unchanged with no text or the sent one plus the answer |
| AiChatPage.ChatPage.ReadLines | components/ai-chat-page.tsx:121-144 | one chunk's lines extend the answer by their text; the shown conversation is either unchanged, with the answer unchanged, or the sent one plus the answer |
| AiChatPage.ChatPage.ClearChat | components/ai-chat-page.tsx:174-184 | only the welcome message remains, the history is removed and the resources are hidden |
| AppPage.RenderContent | app/page.tsx:93-111 | the chat, forum and profile are shown exactly to a signed-in user on their section, the about page always on its own, and the welcome section otherwise |
| AppPage.VisitorSeesOnlyPublic | app/page.tsx:93-111 | a signed-out visitor only ever sees the welcome or about page |
| AppPage.VisitorSearchShowsWelcome | app/page.tsx:82-111 | search results reach the forum only when signed in |
| AppPage.App.constructor | app/page.tsx:30-38 | the home section, a closed login dialog, no search results, light mode |
| AppPage.App.LoadDarkMode | app/page.tsx:42-53 | a stored preference sets the mode; otherwise it is kept |
| AppPage.App.DarkModeToggle | app/page.tsx:55-63 | the mode, its stored value and the page's dark class all take the new value |
| AppPage.App.AuthAction | app/page.tsx:65-67 | the login or register dialog opens on the chosen tab |
| AppPage.App.SectionChange | app/page.tsx:69-76 | a protected section asks a visitor to log in; otherwise the section changes and the search is cleared |
| AppPage.App.AuthRequired | app/page.tsx:78-80 | the login dialog opens |
| AppPage.App.SearchResults | app/page.tsx:82-87 | the results are kept and the forum is shown |
| AppPage.App.ClearSearch | app/page.tsx:89-91 | the results are cleared and the section is kept |
| AppPage.App.CloseAuthModal | app/page.tsx:129 | the dialog closes and keeps its tab |
| AppPage.App.SetSettingsOpen | app/page.tsx:120-137 | the settings dialog opens or closes |
| AppPage.App.SetProfileSettingsOpen | app/page.tsx:104-133 | the profile settings dialog opens or closes |
| UseAuth.ContextOf | hooks/use-auth.tsx:126-137 | the context carries the user and is authenticated exactly when there is one |
| UseAuth.UseAuth | hooks/use-auth.tsx:24-30 | outside a provider the hook throws its message; inside it returns the context |
| UseAuth.NameFromEmail | hooks/use-auth.tsx:86 | the name is the part of the e-mail before the first "@" |
| UseAuth.LoginNameIsLocalPart | hooks/use-auth.tsx:86 | the name of "local@domain" is "local" |
| UseAuth.NewUser | hooks/use-auth.tsx:84-89 | a new user has the given name and e-mail, takes its id from the first reading of the clock and its join date from the second |
| UseAuth.AfterUpdate | hooks/use-auth.tsx:59-64 | after `updateUser` the same-tab event reloads the stored user, which wins over the update whenever one is stored |
| UseAuth.UpdateLost | hooks/use-auth.tsx:118-123 | a renamed user is reverted to the stored name |
| UseAuth.Provider.constructor | hooks/use-auth.tsx:38 | no user before mounting |
| UseAuth.Provider.Context | hooks/use-auth.tsx:126-137 | authenticated exactly when a user is set |
| UseAuth.Provider.Mount | hooks/use-auth.tsx:40-46 | a stored user is restored on mount |
| UseAuth.Provider.StorageEvent | hooks/use-auth.tsx:49-53 | after another tab's write, this tab's user entry reads as that tab left it (removed when the key is cleared); only a new value of the user key replaces the user |
| UseAuth.OtherTabLogoutThenUpdate | hooks/use-auth.tsx:49-64 | once another tab has signed out, an update in this tab is kept, because the update events find nothing stored |
| UseAuth.Provider.UserUpdatedEvent | hooks/use-auth.tsx:59-64 | the same-tab event reloads the stored user when one is stored |
| UseAuth.Provider.Login | hooks/use-auth.tsx:79-94 | any credentials sign in a new user named after the e-mail's local part, who is stored |
| UseAuth.Provider.Register | hooks/use-auth.tsx:96-110 | a new user with the given name is signed in and stored |
| UseAuth.Provider.Logout | hooks/use-auth.tsx:112-115 | the user is cleared in the context and in storage |
| UseAuth.Provider.UpdateUser | hooks/use-auth.tsx:118-123 | as written: the user ends as `AfterUpdate` of the stored user, and storage is untouched |
| UseAuth.Provider.UpdateUserStored | hooks/use-auth.tsx:118-123 | corrected: the updated user is set and stored, so the events keep it |
| SearchBar.Search | components/search-bar.tsx:20-51 | a blank query clears the search; otherwise there are no results when nothing is stored, and never more results than stored posts |
| SearchBar.SearchSaved | components/search-bar.tsx:33-42 | a non-blank query filters the stored list |
| SearchBar.MatchesQuery | components/search-bar.tsx:37-42 | the search test on the lower-cased title, content and category; see SearchResults and PaddedQueryNeedsSpace |
| SearchBar.SearchResults | components/search-bar.tsx:37-42 | the results are exactly the stored posts whose lower-cased title, content or category contains the lower-cased query, each as often as stored |
| SearchBar.SearchKeepsOrder | components/search-bar.tsx:37-42 | the results keep the stored order |
| SearchBar.PaddedQueryNeedsSpace | components/search-bar.tsx:39-41 | the query is not trimmed: a query starting with a space only finds posts with a space in a searched field |
| ReportModal.ReportOf | components/report-modal.tsx:50-57 | the report carries the post, the type and the description of the request (trimmed when the submission started), the fixed reporter id and the time |
| ReportModal.Appended | components/report-modal.tsx:60-62 | the report is appended to the stored list (none stored reads as empty); nothing is written when the list cannot be read |
| ReportModal.AppendedKeepsEarlier | components/report-modal.tsx:60-62 | earlier reports keep their places and exactly one report is added |
| ReportModal.ReportForm.constructor | components/report-modal.tsx:21-23 | an empty form, not submitting |
| ReportModal.ReportForm.StartSubmit | components/report-modal.tsx:36-43 | the submission starts exactly with a type and a non-blank description, capturing the trimmed description |
| ReportModal.ReportForm.FinishSubmit | components/report-modal.tsx:45-76 | the report is appended and the form reset, and the parent is asked to close the dialog exactly then; when storage cannot be read the form is kept and stays open; submitting ends either way |
| ReportModal.ReportForm.Close | components/report-modal.tsx:79-86 | ignored while submitting; otherwise the form is reset |

## Left out

- The chat API route (app/api/chat/route.ts) and the stream's wire format: frames are parsed by the parameter `parse`, and only the text-delta frames are modelled.
- The other chat clients (components/ai-chat.tsx, app/test-chat/page.tsx) and components/reply-system.tsx are not part of this model.
- Presentational components are not part of this model: header, navigation bar, welcome, about, badges, progress bars, emergency resources and the authentication dialog. Their inputs are modelled where the core passes them.
- The temporal dead zone of `organizeReplies` (see "## Findings"): the model takes the function as defined.
- `toLowerCase` is modelled for ASCII, Latin-1, Ğ, Ş and İ. Other scripts and special casings are not, and no Unicode normalisation is modelled.
- ContentModeration.ReplaceAllFolded: the banned word is matched as literal text, where the source compiles it as a regular expression. No listed word holds a metacharacter, so the two agree on the shipped list.
- Floating point: progress is a real number. `Math.min` and the division by a level's width are exact, and no rounding is modelled.
- `TextDecoder` decoding of bytes is not modelled: each chunk is its decoded string. A delta that is not a string is modelled only as the absent case ("undefined").
- AiChatPage.ChatPage.ReadLines: the shown conversation is set once per chunk, after its lines, rather than after each line. Every streamed message carries the same `now`, where the source reads the clock again for each.
- PostCard.CategoryColor: keys inherited from `Object.prototype` (such as "constructor") are not in the modelled colour table.
- JSON parsing and serialising are modelled as passing the records through. Malformed stored JSON is modelled where a handler catches it: the report list, the search, the leaderboard's profiles, and the post and reply lists that the profile save and the account deletion rewrite. Elsewhere stored JSON is taken to be well formed.
- Leaderboard.SortByPoints: the engine's sort is modelled as a stable insertion sort. Since `Array.prototype.sort` is stable, its result is the same.
- AppPage.App.constructor: the page's "dark" class is taken as absent before the preference loads.
- The search bar's own `isSearching` flag, its input field and its clear button are not modelled. Only the search that feeds the page is.
- SettingsModal.Dialog.FinishSaveEmail: the new e-mail is stored but the context is not updated, as in the source. Alerts are not modelled.
- ProfileSettings: photo and banner uploads through `FileReader` are not modelled.
- Asynchronous waits are modelled as a start method and a finish method. Interleavings other than one finish per start are not modelled.
- ReplyTree.ReplyComposer.Send: the transient `isSubmitting` during the wait is not observable in the model, because the send finishes in one step.
- ReplyTree.OrganizeReplies: React's re-renders and the local copy of the replies are not modelled.
- The sample posts' time stamps are taken from one load time.
- AiChatPage.ChatPage.StartSubmit uses the corrected crisis check (`HasCrisisKeywordFolded`); the check as written is `HasCrisisKeyword`, compared with it under "## Findings".
- AiChatPage.CrisisFoldChar: its contract leaves the image of İ to the body (a plain "i"); `FoldedFlagsDottedCapital` states the consequence.

## Findings

| source | as written | input that shows it | evidently intended | confidence | as-written member | corrected member |
|---|---|---|---|---|---|---|
| hooks/use-auth.tsx:118-123 | `updateUser` sets the user and then fires "userUpdated". The provider's own handler (lines 59-64) reloads "comfortillo-user" from storage, which `handleSave` (components/profile-settings.tsx:85-89) never rewrote, so the stored user replaces the update | a signed-in user "a" renames themself to "b" in the profile settings; the context ends with name "a" | the updated user is kept: it is written to storage before the event, or the handler is not triggered by the update | not executed | UseAuth.UpdateLost | UseAuth.Provider.UpdateUserStored |
| components/ai-chat-page.tsx:55-67 | the crisis check lower-cases with `toLowerCase`, which maps the Turkish capital İ to "i" plus a combining dot, so the phrases no longer match | "İntihar" at the start of a sentence is not flagged; "intihar" is | a capital İ counts as "i", so the emergency resources are shown | not executed | AiChatPage.DottedCapitalMissed | AiChatPage.CrisisFoldedFlagsMore |

The reply thread as written cannot render. components/nested-reply-system.tsx:201 calls `organizeReplies` while the component body runs, but the `const` that defines it is only reached at line 260, so every render throws a ReferenceError. Moving the definition above line 201 (or out of the component) is evidently intended. The `ReplyTree` lemmas are about that intended component; the dead zone itself is not modelled.

Other behaviour the model records as the source has it:

- An empty `parentReplyId` counts as no parent.
- Marking a solution ignores a reply without an author id.
- Confirming NSFW does not recheck the age.
- The audio play button opens the viewer while the medium is blurred.
- A new reply's points are absent when the stored profile has none.
- The forum replaces the author id of a created post with the signed-in user's.
- No category the post form offers is a key of the card's colour table, so every such post is shown in gray.
