/**
 * The "share your feelings" dialog: the form, the checks a submission goes
 * through (filled fields, title moderation, content moderation), the NSFW
 * switch that only adults who enabled it may use, and closing.  The
 * submission waits before it hands the post over; the model splits it into
 * the checks that start it and the step that finishes it.
 */
module CreatePostModal {
  import opened Wrappers
  import opened Text
  import opened Records
  import opened ContentModeration

  /** The error shown when a rejected title carries no reason. */
  const TITLE_FALLBACK := "Ba\U{15F}l\U{131}k uygun de\U{11F}il"
  /** The error shown when rejected content carries no reason. */
  const CONTENT_FALLBACK := "\U{130}\U{E7}erik uygun de\U{11F}il"

  /** The categories offered by the form. */
  const CATEGORIES := ["Yaln\U{131}zl\U{131}k", "Stres", "Aile", "\U{130}li\U{15F}kiler", "Kayg\U{131}", "Depresyon", "Di\U{11F}er"]

  /** The youngest age allowed to mark a post as NSFW. */
  const ADULT_AGE := 18

  /** How a submission attempt ends before the wait. */
  datatype SubmitStep = Ignored | Refused(error: string) | Started

  /**
   * The checks of `handleSubmit`, in order: a blank title, no category or
   * blank content ignore the attempt; then a rejected title, then rejected
   * content, shows the rejection's reason.
   */
  function SubmitCheck(banned: seq<string>, harmful: seq<string>, title: string, category: string, content: string): SubmitStep
  {
    if Trim(title) == [] || category == [] || Trim(content) == [] then Ignored
    else
      var t := ModerateTitle(banned, title);
      if !t.isAllowed then Refused(t.reason.GetOr(TITLE_FALLBACK))
      else
        var c := ModerateContent(banned, harmful, content);
        if !c.isAllowed then Refused(c.reason.GetOr(CONTENT_FALLBACK))
        else Started
  }

  /**
   * The order of the checks: the form's own guard, then the title, then the
   * content; a refusal always shows the moderation's reason, never the
   * fallback text.
   */
  lemma SubmitCheckOrder(banned: seq<string>, harmful: seq<string>, title: string, category: string, content: string)
    ensures var r := SubmitCheck(banned, harmful, title, category, content);
      && (r.Ignored? <==> Blank(title) || category == [] || Blank(content))
      && (r.Started? <==> !r.Ignored? && ModerateTitle(banned, title).isAllowed && ModerateContent(banned, harmful, content).isAllowed)
      && (r.Refused? && !ModerateTitle(banned, title).isAllowed ==> r.error == ModerateTitle(banned, title).reason.value)
      && (r.Refused? && ModerateTitle(banned, title).isAllowed ==> r.error == ModerateContent(banned, harmful, content).reason.value)
  {
    TrimEmptyIffBlank(title);
    TrimEmptyIffBlank(content);
  }

  /** `media || undefined`: the media field is handed over only when it is not empty. */
  function MediaOf(media: string): (r: Option<string>)
    ensures r.None? <==> media == []
    ensures r.Some? ==> r.value == media
  {
    if media == [] then None else Some(media)
  }

  /** The post a submission hands over: title and content trimmed, media only when there is some. */
  function DraftOf(title: string, category: string, content: string, media: string, isNsfw: bool): (d: Draft)
    ensures d.category == category && d.media == MediaOf(media) && d.isNsfw == Some(isNsfw)
  {
    Draft(Trim(title), category, Trim(content), MediaOf(media), Some(isNsfw))
  }

  /**
   * A submission that starts hands over the trimmed title and content, and
   * they pass moderation themselves.
   */
  lemma StartedDraftAllowed(banned: seq<string>, harmful: seq<string>, title: string, category: string, content: string, media: string, isNsfw: bool)
    requires SubmitCheck(banned, harmful, title, category, content).Started?
    ensures DraftOf(title, category, content, media, isNsfw).title == Trim(title) != []
    ensures DraftOf(title, category, content, media, isNsfw).content == Trim(content) != []
    ensures ModerateTitle(banned, DraftOf(title, category, content, media, isNsfw).title).isAllowed
    ensures ModerateContent(banned, harmful, DraftOf(title, category, content, media, isNsfw).content).isAllowed
  {
    SubmitCheckOrder(banned, harmful, title, category, content);
    TrimEmptyIffBlank(title);
    TrimEmptyIffBlank(content);
    TrimmedStillAllowed(banned, harmful, title, content);
  }

  /** `canUseNsfw`: a loaded profile of an adult who enabled NSFW content. */
  predicate CanUseNsfw(profile: Option<Profile>) {
    profile.Some? && profile.value.age >= ADULT_AGE && profile.value.nsfwEnabled
  }

  /** The state of `CreatePostModal`. */
  class PostForm {
    /** The word lists `moderateTitle` and `moderateContent` use. */
    const banned: seq<string>
    const harmful: seq<string>
    var title: string
    var category: string
    var content: string
    var media: string
    var isNsfw: bool
    var isSubmitting: bool
    var moderationError: string
    var userProfile: Option<Profile>
    /** The post captured when a submission started, handed over when it finishes. */
    var pending: Option<Draft>

    constructor ()
      ensures banned == BANNED_WORDS && harmful == HARMFUL_PHRASES
      ensures title == "" && category == "" && content == "" && media == "" && !isNsfw
      ensures !isSubmitting && moderationError == "" && userProfile == None && pending == None
    {
      banned := BANNED_WORDS;
      harmful := HARMFUL_PHRASES;
      title := "";
      category := "";
      content := "";
      media := "";
      isNsfw := false;
      isSubmitting := false;
      moderationError := "";
      userProfile := None;
      pending := None;
    }

    /** `isSubmitting` is on exactly while a submission waits. */
    predicate Valid()
      reads this
    {
      isSubmitting <==> pending.Some?
    }

    /** Opening the dialog for a user loads the stored profile when there is one. */
    method LoadProfile(user: Option<User>, isOpen: bool, saved: Option<Profile>)
      modifies this
      ensures userProfile == if user.Some? && isOpen && saved.Some? then saved else old(userProfile)
      ensures title == old(title) && category == old(category) && content == old(content) && media == old(media)
      ensures isNsfw == old(isNsfw) && isSubmitting == old(isSubmitting) && moderationError == old(moderationError)
      ensures pending == old(pending)
    {
      if user.Some? && isOpen && saved.Some? {
        userProfile := saved;
      }
    }

    /** The NSFW switch: disabled, so without effect, unless the user may use it. */
    method SetNsfw(on: bool)
      modifies this
      ensures isNsfw == if CanUseNsfw(userProfile) then on else old(isNsfw)
      ensures userProfile == old(userProfile) && title == old(title) && category == old(category)
      ensures content == old(content) && media == old(media)
      ensures isSubmitting == old(isSubmitting) && moderationError == old(moderationError) && pending == old(pending)
    {
      if CanUseNsfw(userProfile) {
        isNsfw := on;
      }
    }

    /**
     * `handleSubmit` up to its wait; the submit button is disabled while
     * submitting.  The handler works on the values the form held when it
     * was called, so a started submission captures its post here.
     */
    method StartSubmit() returns (step: SubmitStep)
      requires Valid() && !isSubmitting
      modifies this
      ensures Valid()
      ensures step == SubmitCheck(banned, harmful, title, category, content)
      ensures step.Ignored? ==> moderationError == old(moderationError) && pending == None
      ensures step.Refused? ==> moderationError == step.error && pending == None
      ensures step.Started? ==> moderationError == "" && pending == Some(DraftOf(title, category, content, media, isNsfw))
      ensures title == old(title) && category == old(category) && content == old(content) && media == old(media)
      ensures isNsfw == old(isNsfw) && userProfile == old(userProfile)
    {
      step := SubmitCheck(banned, harmful, title, category, content);
      if step.Refused? {
        moderationError := step.error;
      } else if step.Started? {
        Begin(DraftOf(title, category, content, media, isNsfw));
      }
    }

    /** A submission that passed the checks clears the error and waits with its post. */
    method Begin(draft: Draft)
      modifies this
      ensures moderationError == "" && isSubmitting && pending == Some(draft)
      ensures title == old(title) && category == old(category) && content == old(content) && media == old(media)
      ensures isNsfw == old(isNsfw) && userProfile == old(userProfile)
    {
      moderationError := "";
      isSubmitting := true;
      pending := Some(draft);
    }

    /**
     * The end of `handleSubmit`: the captured post is handed over, every
     * field is reset, and the dialog asks its parent to close it.
     */
    method FinishSubmit() returns (draft: Draft, closed: bool)
      requires Valid() && isSubmitting
      modifies this
      ensures Valid()
      ensures draft == old(pending).value && closed
      ensures title == "" && category == "" && content == "" && media == "" && !isNsfw && !isSubmitting
      ensures moderationError == old(moderationError) && userProfile == old(userProfile)
    {
      draft := pending.value;
      ResetFields();
      isSubmitting := false;
      pending := None;
      closed := true;
    }

    /** Empties the form fields and turns the NSFW mark off. */
    method ResetFields()
      modifies this
      ensures title == "" && category == "" && content == "" && media == "" && !isNsfw
      ensures isSubmitting == old(isSubmitting) && moderationError == old(moderationError)
      ensures userProfile == old(userProfile) && pending == old(pending)
    {
      title := "";
      category := "";
      content := "";
      media := "";
      isNsfw := false;
    }

    /** `handleClose`: ignored while submitting; otherwise the form and the error are cleared. */
    method Close() returns (closed: bool)
      modifies this
      ensures closed <==> !old(isSubmitting)
      ensures closed ==> title == "" && category == "" && content == "" && media == "" && !isNsfw && moderationError == ""
      ensures !closed ==>
        && title == old(title) && category == old(category) && content == old(content)
        && media == old(media) && isNsfw == old(isNsfw) && moderationError == old(moderationError)
      ensures isSubmitting == old(isSubmitting) && userProfile == old(userProfile) && pending == old(pending)
    {
      if isSubmitting {
        return false;
      }
      ResetFields();
      moderationError := "";
      return true;
    }
  }
}
