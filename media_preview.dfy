/**
 * The media preview of a post: which kind of media a file name denotes,
 * the URL an image is shown from, and the flags that keep NSFW media
 * blurred behind a warning until the viewer confirms.
 */
module MediaPreview {
  import opened Text

  /** The image extensions, matched case-insensitively at the end of the name. */
  const IMAGE_EXTS := ["jpg", "jpeg", "png", "gif", "webp"]
  /** The video extensions. */
  const VIDEO_EXTS := ["mp4", "webm", "ogg"]
  /** The audio extensions; "ogg" is also a video extension. */
  const AUDIO_EXTS := ["mp3", "wav", "ogg"]

  /** The name ends with a dot and the extension, in any letter case (`/\.(ext)$/i`). */
  predicate EndsWithExt(name: string, ext: string) {
    FoldOccursAt(name, "." + ext, |name| - |ext| - 1)
  }

  /** The name ends with one of the extensions. */
  predicate EndsWithAny(name: string, exts: seq<string>) {
    exists j :: 0 <= j < |exts| && EndsWithExt(name, exts[j])
  }

  /** Which of the preview's sections a media name shows. */
  datatype Kind = Kind(isImage: bool, isVideo: bool, isAudio: bool) {
    /** The generic file box is shown when no other section is. */
    predicate IsFile() {
      !isImage && !isVideo && !isAudio
    }
  }

  /** `isImage`, `isVideo` and `isAudio` of a media name. */
  function KindOf(name: string): (k: Kind)
    ensures k.isImage <==> EndsWithAny(name, IMAGE_EXTS)
    ensures k.isVideo <==> EndsWithAny(name, VIDEO_EXTS)
    ensures k.isAudio <==> EndsWithAny(name, AUDIO_EXTS)
  {
    Kind(EndsWithAny(name, IMAGE_EXTS), EndsWithAny(name, VIDEO_EXTS), EndsWithAny(name, AUDIO_EXTS))
  }

  /** Folding a slice is slicing the folded string. */
  lemma FoldSlice(s: string, i: int, j: int)
    requires 0 <= i <= j <= |s|
    ensures Fold(s[i..j]) == Fold(s)[i..j]
  {
  }

  /** The kind depends only on the folded name: letter case never changes it. */
  lemma KindIgnoresCase(a: string, b: string)
    requires Fold(a) == Fold(b)
    ensures KindOf(a) == KindOf(b)
  {
    forall ext: string | true
      ensures EndsWithExt(a, ext) <==> EndsWithExt(b, ext)
    {
      var i := |a| - |ext| - 1;
      if 0 <= i {
        FoldSlice(a, i, |a|);
        FoldSlice(b, i, |b|);
        assert i + |"." + ext| == |a|;
      }
    }
  }

  /** A name ending in ".ogg", in any case, is both a video and an audio file. */
  lemma OggIsVideoAndAudio(name: string)
    requires EndsWithExt(name, "ogg")
    ensures KindOf(name).isVideo && KindOf(name).isAudio && !KindOf(name).IsFile()
  {
    assert VIDEO_EXTS[2] == "ogg" && AUDIO_EXTS[2] == "ogg";
  }

  /** The placeholder an image is shown from when its name is not a data or blob URL. */
  const PLACEHOLDER := "/placeholder.svg?height=200&width=300&text="

  /**
   * `getImageUrl`: data and blob URLs as they are, anything else as the
   * placeholder carrying the encoded name (`encodeURIComponent` is a
   * parameter).
   */
  function ImageUrl(mediaPath: string, encode: string -> string): (r: string)
    ensures StartsWith(mediaPath, "data:") || StartsWith(mediaPath, "blob:") ==> r == mediaPath
    ensures !StartsWith(mediaPath, "data:") && !StartsWith(mediaPath, "blob:") ==>
      StartsWith(r, PLACEHOLDER) && r[|PLACEHOLDER|..] == encode(mediaPath)
  {
    if StartsWith(mediaPath, "data:") then mediaPath
    else if StartsWith(mediaPath, "blob:") then mediaPath
    else
      var r := PLACEHOLDER + encode(mediaPath);
      assert r[..|PLACEHOLDER|] == PLACEHOLDER;
      r
  }

  /** The flags of one `MediaPreview`. */
  class Viewer {
    const isNsfw: bool
    var isOpen: bool
    var isBlurred: bool
    var showNsfwWarning: bool

    /** Only NSFW media is ever blurred. */
    predicate Valid()
      reads this
    {
      isBlurred ==> isNsfw
    }

    /** The preview starts closed, without warning, and blurred exactly for NSFW media. */
    constructor (isNsfw: bool)
      ensures Valid()
      ensures this.isNsfw == isNsfw && isBlurred == isNsfw && !isOpen && !showNsfwWarning
    {
      this.isNsfw := isNsfw;
      isOpen := false;
      isBlurred := isNsfw;
      showNsfwWarning := false;
    }

    /** `handleNsfwClick`, on an image or a video: blurred NSFW media asks first, anything else opens. */
    method Click()
      requires Valid()
      modifies this
      ensures Valid()
      ensures old(isBlurred) ==> showNsfwWarning && isOpen == old(isOpen)
      ensures !old(isBlurred) ==> isOpen && showNsfwWarning == old(showNsfwWarning)
      ensures isBlurred == old(isBlurred)
    {
      if isNsfw && isBlurred {
        showNsfwWarning := true;
      } else {
        isOpen := true;
      }
    }

    /** The play button of an audio file: it opens the viewer without looking at the blur. */
    method PlayAudio()
      modifies this
      ensures isOpen && isBlurred == old(isBlurred) && showNsfwWarning == old(showNsfwWarning)
    {
      isOpen := true;
    }

    /** `confirmViewNsfw`: unblurs, closes the warning and opens the viewer. */
    method ConfirmView()
      requires Valid()
      modifies this
      ensures Valid()
      ensures !isBlurred && !showNsfwWarning && isOpen
    {
      isBlurred := false;
      showNsfwWarning := false;
      isOpen := true;
    }

    /** The cancel button of the warning. */
    method CancelWarning()
      requires Valid()
      modifies this
      ensures Valid()
      ensures !showNsfwWarning && isBlurred == old(isBlurred) && isOpen == old(isOpen)
    {
      showNsfwWarning := false;
    }

    /** `toggleBlur`: re-blurs unblurred NSFW media and asks before unblurring; nothing for other media. */
    method ToggleBlur()
      requires Valid()
      modifies this
      ensures Valid()
      ensures !isNsfw ==> isBlurred == old(isBlurred) && showNsfwWarning == old(showNsfwWarning)
      ensures isNsfw && !old(isBlurred) ==> isBlurred && showNsfwWarning == old(showNsfwWarning)
      ensures isNsfw && old(isBlurred) ==> isBlurred && showNsfwWarning
      ensures isOpen == old(isOpen)
    {
      if isNsfw && !isBlurred {
        isBlurred := true;
      } else if isNsfw && isBlurred {
        showNsfwWarning := true;
      }
    }

    /** Closing the full-screen viewer. */
    method CloseViewer()
      requires Valid()
      modifies this
      ensures Valid()
      ensures !isOpen && isBlurred == old(isBlurred) && showNsfwWarning == old(showNsfwWarning)
    {
      isOpen := false;
    }
  }
}
