/**
 * The AI support chat: the crisis-phrase check, the message list a
 * submission builds and sends, the decoding of the streamed answer, the
 * apology on failure, and clearing the conversation.  The request and the
 * stream are outside the model: the stream is given as the sequence of
 * text chunks it delivered, and the JSON reading of a frame is a parameter.
 */
module AiChatPage {
  import opened Wrappers
  import opened Text

  // ---------------------------------------------------------------------
  // Crisis phrases
  // ---------------------------------------------------------------------

  /** The phrases that show the emergency resources, all written in lower case. */
  const CRISIS_KEYWORDS := [
    "intihar",
    "kendimi \U{F6}ld\U{FC}r",
    "\U{F6}lmek istiyorum",
    "ya\U{15F}amak istemiyorum",
    "kendime zarar",
    "ac\U{131} \U{E7}ekmek",
    "dayanam\U{131}yorum",
    "son vermek"
  ]

  /** Some phrase of `words` occurs in `text`, searched in list order. */
  predicate AnyOccurs(text: string, words: seq<string>)
    decreases |words|
  {
    words != [] && (Contains(text, words[0]) || AnyOccurs(text, words[1..]))
  }

  lemma {:induction false} AnyOccursIff(text: string, words: seq<string>)
    ensures AnyOccurs(text, words) <==> exists j :: 0 <= j < |words| && Contains(text, words[j])
    decreases |words|
  {
    if words != [] {
      AnyOccursIff(text, words[1..]);
      if exists j :: 0 <= j < |words| && Contains(text, words[j]) {
        var j :| 0 <= j < |words| && Contains(text, words[j]);
        if j > 0 {
          assert words[1..][j - 1] == words[j];
        }
      }
      if exists j :: 0 <= j < |words[1..]| && Contains(text, words[1..][j]) {
        var j :| 0 <= j < |words[1..]| && Contains(text, words[1..][j]);
        assert words[j + 1] == words[1..][j];
      }
    }
  }

  /** `checkForCrisisKeywords`: the lower-cased text contains one of the phrases. */
  predicate HasCrisisKeyword(text: string) {
    AnyOccurs(ToLower(text), CRISIS_KEYWORDS)
  }

  /** The check holds exactly when some phrase occurs in the lower-cased text. */
  lemma CrisisKeywordIff(text: string)
    ensures HasCrisisKeyword(text) <==>
      exists j :: 0 <= j < |CRISIS_KEYWORDS| && Contains(ToLower(text), CRISIS_KEYWORDS[j])
  {
    AnyOccursIff(ToLower(text), CRISIS_KEYWORDS);
  }

  /** The phrases are written in lower case, so lower-casing leaves them as they are. */
  lemma KeywordsLower(j: int)
    requires 0 <= j < |CRISIS_KEYWORDS|
    ensures ToLower(CRISIS_KEYWORDS[j]) == CRISIS_KEYWORDS[j]
  {
    var w := CRISIS_KEYWORDS[j];
    forall c | c in w ensures LowerOf(c) == [c] { }
    ToLowerUnchanged(w);
  }

  /** A text that holds a phrase anywhere in it is flagged. */
  lemma PhraseInTextFlagged(a: string, j: int, b: string)
    requires 0 <= j < |CRISIS_KEYWORDS|
    ensures HasCrisisKeyword(a + CRISIS_KEYWORDS[j] + b)
  {
    var w := CRISIS_KEYWORDS[j];
    KeywordsLower(j);
    ToLowerAppend(a + w, b);
    ToLowerAppend(a, w);
    assert Contains(w, w) by { assert OccursAt(w, w, 0); ContainsAt(w, w, 0); }
    ContainsInMiddle(ToLower(a), w, ToLower(b), w);
    CrisisKeywordIff(a + w + b);
  }

  /**
   * `toLowerCase` turns a capital dotted İ into "i" and a combining dot, so
   * "İntihar", as a Turkish keyboard writes the word at the start of a
   * sentence, is not flagged while "intihar" is.
   */
  lemma DottedCapitalMissed()
    ensures HasCrisisKeyword("intihar")
    ensures !HasCrisisKeyword("\U{130}ntihar")
  {
    PlainSpellingFlagged();
    LowerDottedCapital();
    NoKeywordIn(ToLower("\U{130}ntihar"));
  }

  /** "intihar" itself is flagged. */
  lemma PlainSpellingFlagged()
    ensures HasCrisisKeyword("intihar")
  {
    PhraseInTextFlagged("", 0, "");
    assert "" + CRISIS_KEYWORDS[0] + "" == "intihar";
  }

  /** `toLowerCase` of "İntihar". */
  lemma LowerDottedCapital()
    ensures ToLower("\U{130}ntihar") == "i\U{307}ntihar"
  {
    var s := "\U{130}ntihar";
    assert ToLower(s) == LowerOf(s[0]) + ToLower(s[1..]);
    assert s[1..] == "ntihar";
  }

  /** No phrase occurs in "i" followed by a combining dot and "ntihar". */
  lemma NoKeywordIn(lowered: string)
    requires lowered == "i\U{307}ntihar"
    ensures !AnyOccurs(lowered, CRISIS_KEYWORDS)
  {
    forall j | 0 <= j < |CRISIS_KEYWORDS|
      ensures !Contains(lowered, CRISIS_KEYWORDS[j])
    {
      if j == 0 {
        DotBreaksWord(lowered);
      } else {
        TooLongNotContained(lowered, CRISIS_KEYWORDS[j]);
      }
    }
    AnyOccursIff(lowered, CRISIS_KEYWORDS);
  }

  /** The combining dot after the "i" keeps "intihar" from occurring. */
  lemma DotBreaksWord(lowered: string)
    requires lowered == "i\U{307}ntihar"
    ensures !Contains(lowered, "intihar")
  {
    var w := "intihar";
    ContainsIff(lowered, w);
    forall i | 0 <= i && i + |w| <= |lowered|
      ensures !OccursAt(lowered, w, i)
    {
      assert lowered[1] == '\U{307}';
      if i == 0 {
        assert lowered[i..i + |w|][1] == lowered[1];
      } else {
        assert lowered[i..i + |w|][0] == lowered[1];
      }
    }
  }

  /** A phrase longer than the text does not occur in it. */
  lemma TooLongNotContained(s: string, w: string)
    requires |w| > |s|
    ensures !Contains(s, w)
  {
    ContainsIff(s, w);
  }

  /** The intended folding of one character: as `toLowerCase`, but a dotted capital İ becomes a plain "i". */
  function CrisisFoldChar(c: char): (r: char)
    ensures c != '\U{130}' ==> r == LowerChar(c)
  {
    if c == '\U{130}' then 'i' else LowerChar(c)
  }

  /** The intended folding of a text, one character for one. */
  function CrisisFold(s: string): (r: string)
    ensures |r| == |s|
  {
    if s == [] then [] else [CrisisFoldChar(s[0])] + CrisisFold(s[1..])
  }

  /** The corrected check: the folded text contains one of the phrases. */
  predicate HasCrisisKeywordFolded(text: string) {
    AnyOccurs(CrisisFold(text), CRISIS_KEYWORDS)
  }

  /** A phrase without a combining dot that starts the lower-cased text also starts the folded text. */
  lemma {:induction false} StartsWithFolded(s: string, w: string)
    requires '\U{307}' !in w
    requires StartsWith(ToLower(s), w)
    ensures StartsWith(CrisisFold(s), w)
  {
    if w != [] {
      assert s != [];
      assert ToLower(s) == LowerOf(s[0]) + ToLower(s[1..]);
      if s[0] == '\U{130}' {
        assert ToLower(s)[0] == 'i' && ToLower(s)[1] == '\U{307}';
      } else {
        assert ToLower(s)[1..] == ToLower(s[1..]);
        assert '\U{307}' !in w[1..];
        assert ToLower(s[1..])[..|w[1..]|] == w[1..];
        StartsWithFolded(s[1..], w[1..]);
        assert CrisisFold(s)[..|w|] == [w[0]] + CrisisFold(s[1..])[..|w[1..]|];
        assert w == [w[0]] + w[1..];
      }
    }
  }

  /** A phrase without a combining dot found in the lower-cased text is found in the folded text. */
  lemma {:induction false} ContainsFolded(s: string, w: string)
    requires '\U{307}' !in w
    requires Contains(ToLower(s), w)
    ensures Contains(CrisisFold(s), w)
    decreases |s|
  {
    var t := ToLower(s);
    if StartsWith(t, w) {
      StartsWithFolded(s, w);
    } else {
      assert t != [] && Contains(t[1..], w);
      assert s != [];
      assert t == LowerOf(s[0]) + ToLower(s[1..]);
      var f := CrisisFold(s);
      assert f[1..] == CrisisFold(s[1..]);
      if s[0] == '\U{130}' {
        assert t[1..] == "\U{307}" + ToLower(s[1..]);
        assert !StartsWith(t[1..], w) by { assert w[0] in w; }
        assert t[1..][1..] == ToLower(s[1..]);
      } else {
        assert t[1..] == ToLower(s[1..]);
      }
      ContainsFolded(s[1..], w);
      assert f != [] && Contains(f[1..], w);
    }
  }

  /** No phrase holds a combining dot. */
  lemma KeywordsUndotted(j: int)
    requires 0 <= j < |CRISIS_KEYWORDS|
    ensures '\U{307}' !in CRISIS_KEYWORDS[j]
  {
  }

  /** The corrected check flags every text the check as written flags. */
  lemma CrisisFoldedFlagsMore(text: string)
    requires HasCrisisKeyword(text)
    ensures HasCrisisKeywordFolded(text)
  {
    AnyOccursIff(ToLower(text), CRISIS_KEYWORDS);
    AnyOccursIff(CrisisFold(text), CRISIS_KEYWORDS);
    var j :| 0 <= j < |CRISIS_KEYWORDS| && Contains(ToLower(text), CRISIS_KEYWORDS[j]);
    KeywordsUndotted(j);
    ContainsFolded(text, CRISIS_KEYWORDS[j]);
  }

  /** The corrected check flags the sentence-initial "İntihar" that the check as written misses. */
  lemma FoldedFlagsDottedCapital()
    ensures HasCrisisKeywordFolded("\U{130}ntihar")
  {
    var folded := CrisisFold("\U{130}ntihar");
    assert folded == "intihar";
    assert OccursAt(folded, CRISIS_KEYWORDS[0], 0);
    ContainsAt(folded, CRISIS_KEYWORDS[0], 0);
    AnyOccursIff(folded, CRISIS_KEYWORDS);
  }

  // ---------------------------------------------------------------------
  // Messages
  // ---------------------------------------------------------------------

  datatype Role = User | Assistant

  /** One message of the conversation. */
  datatype Message = Message(role: Role, content: string, timestamp: int)

  /** What the request carries of a message: its role and content. */
  datatype Wire = Wire(role: Role, content: string)

  const WELCOME_TEXT := "Merhaba! Ben Comfortillo'nun AI destek\U{E7}isiyim. Burada g\U{FC}vendesin ve her ne hissediyorsan payla\U{15F}abilirsin. Seni dinliyorum ve anl\U{131}yorum. Nas\U{131}l hissediyorsun bug\U{FC}n?"
  const APOLOGY_TEXT := "\U{DC}zg\U{FC}n\U{FC}m, \U{15F}u anda bir sorun ya\U{15F}\U{131}yorum. L\U{FC}tfen daha sonra tekrar deneyin. Acil bir durumsa, l\U{FC}tfen a\U{15F}a\U{11F}\U{131}daki acil yard\U{131}m kaynaklar\U{131}n\U{131} kullan."

  /** The assistant's greeting that opens a conversation. */
  function Welcome(now: int): (m: Message)
    ensures m.role == Assistant && m.content == WELCOME_TEXT && m.timestamp == now
  {
    Message(Assistant, WELCOME_TEXT, now)
  }

  /** The assistant's apology shown when the request fails. */
  function Apology(now: int): (m: Message)
    ensures m.role == Assistant && m.content == APOLOGY_TEXT && m.timestamp == now
  {
    Message(Assistant, APOLOGY_TEXT, now)
  }

  /** The messages of a request: role and content of every message. */
  function Payload(ms: seq<Message>): seq<Wire> {
    seq(|ms|, k requires 0 <= k < |ms| => Wire(ms[k].role, ms[k].content))
  }

  /** The request lists the messages in order, one entry each, without their timestamps. */
  lemma PayloadOrder(ms: seq<Message>, extra: Message)
    ensures |Payload(ms)| == |ms|
    ensures forall k :: 0 <= k < |ms| ==> Payload(ms)[k].role == ms[k].role && Payload(ms)[k].content == ms[k].content
    ensures Payload(ms + [extra]) == Payload(ms) + [Wire(extra.role, extra.content)]
  {
    assert forall k :: 0 <= k < |ms| ==> (ms + [extra])[k] == ms[k];
  }

  // ---------------------------------------------------------------------
  // The streamed answer
  // ---------------------------------------------------------------------

  const FRAME_PREFIX := "0:"
  const TEXT_DELTA := "text-delta"

  /** The fields of a parsed stream frame the page reads; a missing field is `None`. */
  datatype Frame = Frame(frameType: Option<string>, textDelta: Option<string>)

  /** `assistantMessage += data.textDelta`: a missing delta is appended as the text "undefined". */
  function DeltaText(f: Frame): (r: string)
    ensures f.textDelta.Some? ==> r == f.textDelta.value
    ensures f.textDelta.None? ==> r == "undefined"
  {
    if f.textDelta.Some? then f.textDelta.value else "undefined"
  }

  /**
   * The delta one line carries: that of a "0:" line whose JSON is a
   * text-delta frame; none for any other line or for JSON that does not
   * parse (`parse` gives `None`).
   */
  function LineDelta(line: string, parse: string -> Option<Frame>): (r: Option<string>)
    ensures r.Some? ==> StartsWith(line, FRAME_PREFIX)
  {
    if StartsWith(line, FRAME_PREFIX) then
      var data := parse(line[|FRAME_PREFIX|..]);
      if data.Some? && data.value.frameType == Some(TEXT_DELTA) then Some(DeltaText(data.value)) else None
    else None
  }

  /** What one line adds to the answer. */
  function LineText(line: string, parse: string -> Option<Frame>): string {
    var d := LineDelta(line, parse);
    if d.Some? then d.value else ""
  }

  /** What a sequence of lines adds, in order. */
  function LinesText(lines: seq<string>, parse: string -> Option<Frame>): string {
    if lines == [] then ""
    else LinesText(lines[..|lines| - 1], parse) + LineText(lines[|lines| - 1], parse)
  }

  /** Reading line `j` after the lines before it. */
  lemma LinesTextStep(lines: seq<string>, j: int, parse: string -> Option<Frame>)
    requires 0 <= j < |lines|
    ensures LinesText(lines[..j + 1], parse) == LinesText(lines[..j], parse) + LineText(lines[j], parse)
  {
    assert lines[..j + 1][..j] == lines[..j];
  }

  /** The answer the chunks give: each chunk split on line feeds on its own, its lines read in order. */
  function StreamText(chunks: seq<string>, parse: string -> Option<Frame>): string {
    if chunks == [] then ""
    else StreamText(chunks[..|chunks| - 1], parse) + LinesText(SplitLines(chunks[|chunks| - 1]), parse)
  }

  /** Lines that do not start with "0:" add nothing. */
  lemma {:induction false} UnframedLinesSkipped(lines: seq<string>, parse: string -> Option<Frame>)
    requires forall k :: 0 <= k < |lines| ==> !StartsWith(lines[k], FRAME_PREFIX)
    ensures LinesText(lines, parse) == ""
  {
    if lines != [] {
      UnframedLinesSkipped(lines[..|lines| - 1], parse);
    }
  }

  /** The deltas of later lines are appended after those of earlier lines. */
  lemma {:induction false} LinesTextAppend(a: seq<string>, b: seq<string>, parse: string -> Option<Frame>)
    ensures LinesText(a + b, parse) == LinesText(a, parse) + LinesText(b, parse)
    decreases |b|
  {
    if b == [] {
      assert a + b == a;
    } else {
      var front := b[..|b| - 1];
      var last := b[|b| - 1];
      calc {
        LinesText(a + b, parse);
        { assert (a + b)[..|a + b| - 1] == a + front; assert (a + b)[|a + b| - 1] == last; }
        LinesText(a + front, parse) + LineText(last, parse);
        { LinesTextAppend(a, front, parse); }
        LinesText(a, parse) + LinesText(front, parse) + LineText(last, parse);
      }
    }
  }

  /** The answers of later chunks are appended after those of earlier chunks: arrival order is kept. */
  lemma {:induction false} StreamTextAppend(a: seq<string>, b: seq<string>, parse: string -> Option<Frame>)
    ensures StreamText(a + b, parse) == StreamText(a, parse) + StreamText(b, parse)
    decreases |b|
  {
    if b == [] {
      assert a + b == a;
    } else {
      var front := b[..|b| - 1];
      var last := b[|b| - 1];
      calc {
        StreamText(a + b, parse);
        { assert (a + b)[..|a + b| - 1] == a + front; assert (a + b)[|a + b| - 1] == last; }
        StreamText(a + front, parse) + LinesText(SplitLines(last), parse);
        { StreamTextAppend(a, front, parse); }
        StreamText(a, parse) + StreamText(front, parse) + LinesText(SplitLines(last), parse);
      }
    }
  }

  /**
   * Chunks are split without carrying a partial line over: a text-delta
   * frame delivered whole gives its delta, but the same frame cut in two
   * chunks gives nothing when neither piece reads as a frame.
   */
  lemma SplitFrameLost(frame: string, cut: int, delta: string, parse: string -> Option<Frame>)
    requires '\n' !in frame && 0 < cut < |frame|
    requires parse(frame) == Some(Frame(Some(TEXT_DELTA), Some(delta)))
    requires parse(frame[..cut]).None?
    requires !StartsWith(frame[cut..], FRAME_PREFIX)
    ensures StreamText([FRAME_PREFIX + frame], parse) == delta
    ensures StreamText([FRAME_PREFIX + frame[..cut], frame[cut..]], parse) == ""
  {
    var whole := FRAME_PREFIX + frame;
    var head := FRAME_PREFIX + frame[..cut];
    var tail := frame[cut..];
    assert '\n' !in whole && '\n' !in head && '\n' !in tail;
    PrefixWithoutSeparator(whole, '\n');
    PrefixWithoutSeparator(head, '\n');
    PrefixWithoutSeparator(tail, '\n');
    assert SplitLines(whole) == [whole];
    assert SplitLines(head) == [head];
    assert SplitLines(tail) == [tail];
    assert whole[|FRAME_PREFIX|..] == frame;
    assert head[|FRAME_PREFIX|..] == frame[..cut];
    assert StartsWith(whole, FRAME_PREFIX) && StartsWith(head, FRAME_PREFIX);
    assert LinesText([whole], parse) == LineText(whole, parse);
    assert LinesText([head], parse) == LineText(head, parse);
    assert LinesText([tail], parse) == LineText(tail, parse);
    assert [head, tail][..1] == [head];
  }

  // ---------------------------------------------------------------------
  // The page
  // ---------------------------------------------------------------------

  /** The state of `AIChatPage`, with the stored history it reads and writes. */
  class ChatPage {
    var messages: seq<Message>
    var input: string
    var isLoading: bool
    var showEmergencyResources: bool
    /** The stored conversation; `None` when nothing is stored. */
    var history: Option<seq<Message>>
    /** The messages a request in flight was sent with. */
    var sent: Option<seq<Message>>

    /** `isLoading` is on exactly while a request is in flight. */
    predicate Valid()
      reads this
    {
      isLoading <==> sent.Some?
    }

    /** Opening the page: the stored conversation, or a fresh one holding the greeting. */
    constructor (history: Option<seq<Message>>, now: int)
      ensures Valid()
      ensures messages == if history.Some? then history.value else [Welcome(now)]
      ensures this.history == history && input == "" && !isLoading && !showEmergencyResources && sent == None
    {
      messages := if history.Some? then history.value else [Welcome(now)];
      input := "";
      isLoading := false;
      showEmergencyResources := false;
      this.history := history;
      sent := None;
    }

    /** Clicking a suggestion puts it in the input. */
    method Suggest(suggestion: string)
      modifies this
      ensures input == suggestion
      ensures messages == old(messages) && isLoading == old(isLoading) && sent == old(sent)
      ensures showEmergencyResources == old(showEmergencyResources) && history == old(history)
    {
      input := suggestion;
    }

    /**
     * `handleSubmit` up to the request: ignored for a blank input or while
     * a request is in flight; otherwise the trimmed input joins the
     * conversation as the user's message, the input is cleared, the
     * emergency resources are shown when the untrimmed input holds a
     * crisis phrase (found with the corrected folding, so that a capital
     * İ counts as "i"), and the request carries every message.
     */
    method StartSubmit(now: int) returns (request: Option<seq<Wire>>)
      requires Valid()
      modifies this
      ensures Valid()
      ensures request.None? <==> Blank(old(input)) || old(isLoading)
      ensures request.None? ==>
        && messages == old(messages) && input == old(input) && isLoading == old(isLoading)
        && showEmergencyResources == old(showEmergencyResources) && sent == old(sent)
      ensures request.Some? ==>
        && messages == old(messages) + [Message(User, Trim(old(input)), now)]
        && request.value == Payload(messages)
        && input == "" && isLoading && sent == Some(messages)
        && showEmergencyResources == (old(showEmergencyResources) || HasCrisisKeywordFolded(old(input)))
      ensures history == old(history)
    {
      TrimEmptyIffBlank(input);
      if Trim(input) == [] || isLoading {
        return None;
      }
      var updated := messages + [Message(User, Trim(input), now)];
      Send(updated, HasCrisisKeywordFolded(input));
      request := Some(Payload(updated));
    }

    /** The user's message is shown, the input cleared and loading begins; a crisis shows the resources. */
    method Send(updated: seq<Message>, crisis: bool)
      modifies this
      ensures Valid()
      ensures messages == updated && input == "" && isLoading && sent == Some(updated)
      ensures showEmergencyResources == (old(showEmergencyResources) || crisis)
      ensures history == old(history)
    {
      messages := updated;
      input := "";
      isLoading := true;
      sent := Some(updated);
      if crisis {
        showEmergencyResources := true;
      }
    }

    /**
     * The rest of `handleSubmit`: reads the chunks the stream delivered,
     * showing the answer as it grows, then keeps and stores the conversation
     * with the answer.  When `broken`, the request failed after these chunks
     * (or before any, with no chunks): the answer so far is dropped and the
     * apology is kept and stored instead, and the emergency resources are
     * shown.  Either way loading ends.  Every message it adds carries `now`.
     */
    method Receive(chunks: seq<string>, parse: string -> Option<Frame>, broken: bool, now: int)
      requires Valid() && isLoading
      modifies this
      ensures Valid() && !isLoading
      ensures !broken ==> messages == old(sent).value + [Message(Assistant, StreamText(chunks, parse), now)]
      ensures broken ==> messages == old(sent).value + [Apology(now)]
      ensures history == Some(messages)
      ensures showEmergencyResources == (old(showEmergencyResources) || broken)
      ensures input == old(input)
    {
      var updated := sent.value;
      var answer := ReadStream(updated, chunks, parse, now);
      if broken {
        messages := updated + [Apology(now)];
        showEmergencyResources := true;
      } else {
        messages := updated + [Message(Assistant, answer, now)];
      }
      history := Some(messages);
      isLoading := false;
      sent := None;
    }

    /**
     * The reading loop: every text-delta frame of every line of every chunk
     * is appended to the answer, and each time the conversation shown
     * becomes the sent messages followed by the answer so far.
     */
    method ReadStream(updated: seq<Message>, chunks: seq<string>, parse: string -> Option<Frame>, now: int)
      returns (answer: string)
      modifies this
      ensures answer == StreamText(chunks, parse)
      ensures (messages == old(messages) && answer == "") || messages == updated + [Message(Assistant, answer, now)]
      ensures input == old(input) && isLoading == old(isLoading) && sent == old(sent)
      ensures showEmergencyResources == old(showEmergencyResources) && history == old(history)
    {
      answer := "";
      var i := 0;
      while i < |chunks|
        invariant 0 <= i <= |chunks|
        invariant answer == StreamText(chunks[..i], parse)
        invariant (messages == old(messages) && answer == "") || messages == updated + [Message(Assistant, answer, now)]
        invariant input == old(input) && isLoading == old(isLoading) && sent == old(sent)
        invariant showEmergencyResources == old(showEmergencyResources) && history == old(history)
      {
        var lines := SplitLines(chunks[i]);
        answer := ReadLines(updated, lines, parse, now, answer);
        assert chunks[..i + 1][..i] == chunks[..i];
        i := i + 1;
      }
      assert chunks[..|chunks|] == chunks;
    }

    /** The inner loop: the lines of one chunk, read in order. */
    method ReadLines(updated: seq<Message>, lines: seq<string>, parse: string -> Option<Frame>, now: int, before: string)
      returns (answer: string)
      modifies this
      ensures answer == before + LinesText(lines, parse)
      ensures (messages == old(messages) && answer == before) || messages == updated + [Message(Assistant, answer, now)]
      ensures input == old(input) && isLoading == old(isLoading) && sent == old(sent)
      ensures showEmergencyResources == old(showEmergencyResources) && history == old(history)
    {
      answer := before;
      var shown := false;
      for j := 0 to |lines|
        invariant answer == before + LinesText(lines[..j], parse)
        invariant !shown ==> answer == before
        modifies {}
      {
        var delta := LineDelta(lines[j], parse);
        ghost var done := LinesText(lines[..j], parse);
        LinesTextStep(lines, j, parse);
        if delta.Some? {
          assert before + done + delta.value == before + (done + delta.value);
          answer := answer + delta.value;
          shown := true;
        }
      }
      assert lines[..|lines|] == lines;
      if shown {
        messages := updated + [Message(Assistant, answer, now)];
      }
    }

    /** `clearChat`: only the greeting is left, the stored history is removed and the emergency resources are hidden. */
    method ClearChat(now: int)
      modifies this
      ensures messages == [Welcome(now)] && history == None && !showEmergencyResources
      ensures input == old(input) && isLoading == old(isLoading) && sent == old(sent)
    {
      messages := [Welcome(now)];
      history := None;
      showEmergencyResources := false;
    }
  }
}
