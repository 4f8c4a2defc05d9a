/**
 * text_correction_with_doubao.py: long text is cut into segments at full stops, each
 * segment (or each "## " section of a Markdown file) is sent to a chat model wrapped in
 * <note> tags, the tags are stripped from each reply, and the replies are joined again.
 * The chat model is an oracle: a function from the request to a reply or an error.
 */
module TextCorrection {
  import opened Wrappers
  import opened Strings
  import opened PyPath
  import opened Chat

  /** The full-width full stop "。" at which long text is cut. */
  const FullStop: char := '\U{3002}'

  /** split_long_text's default max_length; main always segments with it. */
  const DefaultMaxLength: nat := 2000

  // ---------------------------------------------------------------------------------------
  // split_long_text

  /** How many characters one cut takes from text longer than the window: everything up to
      and including the last full stop inside text[..maxLength], or maxLength + 1 characters
      when the window holds no full stop. */
  function CutLength(text: string, maxLength: nat): (n: nat)
    requires |text| > maxLength
    ensures 1 <= n <= maxLength + 1 <= |text|
  {
    var pos := RFind(text[..maxLength], FullStop);
    if pos == -1 then maxLength + 1 else pos + 1
  }

  /** The cut ends at the last full stop of the window, or the window holds none. */
  lemma CutLengthStops(text: string, maxLength: nat)
    requires |text| > maxLength
    ensures var n := CutLength(text, maxLength);
      (n <= maxLength ==>
        text[n - 1] == FullStop && forall k :: n <= k < maxLength ==> text[k] != FullStop)
      && (n == maxLength + 1 ==> forall k :: 0 <= k < maxLength ==> text[k] != FullStop)
  {
    var w := text[..maxLength];
    assert forall k :: 0 <= k < maxLength ==> w[k] == text[k];
  }

  /** The segments the while loop of split_long_text appends, starting from text. */
  function Segments(text: string, maxLength: nat): seq<string>
    decreases |text|
  {
    if text == [] then []
    else if |text| <= maxLength then [text]
    else
      var n := CutLength(text, maxLength);
      [text[..n]] + Segments(LStrip(text[n..]), maxLength)
  }

  /** What split_long_text returns: short text comes back whole (even when empty). */
  function LongTextSegments(text: string, maxLength: nat): seq<string> {
    if |text| <= maxLength then [text] else Segments(text, maxLength)
  }

  /** One turn of the loop: a cut, then the segments of the lstripped remainder. */
  lemma SegmentsStep(text: string, maxLength: nat)
    requires |text| > maxLength
    ensures var n := CutLength(text, maxLength);
      Segments(text, maxLength) == [text[..n]] + Segments(LStrip(text[n..]), maxLength)
  {
  }

  /** split_long_text(text, max_length). A negative max_length makes the Python loop append
      empty segments forever, so the window is a nat here. */
  method SplitLongText(text: string, maxLength: nat) returns (segments: seq<string>)
    ensures segments == LongTextSegments(text, maxLength)
    ensures |text| <= maxLength ==> segments == [text]
  {
    if |text| <= maxLength {
      return [text];
    }
    segments := [];
    var rest := text;
    while rest != []
      invariant segments + Segments(rest, maxLength) == Segments(text, maxLength)
      decreases |rest|
    {
      if |rest| <= maxLength {
        segments := segments + [rest];
        break;
      }
      var n := CutLength(rest, maxLength);
      SplitStep(segments, rest, text, maxLength);
      segments := segments + [rest[..n]];
      rest := LStrip(rest[n..]);
    }
  }

  /** The loop invariant of split_long_text survives one cut. */
  lemma SplitStep(segments: seq<string>, rest: string, text: string, maxLength: nat)
    requires |rest| > maxLength
    requires segments + Segments(rest, maxLength) == Segments(text, maxLength)
    ensures var n := CutLength(rest, maxLength);
      (segments + [rest[..n]]) + Segments(LStrip(rest[n..]), maxLength) == Segments(text, maxLength)
  {
    var n := CutLength(rest, maxLength);
    var more := Segments(LStrip(rest[n..]), maxLength);
    SegmentsStep(rest, maxLength);
    assert (segments + [rest[..n]]) + more == segments + ([rest[..n]] + more);
  }

  /** A segment produced by a cut: it ends at a full stop and fits the window, or the window
      held no full stop and the segment is one character longer than the window. */
  predicate IsCut(seg: string, maxLength: nat) {
    (1 <= |seg| <= maxLength && seg[|seg| - 1] == FullStop)
    || (|seg| == maxLength + 1 && forall k :: 0 <= k < maxLength ==> seg[k] != FullStop)
  }

  /** Every segment but the last is a cut; the last is a cut or a short remainder. */
  predicate WellCut(segs: seq<string>, maxLength: nat) {
    forall i :: 0 <= i < |segs| ==>
      IsCut(segs[i], maxLength) || (i == |segs| - 1 && 1 <= |segs[i]| <= maxLength)
  }

  lemma WellCutCons(seg: string, tail: seq<string>, maxLength: nat)
    requires IsCut(seg, maxLength) && WellCut(tail, maxLength)
    ensures WellCut([seg] + tail, maxLength)
  {
    var segs := [seg] + tail;
    forall i | 0 <= i < |segs|
      ensures IsCut(segs[i], maxLength) || (i == |segs| - 1 && 1 <= |segs[i]| <= maxLength)
    {
      if i > 0 {
        assert segs[i] == tail[i - 1];
      }
    }
  }

  /** Every segment is a cut or the short remainder at the end, so every segment is non-empty
      and at most maxLength + 1 long. Only empty text has no segments. */
  lemma {:induction false} SegmentsShape(text: string, maxLength: nat)
    ensures Segments(text, maxLength) == [] <==> text == []
    ensures WellCut(Segments(text, maxLength), maxLength)
    decreases |text|
  {
    if text != [] && |text| > maxLength {
      var n := CutLength(text, maxLength);
      var rest := LStrip(text[n..]);
      SegmentsStep(text, maxLength);
      SegmentsShape(rest, maxLength);
      CutIsCut(text, maxLength);
      WellCutCons(text[..n], Segments(rest, maxLength), maxLength);
    }
  }

  lemma CutIsCut(text: string, maxLength: nat)
    requires |text| > maxLength
    ensures IsCut(text[..CutLength(text, maxLength)], maxLength)
  {
    var n := CutLength(text, maxLength);
    var seg := text[..n];
    CutLengthStops(text, maxLength);
    if n <= maxLength {
      assert seg[|seg| - 1] == FullStop;
    } else {
      assert forall k :: 0 <= k < maxLength ==> seg[k] == text[k];
    }
  }

  /** No segment after the first starts with whitespace. */
  predicate TrimmedAfterFirst(segs: seq<string>) {
    forall i :: 0 < i < |segs| ==> segs[i] != [] && !IsSpace(segs[i][0])
  }

  lemma TrimmedCons(seg: string, tail: seq<string>)
    requires TrimmedAfterFirst(tail)
    requires tail != [] ==> tail[0] != [] && !IsSpace(tail[0][0])
    ensures TrimmedAfterFirst([seg] + tail)
  {
    var segs := [seg] + tail;
    forall i | 0 < i < |segs| ensures segs[i] != [] && !IsSpace(segs[i][0]) {
      assert segs[i] == tail[i - 1];
    }
  }

  /** The first segment starts the text, and segments after the first never start with
      whitespace: lstrip removed it. */
  lemma {:induction false} SegmentsNoLeadingSpace(text: string, maxLength: nat)
    ensures var segs := Segments(text, maxLength);
      segs != [] ==> segs[0] != [] && segs[0][0] == text[0]
    ensures TrimmedAfterFirst(Segments(text, maxLength))
    decreases |text|
  {
    if text != [] && |text| > maxLength {
      var n := CutLength(text, maxLength);
      var rest := LStrip(text[n..]);
      LStripSuffix(text[n..]);
      SegmentsStep(text, maxLength);
      SegmentsNoLeadingSpace(rest, maxLength);
      TrimmedCons(text[..n], Segments(rest, maxLength));
    }
  }

  /** seg0 + gap0 + seg1 + gap1 + ... */
  function Interleave(segs: seq<string>, gaps: seq<string>): string
    requires |segs| == |gaps|
    decreases |segs|
  {
    if segs == [] then "" else segs[0] + gaps[0] + Interleave(segs[1..], gaps[1..])
  }

  predicate AllSpace(gaps: seq<string>) {
    forall i :: 0 <= i < |gaps| ==> Blank(gaps[i])
  }

  lemma InterleaveCons(seg: string, gap: string, segs: seq<string>, gaps: seq<string>)
    requires |segs| == |gaps|
    ensures Interleave([seg] + segs, [gap] + gaps) == seg + gap + Interleave(segs, gaps)
  {
    assert ([seg] + segs)[1..] == segs;
    assert ([gap] + gaps)[1..] == gaps;
  }

  lemma AllSpaceCons(gap: string, gaps: seq<string>)
    requires Blank(gap) && AllSpace(gaps)
    ensures AllSpace([gap] + gaps)
  {
    var all := [gap] + gaps;
    forall i | 0 < i < |all| ensures Blank(all[i]) {
      assert all[i] == gaps[i - 1];
    }
  }

  /** The segments are the text with only whitespace taken out: between consecutive segments
      (and after the last) lies a run of whitespace, the prefix lstrip removed. */
  lemma {:induction false} SegmentsReassemble(text: string, maxLength: nat)
    returns (gaps: seq<string>)
    ensures |gaps| == |Segments(text, maxLength)|
    ensures AllSpace(gaps)
    ensures Interleave(Segments(text, maxLength), gaps) == text
    decreases |text|
  {
    if text == [] {
      gaps := [];
    } else if |text| <= maxLength {
      gaps := [""];
      ReassembleLast(text);
    } else {
      var n := CutLength(text, maxLength);
      var tail := text[n..];
      var rest := LStrip(tail);
      var more := SegmentsReassemble(rest, maxLength);
      gaps := ReassembleCut(text, maxLength, more);
    }
  }

  lemma ReassembleCut(text: string, maxLength: nat, more: seq<string>) returns (gaps: seq<string>)
    requires |text| > maxLength
    requires var rest := LStrip(text[CutLength(text, maxLength)..]);
      |more| == |Segments(rest, maxLength)| && AllSpace(more)
      && Interleave(Segments(rest, maxLength), more) == rest
    ensures |gaps| == |Segments(text, maxLength)|
    ensures AllSpace(gaps)
    ensures Interleave(Segments(text, maxLength), gaps) == text
  {
    var n := CutLength(text, maxLength);
    var tail := text[n..];
    var rest := LStrip(tail);
    LStripSuffix(tail);
    SegmentsStep(text, maxLength);
    var g := |tail| - |rest|;
    gaps := [tail[..g]] + more;
    ReassembleStep(text, n, g, Segments(text, maxLength), Segments(rest, maxLength), more);
  }

  lemma ReassembleLast(text: string)
    ensures AllSpace([""]) && Interleave([text], [""]) == text
  {
    var e: string := [];
    assert Blank(e);
    assert [text][1..] == [] && [e][1..] == [];
  }

  /** One cut of SegmentsReassemble: the segment, then the whitespace lstrip dropped from
      the remainder of the text, then what is left. */
  lemma ReassembleStep(text: string, n: nat, g: nat, segs: seq<string>, segsRest: seq<string>,
                       more: seq<string>)
    requires n <= |text| && g <= |text| - n && Blank(text[n..][..g])
    requires segs == [text[..n]] + segsRest
    requires |segsRest| == |more| && Interleave(segsRest, more) == text[n..][g..]
    requires AllSpace(more)
    ensures |[text[n..][..g]] + more| == |segs| && AllSpace([text[n..][..g]] + more)
    ensures Interleave(segs, [text[n..][..g]] + more) == text
  {
    var tail := text[n..];
    var gap := tail[..g];
    var rest := tail[g..];
    InterleaveCons(text[..n], gap, segsRest, more);
    AllSpaceCons(gap, more);
    assert tail == gap + rest;
    assert text == text[..n] + tail;
    assert text[..n] + gap + rest == text[..n] + (gap + rest);
  }

  /** Text without whitespace is only cut: the segments concatenate back to it. */
  lemma {:induction false} SegmentsConcatNoSpace(text: string, maxLength: nat)
    requires forall k :: 0 <= k < |text| ==> !IsSpace(text[k])
    ensures Concat(Segments(text, maxLength)) == text
    decreases |text|
  {
    if text != [] && |text| > maxLength {
      var n := CutLength(text, maxLength);
      var tail := text[n..];
      NoSpaceSuffix(text, n);
      SegmentsStep(text, maxLength);
      SegmentsConcatNoSpace(tail, maxLength);
      ConcatStep(text, n, Segments(tail, maxLength));
    }
  }

  /** A suffix of text without whitespace has none either, so lstrip leaves it alone. */
  lemma NoSpaceSuffix(text: string, n: nat)
    requires n <= |text|
    requires forall k :: 0 <= k < |text| ==> !IsSpace(text[k])
    ensures forall k :: 0 <= k < |text| - n ==> !IsSpace(text[n..][k])
    ensures LStrip(text[n..]) == text[n..]
  {
    var tail := text[n..];
    assert tail == [] || tail[0] == text[n];
  }

  lemma ConcatStep(text: string, n: nat, more: seq<string>)
    requires n <= |text| && Concat(more) == text[n..]
    ensures Concat([text[..n]] + more) == text
  {
    assert ([text[..n]] + more)[1..] == more;
    assert text == text[..n] + text[n..];
  }

  /** With no full stop in the window the forced cut is maxLength + 1 long: "aaa" with a
      window of 2 comes back as the single segment "aaa". */
  lemma ForcedCutExample()
    ensures LongTextSegments("aaa", 2) == ["aaa"]
  {
    assert RFind("aa", FullStop) == -1 by {
      assert RFind("a", FullStop) == -1;
    }
    assert CutLength("aaa", 2) == 3;
    SegmentsStep("aaa", 2);
    assert "aaa"[..3] == "aaa" && "aaa"[3..] == "";
  }

  // ---------------------------------------------------------------------------------------
  // <note> tags

  const OpenTag: string := "<note>"
  const CloseTag: string := "</note>"

  predicate IsTagged(reply: string) {
    StartsWith(reply, OpenTag) && EndsWith(reply, CloseTag)
  }

  /** The two tags cannot overlap, so a tagged reply holds both in full. */
  lemma TaggedLength(reply: string)
    requires IsTagged(reply)
    ensures |reply| >= |OpenTag| + |CloseTag|
  {
    var j := |reply| - |CloseTag|;
    assert reply[j..] == CloseTag;
    assert reply[j] == '<' && reply[j + 1] == '/';
    assert reply[..6] == OpenTag;
    assert forall k :: 0 < k < 6 ==> reply[k] != '<';
    assert reply[1] == 'n';
  }

  /** The reply with a surrounding <note>...</note> removed; any other reply is unchanged. */
  function StripNoteTags(reply: string): (r: string)
    ensures IsTagged(reply) ==> reply == OpenTag + r + CloseTag
    ensures !IsTagged(reply) ==> r == reply
  {
    if IsTagged(reply) then
      TaggedLength(reply);
      reply[|OpenTag|..|reply| - |CloseTag|]
    else reply
  }

  /** Stripping undoes wrapping. */
  lemma StripWrapped(x: string)
    ensures StripNoteTags(OpenTag + x + CloseTag) == x
  {
    var w := OpenTag + x + CloseTag;
    assert w[..|OpenTag|] == OpenTag;
    assert w[|w| - |CloseTag|..] == CloseTag;
    FrameCancel(OpenTag, StripNoteTags(w), x, CloseTag);
  }

  // ---------------------------------------------------------------------------------------
  // The chat request

  /** What the caller fixes for every call. */
  datatype ChatConfig = ChatConfig(systemMessage: string, endpointId: string, apiHost: string)

  const UserPrefix: string := "待优化文本包含在xml标签中："

  /** The user message: the fixed instruction, then the text inside <note> tags. */
  function UserMessage(text: string): string {
    UserPrefix + OpenTag + text + CloseTag
  }

  /** The text carried by a user message. */
  function MessageText(msg: string): string
    requires |msg| >= |UserPrefix| + |OpenTag| + |CloseTag|
  {
    msg[|UserPrefix| + |OpenTag|..|msg| - |CloseTag|]
  }

  /** The user message carries the text verbatim. */
  lemma MessageTextRoundTrip(text: string)
    ensures |UserMessage(text)| >= |UserPrefix| + |OpenTag| + |CloseTag|
    ensures MessageText(UserMessage(text)) == text
  {
    var m := UserMessage(text);
    assert m == (UserPrefix + OpenTag) + text + CloseTag;
    assert m[|UserPrefix + OpenTag|..|m| - |CloseTag|] == text;
  }

  function Request(cfg: ChatConfig, text: string): ChatRequest {
    SystemAndUser(cfg.endpointId, cfg.apiHost, cfg.systemMessage, UserMessage(text))
  }

  /** Different texts give different requests. */
  lemma RequestInjective(cfg: ChatConfig, a: string, b: string)
    requires Request(cfg, a) == Request(cfg, b)
    ensures a == b
  {
    assert UserMessage(a) == Request(cfg, a).messages[1].content;
    MessageTextRoundTrip(a);
    MessageTextRoundTrip(b);
  }

  /** One call: send the text, strip the tags from the reply. */
  function CorrectOne(complete: Completion, cfg: ChatConfig, text: string): Result<string, string> {
    var reply :- complete(Request(cfg, text));
    Success(StripNoteTags(reply))
  }

  /** The texts sent one after the other, in order; the first error ends the run. */
  function CorrectAll(complete: Completion, cfg: ChatConfig, texts: seq<string>)
    : (r: Result<seq<string>, string>)
    ensures r.Success? <==>
      forall i :: 0 <= i < |texts| ==> CorrectOne(complete, cfg, texts[i]).Success?
    ensures r.Success? ==>
      |r.value| == |texts|
      && forall i :: 0 <= i < |texts| ==> CorrectOne(complete, cfg, texts[i]) == Success(r.value[i])
    ensures r.Failure? ==>
      exists i :: 0 <= i < |texts| && CorrectOne(complete, cfg, texts[i]) == Failure(r.error)
        && forall j :: 0 <= j < i ==> CorrectOne(complete, cfg, texts[j]).Success?
    decreases |texts|
  {
    if texts == [] then Success([])
    else
      var first :- CorrectOne(complete, cfg, texts[0]);
      var rest :- CorrectAll(complete, cfg, texts[1..]);
      assert forall i :: 1 <= i < |texts| ==> texts[i] == texts[1..][i - 1];
      Success([first] + rest)
  }

  /** The loop shared by main and save_modified_notes: one request per text, replies
      stripped of their tags and collected in order. */
  method CorrectEach(complete: Completion, cfg: ChatConfig, texts: seq<string>)
    returns (r: Result<seq<string>, string>)
    ensures r == CorrectAll(complete, cfg, texts)
  {
    var done: seq<string> := [];
    var i := 0;
    while i < |texts|
      invariant 0 <= i <= |texts| && |done| == i
      invariant forall k :: 0 <= k < i ==> CorrectOne(complete, cfg, texts[k]) == Success(done[k])
    {
      var reply := complete(Request(cfg, texts[i]));
      if reply.Failure? {
        return Failure(reply.error);
      }
      done := done + [StripNoteTags(reply.value)];
      i := i + 1;
    }
    var all := CorrectAll(complete, cfg, texts);
    assert all.value == done;
    return Success(done);
  }

  // ---------------------------------------------------------------------------------------
  // main

  /** What main returns: note longer than maxLength is split with the default window of
      2000 (not with maxLength), corrected piece by piece and joined with "\n"; other notes
      are sent once. */
  function Corrected(complete: Completion, cfg: ChatConfig, note: string, maxLength: int)
    : Result<string, string>
  {
    if |note| > maxLength then
      var parts :- CorrectAll(complete, cfg, LongTextSegments(note, DefaultMaxLength));
      Success(Join("\n", parts))
    else CorrectOne(complete, cfg, note)
  }

  /** main(system_message, endpoint_id, api_host, note, max_length). */
  method CorrectNote(complete: Completion, cfg: ChatConfig, note: string, maxLength: int)
    returns (r: Result<string, string>)
    ensures r == Corrected(complete, cfg, note, maxLength)
  {
    if |note| > maxLength {
      var segments := SplitLongText(note, DefaultMaxLength);
      var parts := CorrectEach(complete, cfg, segments);
      if parts.Failure? {
        return Failure(parts.error);
      }
      r := Success(Join("\n", parts.value));
    } else {
      var reply := complete(Request(cfg, note));
      if reply.Failure? {
        return Failure(reply.error);
      }
      r := Success(StripNoteTags(reply.value));
    }
  }

  /** max_length only chooses the path: a note longer than max_length but no longer than
      2000 is still sent in one piece, exactly as on the short path. */
  lemma UnsplitUpToDefault(complete: Completion, cfg: ChatConfig, note: string, maxLength: int)
    requires maxLength < |note| <= DefaultMaxLength
    ensures Corrected(complete, cfg, note, maxLength) == CorrectOne(complete, cfg, note)
  {
    var all := CorrectAll(complete, cfg, [note]);
    assert [note][0] == note;
    if all.Success? {
      assert all.value == [all.value[0]];
    }
  }

  /** With a model that echoes the note back in tags, main gives back the note on the short
      path and the segments joined by "\n" on the long path. */
  lemma EchoRoundTrip(complete: Completion, cfg: ChatConfig, note: string, maxLength: int)
    requires forall t :: complete(Request(cfg, t)) == Success(OpenTag + t + CloseTag)
    ensures Corrected(complete, cfg, note, maxLength) ==
      Success(if |note| > maxLength then Join("\n", LongTextSegments(note, DefaultMaxLength))
              else note)
  {
    StripWrapped(note);
    if |note| > maxLength {
      var segs := LongTextSegments(note, DefaultMaxLength);
      forall i | 0 <= i < |segs| ensures CorrectOne(complete, cfg, segs[i]) == Success(segs[i]) {
        StripWrapped(segs[i]);
      }
      var all := CorrectAll(complete, cfg, segs);
      assert all.value == segs;
    }
  }

  // ---------------------------------------------------------------------------------------
  // save_modified_notes

  /** original_file.with_name(original_file.stem + "_modified.md"). */
  function ModifiedPath(original: Path): Path {
    WithName(original, Stem(original.name) + "_modified.md")
  }

  /** The output sits beside the input, its suffix is ".md" and its stem is the input's stem
      followed by "_modified". */
  lemma ModifiedPathShape(original: Path)
    ensures ModifiedPath(original).dir == original.dir
    ensures Suffix(ModifiedPath(original).name) == ".md"
    ensures Stem(ModifiedPath(original).name) == Stem(original.name) + "_modified"
  {
    var stem := Stem(original.name) + "_modified";
    var name := stem + ".md";
    assert ModifiedPath(original).name == name;
    assert name[..|name| - 1] == stem + ".m";
    assert (stem + ".m")[..|name| - 2] == stem + ".";
    assert RFind(stem + ".", '.') == |stem|;
    assert RFind(stem + ".m", '.') == |stem|;
    assert RFind(name, '.') == |stem|;
    assert name[..|stem|] == stem && name[|stem|..] == ".md";
  }

  /** What save_modified_notes writes. */
  function ModifiedNotes(complete: Completion, cfg: ChatConfig, original: Path, notes: seq<string>)
    : Result<Written, string>
  {
    var parts :- CorrectAll(complete, cfg, notes);
    Success(Written(ModifiedPath(original), Join("\n\n", parts)))
  }

  /** save_modified_notes: every note corrected in order, replies joined with a blank line. */
  method SaveModifiedNotes(complete: Completion, cfg: ChatConfig, original: Path, notes: seq<string>)
    returns (r: Result<Written, string>)
    ensures r == ModifiedNotes(complete, cfg, original, notes)
  {
    var parts := CorrectEach(complete, cfg, notes);
    if parts.Failure? {
      return Failure(parts.error);
    }
    var content := Join("\n\n", parts.value);
    r := Success(Written(ModifiedPath(original), content));
  }

  // ---------------------------------------------------------------------------------------
  // split_notes: re.split("(?m)^## ", content)

  const Heading: string := "## "

  /** The pieces of s, where lineStart says whether s begins at the start of a line. */
  function SplitFrom(s: string, lineStart: bool): (parts: seq<string>)
    ensures |parts| >= 1
    decreases |s|
  {
    if s == [] then [""]
    else if lineStart && StartsWith(s, Heading) then [""] + SplitFrom(s[|Heading|..], false)
    else
      var rest := SplitFrom(s[1..], s[0] == '\n');
      [[s[0]] + rest[0]] + rest[1..]
  }

  function SplitNotes(content: string): seq<string> {
    SplitFrom(content, true)
  }

  /** A "## " that starts a line begins at index i of s. */
  predicate HeadingAt(s: string, i: nat) {
    i + |Heading| <= |s| && s[i..i + |Heading|] == Heading && (i == 0 || s[i - 1] == '\n')
  }

  /** The number of indices from i on at which a line-start "## " begins. */
  function HeadingsFrom(s: string, i: nat): nat
    decreases |s| - i
  {
    if i >= |s| then 0 else (if HeadingAt(s, i) then 1 else 0) + HeadingsFrom(s, i + 1)
  }

  /** Joining the pieces with "## " gives back the content. */
  lemma {:induction false} SplitFromJoins(s: string, lineStart: bool)
    ensures Join(Heading, SplitFrom(s, lineStart)) == s
    decreases |s|
  {
    if s == [] {
    } else if lineStart && StartsWith(s, Heading) {
      SplitFromJoins(s[|Heading|..], false);
      JoinAtDelimiter(s, Heading, SplitFrom(s[|Heading|..], false));
    } else {
      SplitFromJoins(s[1..], s[0] == '\n');
      JoinPastChar(s, Heading, SplitFrom(s[1..], s[0] == '\n'));
    }
  }

  lemma SplitNotesJoins(content: string)
    ensures Join(Heading, SplitNotes(content)) == content
  {
    SplitFromJoins(content, true);
  }

  /** One piece more than there are line-start headings, counted from index i on. */
  lemma {:induction false} SplitFromCount(s: string, i: nat)
    requires i <= |s|
    ensures |SplitFrom(s[i..], i == 0 || s[i - 1] == '\n')| == 1 + HeadingsFrom(s, i)
    decreases |s| - i
  {
    var t := s[i..];
    var lineStart := i == 0 || s[i - 1] == '\n';
    if i == |s| {
      assert t == [];
    } else if lineStart && StartsWith(t, Heading) {
      assert t[..|Heading|] == s[i..i + |Heading|];
      assert HeadingAt(s, i);
      assert !HeadingAt(s, i + 1) && !HeadingAt(s, i + 2);
      assert HeadingsFrom(s, i + 2) == HeadingsFrom(s, i + 3);
      assert HeadingsFrom(s, i + 1) == HeadingsFrom(s, i + 3);
      assert t[|Heading|..] == s[i + 3..];
      SplitFromCount(s, i + 3);
    } else {
      assert !HeadingAt(s, i) by {
        if i + |Heading| <= |s| {
          assert t[..|Heading|] == s[i..i + |Heading|];
        }
      }
      assert t[1..] == s[i + 1..];
      SplitFromCount(s, i + 1);
    }
  }

  /** split_notes yields one piece more than the content has lines starting with "## ". */
  lemma SplitNotesCount(content: string)
    ensures |SplitNotes(content)| == 1 + HeadingsFrom(content, 0)
  {
    SplitFromCount(content, 0);
    assert content[0..] == content;
  }
}
