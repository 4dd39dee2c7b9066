/** The browser's tokenizers, over a map built from the channel's emotes. */
module EmoteText {
  import opened Text
  import opened Tokens
  import opened TokenLaws

  datatype ChannelEmote = ChannelEmote(name: string, url: string, zw: bool, emoteId: string, provider: string)

  type Lookup = map<string, ChannelEmote>

  function AsEmote(e: ChannelEmote): Emote {
    Emote(e.emoteId, e.url, e.zw, e.provider)
  }

  function AsDictionary(m: Lookup): (d: Dictionary)
    ensures forall name :: name in d <==> name in m
    ensures forall name :: name in m ==> d[name] == AsEmote(m[name])
  {
    map name | name in m :: AsEmote(m[name])
  }

  /** Last write wins; a nameless emote is left out. */
  function LookupOf(emotes: seq<ChannelEmote>): (m: Lookup)
    ensures "" !in m
  {
    if emotes == [] then map[]
    else
      var m := LookupOf(emotes[..|emotes| - 1]);
      var e := emotes[|emotes| - 1];
      if e.name == "" then m else m[e.name := e]
  }

  method BuildEmoteLookup(emotes: seq<ChannelEmote>) returns (m: Lookup)
    ensures m == LookupOf(emotes)
  {
    m := map[];
    for k := 0 to |emotes|
      invariant m == LookupOf(emotes[..k])
    {
      assert emotes[..k + 1][..k] == emotes[..k];
      if emotes[k].name != "" {
        m := m[emotes[k].name := emotes[k]];
      }
    }
    assert emotes[..|emotes|] == emotes;
  }

  datatype Overlay = Overlay(name: string, emote: ChannelEmote)

  function AsParts(overlays: seq<Overlay>): (parts: seq<Part>)
    ensures |parts| == |overlays|
    ensures forall i :: 0 <= i < |parts| ==> parts[i] == Part(overlays[i].name, AsEmote(overlays[i].emote))
  {
    seq(|overlays|, i requires 0 <= i < |overlays| => Part(overlays[i].name, AsEmote(overlays[i].emote)))
  }

  function AfterParts(overlays: seq<Overlay>, rest: Option<seq<Part>>): Option<seq<Part>> {
    if rest.None? then None else Some(AsParts(overlays) + rest.value)
  }

  lemma AfterPartsPush(overlays: seq<Overlay>, o: Overlay, rest: Option<seq<Part>>)
    ensures AfterParts(overlays, if rest.None? then None else Some([Part(o.name, AsEmote(o.emote))] + rest.value)) == AfterParts(overlays + [o], rest)
    ensures AfterParts([], rest) == rest
  {
    if rest.Some? {
      assert AsParts([]) + rest.value == rest.value;
      assert AsParts(overlays) + ([Part(o.name, AsEmote(o.emote))] + rest.value) == AsParts(overlays + [o]) + rest.value;
    }
  }

  method MatchZeroWidthChain(m: Lookup, text: string) returns (r: Option<seq<Overlay>>)
    ensures Chain(AsDictionary(m), text) == if r.None? then None else Some(AsParts(r.value))
  {
    ghost var d := AsDictionary(m);
    var parts := [];
    var remaining := text;
    AfterPartsPush([], Overlay("", ChannelEmote("", "", false, "", "")), Chain(d, text));
    while |remaining| > 0
      invariant Chain(d, text) == AfterParts(parts, Chain(d, remaining))
    {
      LongestUpToIsLongest(d, remaining, |remaining|);
      var bestLen := 0;
      var best := None;
      for size := 1 to |remaining| + 1
        invariant bestLen == LongestUpTo(d, remaining, size - 1) && bestLen <= size - 1
        invariant if bestLen == 0 then best.None? else IsZeroWidthName(d, remaining[..bestLen]) && best == Some(m[remaining[..bestLen]])
      {
        var name := remaining[..size];
        if name in m && m[name].zw {
          bestLen := size;
          best := Some(m[name]);
        }
      }
      if bestLen == 0 || best.None? {
        return None;
      }
      var part := Overlay(remaining[..bestLen], best.value);
      AfterPartsPush(parts, part, Chain(d, remaining[bestLen..]));
      parts := parts + [part];
      remaining := remaining[bestLen..];
    }
    assert AsParts(parts) + [] == AsParts(parts);
    return Some(parts);
  }

  datatype WordSplit = WordSplit(base: string, overlays: seq<Overlay>)

  method SplitZeroWidthSuffix(m: Lookup, word: string) returns (r: Option<WordSplit>)
    ensures SplitSuffix(AsDictionary(m), word) == if r.None? then None else Some(Split(r.value.base, AsParts(r.value.overlays)))
  {
    ghost var d := AsDictionary(m);
    var baseLen := |word| - 1;
    while baseLen > 0
      invariant -1 <= baseLen < |word|
      invariant if baseLen >= 0 then SplitSuffix(d, word) == SplitFrom(d, word, baseLen) else word == ""
    {
      var base := word[..baseLen];
      if base in m {
        var overlays := MatchZeroWidthChain(m, word[baseLen..]);
        if overlays.Some? {
          return Some(WordSplit(base, overlays.value));
        }
      }
      baseLen := baseLen - 1;
    }
    return None;
  }

  // ---------------------------------------------------------------- captions

  datatype Segment = TextSegment(value: string) | EmoteSegment(name: string, emote: ChannelEmote)

  function AsFragment(s: Segment): Fragment {
    match s
    case TextSegment(value) => TextFragment(value)
    case EmoteSegment(name, emote) => EmoteFragment(name, AsEmote(emote))
  }

  function AsFragments(ss: seq<Segment>): (fs: seq<Fragment>)
    ensures |fs| == |ss|
    ensures forall i :: 0 <= i < |fs| ==> fs[i] == AsFragment(ss[i])
  {
    seq(|ss|, i requires 0 <= i < |ss| => AsFragment(ss[i]))
  }

  lemma AsFragmentsPush(ss: seq<Segment>, s: Segment)
    ensures AsFragments(ss + [s]) == AsFragments(ss) + [AsFragment(s)]
  {
  }

  method FlushSegment(segments0: seq<Segment>, pending: string) returns (segments: seq<Segment>)
    ensures State(AsFragments(segments), "") == Flush(State(AsFragments(segments0), pending))
  {
    segments := segments0;
    if pending != "" {
      AsFragmentsPush(segments, TextSegment(pending));
      segments := segments + [TextSegment(pending)];
    }
  }

  method AddSegmentWord(m: Lookup, segments0: seq<Segment>, pending0: string, word: string) returns (segments: seq<Segment>, pending: string)
    ensures State(AsFragments(segments), pending) == Word(AsDictionary(m), false, State(AsFragments(segments0), pending0), word)
  {
    hide SplitSuffix, Overlays, AsFragments, AsParts, TrimSpace, IsSpace;
    segments, pending := segments0, pending0;
    if word in m {
      TrimSpaceEmpty(pending);
      if m[word].zw && |segments| > 0 && segments[|segments| - 1].EmoteSegment? && TrimSpace(pending) == "" {
        pending := "";
      }
      segments := FlushSegment(segments, pending);
      AsFragmentsPush(segments, EmoteSegment(word, m[word]));
      segments := segments + [EmoteSegment(word, m[word])];
      pending := "";
      return;
    }
    var split := SplitZeroWidthSuffix(m, word);
    if split.None? {
      pending := pending + word;
      return;
    }
    segments := FlushSegment(segments, pending);
    pending := "";
    AsFragmentsPush(segments, EmoteSegment(split.value.base, m[split.value.base]));
    segments := segments + [EmoteSegment(split.value.base, m[split.value.base])];
    segments := AddSegmentOverlays(segments, split.value.overlays);
  }

  method AddSegmentOverlays(segments0: seq<Segment>, overlays: seq<Overlay>) returns (segments: seq<Segment>)
    ensures AsFragments(segments) == AsFragments(segments0) + Overlays(AsParts(overlays))
  {
    segments := segments0;
    for k := 0 to |overlays|
      invariant AsFragments(segments) == AsFragments(segments0) + Overlays(AsParts(overlays))[..k]
    {
      AsFragmentsPush(segments, EmoteSegment(overlays[k].name, overlays[k].emote));
      segments := segments + [EmoteSegment(overlays[k].name, overlays[k].emote)];
    }
  }

  /** Caption and page text: the empty text has no segments. */
  method TokenizeEmoteText(text: string, emotes: seq<ChannelEmote>) returns (segments: seq<Segment>)
    ensures AsFragments(segments) == CaptionFragments(text, emotes)
  {
    if text == "" {
      return [];
    }
    if |emotes| == 0 {
      return [TextSegment(text)];
    }
    var m := BuildEmoteLookup(emotes);
    ghost var d := AsDictionary(m);
    segments := [];
    var pending := "";
    var index := 0;
    while index < |text|
      invariant 0 <= index <= |text|
      invariant Run(d, false, Start, text) == Run(d, false, State(AsFragments(segments), pending), text[index..])
    {
      var end := index;
      ghost var st := State(AsFragments(segments), pending);
      if text[index] == ' ' {
        while end < |text| && text[end] == ' '
          invariant index <= end <= |text| && forall k :: index <= k < end ==> text[k] == ' '
        {
          end := end + 1;
        }
        pending := pending + text[index..end];
      } else {
        while end < |text| && text[end] != ' '
          invariant index <= end <= |text| && forall k :: index <= k < end ==> text[k] != ' '
        {
          end := end + 1;
        }
        segments, pending := AddSegmentWord(m, segments, pending, text[index..end]);
      }
      RunStep(d, false, st, text, index, end);
      index := end;
    }
    segments := FlushSegment(segments, pending);
  }

  function CaptionFragments(text: string, emotes: seq<ChannelEmote>): seq<Fragment> {
    if text == "" then []
    else if emotes == [] then [TextFragment(text)]
    else Fragments(AsDictionary(LookupOf(emotes)), false, text)
  }

  // ---------------------------------------------------------------- messages sent from this browser

  method FlushFragment(fragments0: seq<Fragment>, pending: string) returns (fragments: seq<Fragment>)
    ensures State(fragments, "") == Flush(State(fragments0, pending))
  {
    fragments := fragments0;
    if pending != "" {
      fragments := fragments + [TextFragment(pending)];
    }
  }

  method AddFragmentWord(m: Lookup, fragments0: seq<Fragment>, pending0: string, word: string) returns (fragments: seq<Fragment>, pending: string)
    ensures State(fragments, pending) == Word(AsDictionary(m), false, State(fragments0, pending0), word)
  {
    hide SplitSuffix, TrimSpace, IsSpace;
    fragments, pending := fragments0, pending0;
    if word in m {
      TrimSpaceEmpty(pending);
      if m[word].zw && |fragments| > 0 && fragments[|fragments| - 1].t.EmoteKind? && TrimSpace(pending) == "" {
        pending := "";
      }
      fragments := FlushFragment(fragments, pending);
      fragments := fragments + [EmoteFragment(word, AsEmote(m[word]))];
      pending := "";
      return;
    }
    var split := SplitZeroWidthSuffix(m, word);
    if split.None? {
      pending := pending + word;
      return;
    }
    fragments := FlushFragment(fragments, pending);
    pending := "";
    fragments := fragments + [EmoteFragment(split.value.base, AsEmote(m[split.value.base]))];
    ghost var before := fragments;
    for k := 0 to |split.value.overlays|
      invariant fragments == before + Overlays(AsParts(split.value.overlays))[..k]
    {
      var o := split.value.overlays[k];
      fragments := fragments + [EmoteFragment(o.name, AsEmote(o.emote))];
    }
  }

  /** A message typed in this browser; with nothing loaded it is one text fragment. */
  method TokenizeClientSide(text: string, loadedEmotes: seq<ChannelEmote>) returns (r: seq<Fragment>)
    ensures r == ClientFragments(text, loadedEmotes)
  {
    if |loadedEmotes| == 0 {
      return [TextFragment(text)];
    }
    var m := BuildEmoteLookup(loadedEmotes);
    ghost var d := AsDictionary(m);
    var fragments := [];
    var pending := "";
    var index := 0;
    while index < |text|
      invariant 0 <= index <= |text|
      invariant Run(d, false, Start, text) == Run(d, false, State(fragments, pending), text[index..])
    {
      var end := index;
      ghost var st := State(fragments, pending);
      if text[index] == ' ' {
        while end < |text| && text[end] == ' '
          invariant index <= end <= |text| && forall k :: index <= k < end ==> text[k] == ' '
        {
          end := end + 1;
        }
        pending := pending + text[index..end];
      } else {
        while end < |text| && text[end] != ' '
          invariant index <= end <= |text| && forall k :: index <= k < end ==> text[k] != ' '
        {
          end := end + 1;
        }
        fragments, pending := AddFragmentWord(m, fragments, pending, text[index..end]);
      }
      RunStep(d, false, st, text, index, end);
      index := end;
    }
    fragments := FlushFragment(fragments, pending);
    if text != "" {
      NonemptyTextHasFragments(d, false, text);
    }
    return if |fragments| > 0 then fragments else [TextFragment(text)];
  }

  function ClientFragments(text: string, emotes: seq<ChannelEmote>): seq<Fragment> {
    if text == "" || emotes == [] then [TextFragment(text)]
    else Fragments(AsDictionary(LookupOf(emotes)), false, text)
  }

  // ---------------------------------------------------------------- agreement with the server

  /** A dictionary entry without a name is never used. */
  ghost predicate SameNames(d: Dictionary, e: Dictionary) {
    forall name :: name != "" ==> (name in d <==> name in e) && (name in d ==> d[name] == e[name])
  }

  lemma {:induction false} LongestIgnoresNameless(d: Dictionary, e: Dictionary, s: string, n: nat)
    requires SameNames(d, e) && n <= |s|
    ensures LongestUpTo(d, s, n) == LongestUpTo(e, s, n)
  {
    if n > 0 {
      LongestIgnoresNameless(d, e, s, n - 1);
      assert s[..n] != "";
    }
  }

  lemma {:induction false} ChainIgnoresNameless(d: Dictionary, e: Dictionary, s: string)
    requires SameNames(d, e)
    ensures Chain(d, s) == Chain(e, s)
    decreases |s|
  {
    LongestIgnoresNameless(d, e, s, |s|);
    var n := LongestUpTo(d, s, |s|);
    LongestUpToIsLongest(d, s, |s|);
    if s != "" && n > 0 {
      assert s[..n] != "";
      ChainIgnoresNameless(d, e, s[n..]);
    }
  }

  lemma {:induction false} SplitIgnoresNameless(d: Dictionary, e: Dictionary, word: string, baseLen: nat)
    requires SameNames(d, e) && baseLen <= |word|
    ensures SplitFrom(d, word, baseLen) == SplitFrom(e, word, baseLen)
    ensures baseLen < |word| && SplitFrom(d, word, baseLen).Some? ==> SplitFrom(d, word, baseLen).value.base != ""
  {
    if baseLen > 0 {
      assert word[..baseLen] != "";
      ChainIgnoresNameless(d, e, word[baseLen..]);
      SplitIgnoresNameless(d, e, word, baseLen - 1);
    }
  }

  lemma {:induction false} RunIgnoresNameless(d: Dictionary, e: Dictionary, mentions: bool, st: State, s: string)
    requires SameNames(d, e)
    ensures Run(d, mentions, st, s) == Run(e, mentions, st, s)
    decreases |s|
  {
    if s != "" {
      var spaces := s[0] == ' ';
      var n := StretchEnd(s, spaces, 0);
      var word := s[..n];
      SplitIgnoresNameless(d, e, word, |word| - 1);
      assert Word(d, mentions, st, word) == Word(e, mentions, st, word);
      RunIgnoresNameless(d, e, mentions, if spaces then st.(pending := st.pending + word) else Word(d, mentions, st, word), s[n..]);
    }
  }

  /** The emotes a browser has loaded are the entries of the server's dictionary. */
  ghost predicate SameEmotes(d: Dictionary, emotes: seq<ChannelEmote>) {
    SameNames(d, AsDictionary(LookupOf(emotes)))
  }

  lemma FragmentsWithoutEmotes(mentions: bool, text: string)
    requires text != ""
    ensures Normalize(Fragments(map[], mentions, text)) == [TextFragment(text)]
  {
    ServerAndBrowserAgree(map[], text);
    TokenizingIsExactWithoutZeroWidth(map[], mentions, text);
    var fs := Fragments(map[], mentions, text);
    FragmentsAreWellShaped(map[], mentions, text);
    NonemptyTextHasFragments(map[], mentions, text);
    NormalizePlain(fs);
  }

  lemma {:induction false} NormalizePlain(fs: seq<Fragment>)
    requires forall f :: f in fs ==> !f.t.EmoteKind?
    ensures Normalize(fs) == if fs == [] then [] else [TextFragment(Contents(fs))]
  {
    if fs != [] {
      var init := fs[..|fs| - 1];
      assert forall f :: f in init ==> f in fs;
      NormalizePlain(init);
      assert fs[|fs| - 1] in fs;
      if init == [] {
        assert "" + fs[0].c == fs[0].c;
      }
    }
  }

  /**
   Over the same emotes, joining the mentions and text of the server's
   fragments gives exactly the fragments of both browser tokenizers.
   */
  lemma ThreeTokenizersAgree(d: Dictionary, emotes: seq<ChannelEmote>, text: string)
    requires text != "" && SameEmotes(d, emotes)
    ensures Normalize(Fragments(d, true, text)) == ClientFragments(text, emotes) == CaptionFragments(text, emotes)
  {
    var e := AsDictionary(LookupOf(emotes));
    RunIgnoresNameless(d, e, true, Start, text);
    if emotes == [] {
      assert e == map[];
      FragmentsWithoutEmotes(true, text);
    } else {
      ServerAndBrowserAgree(e, text);
    }
  }
}
