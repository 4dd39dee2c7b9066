/** Laws of tokenizing: nothing but blanks is lost, and server and browser agree. */
module TokenLaws {
  import opened Text
  import opened Tokens

  // ---------------------------------------------------------------- nothing but blanks is lost

  /** The text that results from putting gap `i` back in front of fragment `i`. */
  ghost function Weave(gaps: seq<string>, frags: seq<Fragment>): string
    requires |gaps| == |frags|
  {
    if frags == [] then ""
    else
      var n := |frags| - 1;
      Weave(gaps[..n], frags[..n]) + gaps[n] + frags[n].c
  }

  /** A gap may only be a blank between an emote and a zero-width emote right after it. */
  ghost predicate GapsAreBlanks(gaps: seq<string>, frags: seq<Fragment>) {
    && |gaps| == |frags|
    && forall i :: 0 <= i < |gaps| && gaps[i] != "" ==>
      && Blank(gaps[i])
      && i > 0 && frags[i - 1].t.EmoteKind?
      && frags[i].t.EmoteKind? && frags[i].zw
  }

  /** `frags` spell out `text`, up to blanks between an emote and a zero-width emote. */
  ghost predicate Spells(frags: seq<Fragment>, text: string) {
    exists gaps :: GapsAreBlanks(gaps, frags) && Weave(gaps, frags) == text
  }

  ghost function NoGaps(n: nat): (r: seq<string>)
    ensures |r| == n && forall i :: 0 <= i < n ==> r[i] == ""
  {
    seq(n, i => "")
  }

  lemma {:induction false} WeaveAppend(g: seq<string>, a: seq<Fragment>, h: seq<string>, b: seq<Fragment>)
    requires |g| == |a| && |h| == |b|
    ensures Weave(g + h, a + b) == Weave(g, a) + Weave(h, b)
    decreases |b|
  {
    if b == [] {
      assert a + b == a && g + h == g;
    } else {
      var n := |a + b| - 1;
      assert (a + b)[..n] == a + b[..|b| - 1] && (g + h)[..n] == g + h[..|b| - 1];
      WeaveAppend(g, a, h[..|b| - 1], b[..|b| - 1]);
    }
  }

  lemma {:induction false} WeaveNoGaps(frags: seq<Fragment>)
    ensures Weave(NoGaps(|frags|), frags) == Contents(frags)
  {
    if frags != [] {
      var n := |frags| - 1;
      assert NoGaps(|frags|)[..n] == NoGaps(n);
      WeaveNoGaps(frags[..n]);
    }
  }

  lemma GapsAppend(g: seq<string>, a: seq<Fragment>, h: seq<string>, b: seq<Fragment>)
    requires GapsAreBlanks(g, a) && GapsAreBlanks(h, b)
    ensures GapsAreBlanks(g + h, a + b)
  {
    forall i | 0 <= i < |g + h| && (g + h)[i] != ""
      ensures Blank((g + h)[i]) && i > 0 && (a + b)[i - 1].t.EmoteKind? && (a + b)[i].t.EmoteKind? && (a + b)[i].zw
    {
      if i >= |g| {
        assert (g + h)[i] == h[i - |g|] && (a + b)[i] == b[i - |g|];
        assert (a + b)[i - 1] == b[i - |g| - 1];
      }
    }
  }

  lemma SpellsAppend(a: seq<Fragment>, s: string, b: seq<Fragment>, t: string)
    requires Spells(a, s) && Spells(b, t)
    ensures Spells(a + b, s + t)
  {
    var g :| GapsAreBlanks(g, a) && Weave(g, a) == s;
    var h :| GapsAreBlanks(h, b) && Weave(h, b) == t;
    WeaveAppend(g, a, h, b);
    GapsAppend(g, a, h, b);
  }

  lemma SpellsExactly(frags: seq<Fragment>)
    ensures Spells(frags, Contents(frags))
  {
    WeaveNoGaps(frags);
    assert GapsAreBlanks(NoGaps(|frags|), frags);
  }

  /** Without a zero-width fragment there are no gaps, so the contents are the text itself. */
  lemma SpellsWithoutZeroWidth(frags: seq<Fragment>, text: string)
    requires Spells(frags, text)
    requires forall f :: f in frags ==> !f.zw
    ensures Contents(frags) == text
  {
    var gaps :| GapsAreBlanks(gaps, frags) && Weave(gaps, frags) == text;
    assert gaps == NoGaps(|frags|) by {
      forall i | 0 <= i < |gaps| ensures gaps[i] == "" {
        assert frags[i] in frags;
      }
    }
    WeaveNoGaps(frags);
  }

  /** One fragment more, with `gap` in front of it. */
  lemma SpellsPush(frags: seq<Fragment>, text: string, gap: string, f: Fragment)
    requires Spells(frags, text)
    requires gap != "" ==> Blank(gap) && EndsInEmote(frags) && f.t.EmoteKind? && f.zw
    ensures Spells(frags + [f], text + gap + f.c)
  {
    var gaps :| GapsAreBlanks(gaps, frags) && Weave(gaps, frags) == text;
    WeaveAppend(gaps, frags, [gap], [f]);
    assert Weave([gap], [f]) == gap + f.c by {
      assert [f][..0] == [] && [gap][..0] == [];
    }
    assert text + (gap + f.c) == text + gap + f.c;
    assert GapsAreBlanks(gaps + [gap], frags + [f]);
  }

  /** Fragments and pending text together account for `text`. */
  ghost predicate Accounts(st: State, text: string) {
    exists t :: Spells(st.frags, t) && t + st.pending == text
  }

  lemma AccountsFlush(st: State, text: string)
    requires Accounts(st, text)
    ensures Spells(Flush(st).frags, text)
  {
    var t :| Spells(st.frags, t) && t + st.pending == text;
    if st.pending == "" {
      assert t + st.pending == t;
    } else {
      SpellsPush(st.frags, t, "", TextFragment(st.pending));
      assert t + "" == t;
    }
  }

  lemma AccountsPending(st: State, text: string, more: string)
    requires Accounts(st, text)
    ensures Accounts(st.(pending := st.pending + more), text + more)
  {
    var t :| Spells(st.frags, t) && t + st.pending == text;
    assert t + (st.pending + more) == text + more;
  }

  lemma AccountsPush(st: State, text: string, f: Fragment, pending: string)
    requires Accounts(st, text)
    ensures Accounts(State(Flush(st).frags + [f], pending), text + f.c + pending)
  {
    AccountsFlush(st, text);
    SpellsPush(Flush(st).frags, text, "", f);
    assert text + "" == text;
  }

  lemma AccountsEmote(d: Dictionary, st: State, text: string, word: string)
    requires word in d && Accounts(st, text)
    ensures Accounts(PushEmote(d, DropBlank(st, d[word]), word), text + word)
  {
    var f := EmoteFragment(word, d[word]);
    if DropBlank(st, d[word]) == st {
      AccountsPush(st, text, f, "");
      assert text + word + "" == text + word;
    } else {
      var t :| Spells(st.frags, t) && t + st.pending == text;
      SpellsPush(st.frags, t, st.pending, f);
      assert text + word + "" == text + word;
    }
  }

  lemma {:induction false} OverlayContents(parts: seq<Part>)
    ensures Contents(Overlays(parts)) == Names(parts)
  {
    if parts != [] {
      var head := [EmoteFragment(parts[0].name, parts[0].emote)];
      assert Overlays(parts) == head + Overlays(parts[1..]);
      ContentsAppend(head, Overlays(parts[1..]));
      OverlayContents(parts[1..]);
      assert Contents(head) == parts[0].name by { assert head[..0] == []; }
    }
  }

  lemma AccountsOverlays(st: State, text: string, parts: seq<Part>)
    requires st.pending == "" && Accounts(st, text)
    ensures Accounts(st.(frags := st.frags + Overlays(parts)), text + Names(parts))
  {
    AccountsFlush(st, text);
    SpellsExactly(Overlays(parts));
    OverlayContents(parts);
    SpellsAppend(st.frags, text, Overlays(parts), Names(parts));
    assert text + Names(parts) + "" == text + Names(parts);
  }

  lemma AccountsSplit(d: Dictionary, st: State, text: string, s: Split)
    requires s.base in d && Accounts(st, text)
    ensures Accounts(PushSplit(d, st, s), text + (s.base + Names(s.overlays)))
  {
    AccountsPush(st, text, EmoteFragment(s.base, d[s.base]), "");
    assert text + s.base + "" == text + s.base;
    AccountsOverlays(PushEmote(d, st, s.base), text + s.base, s.overlays);
    assert text + s.base + Names(s.overlays) == text + (s.base + Names(s.overlays));
  }

  lemma AccountsWord(d: Dictionary, mentions: bool, st: State, word: string, text: string)
    requires Accounts(st, text)
    ensures Accounts(Word(d, mentions, st, word), text + word)
  {
    if word in d {
      AccountsEmote(d, st, text, word);
    } else if SplitSuffix(d, word).Some? {
      SplitSuffixIsLongest(d, word);
      AccountsSplit(d, st, text, SplitSuffix(d, word).value);
    } else if mentions && MentionLen(word) > 0 {
      var n := MentionLen(word);
      AccountsPush(st, text, MentionFragment(word[..n]), word[n..]);
      assert text + word[..n] + word[n..] == text + word;
    } else {
      AccountsPending(st, text, word);
    }
  }

  lemma {:induction false} AccountsRun(d: Dictionary, mentions: bool, st: State, s: string, text: string)
    requires Accounts(st, text)
    ensures Accounts(Run(d, mentions, st, s), text + s)
    decreases |s|
  {
    if s == "" {
      assert text + s == text;
    } else {
      var spaces := s[0] == ' ';
      var n := StretchEnd(s, spaces, 0);
      assert text + s[..n] + s[n..] == text + s;
      if spaces {
        AccountsPending(st, text, s[..n]);
        AccountsRun(d, mentions, st.(pending := st.pending + s[..n]), s[n..], text + s[..n]);
      } else {
        AccountsWord(d, mentions, st, s[..n], text);
        AccountsRun(d, mentions, Word(d, mentions, st, s[..n]), s[n..], text + s[..n]);
      }
    }
  }

  /** Tokenizing loses nothing but blanks between an emote and a zero-width emote. */
  lemma TokenizingIsLossless(d: Dictionary, mentions: bool, text: string)
    ensures Spells(Fragments(d, mentions, text), text)
  {
    SpellsExactly([]);
    assert "" + Start.pending == "";
    assert Accounts(Start, "");
    AccountsRun(d, mentions, Start, text, "");
    assert "" + text == text;
    AccountsFlush(Run(d, mentions, Start, text), text);
  }

  // ---------------------------------------------------------------- shape of the fragments

  /** Every fragment has content, two text fragments are never adjacent, and emotes are dictionary entries. */
  ghost predicate WellShaped(d: Dictionary, frags: seq<Fragment>) {
    && (forall i :: 0 <= i < |frags| ==> frags[i].c != "")
    && (forall i :: 0 < i < |frags| && frags[i].t.TextKind? ==> !frags[i - 1].t.TextKind?)
    && (forall i :: 0 <= i < |frags| ==>
      if frags[i].t.EmoteKind? then frags[i].c in d && frags[i] == EmoteFragment(frags[i].c, d[frags[i].c])
      else !frags[i].zw)
  }

  ghost predicate Open(d: Dictionary, st: State) {
    WellShaped(d, st.frags) && (st.frags != [] ==> !st.frags[|st.frags| - 1].t.TextKind?)
  }

  lemma PushEmoteKeepsShape(d: Dictionary, st: State, name: string)
    requires name != "" && name in d && Open(d, st)
    ensures Open(d, PushEmote(d, st, name))
  {
  }

  lemma PushEmotesKeepShape(d: Dictionary, st: State, fs: seq<Fragment>)
    requires Open(d, st)
    requires forall i :: 0 <= i < |fs| ==> fs[i].t.EmoteKind? && fs[i].c != "" && fs[i].c in d && fs[i] == EmoteFragment(fs[i].c, d[fs[i].c])
    ensures Open(d, st.(frags := st.frags + fs))
  {
  }

  lemma SplitKeepsShape(d: Dictionary, st: State, word: string)
    requires Open(d, st) && SplitSuffix(d, word).Some?
    ensures Open(d, PushSplit(d, st, SplitSuffix(d, word).value))
  {
    hide Open, PushEmote, SplitSuffix;
    SplitSuffixIsLongest(d, word);
    var s := SplitSuffix(d, word).value;
    GreedyChainNames(d, word[|s.base|..], s.overlays);
    PushEmoteKeepsShape(d, st, s.base);
    PushEmotesKeepShape(d, PushEmote(d, st, s.base), Overlays(s.overlays));
  }

  lemma WordKeepsShape(d: Dictionary, mentions: bool, st: State, word: string)
    requires word != "" && Open(d, st)
    ensures Open(d, Word(d, mentions, st, word))
  {
    hide SplitSuffix, PushSplit;
    if word in d {
      PushEmoteKeepsShape(d, DropBlank(st, d[word]), word);
    } else if SplitSuffix(d, word).Some? {
      SplitKeepsShape(d, st, word);
    }
  }

  lemma {:induction false} RunKeepsShape(d: Dictionary, mentions: bool, st: State, s: string)
    requires Open(d, st)
    ensures Open(d, Run(d, mentions, st, s))
    decreases |s|
  {
    if s != "" {
      var spaces := s[0] == ' ';
      var n := StretchEnd(s, spaces, 0);
      if !spaces {
        WordKeepsShape(d, mentions, st, s[..n]);
      }
      RunKeepsShape(d, mentions, if spaces then st.(pending := st.pending + s[..n]) else Word(d, mentions, st, s[..n]), s[n..]);
    }
  }

  lemma FragmentsAreWellShaped(d: Dictionary, mentions: bool, text: string)
    ensures WellShaped(d, Fragments(d, mentions, text))
  {
    RunKeepsShape(d, mentions, Start, text);
  }

  /** With no zero-width name in the dictionary the fragments spell exactly the text. */
  lemma TokenizingIsExactWithoutZeroWidth(d: Dictionary, mentions: bool, text: string)
    requires forall name :: name in d ==> !d[name].zw
    ensures Contents(Fragments(d, mentions, text)) == text
  {
    TokenizingIsLossless(d, mentions, text);
    FragmentsAreWellShaped(d, mentions, text);
    SpellsWithoutZeroWidth(Fragments(d, mentions, text), text);
  }

  // ---------------------------------------------------------------- server and browser agree

  function Join(acc: seq<Fragment>, f: Fragment): seq<Fragment> {
    if f.t.EmoteKind? then acc + [f]
    else if acc != [] && acc[|acc| - 1].t.TextKind? then
      acc[..|acc| - 1] + [TextFragment(acc[|acc| - 1].c + f.c)]
    else acc + [TextFragment(f.c)]
  }

  /** Mentions become text and adjacent text is joined. */
  function Normalize(frags: seq<Fragment>): seq<Fragment> {
    if frags == [] then [] else Join(Normalize(frags[..|frags| - 1]), frags[|frags| - 1])
  }

  lemma NormalizePush(frags: seq<Fragment>, f: Fragment)
    ensures Normalize(frags + [f]) == Join(Normalize(frags), f)
  {
    assert (frags + [f])[..|frags|] == frags;
  }

  lemma ContentsPush(frags: seq<Fragment>, f: Fragment)
    ensures Contents(frags + [f]) == Contents(frags) + f.c
  {
    assert (frags + [f])[..|frags|] == frags;
  }

  lemma JoinKeepsContents(acc: seq<Fragment>, f: Fragment)
    ensures Contents(Join(acc, f)) == Contents(acc) + f.c
  {
    if f.t.EmoteKind? {
      ContentsPush(acc, f);
    } else if acc != [] && acc[|acc| - 1].t.TextKind? {
      var init, last := acc[..|acc| - 1], acc[|acc| - 1];
      ContentsPush(init, TextFragment(last.c + f.c));
      assert Contents(init) + (last.c + f.c) == Contents(init) + last.c + f.c;
    } else {
      ContentsPush(acc, TextFragment(f.c));
    }
  }

  lemma {:induction false} NormalizeKeepsContents(frags: seq<Fragment>)
    ensures Contents(Normalize(frags)) == Contents(frags)
  {
    if frags != [] {
      NormalizeKeepsContents(frags[..|frags| - 1]);
      JoinKeepsContents(Normalize(frags[..|frags| - 1]), frags[|frags| - 1]);
    }
  }

  lemma HeadThenRest<T>(a: seq<T>, b: seq<T>)
    requires b != []
    ensures a + b == a + [b[0]] + b[1..]
  {
  }

  lemma {:induction false} NormalizePushEmotes(frags: seq<Fragment>, fs: seq<Fragment>)
    requires forall i :: 0 <= i < |fs| ==> fs[i].t.EmoteKind?
    ensures Normalize(frags + fs) == Normalize(frags) + fs
    decreases |fs|
  {
    if fs == [] {
      assert frags + fs == frags;
    } else {
      HeadThenRest(frags, fs);
      HeadThenRest(Normalize(frags), fs);
      NormalizePush(frags, fs[0]);
      NormalizePushEmotes(frags + [fs[0]], fs[1..]);
    }
  }

  ghost function TextTail(t: string): seq<Fragment> {
    if t == "" then [] else [TextFragment(t)]
  }

  lemma NormalizePushPlain(frags: seq<Fragment>, base: seq<Fragment>, t: string, f: Fragment)
    requires Normalize(frags) == base + TextTail(t)
    requires base == [] || EndsInEmote(base)
    requires !f.t.EmoteKind? && f.c != ""
    ensures Normalize(frags + [f]) == base + TextTail(t + f.c)
  {
    NormalizePush(frags, f);
    if t == "" {
      assert t + f.c == f.c;
    } else {
      assert (base + TextTail(t))[..|base|] == base;
    }
  }

  /**
   The server state `go` and the browser state `ts` after the same text: `tail`
   is what the server has already split off as text and mentions after its last
   emote, and the browser still holds back.
   */
  ghost predicate Simulates(go: State, ts: State, tail: string) {
    && Normalize(go.frags) == ts.frags + TextTail(tail)
    && ts.pending == tail + go.pending
    && (ts.frags == [] || EndsInEmote(ts.frags))
    && (go.frags == [] <==> ts.frags == [] && tail == "")
    && (EndsInEmote(go.frags) <==> EndsInEmote(ts.frags) && tail == "")
    && (tail != "" ==> !Blank(tail))
  }

  lemma FlushSimulates(go: State, ts: State, tail: string)
    requires Simulates(go, ts, tail)
    ensures Normalize(Flush(go).frags) == Flush(ts).frags
  {
    if go.pending == "" {
      assert ts.pending == tail;
    } else {
      NormalizePushPlain(go.frags, ts.frags, tail, TextFragment(go.pending));
    }
  }

  lemma BlankTail(tail: string, pending: string)
    requires tail != "" ==> !Blank(tail)
    ensures Blank(tail + pending) <==> tail == "" && Blank(pending)
  {
    if tail == "" {
      assert tail + pending == pending;
    } else {
      var i :| 0 <= i < |tail| && !IsSpace(tail[i]);
      assert (tail + pending)[i] == tail[i];
    }
  }

  lemma DropBlankSimulates(go: State, ts: State, tail: string, e: Emote)
    requires Simulates(go, ts, tail)
    ensures Simulates(DropBlank(go, e), DropBlank(ts, e), tail)
  {
    BlankTail(tail, go.pending);
  }

  lemma PushEmoteSimulates(d: Dictionary, go: State, ts: State, tail: string, name: string)
    requires name in d && Simulates(go, ts, tail)
    ensures Simulates(PushEmote(d, go, name), PushEmote(d, ts, name), "")
  {
    FlushSimulates(go, ts, tail);
    NormalizePush(Flush(go).frags, EmoteFragment(name, d[name]));
  }

  lemma PushEmotesSimulates(go: State, ts: State, fs: seq<Fragment>)
    requires Simulates(go, ts, "") && EndsInEmote(go.frags)
    requires forall i :: 0 <= i < |fs| ==> fs[i].t.EmoteKind?
    ensures Simulates(go.(frags := go.frags + fs), ts.(frags := ts.frags + fs), "")
  {
    NormalizePushEmotes(go.frags, fs);
    assert ts.frags + TextTail("") == ts.frags;
  }

  lemma WordSimulates(d: Dictionary, go: State, ts: State, tail: string, word: string) returns (tail': string)
    requires Simulates(go, ts, tail)
    ensures Simulates(Word(d, true, go, word), Word(d, false, ts, word), tail')
  {
    tail' := "";
    if word in d {
      DropBlankSimulates(go, ts, tail, d[word]);
      PushEmoteSimulates(d, DropBlank(go, d[word]), DropBlank(ts, d[word]), tail, word);
    } else if SplitSuffix(d, word).Some? {
      var s := SplitSuffix(d, word).value;
      PushEmoteSimulates(d, go, ts, tail, s.base);
      PushEmotesSimulates(PushEmote(d, go, s.base), PushEmote(d, ts, s.base), Overlays(s.overlays));
    } else if MentionLen(word) > 0 {
      tail' := tail + go.pending + word[..MentionLen(word)];
      MentionSimulates(go, ts, tail, word);
    } else {
      tail' := tail;
      assert tail + (go.pending + word) == ts.pending + word;
    }
  }

  /** Flushing the server's pending text moves it to the tail. */
  lemma FlushToTail(go: State, ts: State, tail: string)
    requires Simulates(go, ts, tail)
    ensures Normalize(Flush(go).frags) == ts.frags + TextTail(tail + go.pending)
  {
    if go.pending == "" {
      assert tail + go.pending == tail;
    } else {
      NormalizePushPlain(go.frags, ts.frags, tail, TextFragment(go.pending));
    }
  }

  lemma MentionText(text: string, word: string)
    requires MentionLen(word) > 0
    ensures !Blank(text + word[..MentionLen(word)])
    ensures text + word == text + word[..MentionLen(word)] + word[MentionLen(word)..]
  {
    assert (text + word[..MentionLen(word)])[|text|] == '@';
  }

  lemma MentionSimulates(go: State, ts: State, tail: string, word: string)
    requires Simulates(go, ts, tail) && MentionLen(word) > 0
    ensures Simulates(PushMention(go, word, MentionLen(word)), ts.(pending := ts.pending + word),
                      tail + go.pending + word[..MentionLen(word)])
  {
    FlushToTail(go, ts, tail);
    NormalizePushPlain(Flush(go).frags, ts.frags, tail + go.pending, MentionFragment(word[..MentionLen(word)]));
    MentionText(tail + go.pending, word);
  }

  lemma {:induction false} RunSimulates(d: Dictionary, go: State, ts: State, tail: string, s: string)
    requires Simulates(go, ts, tail)
    ensures exists tail' :: Simulates(Run(d, true, go, s), Run(d, false, ts, s), tail')
    decreases |s|
  {
    if s == "" {
      assert Simulates(Run(d, true, go, s), Run(d, false, ts, s), tail);
    } else {
      var spaces := s[0] == ' ';
      var n := StretchEnd(s, spaces, 0);
      var go1 := if spaces then go.(pending := go.pending + s[..n]) else Word(d, true, go, s[..n]);
      var ts1 := if spaces then ts.(pending := ts.pending + s[..n]) else Word(d, false, ts, s[..n]);
      var tail1 := tail;
      if spaces {
        assert tail + (go.pending + s[..n]) == ts.pending + s[..n];
      } else {
        tail1 := WordSimulates(d, go, ts, tail, s[..n]);
      }
      RunSimulates(d, go1, ts1, tail1, s[n..]);
      assert Run(d, true, go, s) == Run(d, true, go1, s[n..]);
      assert Run(d, false, ts, s) == Run(d, false, ts1, s[n..]);
    }
  }

  /** Joining the server's mentions and text gives exactly the browser's fragments. */
  lemma ServerAndBrowserAgree(d: Dictionary, text: string)
    ensures Normalize(Fragments(d, true, text)) == Fragments(d, false, text)
  {
    assert Simulates(Start, Start, "");
    RunSimulates(d, Start, Start, "", text);
    var go, ts := Run(d, true, Start, text), Run(d, false, Start, text);
    var tail :| Simulates(go, ts, tail);
    FlushSimulates(go, ts, tail);
  }

  /** Server and browser fragments of one message have the same contents. */
  lemma ServerAndBrowserContentsAgree(d: Dictionary, text: string)
    ensures Contents(Fragments(d, true, text)) == Contents(Fragments(d, false, text))
  {
    ServerAndBrowserAgree(d, text);
    NormalizeKeepsContents(Fragments(d, true, text));
  }

  /** A nonempty message has fragments. */
  lemma NonemptyTextHasFragments(d: Dictionary, mentions: bool, text: string)
    requires text != ""
    ensures Fragments(d, mentions, text) != []
  {
    TokenizingIsLossless(d, mentions, text);
    var gaps :| GapsAreBlanks(gaps, Fragments(d, mentions, text)) && Weave(gaps, Fragments(d, mentions, text)) == text;
  }
}
