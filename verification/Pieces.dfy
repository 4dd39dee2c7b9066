/** Which words of a message become which fragments, as a matter of the text and the dictionary alone. */
module Pieces {
  import opened Text
  import opened Tokens
  import opened Blanks
  import TokenLaws

  // ---------------------------------------------------------------- what a word gives

  ghost predicate IsEmoteOf(d: Dictionary, name: string, f: Fragment) {
    name in d && f == Fragment(EmoteKind, name, d[name].url, d[name].zw, d[name].id, d[name].provider)
  }

  /** The longest base that leaves a chain of zero-width names. */
  ghost predicate LongestSplit(d: Dictionary, word: string, k: nat, parts: seq<Part>) {
    Splits(d, word, k, parts) && forall k': nat, parts' :: Splits(d, word, k', parts') ==> k' <= k
  }

  /** One emote for the base and one for each name of the chain. */
  ghost predicate GivesSplit(d: Dictionary, word: string, k: nat, parts: seq<Part>, frags: seq<Fragment>) {
    && LongestSplit(d, word, k, parts) && |frags| == |parts| + 1
    && IsEmoteOf(d, word[..k], frags[0])
    && forall i :: 0 <= i < |parts| ==> IsEmoteOf(d, parts[i].name, frags[i + 1])
  }

  /** The first `n` runes are an at sign and a name, and the name ends there. */
  ghost predicate IsMention(word: string, n: nat) {
    && 2 <= n <= |word| && word[0] == '@'
    && (forall k :: 1 <= k < n ==> IsMentionChar(word[k]))
    && (n < |word| ==> !IsMentionChar(word[n]))
  }

  /**
   The first `n` runes of the word become `frags`: a name is its one emote, any
   other word that splits is its base and overlays, and what remains starts with
   a mention or gives nothing.
   */
  ghost predicate Gives(d: Dictionary, mentions: bool, word: string, n: nat, frags: seq<Fragment>) {
    if word in d then n == |word| && |frags| == 1 && IsEmoteOf(d, word, frags[0])
    else if exists k: nat, parts :: Splits(d, word, k, parts) then
      n == |word| && exists k: nat, parts :: GivesSplit(d, word, k, parts, frags)
    else mentions && IsMention(word, n) && frags == [Fragment(MentionKind, word[..n], "", false, "", "")]
  }

  lemma MentionLenIs(word: string, n: nat)
    ensures IsMention(word, n) <==> n > 0 && n == MentionLen(word)
  {
  }

  lemma SplitIsLongest(d: Dictionary, word: string)
    requires SplitSuffix(d, word).Some?
    ensures
      var s := SplitSuffix(d, word).value;
      |s.base| <= |word| && s.base == word[..|s.base|] && LongestSplit(d, word, |s.base|, s.overlays) && s.base + Names(s.overlays) == word
  {
    hide SplitSuffix, Splits, Names;
    SplitSuffixIsLongest(d, word);
  }

  lemma SplitIsGiven(d: Dictionary, word: string)
    requires SplitSuffix(d, word).Some?
    ensures
      var s := SplitSuffix(d, word).value;
      && s.base in d && Splits(d, word, |s.base|, s.overlays)
      && GivesSplit(d, word, |s.base|, s.overlays, [EmoteFragment(s.base, d[s.base])] + Overlays(s.overlays))
  {
    hide SplitSuffix, Splits, Names, GivesSplit, Overlays;
    SplitIsLongest(d, word);
    var s := SplitSuffix(d, word).value;
    ChainGivesOverlays(d, word, |s.base|, s.overlays);
  }

  lemma SplitSpellsWord(d: Dictionary, base: string, parts: seq<Part>)
    requires base in d
    ensures Contents([EmoteFragment(base, d[base])] + Overlays(parts)) == base + Names(parts)
  {
    hide Overlays, Names;
    TokenLaws.OverlayContents(parts);
    ContentsAppend([EmoteFragment(base, d[base])], Overlays(parts));
    OneContents(EmoteFragment(base, d[base]));
  }

  lemma OneContents(f: Fragment)
    ensures Contents([f]) == f.c
  {
    assert [f][..0] == [];
  }

  lemma ChainGivesOverlays(d: Dictionary, word: string, k: nat, parts: seq<Part>)
    requires LongestSplit(d, word, k, parts)
    ensures word[..k] in d && GivesSplit(d, word, k, parts, [EmoteFragment(word[..k], d[word[..k]])] + Overlays(parts))
  {
    GreedyChainNames(d, word[k..], parts);
    hide IsGreedyChain, Names;
  }

  lemma NoSplit(d: Dictionary, word: string)
    ensures SplitSuffix(d, word).Some? <==> exists k: nat, parts :: Splits(d, word, k, parts)
  {
    hide SplitSuffix, Splits;
    SplitSuffixIsLongest(d, word);
  }

  /** What is given is what the case distinction of the run says. */
  lemma GivesIs(d: Dictionary, mentions: bool, word: string)
    ensures word in d ==> Gives(d, mentions, word, |word|, [EmoteFragment(word, d[word])])
    ensures word !in d && SplitSuffix(d, word).Some? ==>
      var s := SplitSuffix(d, word).value;
      s.base in d && Gives(d, mentions, word, |word|, [EmoteFragment(s.base, d[s.base])] + Overlays(s.overlays))
    ensures word !in d && SplitSuffix(d, word).None? && mentions && MentionLen(word) > 0 ==>
      Gives(d, mentions, word, MentionLen(word), [MentionFragment(word[..MentionLen(word)])])
    ensures word !in d && SplitSuffix(d, word).None? && !(mentions && MentionLen(word) > 0) ==>
      forall n: nat, frags :: !Gives(d, mentions, word, n, frags)
  {
    hide SplitSuffix, Splits, MentionLen, IsMention, GivesSplit;
    NoSplit(d, word);
    if SplitSuffix(d, word).Some? {
      SplitIsGiven(d, word);
    }
    forall n {
      MentionLenIs(word, n);
    }
  }

  lemma SplitsAreUnique(d: Dictionary, word: string, k: nat, parts: seq<Part>, frags: seq<Fragment>, k': nat, parts': seq<Part>, frags': seq<Fragment>)
    requires GivesSplit(d, word, k, parts, frags) && GivesSplit(d, word, k', parts', frags')
    ensures frags == frags'
  {
    ChainIsGreedy(d, word[k..], parts);
    ChainIsGreedy(d, word[k..], parts');
    hide IsGreedyChain, Chain;
    assert k == k' && parts == parts';
    hide LongestSplit;
    forall i | 0 <= i < |frags|
      ensures frags[i] == frags'[i]
    {
      assert i > 0 ==> IsEmoteOf(d, parts[i - 1].name, frags[i - 1 + 1]) && IsEmoteOf(d, parts[i - 1].name, frags'[i - 1 + 1]);
    }
  }

  /** A word gives one thing at most. */
  lemma GivesOnce(d: Dictionary, mentions: bool, word: string, n: nat, frags: seq<Fragment>, n': nat, frags': seq<Fragment>)
    requires Gives(d, mentions, word, n, frags) && Gives(d, mentions, word, n', frags')
    ensures n == n' && frags == frags'
  {
    hide Splits, IsMention, GivesSplit;
    if word in d {
    } else if exists k: nat, parts :: Splits(d, word, k, parts) {
      var k: nat, parts :| GivesSplit(d, word, k, parts, frags);
      var k': nat, parts' :| GivesSplit(d, word, k', parts', frags');
      SplitsAreUnique(d, word, k, parts, frags, k', parts', frags');
    } else {
      MentionLenIs(word, n);
      MentionLenIs(word, n');
    }
  }

  // ---------------------------------------------------------------- the pieces of a text

  /** `text[from..end]` becomes `frags`. */
  datatype Cut = Cut(from: nat, end: nat, frags: seq<Fragment>)

  /** The cut is what its word gives. */
  ghost predicate CutOf(d: Dictionary, mentions: bool, text: string, b: int, c: Cut) {
    IsWord(text, c.from, b) && c.from < c.end <= b && Gives(d, mentions, text[c.from..b], c.end - c.from, c.frags)
  }

  /** Some word up to `i` gives the cut. */
  ghost predicate Given(d: Dictionary, mentions: bool, text: string, i: int, c: Cut) {
    exists b :: b <= i && CutOf(d, mentions, text, b, c)
  }

  function Last(cuts: seq<Cut>): nat {
    if cuts == [] then 0 else cuts[|cuts| - 1].end
  }

  /** The cuts are exactly what the words up to `i` give, from left to right. */
  ghost predicate AreCuts(d: Dictionary, mentions: bool, text: string, i: int, cuts: seq<Cut>) {
    && (forall c :: c in cuts <==> Given(d, mentions, text, i, c))
    && (forall k :: 0 < k < |cuts| ==> cuts[k - 1].end <= cuts[k].from)
  }

  function Plain(t: string): seq<Fragment> {
    if t == "" then [] else [Fragment(TextKind, t, "", false, "", "")]
  }

  /** The fragments of the cuts, with what the text keeps between them as text. */
  function Laid(text: string, gone: set<int>, cuts: seq<Cut>): seq<Fragment>
    requires forall k :: 0 <= k < |cuts| ==> cuts[k].from <= cuts[k].end <= |text|
    requires forall k :: 0 < k < |cuts| ==> cuts[k - 1].end <= cuts[k].from
  {
    if cuts == [] then []
    else
      var init, c := cuts[..|cuts| - 1], cuts[|cuts| - 1];
      Laid(text, gone, init) + Plain(Keep(text, gone, Last(init), c.from)) + c.frags
  }

  lemma CutsFit(d: Dictionary, mentions: bool, text: string, i: int, cuts: seq<Cut>)
    requires i <= |text| && AreCuts(d, mentions, text, i, cuts)
    ensures forall k :: 0 <= k < |cuts| ==> cuts[k].from <= cuts[k].end <= i
    ensures cuts != [] ==> Last(cuts) <= i
  {
    hide Gives, IsWord;
    forall k | 0 <= k < |cuts|
      ensures cuts[k].from <= cuts[k].end <= i
    {
      assert cuts[k] in cuts;
      assert Given(d, mentions, text, i, cuts[k]);
    }
  }

  /** The run has laid the cuts up to `i`. */
  ghost predicate Lays(d: Dictionary, mentions: bool, text: string, i: nat, cuts: seq<Cut>, st: State)
    requires i <= |text|
  {
    && AreCuts(d, mentions, text, i, cuts)
    && (forall k :: 0 <= k < |cuts| ==> cuts[k].from <= cuts[k].end <= i)
    && st.frags == Laid(text, Dropped(d, text), cuts)
    && Contents(st.frags) == Keep(text, Dropped(d, text), 0, Last(cuts))
  }

  lemma Cancel(a: string, p: string, q: string, t: string)
    requires a + p + t == a + q + t
    ensures p == q
  {
    assert (a + p + t)[|a|..|a| + |p|] == p && (a + q + t)[|a|..|a| + |q|] == q;
    assert |p| == |q|;
  }

  lemma CancelEnd(p: string, q: string, t: string)
    requires p + t == q + t
    ensures p == q
  {
    assert (p + t)[..|p|] == p && (q + t)[..|q|] == q;
  }

  /** What lies in front of a cut is what the text keeps there, for the contents agree up to its end. */
  lemma InFrontOfCut(d: Dictionary, text: string, last: nat, c: Cut, before: seq<Fragment>, pending: string)
    requires last <= c.from <= c.end <= |text| && Contents(before) == Keep(text, Dropped(d, text), 0, last)
    requires Contents(c.frags) == text[c.from..c.end] && forall p :: c.from <= p < c.end ==> !Drops(d, text, p)
    requires Contents(before + Plain(pending) + c.frags) == Keep(text, Dropped(d, text), 0, c.end)
    ensures pending == Keep(text, Dropped(d, text), last, c.from)
  {
    hide Drops, Dropped, Contents;
    var gone := Dropped(d, text);
    ContentsAppend(before + Plain(pending), c.frags);
    ContentsAppend(before, Plain(pending));
    PlainContents(pending);
    KeepMore(d, text, c.from, c.end);
    KeepSplit(text, gone, 0, last, c.from);
    Cancel(Contents(before), pending, Keep(text, gone, last, c.from), text[c.from..c.end]);
  }

  lemma PlainContents(t: string)
    ensures Contents(Plain(t)) == t
  {
    if t != "" {
      OneContents(Fragment(TextKind, t, "", false, "", ""));
    }
  }

  /** With the word `text[i..b]` the cuts grow by what it gives. */
  lemma OneMoreCut(d: Dictionary, mentions: bool, text: string, i: nat, b: nat, cuts: seq<Cut>, c: Cut)
    requires i < b <= |text| && AreCuts(d, mentions, text, i, cuts) && CutOf(d, mentions, text, b, c) && c.from == i
    ensures AreCuts(d, mentions, text, b, cuts + [c])
  {
    hide Gives, IsWord;
    CutsFit(d, mentions, text, i, cuts);
    forall c'
      ensures Given(d, mentions, text, b, c') <==> Given(d, mentions, text, i, c') || c' == c
    {
      if b' :| b' <= b && CutOf(d, mentions, text, b', c') {
        WordsAreApart(text, i, b, c'.from, b');
        if b' == b {
          GivesOnce(d, mentions, text[i..b], c.end - c.from, c.frags, c'.end - c'.from, c'.frags);
        }
      }
    }
  }

  /** A stretch that gives nothing leaves the cuts as they are. */
  lemma NoMoreCuts(d: Dictionary, mentions: bool, text: string, i: nat, k: nat, cuts: seq<Cut>)
    requires i <= k <= |text| && AreCuts(d, mentions, text, i, cuts)
    requires forall b, c :: i < b <= k ==> !CutOf(d, mentions, text, b, c)
    ensures AreCuts(d, mentions, text, k, cuts)
  {
    hide CutOf;
    assert forall c :: Given(d, mentions, text, k, c) <==> Given(d, mentions, text, i, c);
  }

  lemma SpacesGiveNothing(d: Dictionary, mentions: bool, text: string, i: nat, k: nat)
    requires i <= k <= |text| && forall p :: i <= p < k ==> text[p] == ' '
    ensures forall b, c :: i < b <= k ==> !CutOf(d, mentions, text, b, c)
  {
    hide Gives;
    forall b, c | i < b <= k
      ensures !CutOf(d, mentions, text, b, c)
    {
      assert text[b - 1] == ' ';
      if CutOf(d, mentions, text, b, c) {
        WordHasNoSpace(text, c.from, b);
      }
    }
  }

  lemma WordGivesNothing(d: Dictionary, mentions: bool, text: string, i: nat, b: nat)
    requires i < b <= |text| && IsWord(text, i, b) && forall n: nat, frags :: !Gives(d, mentions, text[i..b], n, frags)
    ensures forall b', c :: i < b' <= b ==> !CutOf(d, mentions, text, b', c)
  {
    hide Gives;
    forall b', c | i < b' <= b
      ensures !CutOf(d, mentions, text, b', c)
    {
      if CutOf(d, mentions, text, b', c) {
        WordsAreApart(text, i, b, c.from, b');
      }
    }
  }

  // ---------------------------------------------------------------- the run lays the pieces

  lemma FlushIsPlain(st: State)
    ensures Flush(st).frags == st.frags + Plain(st.pending)
  {
  }

  lemma LaidMore(text: string, gone: set<int>, cuts: seq<Cut>, c: Cut)
    requires forall k :: 0 <= k < |cuts| ==> cuts[k].from <= cuts[k].end <= c.from
    requires c.from <= c.end <= |text|
    requires forall k :: 0 < k < |cuts| ==> cuts[k - 1].end <= cuts[k].from
    ensures Last(cuts) <= c.from
    ensures Laid(text, gone, cuts + [c]) == Laid(text, gone, cuts) + Plain(Keep(text, gone, Last(cuts), c.from)) + c.frags
  {
    assert (cuts + [c])[..|cuts|] == cuts;
  }

  /** A word that gives a cut lays it, with the text in front of it. */
  lemma CutStep(d: Dictionary, mentions: bool, text: string, i: nat, b: nat, cuts: seq<Cut>, st: State, c: Cut, pending: string, t: State)
    requires i < b <= |text| && Lays(d, mentions, text, i, cuts, st) && CutOf(d, mentions, text, b, c) && c.from == i
    requires Contents(c.frags) == text[i..c.end] && forall p :: i <= p < b ==> !Drops(d, text, p)
    requires t.frags == st.frags + Plain(pending) + c.frags && Contents(t.frags) == Keep(text, Dropped(d, text), 0, c.end)
    ensures Lays(d, mentions, text, b, cuts + [c], t)
  {
    CutsFollow(d, mentions, text, i, b, cuts, c);
    OneMoreCut(d, mentions, text, i, b, cuts, c);
    hide Drops, Dropped, CutOf, Contents, AreCuts, Laid, Keep;
    LaidMore(text, Dropped(d, text), cuts, c);
    InFrontOfCut(d, text, Last(cuts), c, st.frags, pending);
    FitMore(cuts, c, i, b);
  }

  lemma FitMore(cuts: seq<Cut>, c: Cut, i: nat, b: nat)
    requires forall k :: 0 <= k < |cuts| ==> cuts[k].from <= cuts[k].end <= i
    requires i <= b && c.from <= c.end <= b
    ensures forall k :: 0 <= k < |cuts + [c]| ==> (cuts + [c])[k].from <= (cuts + [c])[k].end <= b
    ensures Last(cuts + [c]) == c.end
  {
  }

  lemma CutsFollow(d: Dictionary, mentions: bool, text: string, i: nat, b: nat, cuts: seq<Cut>, c: Cut)
    requires AreCuts(d, mentions, text, i, cuts) && CutOf(d, mentions, text, b, c)
    ensures forall k :: 0 < k < |cuts| ==> cuts[k - 1].end <= cuts[k].from
    ensures c.from < c.end <= b
  {
  }

  lemma NothingStep(d: Dictionary, mentions: bool, text: string, i: nat, k: nat, cuts: seq<Cut>, st: State, t: State)
    requires i <= k <= |text| && Lays(d, mentions, text, i, cuts, st) && t.frags == st.frags
    requires forall b, c :: i < b <= k ==> !CutOf(d, mentions, text, b, c)
    ensures Lays(d, mentions, text, k, cuts, t)
  {
    hide CutOf, Dropped;
    NoMoreCuts(d, mentions, text, i, k, cuts);
    hide AreCuts;
  }

  /** Behind an emote nothing is pending but what is blank. */
  lemma StandsAt(d: Dictionary, text: string, b: nat, left: Option<nat>, t: State)
    requires b <= |text| && Stands(d, text, b, left, t)
    ensures t.pending == "" ==> Contents(t.frags) == Keep(text, Dropped(d, text), 0, b)
    ensures !EndsInEmote(t.frags) ==> Contents(t.frags) + t.pending == Keep(text, Dropped(d, text), 0, b)
  {
    hide BlankSince, Dropped, Contents;
    if t.pending == "" {
      assert left.Some? ==> left.value == b by {
        if left.Some? {
          StandsIn(d, text, b, left.value, t);
        }
      }
      assert Contents(t.frags) + "" == Contents(t.frags);
    }
  }

  lemma StandsIn(d: Dictionary, text: string, b: nat, g: nat, t: State)
    requires b <= |text| && Stands(d, text, b, Some(g), t)
    ensures g <= b && |t.pending| == b - g
  {
  }

  lemma NameLays(d: Dictionary, mentions: bool, text: string, i: nat, b: nat, left: Option<nat>, cuts: seq<Cut>, st: State, t: State)
    requires i < b <= |text| && IsWord(text, i, b) && text[i..b] in d && Lays(d, mentions, text, i, cuts, st)
    requires t == PushEmote(d, DropBlank(st, d[text[i..b]]), text[i..b]) && Stands(d, text, b, left, t)
    ensures Lays(d, mentions, text, b, cuts + [Cut(i, b, [EmoteFragment(text[i..b], d[text[i..b]])])], t)
  {
    hide Stands, Lays, IsWord, Gives, Contents, Dropped, Drops, SplitSuffix;
    var w := text[i..b];
    var st1, c := DropBlank(st, d[w]), Cut(i, b, [EmoteFragment(w, d[w])]);
    WordStays(d, text, i, b);
    GivesIs(d, mentions, w);
    OneContents(c.frags[0]);
    FlushIsPlain(st1);
    StandsAt(d, text, b, left, t);
    CutStep(d, mentions, text, i, b, cuts, st, c, st1.pending, t);
  }

  lemma SplitLays(d: Dictionary, mentions: bool, text: string, i: nat, b: nat, left: Option<nat>, cuts: seq<Cut>, st: State, t: State)
    returns (c: Cut)
    requires i < b <= |text| && IsWord(text, i, b) && text[i..b] !in d && SplitSuffix(d, text[i..b]).Some?
    requires Lays(d, mentions, text, i, cuts, st)
    requires t == PushSplit(d, st, SplitSuffix(d, text[i..b]).value) && Stands(d, text, b, left, t)
    ensures Lays(d, mentions, text, b, cuts + [c], t)
  {
    hide Stands, Lays, IsWord, Gives, Contents, Dropped, Drops, SplitSuffix, Names, Overlays;
    var w := text[i..b];
    var s := SplitSuffix(d, w).value;
    SplitSpells(d, w);
    c := Cut(i, b, [EmoteFragment(s.base, d[s.base])] + Overlays(s.overlays));
    WordStays(d, text, i, b);
    GivesIs(d, mentions, w);
    SplitSpellsWord(d, s.base, s.overlays);
    FlushIsPlain(st);
    StandsAt(d, text, b, left, t);
    assert t.frags == st.frags + Plain(st.pending) + c.frags;
    CutStep(d, mentions, text, i, b, cuts, st, c, st.pending, t);
  }

  lemma MentionLays(d: Dictionary, text: string, i: nat, b: nat, left: Option<nat>, cuts: seq<Cut>, st: State, t: State)
    returns (c: Cut)
    requires i < b <= |text| && IsWord(text, i, b) && text[i..b] !in d && SplitSuffix(d, text[i..b]).None?
    requires MentionLen(text[i..b]) > 0 && Lays(d, true, text, i, cuts, st)
    requires t == PushMention(st, text[i..b], MentionLen(text[i..b])) && Stands(d, text, b, left, t)
    ensures Lays(d, true, text, b, cuts + [c], t)
  {
    hide Stands, Lays, IsWord, Gives, Contents, Dropped, Drops, SplitSuffix, MentionLen;
    var w := text[i..b];
    var n := MentionLen(w);
    c := Cut(i, i + n, [MentionFragment(w[..n])]);
    MentionIsNotBlank(w);
    WordStays(d, text, i, b);
    GivesIs(d, true, w);
    OneContents(c.frags[0]);
    FlushIsPlain(st);
    StandsAt(d, text, b, left, t);
    assert w[..n] == text[i..i + n] && w[n..] == text[i + n..b];
    KeepMoreBack(d, text, i + n, b, Contents(t.frags));
    CutStep(d, true, text, i, b, cuts, st, c, st.pending, t);
  }

  lemma MentionIsNotBlank(w: string)
    requires MentionLen(w) > 0
    ensures !Blank(w)
  {
    assert !IsSpace(w[0]);
  }

  lemma KeepMoreBack(d: Dictionary, text: string, k: nat, b: nat, contents: string)
    requires k <= b <= |text| && (forall p :: k <= p < b ==> !Drops(d, text, p))
    requires contents + text[k..b] == Keep(text, Dropped(d, text), 0, b)
    ensures contents == Keep(text, Dropped(d, text), 0, k)
  {
    hide Drops, Dropped;
    KeepMore(d, text, k, b);
    CancelEnd(contents, Keep(text, Dropped(d, text), 0, k), text[k..b]);
  }

  lemma WordLays(d: Dictionary, mentions: bool, text: string, i: nat, b: nat, left: Option<nat>, cuts: seq<Cut>, st: State)
    returns (left': Option<nat>, cuts': seq<Cut>)
    requires i < b <= |text| && IsWord(text, i, b)
    requires Stands(d, text, i, left, st) && Lays(d, mentions, text, i, cuts, st)
    ensures
      var t := Word(d, mentions, st, text[i..b]);
      Stands(d, text, b, left', t) && Lays(d, mentions, text, b, cuts', t)
  {
    left' := WordStep(d, mentions, text, i, b, left, st);
    hide Stands, Lays, IsWord, Gives, SplitSuffix, MentionLen, DropBlank, PushEmote, PushSplit, PushMention;
    var w := text[i..b];
    var t := Word(d, mentions, st, w);
    if w in d {
      cuts' := cuts + [Cut(i, b, [EmoteFragment(w, d[w])])];
      NameLays(d, mentions, text, i, b, left', cuts, st, t);
    } else if SplitSuffix(d, w).Some? {
      var c := SplitLays(d, mentions, text, i, b, left', cuts, st, t);
      cuts' := cuts + [c];
    } else if mentions && MentionLen(w) > 0 {
      var c := MentionLays(d, text, i, b, left', cuts, st, t);
      cuts' := cuts + [c];
    } else {
      cuts' := cuts;
      GivesIs(d, mentions, w);
      WordGivesNothing(d, mentions, text, i, b);
      NothingStep(d, mentions, text, i, b, cuts, st, t);
    }
  }

  lemma {:induction false} RunLays(d: Dictionary, mentions: bool, text: string, i: nat, left: Option<nat>, cuts: seq<Cut>, st: State)
    returns (left': Option<nat>, cuts': seq<Cut>)
    requires i <= |text| && Boundary(text, i) && Stands(d, text, i, left, st) && Lays(d, mentions, text, i, cuts, st)
    ensures
      var t := Run(d, mentions, st, text[i..]);
      Stands(d, text, |text|, left', t) && Lays(d, mentions, text, |text|, cuts', t)
    decreases |text| - i
  {
    hide Stands, Lays, Word, IsWord;
    if i == |text| {
      left', cuts' := left, cuts;
    } else {
      var s := text[i..];
      var n := StretchEnd(s, s[0] == ' ', 0);
      var k := i + n;
      assert forall p :: i <= p < k ==> text[p] == s[p - i];
      assert s[..n] == text[i..k] && s[n..] == text[k..];
      assert k < |text| ==> text[k] == s[n];
      var next, more := left, cuts;
      var st' := if s[0] == ' ' then st.(pending := st.pending + s[..n]) else Word(d, mentions, st, s[..n]);
      if s[0] == ' ' {
        SpacesStep(d, text, i, k, left, st);
        SpacesGiveNothing(d, mentions, text, i, k);
        NothingStep(d, mentions, text, i, k, cuts, st, st');
      } else {
        StretchIsWord(text, i, k);
        next, more := WordLays(d, mentions, text, i, k, left, cuts, st);
      }
      left', cuts' := RunLays(d, mentions, text, k, next, more, st');
    }
  }

  lemma NothingLaid(d: Dictionary, mentions: bool, text: string)
    ensures Lays(d, mentions, text, 0, [], Start)
  {
    hide Gives;
  }

  /** The fragments of a text are the given ones, in order, with what is kept of the text between them as text. */
  ghost predicate LaidFrom(d: Dictionary, mentions: bool, text: string, cuts: seq<Cut>, frags: seq<Fragment>) {
    && AreCuts(d, mentions, text, |text|, cuts)
    && (forall k :: 0 <= k < |cuts| ==> cuts[k].from <= cuts[k].end <= |text|) && Last(cuts) <= |text|
    && frags == Laid(text, Dropped(d, text), cuts) + Plain(Keep(text, Dropped(d, text), Last(cuts), |text|))
  }

  /**
   What each word of a message becomes: a name its one emote; any other word that
   is a name with a chain of zero-width names behind it those emotes, with the
   longest such name; any other that starts with a mention that mention, where
   mentions are wanted. Everything else is text, less the blanks that are dropped.
   */
  lemma WordsDecideFragments(d: Dictionary, mentions: bool, text: string) returns (cuts: seq<Cut>)
    ensures LaidFrom(d, mentions, text, cuts, Fragments(d, mentions, text))
  {
    hide Stands, Run, Dropped, Laid, Keep, Contents;
    NoEmoteAtTheStart(d, text);
    NothingLaid(d, mentions, text);
    var left;
    left, cuts := RunLays(d, mentions, text, 0, None, [], Start);
    assert text[0..] == text;
    var st := Run(d, mentions, Start, text);
    if left.Some? {
      EndStays(d, text, left.value, st);
    }
    PendingStays(d, text, |text|, left, st);
    FlushIsPlain(st);
    KeepSplit(text, Dropped(d, text), 0, Last(cuts), |text|);
    CancelStart(Contents(st.frags), st.pending, Keep(text, Dropped(d, text), Last(cuts), |text|));
  }

  lemma EndStays(d: Dictionary, text: string, g: nat, st: State)
    requires Stands(d, text, |text|, Some(g), st)
    ensures forall p :: g <= p < |text| ==> !Drops(d, text, p)
  {
    NothingGoesAtTheEnd(d, text, g);
  }

  lemma CancelStart(a: string, p: string, q: string)
    requires a + p == a + q
    ensures p == q
  {
    assert (a + p)[|a|..] == p && (a + q)[|a|..] == q;
  }
}
