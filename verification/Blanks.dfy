/** Exactly which blanks tokenizing drops, as a matter of the text and the dictionary alone. */
module Blanks {
  import opened Sequences
  import opened Text
  import opened Tokens
  import TokenLaws

  // ---------------------------------------------------------------- the blanks that go

  /** `text[a..b]` is a word: a longest stretch without spaces. */
  predicate IsWord(text: string, a: int, b: int) {
    && 0 <= a < b <= |text|
    && ' ' !in text[a..b]
    && (a == 0 || text[a - 1] == ' ')
    && (b == |text| || text[b] == ' ')
  }

  /** A name, or a name with zero-width names behind it. */
  predicate IsEmoteWord(d: Dictionary, word: string) {
    word in d || SplitSuffix(d, word).Some?
  }

  ghost predicate EmoteEnds(d: Dictionary, text: string, g: int) {
    exists a :: IsWord(text, a, g) && IsEmoteWord(d, text[a..g])
  }

  /** An emote word ends at `g`, and only blanks that are no emotes follow up to `i`. */
  ghost predicate BlankSince(d: Dictionary, text: string, g: int, i: int) {
    && 0 <= g <= i <= |text|
    && EmoteEnds(d, text, g) && Blank(text[g..i])
    && forall y :: g < y <= i ==> !EmoteEnds(d, text, y)
  }

  /** A word starts at `j` that is itself a zero-width name. */
  ghost predicate ZeroWidthStarts(d: Dictionary, text: string, j: int) {
    exists b :: IsWord(text, j, b) && IsZeroWidthName(d, text[j..b])
  }

  /** Between an emote word and a word that is itself a zero-width name there is nothing but blanks. */
  ghost predicate Gap(d: Dictionary, text: string, g: int, j: int) {
    BlankSince(d, text, g, j) && ZeroWidthStarts(d, text, j)
  }

  ghost predicate Drops(d: Dictionary, text: string, p: int) {
    exists g, j :: Gap(d, text, g, j) && g <= p < j
  }

  /** The positions of the blanks that go. */
  ghost function Dropped(d: Dictionary, text: string): set<int> {
    set p | 0 <= p < |text| && Drops(d, text, p)
  }

  /** `text[from..end]` without the positions in `gone`. */
  function Keep(text: string, gone: set<int>, from: nat, end: nat): string
    requires from <= end <= |text|
    decreases end
  {
    if from == end then "" else Keep(text, gone, from, end - 1) + if end - 1 in gone then "" else [text[end - 1]]
  }

  lemma {:induction false} KeepAll(text: string, gone: set<int>, from: nat, end: nat)
    requires from <= end <= |text| && forall p :: from <= p < end ==> p !in gone
    ensures Keep(text, gone, from, end) == text[from..end]
    decreases end
  {
    if from < end {
      KeepAll(text, gone, from, end - 1);
      assert text[from..end] == text[from..end - 1] + [text[end - 1]];
    }
  }

  lemma {:induction false} KeepNone(text: string, gone: set<int>, from: nat, end: nat)
    requires from <= end <= |text| && forall p :: from <= p < end ==> p in gone
    ensures Keep(text, gone, from, end) == ""
    decreases end
  {
    if from < end {
      KeepNone(text, gone, from, end - 1);
    }
  }

  lemma {:induction false} KeepSplit(text: string, gone: set<int>, from: nat, mid: nat, end: nat)
    requires from <= mid <= end <= |text|
    ensures Keep(text, gone, from, end) == Keep(text, gone, from, mid) + Keep(text, gone, mid, end)
    decreases end
  {
    if mid < end {
      KeepSplit(text, gone, from, mid, end - 1);
    }
  }

  /** Only what goes between `from` and `end` matters there. */
  lemma {:induction false} KeepLocal(text: string, gone: set<int>, gone': set<int>, from: nat, end: nat)
    requires from <= end <= |text| && forall p :: from <= p < end ==> (p in gone <==> p in gone')
    ensures Keep(text, gone, from, end) == Keep(text, gone', from, end)
    decreases end
  {
    if from < end {
      KeepLocal(text, gone, gone', from, end - 1);
    }
  }

  /** A part of the text keeps what the text keeps there. */
  lemma {:induction false} KeepPart(text: string, x: nat, y: nat, n: nat, gone: set<int>, gone': set<int>)
    requires x <= y <= |text| && n <= y - x
    requires forall p :: 0 <= p < n ==> (p in gone <==> x + p in gone')
    ensures Keep(text[x..y], gone, 0, n) == Keep(text, gone', x, x + n)
  {
    if n > 0 {
      KeepPart(text, x, y, n - 1, gone, gone');
    }
  }

  // ---------------------------------------------------------------- words and gaps

  lemma WordHasNoSpace(text: string, a: int, b: int)
    requires IsWord(text, a, b)
    ensures forall p :: a <= p < b ==> text[p] != ' '
  {
    forall p | a <= p < b
      ensures text[p] != ' '
    {
      assert text[a..b][p - a] == text[p];
    }
  }

  lemma WordsAreApart(text: string, a: int, b: int, x: int, y: int)
    requires IsWord(text, a, b) && IsWord(text, x, y)
    ensures b < x || y < a || (a == x && b == y)
  {
    WordHasNoSpace(text, a, b);
    WordHasNoSpace(text, x, y);
  }

  lemma BlankPart(s: string, a: nat, b: nat, x: nat, y: nat)
    requires a <= x <= y <= b <= |s| && Blank(s[a..b])
    ensures Blank(s[x..y])
  {
    forall i | 0 <= i < y - x
      ensures IsSpace(s[x..y][i])
    {
      assert s[x..y][i] == s[a..b][x - a + i];
    }
  }

  lemma BlankJoin(s: string, a: nat, b: nat, c: nat)
    requires a <= b <= c <= |s|
    ensures Blank(s[a..c]) <==> Blank(s[a..b]) && Blank(s[b..c])
  {
    assert s[a..c] == s[a..b] + s[b..c];
    if Blank(s[a..c]) {
      BlankPart(s, a, c, a, b);
      BlankPart(s, a, c, b, c);
    }
  }

  lemma BlankSinceEarlier(d: Dictionary, text: string, g: int, i: int, j: int)
    requires BlankSince(d, text, g, j) && g <= i <= j
    ensures BlankSince(d, text, g, i)
  {
    hide Blank, EmoteEnds;
    BlankPart(text, g, j, g, i);
  }

  /** A gap takes in whole words or nothing of them, and no emote word. */
  lemma GapSkipsEmotes(d: Dictionary, text: string, g: int, j: int, a: int, b: int, p: int)
    requires Gap(d, text, g, j) && IsWord(text, a, b) && a <= p < b && g <= p < j
    ensures g <= a && b <= j && !IsEmoteWord(d, text[a..b])
  {
    hide IsEmoteWord, Blank;
    var x :| IsWord(text, x, g) && IsEmoteWord(d, text[x..g]);
    var y :| IsWord(text, j, y) && IsZeroWidthName(d, text[j..y]);
    WordsAreApart(text, a, b, x, g);
    WordsAreApart(text, a, b, j, y);
    assert IsEmoteWord(d, text[a..b]) ==> EmoteEnds(d, text, b);
  }

  lemma EndIsNotASpace(d: Dictionary, text: string, g: int)
    requires EmoteEnds(d, text, g)
    ensures 0 < g <= |text| && text[g - 1] != ' ' && (g < |text| ==> text[g] == ' ')
  {
    hide IsEmoteWord;
    var a :| IsWord(text, a, g) && IsEmoteWord(d, text[a..g]);
    WordHasNoSpace(text, a, g);
  }

  lemma StartIsNotASpace(d: Dictionary, text: string, j: int)
    requires ZeroWidthStarts(d, text, j)
    ensures 0 <= j < |text| && text[j] != ' ' && (j > 0 ==> text[j - 1] == ' ')
  {
    hide IsZeroWidthName;
    var b :| IsWord(text, j, b) && IsZeroWidthName(d, text[j..b]);
    WordHasNoSpace(text, j, b);
  }

  // ---------------------------------------------------------------- where the run stands

  /** `i` is where a stretch of spaces or of other runes starts, or the end. */
  predicate Boundary(text: string, i: int) {
    0 <= i <= |text| && (0 < i < |text| ==> (text[i - 1] == ' ') != (text[i] == ' '))
  }

  /** No gap reaches past the last emote word into `text[g..i]`, whatever follows but a zero-width name at `i`. */
  lemma NothingDropsAfter(d: Dictionary, text: string, g: int, i: int, p: int)
    requires BlankSince(d, text, g, i) && Boundary(text, i) && g <= p < i && Drops(d, text, p)
    ensures exists j :: i <= j && Gap(d, text, g, j)
  {
    hide Blank, IsWord, IsZeroWidthName;
    var g', j :| Gap(d, text, g', j) && g' <= p < j;
    if j < i {
      ZeroWidthEnds(d, text, j, i);
    }
    assert EmoteEnds(d, text, g);
  }

  /** A zero-width name that starts before a boundary ends there at the latest. */
  lemma ZeroWidthEnds(d: Dictionary, text: string, j: int, i: int)
    requires ZeroWidthStarts(d, text, j) && Boundary(text, i) && j < i
    ensures exists b :: j < b <= i && EmoteEnds(d, text, b)
  {
    hide SplitSuffix;
    var b :| IsWord(text, j, b) && IsZeroWidthName(d, text[j..b]);
    assert EmoteEnds(d, text, b);
    WordHasNoSpace(text, j, b);
  }

  // ---------------------------------------------------------------- one word

  /** An emote word stays, and so does every word that is not blank. */
  lemma WordStays(d: Dictionary, text: string, i: int, b: int)
    requires IsWord(text, i, b) && (IsEmoteWord(d, text[i..b]) || !Blank(text[i..b]))
    ensures forall p :: i <= p < b ==> !Drops(d, text, p)
  {
    hide IsEmoteWord, Blank;
    forall p | i <= p < b
      ensures !Drops(d, text, p)
    {
      if g, j :| Gap(d, text, g, j) && g <= p < j {
        GapSkipsEmotes(d, text, g, j, i, b, p);
        BlankPart(text, g, j, i, b);
      }
    }
  }

  lemma IsTheWordAt(text: string, i: int, b: int, b': int)
    requires IsWord(text, i, b) && IsWord(text, i, b')
    ensures b == b'
  {
    WordsAreApart(text, i, b, i, b');
  }

  /** In front of such a word the blanks stay too, unless the word is a zero-width name. */
  lemma BlanksStay(d: Dictionary, text: string, g: int, i: int, b: int)
    requires BlankSince(d, text, g, i) && IsWord(text, i, b) && !IsZeroWidthName(d, text[i..b])
    requires IsEmoteWord(d, text[i..b]) || !Blank(text[i..b])
    ensures forall p :: g <= p < i ==> !Drops(d, text, p)
  {
    hide IsEmoteWord, Blank, IsZeroWidthName;
    forall p | g <= p < i
      ensures !Drops(d, text, p)
    {
      if Drops(d, text, p) {
        NothingDropsAfter(d, text, g, i, p);
        var j :| i <= j && Gap(d, text, g, j);
        WordIsAGapsEnd(d, text, g, i, b, j);
      }
    }
  }

  lemma WordIsAGapsEnd(d: Dictionary, text: string, g: int, i: int, b: int, j: int)
    requires g <= i <= j && Gap(d, text, g, j) && IsWord(text, i, b)
    ensures IsZeroWidthName(d, text[i..b]) || (!IsEmoteWord(d, text[i..b]) && Blank(text[i..b]))
  {
    hide IsEmoteWord, IsZeroWidthName, Blank;
    if j == i {
      var y :| IsWord(text, j, y) && IsZeroWidthName(d, text[j..y]);
      IsTheWordAt(text, i, b, y);
    } else {
      GapSkipsEmotes(d, text, g, j, i, b, i);
      BlankPart(text, g, j, i, b);
    }
  }

  lemma BlanksGo(d: Dictionary, text: string, g: int, i: int, b: int)
    requires BlankSince(d, text, g, i) && IsWord(text, i, b) && IsZeroWidthName(d, text[i..b])
    ensures forall p :: g <= p < i ==> Drops(d, text, p)
  {
    hide BlankSince, IsWord;
    assert Gap(d, text, g, i);
  }

  /** Without an emote word in front of it, nothing that follows goes. */
  lemma NothingGoes(d: Dictionary, text: string, i: int, k: int)
    requires 0 <= i <= k <= |text| && forall g :: !BlankSince(d, text, g, i)
    requires forall y :: i < y < k ==> !EmoteEnds(d, text, y)
    ensures forall p :: i <= p < k ==> !Drops(d, text, p)
  {
    hide EmoteEnds, Blank, ZeroWidthStarts;
    forall p | i <= p < k
      ensures !Drops(d, text, p)
    {
      if g, j :| Gap(d, text, g, j) && g <= p < j {
        if g <= i {
          BlankSinceEarlier(d, text, g, i, j);
        }
      }
    }
  }

  lemma NoEmoteInside(d: Dictionary, text: string, i: int, b: int)
    requires IsWord(text, i, b)
    ensures forall y :: i < y < b ==> !EmoteEnds(d, text, y)
    ensures EmoteEnds(d, text, b) <==> IsEmoteWord(d, text[i..b])
  {
    hide IsEmoteWord;
    forall y, a | i < y <= b && IsWord(text, a, y)
      ensures a == i && y == b
    {
      WordsAreApart(text, a, y, i, b);
    }
  }

  lemma NoEmoteInSpaces(d: Dictionary, text: string, i: int, k: int)
    requires 0 <= i <= k <= |text| && forall p :: i <= p < k ==> text[p] == ' '
    ensures forall y :: i < y <= k ==> !EmoteEnds(d, text, y)
  {
    hide EmoteEnds;
    forall y | i < y <= k
      ensures !EmoteEnds(d, text, y)
    {
      if EmoteEnds(d, text, y) {
        EndIsNotASpace(d, text, y);
      }
    }
  }

  /** Blanks that are no emotes follow: where the last emote word ended stays as it is. */
  lemma BlankSinceLater(d: Dictionary, text: string, g: int, i: int, k: int)
    requires BlankSince(d, text, g, i) && i <= k <= |text| && Blank(text[i..k])
    requires forall y :: i < y <= k ==> !EmoteEnds(d, text, y)
    ensures BlankSince(d, text, g, k)
  {
    hide EmoteEnds, Blank;
    BlankJoin(text, g, i, k);
  }

  lemma NotBlankSinceLater(d: Dictionary, text: string, i: int, k: int)
    requires 0 <= i <= k <= |text|
    requires (forall g :: !BlankSince(d, text, g, i)) || !Blank(text[i..k])
    requires forall y :: i < y <= k ==> !EmoteEnds(d, text, y)
    ensures forall g :: !BlankSince(d, text, g, k)
  {
    hide EmoteEnds, Blank;
    forall g
      ensures !BlankSince(d, text, g, k)
    {
      if BlankSince(d, text, g, k) && g <= i {
        BlankSinceEarlier(d, text, g, i, k);
        BlankPart(text, g, k, i, k);
      }
    }
  }

  // ---------------------------------------------------------------- the run

  /**
   Where the run stands at `i`: behind the emote word that ended at `left`, with
   the blanks since then pending; or not behind an emote, with everything
   accounted for.
   */
  ghost predicate Stands(d: Dictionary, text: string, i: nat, left: Option<nat>, st: State)
    requires i <= |text|
  {
    match left
    case Some(g) =>
      && BlankSince(d, text, g, i) && EndsInEmote(st.frags) && st.pending == text[g..i]
      && Contents(st.frags) == Keep(text, Dropped(d, text), 0, g)
    case None =>
      && (forall g :: !BlankSince(d, text, g, i))
      && !(EndsInEmote(st.frags) && Blank(st.pending))
      && Contents(st.frags) + st.pending == Keep(text, Dropped(d, text), 0, i)
  }

  lemma KeepMore(d: Dictionary, text: string, i: nat, k: nat)
    requires i <= k <= |text| && forall p :: i <= p < k ==> !Drops(d, text, p)
    ensures Keep(text, Dropped(d, text), 0, k) == Keep(text, Dropped(d, text), 0, i) + text[i..k]
  {
    hide Drops;
    KeepSplit(text, Dropped(d, text), 0, i, k);
    KeepAll(text, Dropped(d, text), i, k);
  }

  lemma KeepNoMore(d: Dictionary, text: string, i: nat, k: nat)
    requires i <= k <= |text| && forall p :: i <= p < k ==> Drops(d, text, p)
    ensures Keep(text, Dropped(d, text), 0, k) == Keep(text, Dropped(d, text), 0, i)
  {
    hide Drops;
    KeepSplit(text, Dropped(d, text), 0, i, k);
    KeepNone(text, Dropped(d, text), i, k);
  }

  /** What has been seen, once the pending text is taken to stay. */
  lemma PendingStays(d: Dictionary, text: string, i: nat, left: Option<nat>, st: State)
    requires i <= |text| && Stands(d, text, i, left, st)
    requires left.Some? ==> forall p :: left.value <= p < i ==> !Drops(d, text, p)
    ensures Contents(st.frags) + st.pending == Keep(text, Dropped(d, text), 0, i)
  {
    hide Drops, Dropped;
    if left.Some? {
      KeepMore(d, text, left.value, i);
    }
  }

  lemma SpacesAreBlank(s: string)
    requires forall k :: 0 <= k < |s| ==> s[k] == ' '
    ensures Blank(s)
  {
  }

  lemma SpacesStep(d: Dictionary, text: string, i: nat, k: nat, left: Option<nat>, st: State)
    requires i <= k <= |text| && (forall p :: i <= p < k ==> text[p] == ' ')
    requires Stands(d, text, i, left, st)
    ensures Stands(d, text, k, left, st.(pending := st.pending + text[i..k]))
  {
    hide Drops, Dropped, EmoteEnds, Blank;
    NoEmoteInSpaces(d, text, i, k);
    SpacesAreBlank(text[i..k]);
    match left
    case Some(g) =>
      BlankSinceLater(d, text, g, i, k);
      assert text[g..k] == text[g..i] + text[i..k];
    case None =>
      NotBlankSinceLater(d, text, i, k);
      NothingGoes(d, text, i, k);
      KeepMore(d, text, i, k);
      NotBlankLonger(st.pending, text[i..k]);
      assert Contents(st.frags) + (st.pending + text[i..k]) == Contents(st.frags) + st.pending + text[i..k];
  }

  lemma NotBlankLonger(a: string, b: string)
    ensures Blank(a + b) ==> Blank(a) && Blank(b)
  {
    assert a == (a + b)[..|a|] && b == (a + b)[|a|..];
  }

  lemma FlushedContents(st: State)
    ensures Contents(Flush(st).frags) == Contents(st.frags) + st.pending
  {
    TokenLaws.ContentsPush(st.frags, TextFragment(st.pending));
  }

  lemma EmoteStep(d: Dictionary, text: string, i: nat, b: nat, left: Option<nat>, st: State)
    requires i < b <= |text| && IsWord(text, i, b) && text[i..b] in d && Stands(d, text, i, left, st)
    ensures Stands(d, text, b, Some(b), PushEmote(d, DropBlank(st, d[text[i..b]]), text[i..b]))
  {
    hide Drops, Dropped, Blank, IsWord, SplitSuffix;
    var w := text[i..b];
    var st1 := DropBlank(st, d[w]);
    WordStays(d, text, i, b);
    KeepMore(d, text, i, b);
    StandsAfter(d, text, i, b);
    assert Contents(st1.frags) + st1.pending == Keep(text, Dropped(d, text), 0, i) by {
      match left
      case Some(g) =>
        GapIsBlank(d, text, g, i);
        if d[w].zw {
          BlanksGo(d, text, g, i, b);
          KeepNoMore(d, text, g, i);
        } else {
          BlanksStay(d, text, g, i, b);
          PendingStays(d, text, i, left, st);
        }
      case None =>
    }
    FlushedContents(st1);
    TokenLaws.ContentsPush(Flush(st1).frags, EmoteFragment(w, d[w]));
  }

  lemma GapIsBlank(d: Dictionary, text: string, g: nat, i: nat)
    requires BlankSince(d, text, g, i)
    ensures Blank(text[g..i])
  {
  }

  lemma StandsAfter(d: Dictionary, text: string, i: nat, b: nat)
    requires i < b <= |text| && IsWord(text, i, b) && IsEmoteWord(d, text[i..b])
    ensures BlankSince(d, text, b, b)
  {
    assert EmoteEnds(d, text, b);
  }

  lemma SplitStep(d: Dictionary, text: string, i: nat, b: nat, left: Option<nat>, st: State)
    requires i < b <= |text| && IsWord(text, i, b) && Stands(d, text, i, left, st)
    requires text[i..b] !in d && SplitSuffix(d, text[i..b]).Some?
    ensures Stands(d, text, b, Some(b), PushSplit(d, st, SplitSuffix(d, text[i..b]).value))
  {
    hide Drops, Dropped, Blank, IsWord, SplitSuffix, Stands, PushSplit;
    WordStays(d, text, i, b);
    KeepMore(d, text, i, b);
    StandsAfter(d, text, i, b);
    WordBlanksStay(d, text, i, b, left, st);
    PendingStays(d, text, i, left, st);
    SplitContents(d, st, text[i..b]);
    StandsBehind(d, text, b, PushSplit(d, st, SplitSuffix(d, text[i..b]).value));
  }

  lemma WordBlanksStay(d: Dictionary, text: string, i: nat, b: nat, left: Option<nat>, st: State)
    requires i < b <= |text| && IsWord(text, i, b) && Stands(d, text, i, left, st) && !IsZeroWidthName(d, text[i..b])
    requires IsEmoteWord(d, text[i..b]) || !Blank(text[i..b])
    ensures left.Some? ==> forall p :: left.value <= p < i ==> !Drops(d, text, p)
  {
    hide Drops, Blank, IsWord, SplitSuffix;
    if left.Some? {
      BlanksStay(d, text, left.value, i, b);
    }
  }

  lemma StandsBehind(d: Dictionary, text: string, b: nat, st: State)
    requires b <= |text| && BlankSince(d, text, b, b) && EndsInEmote(st.frags) && st.pending == ""
    requires Contents(st.frags) == Keep(text, Dropped(d, text), 0, b)
    ensures Stands(d, text, b, Some(b), st)
  {
    assert text[b..b] == "";
  }

  lemma SplitSpells(d: Dictionary, word: string)
    requires SplitSuffix(d, word).Some?
    ensures
      var s := SplitSuffix(d, word).value;
      s.base in d && s.overlays != [] && s.base + Names(s.overlays) == word
  {
    hide SplitSuffix;
    SplitSuffixIsLongest(d, word);
  }

  lemma SplitContents(d: Dictionary, st: State, word: string)
    requires SplitSuffix(d, word).Some?
    ensures
      var t := PushSplit(d, st, SplitSuffix(d, word).value);
      Contents(t.frags) == Contents(st.frags) + st.pending + word && EndsInEmote(t.frags) && t.pending == ""
  {
    hide SplitSuffix;
    SplitSpells(d, word);
    var s := SplitSuffix(d, word).value;
    FlushedContents(st);
    TokenLaws.ContentsPush(Flush(st).frags, EmoteFragment(s.base, d[s.base]));
    TokenLaws.OverlayContents(s.overlays);
    ContentsAppend(PushEmote(d, st, s.base).frags, Overlays(s.overlays));
    assert Contents(st.frags) + st.pending + s.base + Names(s.overlays)
      == Contents(st.frags) + st.pending + (s.base + Names(s.overlays));
  }

  lemma MentionStep(d: Dictionary, text: string, i: nat, b: nat, left: Option<nat>, st: State)
    requires i < b <= |text| && IsWord(text, i, b) && Stands(d, text, i, left, st)
    requires !IsEmoteWord(d, text[i..b]) && MentionLen(text[i..b]) > 0
    ensures Stands(d, text, b, None, PushMention(st, text[i..b], MentionLen(text[i..b])))
  {
    hide Drops, Dropped, IsWord, SplitSuffix, EmoteEnds, BlankSince, Blank, MentionLen, PushMention;
    var w := text[i..b];
    MentionContents(st, w);
    OtherWord(d, text, i, b, left, st);
  }

  lemma MentionContents(st: State, w: string)
    requires MentionLen(w) > 0
    ensures
      var t := PushMention(st, w, MentionLen(w));
      Contents(t.frags) + t.pending == Contents(st.frags) + st.pending + w && !EndsInEmote(t.frags) && !Blank(w)
  {
    var n := MentionLen(w);
    assert !IsSpace(w[0]);
    hide MentionLen, Blank, IsSpace;
    FlushedContents(st);
    TokenLaws.ContentsPush(Flush(st).frags, MentionFragment(w[..n]));
    Assoc(Contents(st.frags) + st.pending, w[..n], w[n..]);
    assert w == w[..n] + w[n..];
  }

  /** A word that is no emote and not blank: everything up to its end stays, and no emote word is in front of what follows. */
  lemma OtherWord(d: Dictionary, text: string, i: nat, b: nat, left: Option<nat>, st: State)
    requires i < b <= |text| && IsWord(text, i, b) && Stands(d, text, i, left, st)
    requires !IsEmoteWord(d, text[i..b]) && !Blank(text[i..b])
    ensures Contents(st.frags) + st.pending + text[i..b] == Keep(text, Dropped(d, text), 0, b)
    ensures forall g :: !BlankSince(d, text, g, b)
  {
    hide Drops, Dropped, IsWord, EmoteEnds, BlankSince, Blank, Stands, SplitSuffix;
    NoEmoteInside(d, text, i, b);
    NotBlankSinceLater(d, text, i, b);
    WordStays(d, text, i, b);
    KeepMore(d, text, i, b);
    WordBlanksStay(d, text, i, b, left, st);
    PendingStays(d, text, i, left, st);
  }

  lemma BlankWord(d: Dictionary, text: string, i: nat, b: nat, left: Option<nat>, st: State)
    requires i < b <= |text| && IsWord(text, i, b) && Stands(d, text, i, left, st)
    requires !IsEmoteWord(d, text[i..b]) && Blank(text[i..b])
    ensures Stands(d, text, b, left, st.(pending := st.pending + text[i..b]))
  {
    hide Drops, Dropped, IsWord, IsEmoteWord, EmoteEnds, Blank;
    NoEmoteInside(d, text, i, b);
    match left
    case Some(g) =>
      BlankSinceLater(d, text, g, i, b);
      assert text[g..b] == text[g..i] + text[i..b];
    case None =>
      NotBlankSinceLater(d, text, i, b);
      NothingGoes(d, text, i, b);
      KeepMore(d, text, i, b);
      NotBlankLonger(st.pending, text[i..b]);
      assert Contents(st.frags) + (st.pending + text[i..b]) == Contents(st.frags) + st.pending + text[i..b];
  }

  /** One word takes the run from where it stands to where it stands. */
  lemma WordStep(d: Dictionary, mentions: bool, text: string, i: nat, b: nat, left: Option<nat>, st: State)
    returns (left': Option<nat>)
    requires i < b <= |text| && IsWord(text, i, b) && Stands(d, text, i, left, st)
    ensures Stands(d, text, b, left', Word(d, mentions, st, text[i..b]))
  {
    hide Stands, Blank, IsWord, SplitSuffix, MentionLen, DropBlank, PushEmote, PushSplit, PushMention;
    var w := text[i..b];
    if w in d {
      EmoteStep(d, text, i, b, left, st);
      left' := Some(b);
    } else if SplitSuffix(d, w).Some? {
      SplitStep(d, text, i, b, left, st);
      left' := Some(b);
    } else if mentions && MentionLen(w) > 0 {
      MentionStep(d, text, i, b, left, st);
      left' := None;
    } else if Blank(w) {
      BlankWord(d, text, i, b, left, st);
      left' := left;
    } else {
      OtherWord(d, text, i, b, left, st);
      StandsApart(d, text, i, b, left, st);
      left' := None;
    }
  }

  lemma StandsApart(d: Dictionary, text: string, i: nat, b: nat, left: Option<nat>, st: State)
    requires b <= |text| && i <= b && !Blank(text[i..b])
    requires Contents(st.frags) + st.pending + text[i..b] == Keep(text, Dropped(d, text), 0, b)
    requires forall g :: !BlankSince(d, text, g, b)
    ensures Stands(d, text, b, None, st.(pending := st.pending + text[i..b]))
  {
    hide Blank, BlankSince, Dropped;
    NotBlankLonger(st.pending, text[i..b]);
    assert Contents(st.frags) + (st.pending + text[i..b]) == Contents(st.frags) + st.pending + text[i..b];
  }

  lemma StretchIsWord(text: string, i: nat, b: nat)
    requires i < b <= |text| && Boundary(text, i) && (forall p :: i <= p < b ==> text[p] != ' ')
    requires b < |text| ==> text[b] == ' '
    ensures IsWord(text, i, b)
  {
  }

  lemma {:induction false} RunStands(d: Dictionary, mentions: bool, text: string, i: nat, left: Option<nat>, st: State)
    returns (left': Option<nat>)
    requires i <= |text| && Boundary(text, i) && Stands(d, text, i, left, st)
    ensures Stands(d, text, |text|, left', Run(d, mentions, st, text[i..]))
    decreases |text| - i
  {
    hide Stands, Word, IsWord;
    if i == |text| {
      left' := left;
    } else {
      var s := text[i..];
      var n := StretchEnd(s, s[0] == ' ', 0);
      var k := i + n;
      assert forall p :: i <= p < k ==> text[p] == s[p - i];
      assert s[..n] == text[i..k] && s[n..] == text[k..];
      assert k < |text| ==> text[k] == s[n];
      var next := left;
      if s[0] == ' ' {
        SpacesStep(d, text, i, k, left, st);
      } else {
        StretchIsWord(text, i, k);
        next := WordStep(d, mentions, text, i, k, left, st);
      }
      var st' := if s[0] == ' ' then st.(pending := st.pending + s[..n]) else Word(d, mentions, st, s[..n]);
      left' := RunStands(d, mentions, text, k, next, st');
    }
  }

  lemma NothingGoesAtTheEnd(d: Dictionary, text: string, g: nat)
    requires BlankSince(d, text, g, |text|)
    ensures forall p :: g <= p < |text| ==> !Drops(d, text, p)
  {
    hide BlankSince, ZeroWidthStarts;
    forall p | g <= p < |text|
      ensures !Drops(d, text, p)
    {
      if Drops(d, text, p) {
        NothingDropsAfter(d, text, g, |text|, p);
        var j :| |text| <= j && Gap(d, text, g, j);
        StartIsNotASpace(d, text, j);
      }
    }
  }

  lemma NoEmoteAtTheStart(d: Dictionary, text: string)
    ensures Stands(d, text, 0, None, Start)
  {
    forall g
      ensures !BlankSince(d, text, g, 0)
    {
      if EmoteEnds(d, text, 0) {
        EndIsNotASpace(d, text, 0);
      }
    }
  }

  /** What the fragments spell is the text without exactly those blanks that make up a gap. */
  lemma ContentsAreKept(d: Dictionary, mentions: bool, text: string)
    ensures Contents(Fragments(d, mentions, text)) == Keep(text, Dropped(d, text), 0, |text|)
  {
    hide Drops, Dropped, Run;
    NoEmoteAtTheStart(d, text);
    var left := RunStands(d, mentions, text, 0, None, Start);
    assert text[0..] == text;
    var st := Run(d, mentions, Start, text);
    if left.Some? {
      NothingGoesAtTheEnd(d, text, left.value);
    }
    PendingStays(d, text, |text|, left, st);
    FlushedContents(st);
  }

  lemma OneOverlay(d: Dictionary, c: string)
    requires |c| == 1 && IsZeroWidthName(d, c)
    ensures Chain(d, c) == Some([Part(c, d[c])])
  {
    var parts := [Part(c, d[c])];
    assert c[..1] == c && c[1..] == "" && parts[1..] == [];
    assert IsGreedyChain(d, c, parts);
    ChainIsGreedy(d, c, parts);
  }

  /** A combined word keeps the blank in front of it, even behind an emote and with a zero-width base. */
  lemma CombinedWordKeepsItsBlank(a: Emote, z: Emote, y: Emote)
    requires z.zw && y.zw
    ensures
      var d: Dictionary := map["A" := a, "Z" := z, "Y" := y];
      && SplitSuffix(d, "ZY") == Some(Split("Z", [Part("Y", y)]))
      && Contents(Fragments(d, true, "A ZY")) == "A ZY"
  {
    var d: Dictionary := map["A" := a, "Z" := z, "Y" := y];
    var text := "A ZY";
    OneOverlay(d, "Y");
    assert "ZY"[..1] == "Z" && "ZY"[1..] == "Y";
    hide Contents, Fragments, SplitSuffix, Drops;
    forall p
      ensures !Drops(d, text, p)
    {
      if g, j :| Gap(d, text, g, j) && g <= p < j {
        StartIsNotASpace(d, text, j);
        EndIsNotASpace(d, text, g);
      }
    }
    ContentsAreKept(d, true, text);
    KeepAll(text, Dropped(d, text), 0, 4);
    assert text[0..4] == text;
  }

  // ---------------------------------------------------------------- names without white space

  /** No name holds white space. */
  ghost predicate BareNames(d: Dictionary) {
    forall name, k :: name in d && 0 <= k < |name| ==> !IsSpace(name[k])
  }

  /** `gone` takes in whole stretches of white space inside the text. */
  ghost predicate WholeStretches(text: string, gone: set<int>) {
    forall p :: p in gone ==>
      && 0 < p < |text| - 1 && IsSpace(text[p])
      && (IsSpace(text[p - 1]) ==> p - 1 in gone)
      && (IsSpace(text[p + 1]) ==> p + 1 in gone)
  }

  lemma BareWord(d: Dictionary, word: string)
    requires BareNames(d) && word in d
    ensures forall k :: 0 <= k < |word| ==> !IsSpace(word[k])
  {
  }

  lemma {:induction false} BareChain(d: Dictionary, s: string, parts: seq<Part>)
    requires BareNames(d) && IsGreedyChain(d, s, parts) && s != ""
    ensures !IsSpace(s[|s| - 1])
    decreases |parts|
  {
    hide IsSpace;
    var n := |parts[0].name|;
    BareWord(d, s[..n]);
    if n < |s| {
      BareChain(d, s[n..], parts[1..]);
    } else {
      assert s[..n][|s| - 1] == s[|s| - 1];
    }
  }

  lemma BareEmoteWord(d: Dictionary, word: string)
    requires BareNames(d) && word != "" && IsEmoteWord(d, word)
    ensures !IsSpace(word[|word| - 1])
  {
    hide IsSpace, SplitSuffix;
    if word in d {
      BareWord(d, word);
    } else {
      SplitSuffixIsLongest(d, word);
      var s := SplitSuffix(d, word).value;
      BareChain(d, word[|s.base|..], s.overlays);
    }
  }

  lemma GapHasBareEnds(d: Dictionary, text: string, g: int, j: int)
    requires BareNames(d) && Gap(d, text, g, j)
    ensures 0 < g <= j < |text| && !IsSpace(text[g - 1]) && !IsSpace(text[j])
    ensures forall p :: g <= p < j ==> IsSpace(text[p])
  {
    hide IsSpace, IsEmoteWord;
    var a :| IsWord(text, a, g) && IsEmoteWord(d, text[a..g]);
    BareEmoteWord(d, text[a..g]);
    assert text[a..g][g - a - 1] == text[g - 1];
    var b :| IsWord(text, j, b) && IsZeroWidthName(d, text[j..b]);
    BareWord(d, text[j..b]);
    assert text[j..b][0] == text[j];
    forall p | g <= p < j
      ensures IsSpace(text[p])
    {
      assert text[g..j][p - g] == text[p];
    }
  }

  lemma DroppedAreWholeStretches(d: Dictionary, text: string)
    requires BareNames(d)
    ensures WholeStretches(text, Dropped(d, text))
  {
    hide IsSpace, Gap, BareNames;
    forall p | p in Dropped(d, text)
      ensures 0 < p < |text| - 1 && IsSpace(text[p])
      ensures IsSpace(text[p - 1]) ==> p - 1 in Dropped(d, text)
      ensures IsSpace(text[p + 1]) ==> p + 1 in Dropped(d, text)
    {
      var g, j :| Gap(d, text, g, j) && g <= p < j;
      GapHasBareEnds(d, text, g, j);
    }
  }

  /** Behind a stretch that went, what is kept ends in something else than white space. */
  lemma {:induction false} KeepEndsBare(text: string, gone: set<int>, n: nat)
    requires n <= |text| && WholeStretches(text, gone) && 0 < n && n - 1 in gone
    ensures var k := Keep(text, gone, 0, n); k == "" || !IsSpace(k[|k| - 1])
  {
    hide IsSpace;
    if n > 1 && n - 2 in gone {
      KeepEndsBare(text, gone, n - 1);
    }
  }

  /** Two sets of whole stretches leave the same text only if they are the same. */
  lemma {:induction false} SameTextSameBlanks(text: string, a: set<int>, b: set<int>, n: nat)
    requires n <= |text| && WholeStretches(text, a) && WholeStretches(text, b)
    requires Keep(text, a, 0, n) == Keep(text, b, 0, n)
    ensures forall p :: 0 <= p < n ==> (p in a <==> p in b)
  {
    hide IsSpace, WholeStretches;
    if n > 0 {
      if n - 1 in a && n - 1 !in b {
        OneSided(text, a, b, n);
      } else if n - 1 in b && n - 1 !in a {
        OneSided(text, b, a, n);
      }
      assert Keep(text, a, 0, n - 1) + "" == Keep(text, a, 0, n - 1);
      assert Keep(text, b, 0, n - 1) + "" == Keep(text, b, 0, n - 1);
      SameInit(Keep(text, a, 0, n - 1), Keep(text, b, 0, n - 1), text[n - 1]);
      SameTextSameBlanks(text, a, b, n - 1);
    }
  }

  lemma SameInit(a: string, b: string, c: char)
    ensures a + [c] == b + [c] ==> a == b
  {
    assert (a + [c])[..|a + [c]| - 1] == a && (b + [c])[..|b + [c]| - 1] == b;
  }

  lemma OneSided(text: string, a: set<int>, b: set<int>, n: nat)
    requires 0 < n <= |text| && WholeStretches(text, a) && n - 1 in a && n - 1 !in b
    ensures Keep(text, a, 0, n) != Keep(text, b, 0, n)
  {
    hide IsSpace;
    KeepEndsBare(text, a, n);
    assert IsSpace(text[n - 1]);
    assert Keep(text, b, 0, n) == Keep(text, b, 0, n - 1) + [text[n - 1]];
  }

  /** Without zero-width names nothing goes. */
  lemma NothingGoesWithoutZeroWidth(d: Dictionary, text: string)
    requires forall name :: name in d ==> !d[name].zw
    ensures Dropped(d, text) == {}
  {
  }

  /** The ends of a text always stay. */
  lemma {:induction false} EndsStay(d: Dictionary, text: string, p: int)
    requires Drops(d, text, p)
    ensures 0 < p < |text| - 1
  {
    var g, j :| Gap(d, text, g, j) && g <= p < j;
    EndIsNotASpace(d, text, g);
    StartIsNotASpace(d, text, j);
  }

  lemma {:induction false} KeepStartsAlike(text: string, gone: set<int>, n: nat)
    requires 0 < n <= |text| && 0 !in gone
    ensures Keep(text, gone, 0, n) != "" && Keep(text, gone, 0, n)[0] == text[0]
  {
    if n > 1 {
      KeepStartsAlike(text, gone, n - 1);
    }
  }

  /** Dropping inside a trimmed text leaves a trimmed text. */
  lemma KeepIsTrimmed(text: string, gone: set<int>)
    requires text != "" && Trimmed(text) && forall p :: p in gone ==> 0 < p < |text| - 1
    ensures Trimmed(Keep(text, gone, 0, |text|))
  {
    KeepStartsAlike(text, gone, |text|);
  }
}
