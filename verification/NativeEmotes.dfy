/** Splicing Twitch's own emotes into a message around the channel's dictionary. */
module NativeEmotes {
  import opened Sequences
  import opened Text
  import opened Tokens
  import opened TokenLaws
  import opened Trie
  import opened EmotesTag
  import opened Decimal
  import opened Blanks

  function NativeFragment(id: string, name: string): Fragment {
    Fragment(EmoteKind, name, "https://static-cdn.jtvnw.net/emoticons/v2/" + id + "/default/dark/1.0", false, id, "twitch")
  }

  /** Where a span ends in a message of `n` runes. */
  function EndOf(em: EmoteRange, n: nat): int {
    if em.end + 1 > n then n else em.end + 1
  }

  /** A sum of 64-bit integers, as Go computes it. */
  function Add64(a: int, b: int): int
    requires IsInt64(a) && IsInt64(b)
  {
    if a + b > MAX_INT64 then a + b - 0x1_0000_0000_0000_0000
    else if a + b < MIN_INT64 then a + b + 0x1_0000_0000_0000_0000
    else a + b
  }

  /** Where the code lets a span end: one past the last 64-bit integer lies in front of every message. */
  function SliceEnd(em: EmoteRange, n: nat): int
    requires IsInt64(em.end)
  {
    var end := Add64(em.end, 1);
    if end > n then n else end
  }

  /** The spans that make it into a message of `n` runes when everything before `cursor` is taken. */
  function Kept(native: seq<EmoteRange>, n: nat, cursor: nat): seq<EmoteRange>
    requires WellFormed(native)
  {
    if native == [] then []
    else
      var em := native[0];
      if em.start < cursor || em.start >= n then Kept(native[1..], n, cursor)
      else [em] + Kept(native[1..], n, EndOf(em, n))
  }

  /** The text between two positions, tokenized; nothing when there is none. */
  function Between(d: Option<Dictionary>, text: string): seq<Fragment> {
    if text == "" then [] else ServedFragments(d, text)
  }

  /**
   The kept spans become emotes of their own, the text between them is
   tokenized. None stands for the panic on a slice that ends before it starts.
   */
  function Splice(d: Option<Dictionary>, text: string, cursor: nat, native: seq<EmoteRange>): Option<seq<Fragment>>
    requires cursor <= |text| && WellFormed(native)
    decreases |native|
  {
    if native == [] then Some(Between(d, text[cursor..]))
    else
      var em := native[0];
      if em.start < cursor || em.start >= |text| then Splice(d, text, cursor, native[1..])
      else
        var end := SliceEnd(em, |text|);
        if end < em.start then None
        else
          var head := Between(d, text[cursor..em.start]) + [NativeFragment(em.id, text[em.start..end])];
          Behind(head, Splice(d, text, end, native[1..]))
  }

  function Behind(head: seq<Fragment>, rest: Option<seq<Fragment>>): Option<seq<Fragment>> {
    if rest.None? then None else Some(head + rest.value)
  }

  lemma BehindBehind(a: seq<Fragment>, b: seq<Fragment>, rest: Option<seq<Fragment>>)
    ensures Behind(a, Behind(b, rest)) == Behind(a + b, rest) && Behind([], rest) == rest
  {
    if rest.Some? {
      assert a + (b + rest.value) == a + b + rest.value;
      assert [] + rest.value == rest.value;
    }
  }

  method TokenizeWithNative(dict: ChannelDict, text: string, native: seq<EmoteRange>) returns (r: Option<seq<Fragment>>)
    requires dict.Valid() && WellFormed(native)
    ensures r == Splice(dict.Names(), text, 0, native)
  {
    hide ServedFragments, NativeFragment, Behind;
    ghost var d := dict.Names();
    var frags := [];
    var cursor := 0;
    BehindBehind([], [], Splice(d, text, 0, native));
    assert native[0..] == native;
    for k := 0 to |native|
      invariant 0 <= cursor <= |text|
      invariant Splice(d, text, 0, native) == Behind(frags, Splice(d, text, cursor, native[k..]))
    {
      var em := native[k];
      assert native[k..][0] == em && native[k..][1..] == native[k + 1..];
      if em.start < cursor || em.start >= |text| {
        continue;
      }
      var end := Add64(em.end, 1);
      if end > |text| {
        end := |text|;
      }
      assert end == SliceEnd(em, |text|);
      if end < em.start {
        BehindNothing(frags);
        return None;
      }
      ghost var head := Between(d, text[cursor..em.start]) + [NativeFragment(em.id, text[em.start..end])];
      BehindBehind(frags, head, Splice(d, text, end, native[k + 1..]));
      assert frags + [] == frags;
      assert frags + head == frags + Between(d, text[cursor..em.start]) + [NativeFragment(em.id, text[em.start..end])];
      if cursor < em.start {
        var before := dict.Tokenize(text[cursor..em.start]);
        frags := frags + before;
      }
      frags := frags + [NativeFragment(em.id, text[em.start..end])];
      cursor := end;
    }
    EndOfSplice(d, text, cursor, native[|native|..], frags);
    assert frags + [] == frags;
    if cursor < |text| {
      var after := dict.Tokenize(text[cursor..]);
      frags := frags + after;
    }
    return Some(frags);
  }

  lemma BehindNothing(head: seq<Fragment>)
    ensures Behind(head, None) == None
  {
  }

  lemma EndOfSplice(d: Option<Dictionary>, text: string, cursor: nat, native: seq<EmoteRange>, frags: seq<Fragment>)
    requires cursor <= |text| && native == []
    ensures Behind(frags, Splice(d, text, cursor, native)) == Some(frags + Between(d, text[cursor..]))
  {
  }

  ghost predicate Overlap(a: EmoteRange, b: EmoteRange) {
    a.start <= b.end && b.start <= a.end
  }

  /** In range, in order and disjoint, from `cursor` on. */
  ghost predicate Disjoint(kept: seq<EmoteRange>, n: nat, cursor: nat) {
    && (forall i :: 0 <= i < |kept| ==> cursor <= kept[i].start <= kept[i].end && kept[i].start < n)
    && (forall i, j :: 0 <= i < j < |kept| ==> kept[i].end < kept[j].start)
  }

  lemma {:induction false} KeptAreDisjoint(native: seq<EmoteRange>, n: nat, cursor: nat)
    requires WellFormed(native)
    ensures Disjoint(Kept(native, n, cursor), n, cursor)
  {
    if native != [] {
      var em := native[0];
      if em.start < cursor || em.start >= n {
        KeptAreDisjoint(native[1..], n, cursor);
      } else {
        var rest := Kept(native[1..], n, EndOf(em, n));
        KeptAreDisjoint(native[1..], n, EndOf(em, n));
        assert forall i :: 0 <= i < |rest| ==> em.end < rest[i].start;
      }
    }
  }

  ghost predicate AllBefore(a: EmoteRange, native: seq<EmoteRange>) {
    forall i :: 0 <= i < |native| ==> Before(a, native[i])
  }

  /** `em` overlaps a span of `kept`, or the one in `taken`. */
  ghost predicate Covered(em: EmoteRange, taken: Option<EmoteRange>, kept: seq<EmoteRange>) {
    (taken.Some? && Overlap(em, taken.value)) || exists k :: 0 <= k < |kept| && Overlap(em, kept[k])
  }

  /** A span in range is skipped only for a span that overlaps it: one kept, or the one that ends at `cursor`. */
  lemma {:induction false} SkippedOverlap(native: seq<EmoteRange>, n: nat, cursor: nat, taken: Option<EmoteRange>)
    requires Ordered(native) && WellFormed(native)
    requires if taken.None? then cursor == 0 else cursor == EndOf(taken.value, n) && AllBefore(taken.value, native)
    ensures forall i :: 0 <= i < |native| && native[i].start < n ==> Covered(native[i], taken, Kept(native, n, cursor))
  {
    if native != [] {
      var em, rest := native[0], native[1..];
      assert forall i :: 0 <= i < |rest| ==> rest[i] == native[i + 1];
      assert taken.Some? ==> Before(taken.value, em);
      if em.start < cursor || em.start >= n {
        SkippedOverlap(rest, n, cursor, taken);
        forall i | 0 <= i < |native| && native[i].start < n
          ensures Covered(native[i], taken, Kept(native, n, cursor))
        {
          if i > 0 {
            assert Covered(rest[i - 1], taken, Kept(rest, n, cursor));
          }
        }
      } else {
        SkippedOverlap(rest, n, EndOf(em, n), Some(em));
        var kept := Kept(native, n, cursor);
        assert kept[0] == em && kept[1..] == Kept(rest, n, EndOf(em, n));
        forall i | 0 <= i < |native| && native[i].start < n
          ensures Covered(native[i], taken, kept)
        {
          if i > 0 {
            assert Covered(rest[i - 1], Some(em), kept[1..]);
          }
        }
      }
    }
  }

  /** Of ordered spans, every one that starts in the message is kept or overlaps one that is. */
  lemma EverySpanIsCovered(native: seq<EmoteRange>, n: nat)
    requires Ordered(native) && WellFormed(native)
    ensures forall i :: 0 <= i < |native| && native[i].start < n ==> Covered(native[i], None, Kept(native, n, 0))
  {
    SkippedOverlap(native, n, 0, None);
  }

  lemma SpellsOne(f: Fragment)
    ensures Spells([f], f.c)
  {
    SpellsExactly([f]);
    ContentsPush([], f);
    assert [] + [f] == [f] && "" + f.c == f.c;
  }

  lemma SpellsBetween(d: Option<Dictionary>, text: string)
    ensures Spells(Between(d, text), text)
  {
    if text == "" {
      SpellsExactly([]);
    } else {
      ServedFragmentsSpell(d, text);
    }
  }

  lemma SpellsThree(a: seq<Fragment>, s: string, f: Fragment, b: seq<Fragment>, t: string)
    requires Spells(a, s) && Spells(b, t)
    ensures Spells(a + [f] + b, s + f.c + t)
  {
    SpellsOne(f);
    SpellsAppend(a, s, [f], f.c);
    SpellsAppend(a + [f], s + f.c, b, t);
  }

  /** A kept span ends as the text does or earlier, unless it ends at the last 64-bit integer. */
  lemma SliceEndIs(em: EmoteRange, n: nat)
    requires 0 <= em.start <= em.end <= MAX_INT64 && em.start < n
    ensures SliceEnd(em, n) < em.start <==> em.end == MAX_INT64
    ensures em.end != MAX_INT64 ==> SliceEnd(em, n) == EndOf(em, n)
  {
  }

  ghost predicate EndsAtMax(kept: seq<EmoteRange>) {
    exists k :: 0 <= k < |kept| && kept[k].end == MAX_INT64
  }

  /** Splicing returns unless a span it keeps ends at the last 64-bit integer. */
  lemma {:induction false} SplicingReturns(d: Option<Dictionary>, text: string, cursor: nat, native: seq<EmoteRange>)
    requires cursor <= |text| && WellFormed(native)
    ensures Splice(d, text, cursor, native).Some? <==> !EndsAtMax(Kept(native, |text|, cursor))
    decreases |native|
  {
    hide ServedFragments, NativeFragment, SliceEnd;
    if native != [] {
      var em := native[0];
      if em.start < cursor || em.start >= |text| {
        SplicingReturns(d, text, cursor, native[1..]);
      } else {
        SliceEndIs(em, |text|);
        assert Kept(native, |text|, cursor)[0] == em;
        if em.end != MAX_INT64 {
          SplicingReturns(d, text, EndOf(em, |text|), native[1..]);
          KeptMax(em, Kept(native[1..], |text|, EndOf(em, |text|)));
        }
      }
    }
  }

  lemma KeptMax(em: EmoteRange, rest: seq<EmoteRange>)
    requires em.end != MAX_INT64
    ensures EndsAtMax([em] + rest) <==> EndsAtMax(rest)
  {
    if k :| 0 <= k < |rest| && rest[k].end == MAX_INT64 {
      assert ([em] + rest)[k + 1].end == MAX_INT64;
    }
  }

  /** What splicing does with a first span that is kept. */
  lemma SpliceKept(d: Option<Dictionary>, text: string, cursor: nat, native: seq<EmoteRange>)
    requires cursor <= |text| && WellFormed(native) && native != []
    requires Splice(d, text, cursor, native).Some? && cursor <= native[0].start < |text|
    ensures
      var em, end := native[0], EndOf(native[0], |text|);
      && em.end != MAX_INT64 && em.start <= end <= |text| && Splice(d, text, end, native[1..]).Some?
      && Splice(d, text, cursor, native).value ==
           Between(d, text[cursor..em.start]) + [NativeFragment(em.id, text[em.start..end])] + Splice(d, text, end, native[1..]).value
  {
    hide ServedFragments, NativeFragment, SliceEnd;
    SliceEndIs(native[0], |text|);
  }

  lemma ThreeParts(text: string, a: nat, b: nat, c: nat)
    requires a <= b <= c <= |text|
    ensures text[a..b] + text[b..c] + text[c..] == text[a..]
  {
  }

  /** The fragments spell the whole message, up to the blanks the tokenizer removes. */
  lemma {:induction false} SplicingIsLossless(d: Option<Dictionary>, text: string, cursor: nat, native: seq<EmoteRange>)
    requires cursor <= |text| && WellFormed(native) && Splice(d, text, cursor, native).Some?
    ensures Spells(Splice(d, text, cursor, native).value, text[cursor..])
    decreases |native|
  {
    hide Spells, ServedFragments;
    if native == [] {
      SpellsBetween(d, text[cursor..]);
    } else {
      var em := native[0];
      if em.start < cursor || em.start >= |text| {
        SplicingIsLossless(d, text, cursor, native[1..]);
      } else {
        var end := EndOf(em, |text|);
        SpliceKept(d, text, cursor, native);
        SplicingIsLossless(d, text, end, native[1..]);
        SpellsBetween(d, text[cursor..em.start]);
        var f := NativeFragment(em.id, text[em.start..end]);
        SpellsThree(Between(d, text[cursor..em.start]), text[cursor..em.start], f, Splice(d, text, end, native[1..]).value, text[end..]);
        ThreeParts(text, cursor, em.start, end);
      }
    }
  }

  /** Every kept span becomes an emote with the runes it covers. */
  lemma {:induction false} KeptSpansAreEmotes(d: Option<Dictionary>, text: string, cursor: nat, native: seq<EmoteRange>)
    requires cursor <= |text| && WellFormed(native) && Splice(d, text, cursor, native).Some?
    ensures forall em :: em in Kept(native, |text|, cursor) ==>
      && 0 <= em.start <= EndOf(em, |text|) <= |text|
      && NativeFragment(em.id, text[em.start..EndOf(em, |text|)]) in Splice(d, text, cursor, native).value
    decreases |native|
  {
    hide ServedFragments, NativeFragment;
    if native != [] {
      var em := native[0];
      if em.start < cursor || em.start >= |text| {
        KeptSpansAreEmotes(d, text, cursor, native[1..]);
      } else {
        SpliceKept(d, text, cursor, native);
        KeptSpansAreEmotes(d, text, EndOf(em, |text|), native[1..]);
      }
    }
  }

  /**
   Splicing partitions the message, whatever well-formed spans come with it,
   if and only if no span it keeps ends at the last 64-bit integer; then it panics.
   */
  lemma SplicedMessageIsSpelled(d: Option<Dictionary>, text: string, native: seq<EmoteRange>)
    requires WellFormed(native)
    ensures
      match Splice(d, text, 0, native)
      case Some(frags) => !EndsAtMax(Kept(native, |text|, 0)) && Spells(frags, text)
      case None => EndsAtMax(Kept(native, |text|, 0))
  {
    hide Spells;
    SplicingReturns(d, text, 0, native);
    if Splice(d, text, 0, native).Some? {
      SplicingIsLossless(d, text, 0, native);
      assert text[0..] == text;
    }
  }

  lemma DigitsStep(n: nat, last: nat)
    requires n >= 10 && n % 10 == last
    ensures Digits(n) == Digits(n / 10) + [Digit(last)]
  {
  }

  lemma OneDigit(n: nat)
    requires n < 10
    ensures Digits(n) == [Digit(n)]
  {
  }

  lemma MaxDigits()
    ensures Digits(MAX_INT64) == "9223372036854775807" && Digits(0) == "0"
  {
    hide Digits;
    OneDigit(0);
    OneDigit(9);
    DigitsStep(92, 2);
    DigitsStep(922, 2);
    DigitsStep(9223, 3);
    DigitsStep(92233, 3);
    DigitsStep(922337, 7);
    DigitsStep(9223372, 2);
    DigitsStep(92233720, 0);
    DigitsStep(922337203, 3);
    DigitsStep(9223372036, 6);
    DigitsStep(92233720368, 8);
    DigitsStep(922337203685, 5);
    DigitsStep(9223372036854, 4);
    DigitsStep(92233720368547, 7);
    DigitsStep(922337203685477, 7);
    DigitsStep(9223372036854775, 5);
    DigitsStep(92233720368547758, 8);
    DigitsStep(922337203685477580, 0);
    DigitsStep(9223372036854775807, 7);
  }

  lemma OneSpanTag(groups: seq<Group>, id: string, span: (int, int))
    requires groups == [Group(id, [span])]
    ensures WriteTag(groups) == id + [':'] + WriteSpan(span)
    ensures AllRanges(groups) == [EmoteRange(id, span.0, span.1)]
  {
    hide WriteSpan;
    var g := groups[0];
    assert WriteSpans(g.spans) == [WriteSpan(span)];
    assert WriteGroups(groups) == [WriteGroup(g)];
    assert g.spans[..0] == [] && groups[..0] == [];
    assert Ranges(id, g.spans) == Ranges(id, []) + [EmoteRange(id, span.0, span.1)];
    assert AllRanges(groups) == AllRanges([]) + Ranges(id, g.spans);
  }

  lemma LongestTag(groups: seq<Group>)
    requires groups == [Group("25", [(0, MAX_INT64)])]
    ensures WriteTag(groups) == "25:0-9223372036854775807" && AllRanges(groups) == [EmoteRange("25", 0, MAX_INT64)]
    ensures ValidGroup(groups[0])
  {
    hide Digits, WriteTag, AllRanges;
    MaxDigits();
    OneSpanTag(groups, "25", (0, MAX_INT64));
  }

  /** A tag whose span ends at the last 64-bit integer is accepted, and splicing it into any message panics. */
  lemma LongestSpanPanics(d: Option<Dictionary>, text: string, tag: string, native: seq<EmoteRange>)
    requires text != "" && tag == "25:0-9223372036854775807" && native == [EmoteRange("25", 0, MAX_INT64)]
    ensures TagSpans(tag) == native && WellFormed(native) && Splice(d, text, 0, native) == None
  {
    hide TagSpans, WriteTag, AllRanges, Splice, Between;
    var groups := [Group("25", [(0, MAX_INT64)])];
    LongestTag(groups);
    TagReadsBack(groups);
    assert Kept(native, |text|, 0)[0] == native[0];
    SplicingReturns(d, text, 0, native);
  }

  // ---------------------------------------------------------------- the blanks that go around kept spans

  ghost predicate DropsIn(d: Dictionary, text: string, from: nat, end: nat, p: int)
    requires from <= end <= |text|
  {
    Drops(d, text[from..end], p - from)
  }

  /** The positions of the blanks that go when `text[from..end]` is tokenized by itself. */
  ghost function DroppedIn(d: Option<Dictionary>, text: string, from: nat, end: nat): set<int>
    requires from <= end <= |text|
  {
    if d.None? then {} else set p | from <= p < end && DropsIn(d.value, text, from, end, p)
  }

  /** The stretches in front of, between and behind the kept spans are tokenized each by itself. */
  ghost function DroppedAround(d: Option<Dictionary>, text: string, cursor: nat, kept: seq<EmoteRange>): set<int>
    requires cursor <= |text| && Disjoint(kept, |text|, cursor)
    decreases |kept|
  {
    if kept == [] then DroppedIn(d, text, cursor, |text|)
    else DroppedIn(d, text, cursor, kept[0].start) + DroppedAround(d, text, EndOf(kept[0], |text|), kept[1..])
  }

  /** The positions of the blanks the server drops from a message. */
  ghost function ServerDropped(d: Option<Dictionary>, text: string, native: seq<EmoteRange>): set<int>
    requires WellFormed(native)
  {
    KeptAreDisjoint(native, |text|, 0);
    DroppedAround(d, text, 0, Kept(native, |text|, 0))
  }

  lemma {:induction false} DroppedAroundIsLater(d: Option<Dictionary>, text: string, cursor: nat, kept: seq<EmoteRange>)
    requires cursor <= |text| && Disjoint(kept, |text|, cursor)
    ensures forall p :: p in DroppedAround(d, text, cursor, kept) ==> cursor <= p < |text|
    decreases |kept|
  {
    hide Drops;
    if kept != [] {
      DroppedAroundIsLater(d, text, EndOf(kept[0], |text|), kept[1..]);
    }
  }

  lemma PlainBetween(d: Option<Dictionary>, text: string)
    requires d.None? || text == ""
    ensures Contents(Between(d, text)) == text
  {
    hide Fragments;
    ContentsPush([], TextFragment(text));
    assert [] + [TextFragment(text)] == [TextFragment(text)];
  }

  lemma BetweenContents(d: Option<Dictionary>, text: string, from: nat, end: nat)
    requires from <= end <= |text|
    ensures Contents(Between(d, text[from..end])) == Keep(text, DroppedIn(d, text, from, end), from, end)
  {
    hide Contents, Fragments, Keep, Drops;
    var part := text[from..end];
    if d.None? || part == "" {
      PlainBetween(d, part);
      KeepAll(text, DroppedIn(d, text, from, end), from, end);
    } else {
      ContentsAreKept(d.value, true, part);
      KeepPart(text, from, end, end - from, Dropped(d.value, part), DroppedIn(d, text, from, end));
    }
  }

  /** What a spliced message spells: the text without the blanks dropped around the kept spans. */
  lemma {:induction false} SplicedContents(d: Option<Dictionary>, text: string, cursor: nat, native: seq<EmoteRange>)
    requires cursor <= |text| && WellFormed(native) && Splice(d, text, cursor, native).Some?
    ensures Disjoint(Kept(native, |text|, cursor), |text|, cursor)
    ensures Contents(Splice(d, text, cursor, native).value)
         == Keep(text, DroppedAround(d, text, cursor, Kept(native, |text|, cursor)), cursor, |text|)
    decreases |native|
  {
    KeptAreDisjoint(native, |text|, cursor);
    hide ServedFragments, NativeFragment, DroppedIn, Contents, Between;
    if native == [] {
      assert text[cursor..|text|] == text[cursor..];
      BetweenContents(d, text, cursor, |text|);
    } else {
      var em := native[0];
      if em.start < cursor || em.start >= |text| {
        SplicedContents(d, text, cursor, native[1..]);
      } else {
        var end := EndOf(em, |text|);
        var rest := Kept(native[1..], |text|, end);
        SpliceKept(d, text, cursor, native);
        SplicedContents(d, text, end, native[1..]);
        assert Kept(native, |text|, cursor)[1..] == rest;
        SplicedParts(d, text, cursor, em, Splice(d, text, end, native[1..]).value, rest);
      }
    }
  }

  lemma SplicedParts(d: Option<Dictionary>, text: string, cursor: nat, em: EmoteRange, frags: seq<Fragment>, rest: seq<EmoteRange>)
    requires cursor <= em.start < |text| && em.start <= em.end && Disjoint(rest, |text|, EndOf(em, |text|))
    requires Contents(frags) == Keep(text, DroppedAround(d, text, EndOf(em, |text|), rest), EndOf(em, |text|), |text|)
    ensures
      var end := EndOf(em, |text|);
      Contents(Between(d, text[cursor..em.start]) + [NativeFragment(em.id, text[em.start..end])] + frags)
      == Keep(text, DroppedIn(d, text, cursor, em.start) + DroppedAround(d, text, end, rest), cursor, |text|)
  {
    var end := EndOf(em, |text|);
    var before, after := DroppedIn(d, text, cursor, em.start), DroppedAround(d, text, end, rest);
    var head := Between(d, text[cursor..em.start]);
    var f := NativeFragment(em.id, text[em.start..end]);
    DroppedAroundIsLater(d, text, end, rest);
    BetweenContents(d, text, cursor, em.start);
    ContentsPush(head, f);
    ContentsAppend(head + [f], frags);
    KeepSplit(text, before + after, cursor, em.start, |text|);
    KeepSplit(text, before + after, em.start, end, |text|);
    KeepLocal(text, before, before + after, cursor, em.start);
    KeepLocal(text, after, before + after, end, |text|);
    KeepAll(text, before + after, em.start, end);
    hide Contents, Drops, Keep, Between, DroppedAround;
    Assoc(Contents(head), f.c, Contents(frags));
  }

  /** The server never drops the ends of a message. */
  lemma DroppedInside(d: Option<Dictionary>, text: string, native: seq<EmoteRange>)
    requires WellFormed(native)
    ensures forall p :: p in ServerDropped(d, text, native) ==> 0 < p < |text| - 1
  {
    KeptAreDisjoint(native, |text|, 0);
    AroundInside(d, text, 0, Kept(native, |text|, 0));
  }

  lemma {:induction false} AroundInside(d: Option<Dictionary>, text: string, cursor: nat, kept: seq<EmoteRange>)
    requires cursor <= |text| && Disjoint(kept, |text|, cursor)
    ensures forall p :: p in DroppedAround(d, text, cursor, kept) ==> 0 < p < |text| - 1
    decreases |kept|
  {
    hide DroppedIn, Drops;
    if kept == [] {
      InInside(d, text, cursor, |text|);
    } else {
      InInside(d, text, cursor, kept[0].start);
      AroundInside(d, text, EndOf(kept[0], |text|), kept[1..]);
    }
  }

  lemma InInside(d: Option<Dictionary>, text: string, from: nat, end: nat)
    requires from <= end <= |text|
    ensures forall p :: p in DroppedIn(d, text, from, end) ==> from < p < end - 1
  {
    hide Drops;
    forall p | p in DroppedIn(d, text, from, end)
      ensures from < p < end - 1
    {
      EndsStay(d.value, text[from..end], p - from);
    }
  }

  /** With names free of white space the server drops whole stretches of it. */
  lemma ServerDropsWholeStretches(d: Option<Dictionary>, text: string, native: seq<EmoteRange>)
    requires WellFormed(native) && (d.Some? ==> BareNames(d.value))
    ensures WholeStretches(text, ServerDropped(d, text, native))
  {
    KeptAreDisjoint(native, |text|, 0);
    AroundWholeStretches(d, text, 0, Kept(native, |text|, 0));
  }

  lemma {:induction false} AroundWholeStretches(d: Option<Dictionary>, text: string, cursor: nat, kept: seq<EmoteRange>)
    requires cursor <= |text| && Disjoint(kept, |text|, cursor) && (d.Some? ==> BareNames(d.value))
    ensures WholeStretches(text, DroppedAround(d, text, cursor, kept))
    decreases |kept|
  {
    hide DroppedIn, BareNames, IsSpace;
    if kept == [] {
      InWholeStretches(d, text, cursor, |text|);
    } else {
      InWholeStretches(d, text, cursor, kept[0].start);
      AroundWholeStretches(d, text, EndOf(kept[0], |text|), kept[1..]);
    }
  }

  lemma InWholeStretches(d: Option<Dictionary>, text: string, from: nat, end: nat)
    requires from <= end <= |text| && (d.Some? ==> BareNames(d.value))
    ensures WholeStretches(text, DroppedIn(d, text, from, end))
  {
    hide Drops, BareNames, IsSpace;
    if d.Some? {
      var part := text[from..end];
      DroppedAreWholeStretches(d.value, part);
      forall p | p in DroppedIn(d, text, from, end)
        ensures 0 < p < |text| - 1 && IsSpace(text[p])
        ensures IsSpace(text[p - 1]) ==> p - 1 in DroppedIn(d, text, from, end)
        ensures IsSpace(text[p + 1]) ==> p + 1 in DroppedIn(d, text, from, end)
      {
        var q := p - from;
        assert q in Dropped(d.value, part);
        assert part[q] == text[p] && part[q - 1] == text[p - 1] && part[q + 1] == text[p + 1];
        assert IsSpace(part[q - 1]) ==> q - 1 in Dropped(d.value, part) && p - 1 - from == q - 1;
        assert IsSpace(part[q + 1]) ==> q + 1 in Dropped(d.value, part) && p + 1 - from == q + 1;
      }
    }
  }

  /** Without zero-width names the server drops nothing. */
  lemma ServerDropsNothing(d: Option<Dictionary>, text: string, native: seq<EmoteRange>)
    requires WellFormed(native) && (d.Some? ==> forall name :: name in d.value ==> !d.value[name].zw)
    ensures ServerDropped(d, text, native) == {}
  {
    KeptAreDisjoint(native, |text|, 0);
    NothingAround(d, text, 0, Kept(native, |text|, 0));
  }

  lemma {:induction false} NothingAround(d: Option<Dictionary>, text: string, cursor: nat, kept: seq<EmoteRange>)
    requires cursor <= |text| && Disjoint(kept, |text|, cursor)
    requires d.Some? ==> forall name :: name in d.value ==> !d.value[name].zw
    ensures DroppedAround(d, text, cursor, kept) == {}
    decreases |kept|
  {
    hide Drops, DroppedIn;
    if kept == [] {
      NothingIn(d, text, cursor, |text|);
    } else {
      NothingIn(d, text, cursor, kept[0].start);
      NothingAround(d, text, EndOf(kept[0], |text|), kept[1..]);
    }
  }

  lemma NothingIn(d: Option<Dictionary>, text: string, from: nat, end: nat)
    requires from <= end <= |text|
    requires d.Some? ==> forall name :: name in d.value ==> !d.value[name].zw
    ensures DroppedIn(d, text, from, end) == {}
  {
    hide Drops;
    if d.Some? {
      var part := text[from..end];
      NothingGoesWithoutZeroWidth(d.value, part);
      assert forall p :: p in DroppedIn(d, text, from, end) ==> p - from in Dropped(d.value, part);
    }
  }
}
