/** Twitch's own emotes: the IRC `emotes` tag. */
module EmotesTag {
  import opened Text
  import opened Decimal

  /** A span of runes with an inclusive end. */
  datatype EmoteRange = EmoteRange(id: string, start: int, end: int)

  // ---------------------------------------------------------------- the tag

  /** The span a `start-end` piece stands for, if it is well formed. */
  function SpanOf(id: string, piece: string): Option<EmoteRange> {
    var span := TrimSpace(piece);
    var dash := IndexOf(span, '-');
    if dash == |span| then None
    else
      var start, end := Atoi(TrimSpace(span[..dash])), Atoi(TrimSpace(span[dash + 1..]));
      if start.None? || end.None? || start.value < 0 || end.value < start.value then None
      else Some(EmoteRange(id, start.value, end.value))
  }

  function SpansOf(id: string, pieces: seq<string>): seq<EmoteRange> {
    if pieces == [] then []
    else
      var span := SpanOf(id, pieces[|pieces| - 1]);
      SpansOf(id, pieces[..|pieces| - 1]) + if span.Some? then [span.value] else []
  }

  function GroupSpans(group: string): seq<EmoteRange> {
    var colon := IndexOf(group, ':');
    var id := TrimSpace(group[..colon]);
    if colon == |group| || id == "" then [] else SpansOf(id, Split(group[colon + 1..], ','))
  }

  function GroupsSpans(groups: seq<string>): seq<EmoteRange> {
    if groups == [] then [] else GroupsSpans(groups[..|groups| - 1]) + GroupSpans(groups[|groups| - 1])
  }

  function TagSpans(raw: string): seq<EmoteRange> {
    GroupsSpans(Split(TrimSpace(raw), '/'))
  }

  predicate Before(a: EmoteRange, b: EmoteRange) {
    a.start < b.start || (a.start == b.start && a.end <= b.end)
  }

  ghost predicate Ordered(spans: seq<EmoteRange>) {
    forall i, j :: 0 <= i < j < |spans| ==> Before(spans[i], spans[j])
  }

  ghost predicate WellFormed(spans: seq<EmoteRange>) {
    forall i :: 0 <= i < |spans| ==> 0 <= spans[i].start <= spans[i].end <= MAX_INT64
  }

  lemma BeforeIsTransitive(a: EmoteRange, b: EmoteRange, c: EmoteRange)
    requires Before(a, b) && Before(b, c)
    ensures Before(a, c)
  {
  }

  method InsertSpan(sorted: seq<EmoteRange>, x: EmoteRange) returns (r: seq<EmoteRange>)
    requires Ordered(sorted)
    ensures Ordered(r) && multiset(r) == multiset(sorted) + multiset{x}
  {
    hide Before;
    var i := 0;
    while i < |sorted| && Before(sorted[i], x)
      invariant 0 <= i <= |sorted|
      invariant forall j :: 0 <= j < i ==> Before(sorted[j], x)
    {
      i := i + 1;
    }
    assert sorted == sorted[..i] + sorted[i..];
    r := sorted[..i] + [x] + sorted[i..];
    if i < |sorted| {
      assert Before(x, sorted[i]) by { BeforeIsTotal(sorted[i], x); }
    }
    forall k | i <= k < |sorted|
      ensures Before(x, sorted[k])
    {
      if k > i {
        BeforeIsTransitive(x, sorted[i], sorted[k]);
      }
    }
  }

  lemma BeforeIsTotal(a: EmoteRange, b: EmoteRange)
    ensures Before(a, b) || Before(b, a)
  {
  }

  /** Spans with equal bounds may come in either order, as with an unstable sort. */
  method SortSpans(spans: seq<EmoteRange>) returns (r: seq<EmoteRange>)
    ensures Ordered(r) && multiset(r) == multiset(spans)
  {
    r := [];
    for k := 0 to |spans|
      invariant Ordered(r) && multiset(r) == multiset(spans[..k])
    {
      assert spans[..k + 1] == spans[..k] + [spans[k]];
      r := InsertSpan(r, spans[k]);
    }
    assert spans[..|spans|] == spans;
  }

  /** The well-formed spans among the comma-separated pieces of a group; other pieces are skipped. */
  method ParseSpans(id: string, pieces: seq<string>) returns (out: seq<EmoteRange>)
    ensures out == SpansOf(id, pieces) && WellFormed(out)
  {
    hide TrimSpace, Atoi, IndexOf;
    out := [];
    for p := 0 to |pieces|
      invariant out == SpansOf(id, pieces[..p]) && WellFormed(out)
    {
      assert pieces[..p + 1][..p] == pieces[..p];
      var span := TrimSpace(pieces[p]);
      if span == "" {
        continue;
      }
      var dash := IndexOf(span, '-');
      if dash == |span| {
        continue;
      }
      var start := Atoi(TrimSpace(span[..dash]));
      var end := Atoi(TrimSpace(span[dash + 1..]));
      if start.None? || end.None? || start.value < 0 || end.value < start.value {
        continue;
      }
      out := out + [EmoteRange(id, start.value, end.value)];
    }
    assert pieces[..|pieces|] == pieces;
  }

  method ParseEmotesTag(raw: string) returns (out: seq<EmoteRange>)
    ensures Ordered(out) && WellFormed(out)
    ensures multiset(out) == multiset(TagSpans(raw))
  {
    hide SpansOf, Split, IndexOf, TrimSpace;
    var trimmed := TrimSpace(raw);
    if trimmed == "" {
      EmptyTag();
      return [];
    }
    var groups := Split(trimmed, '/');
    out := [];
    for g := 0 to |groups|
      invariant out == GroupsSpans(groups[..g]) && WellFormed(out)
    {
      assert groups[..g + 1][..g] == groups[..g];
      var colon := IndexOf(groups[g], ':');
      var id := TrimSpace(groups[g][..colon]);
      if colon == |groups[g]| || id == "" {
        continue;
      }
      var spans := ParseSpans(id, Split(groups[g][colon + 1..], ','));
      out := out + spans;
    }
    assert groups[..|groups|] == groups;
    ghost var parsed := out;
    out := SortSpans(out);
    forall i | 0 <= i < |out|
      ensures 0 <= out[i].start <= out[i].end <= MAX_INT64
    {
      assert out[i] in multiset(parsed);
    }
  }

  // ---------------------------------------------------------------- the tag, written and read back

  /** An emote and where it occurs, as Twitch lists them in the tag. */
  datatype Group = Group(id: string, spans: seq<(int, int)>)

  ghost predicate ValidId(id: string) {
    id != "" && Trimmed(id) && '/' !in id && ':' !in id
  }

  ghost predicate ValidGroup(g: Group) {
    && ValidId(g.id) && g.spans != []
    && forall i :: 0 <= i < |g.spans| ==> 0 <= g.spans[i].0 <= g.spans[i].1 <= MAX_INT64
  }

  function WriteSpan(span: (int, int)): string {
    Itoa(span.0) + ['-'] + Itoa(span.1)
  }

  function WriteSpans(spans: seq<(int, int)>): (r: seq<string>)
    ensures |r| == |spans| && forall i :: 0 <= i < |r| ==> r[i] == WriteSpan(spans[i])
  {
    seq(|spans|, i requires 0 <= i < |spans| => WriteSpan(spans[i]))
  }

  function WriteGroup(g: Group): string {
    g.id + [':'] + Join(WriteSpans(g.spans), ',')
  }

  function WriteGroups(groups: seq<Group>): (r: seq<string>)
    ensures |r| == |groups| && forall i :: 0 <= i < |r| ==> r[i] == WriteGroup(groups[i])
  {
    seq(|groups|, i requires 0 <= i < |groups| => WriteGroup(groups[i]))
  }

  function WriteTag(groups: seq<Group>): string {
    Join(WriteGroups(groups), '/')
  }

  function Ranges(id: string, spans: seq<(int, int)>): seq<EmoteRange> {
    if spans == [] then []
    else
      var last := spans[|spans| - 1];
      Ranges(id, spans[..|spans| - 1]) + [EmoteRange(id, last.0, last.1)]
  }

  function AllRanges(groups: seq<Group>): seq<EmoteRange> {
    if groups == [] then []
    else
      var last := groups[|groups| - 1];
      AllRanges(groups[..|groups| - 1]) + Ranges(last.id, last.spans)
  }

  /** Nonempty, with no white space at either end, and free of `c`. */
  ghost predicate Clean(s: string, c: char) {
    s != "" && Trimmed(s) && c !in s
  }

  lemma DigitsAreClean(s: string, c: char)
    requires s != "" && AllDigits(s) && !IsDigit(c)
    ensures Clean(s, c) && TrimSpace(s) == s
  {
    TrimSpaceTrims(s);
  }

  lemma JoinTwoClean(a: string, sep: char, b: string, c: char)
    requires Clean(a, c) && Clean(b, c) && c != sep
    ensures Clean(a + [sep] + b, c)
  {
    var w := a + [sep] + b;
    assert w[0] == a[0] && w[|w| - 1] == b[|b| - 1];
  }

  lemma {:induction false} JoinClean(pieces: seq<string>, sep: char, c: char)
    requires pieces != [] && c != sep && forall i :: 0 <= i < |pieces| ==> Clean(pieces[i], c)
    ensures Clean(Join(pieces, sep), c)
  {
    assert Clean(pieces[0], c);
    if |pieces| > 1 {
      JoinClean(pieces[1..], sep, c);
      JoinTwoClean(pieces[0], sep, Join(pieces[1..], sep), c);
    }
  }

  lemma {:induction false} JoinTrimmed(pieces: seq<string>, sep: char)
    requires pieces != [] && forall i :: 0 <= i < |pieces| ==> Clean(pieces[i], sep)
    ensures Join(pieces, sep) != "" && Trimmed(Join(pieces, sep))
  {
    assert Clean(pieces[0], sep);
    if |pieces| > 1 {
      JoinTrimmed(pieces[1..], sep);
      var w := Join(pieces, sep);
      assert w[0] == pieces[0][0] && w[|w| - 1] == Join(pieces[1..], sep)[|Join(pieces[1..], sep)| - 1];
    }
  }

  lemma SpanIsClean(span: (int, int), c: char)
    requires 0 <= span.0 <= span.1 && c != '-' && !IsDigit(c)
    ensures Clean(WriteSpan(span), c)
  {
    hide Digits, Clean;
    DigitsAreClean(Itoa(span.0), c);
    DigitsAreClean(Itoa(span.1), c);
    JoinTwoClean(Itoa(span.0), '-', Itoa(span.1), c);
  }

  lemma SpanReadsBack(id: string, span: (int, int))
    requires 0 <= span.0 <= span.1 <= MAX_INT64
    ensures SpanOf(id, WriteSpan(span)) == Some(EmoteRange(id, span.0, span.1))
  {
    hide Itoa, Atoi, TrimSpace, IndexOf, Trimmed;
    var a, b := Itoa(span.0), Itoa(span.1);
    DigitsAreClean(a, '-');
    DigitsAreClean(b, '-');
    SpanIsClean(span, ',');
    TrimSpaceTrims(WriteSpan(span));
    IndexOfIs(a, '-', b);
    assert WriteSpan(span)[..|a|] == a && WriteSpan(span)[|a| + 1..] == b;
    AtoiOfItoa(span.0);
    AtoiOfItoa(span.1);
  }

  lemma {:induction false} SpansReadBack(id: string, spans: seq<(int, int)>)
    requires forall i :: 0 <= i < |spans| ==> 0 <= spans[i].0 <= spans[i].1 <= MAX_INT64
    ensures SpansOf(id, WriteSpans(spans)) == Ranges(id, spans)
  {
    hide SpanOf;
    if spans != [] {
      var n := |spans| - 1;
      SpansReadBack(id, spans[..n]);
      SpanReadsBack(id, spans[n]);
      assert WriteSpans(spans)[..n] == WriteSpans(spans[..n]);
    }
  }

  lemma GroupIsClean(g: Group)
    requires ValidGroup(g)
    ensures Clean(WriteGroup(g), '/')
  {
    forall i | 0 <= i < |g.spans|
      ensures Clean(WriteSpans(g.spans)[i], '/')
    {
      SpanIsClean(g.spans[i], '/');
    }
    JoinClean(WriteSpans(g.spans), ',', '/');
    JoinTwoClean(g.id, ':', Join(WriteSpans(g.spans), ','), '/');
  }

  lemma GroupReadsBack(g: Group)
    requires ValidGroup(g)
    ensures GroupSpans(WriteGroup(g)) == Ranges(g.id, g.spans)
  {
    hide SpanOf, SpansOf, WriteSpan, Ranges, IndexOf, Split, TrimSpace;
    var pieces := WriteSpans(g.spans);
    var list := Join(pieces, ',');
    forall p | p in pieces
      ensures ',' !in p
    {
      var i :| 0 <= i < |pieces| && pieces[i] == p;
      SpanIsClean(g.spans[i], ',');
    }
    SplitOfJoin(pieces, ',');
    SpansReadBack(g.id, g.spans);
    IndexOfIs(g.id, ':', list);
    TrimSpaceTrims(g.id);
    assert WriteGroup(g)[..|g.id|] == g.id && WriteGroup(g)[|g.id| + 1..] == list;
  }

  lemma {:induction false} GroupsReadBack(groups: seq<Group>)
    requires forall i :: 0 <= i < |groups| ==> ValidGroup(groups[i])
    ensures GroupsSpans(WriteGroups(groups)) == AllRanges(groups)
  {
    hide GroupSpans, WriteGroup, ValidGroup, Ranges;
    if groups != [] {
      var n := |groups| - 1;
      GroupsReadBack(groups[..n]);
      GroupReadsBack(groups[n]);
      assert WriteGroups(groups)[..n] == WriteGroups(groups[..n]);
    }
  }

  lemma PiecesAreClean(groups: seq<Group>)
    requires groups != [] && forall i :: 0 <= i < |groups| ==> ValidGroup(groups[i])
    ensures TrimSpace(WriteTag(groups)) == WriteTag(groups)
    ensures forall p :: p in WriteGroups(groups) ==> '/' !in p
  {
    hide ValidGroup, WriteGroup, Join, TrimSpace, Trimmed;
    var pieces := WriteGroups(groups);
    forall i | 0 <= i < |pieces|
      ensures Clean(pieces[i], '/')
    {
      GroupIsClean(groups[i]);
    }
    JoinTrimmed(pieces, '/');
    TrimSpaceTrims(WriteTag(groups));
  }

  /** Parsing a tag written from emote groups finds exactly the spans of the groups. */
  lemma TagReadsBack(groups: seq<Group>)
    requires forall i :: 0 <= i < |groups| ==> ValidGroup(groups[i])
    ensures TagSpans(WriteTag(groups)) == AllRanges(groups)
  {
    hide ValidGroup, WriteGroup, Join, Split, TrimSpace, GroupsSpans, AllRanges;
    if groups == [] {
      EmptyTag();
    } else {
      PiecesAreClean(groups);
      SplitOfJoin(WriteGroups(groups), '/');
      GroupsReadBack(groups);
    }
  }

  lemma EmptyTag()
    ensures TagSpans(WriteTag([])) == AllRanges([])
    ensures GroupsSpans(Split("", '/')) == []
  {
    TrimSpaceTrims("");
    assert Split("", '/') == [""] && GroupSpans("") == [];
    assert GroupsSpans([""]) == GroupsSpans([]) + [];
  }
}
