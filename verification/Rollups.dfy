/** Printing minute rollups of chat as line protocol. */
module Rollups {
  import opened Sequences
  import opened Text
  import opened Decimal
  import opened LineProtocol

  type Int64 = n: int | IsInt64(n)

  /** Times are seconds since the epoch; the zero time is `None`. */
  datatype Rollup = Rollup(
    channelLogin: string, streamId: string, streamTitle: string, streamCategory: string,
    startedAt: Option<Int64>, minute: Option<Int64>,
    viewerAvg: Int64, viewerMax: Int64, chatCount: Int64, totalEmoteCount: Int64, sevenTvEmoteCount: Int64,
    emotes: map<string, Int64>)

  const MAX_STREAM_TITLE_TAG_LEN := 80

  // ---------------------------------------------------------------- the points of a rollup

  predicate Skipped(r: Rollup) {
    r.minute.None? || TrimSpace(r.streamId) == "" || TrimSpace(r.channelLogin) == ""
  }

  function Sanitize(title: string): string {
    var t := TrimSpace(title);
    if |t| > MAX_STREAM_TITLE_TAG_LEN then t[..MAX_STREAM_TITLE_TAG_LEN] else t
  }

  datatype EmoteKey = EmoteKey(name: string, id: string, provider: string)

  /** `provider:id:name`, `provider:name`, or just a name; the name may hold colons. */
  function SplitEmoteKey(key: string): EmoteKey {
    var a := IndexOf(key, ':');
    if a == |key| then EmoteKey(key, "", "")
    else
      var rest := key[a + 1..];
      var b := IndexOf(rest, ':');
      if b == |rest| then EmoteKey(rest, rest, key[..a])
      else EmoteKey(rest[b + 1..], rest[..b], key[..a])
  }

  function OptionalTag(key: string, value: string): seq<Pair> {
    if value == "" then [] else [Pair(key, value)]
  }

  function MetaTags(r: Rollup): seq<Pair> {
    (if r.startedAt.None? then [] else [Pair("stream_started", Itoa(r.startedAt.value))])
    + OptionalTag("stream_title", Sanitize(r.streamTitle))
    + OptionalTag("stream_category", Sanitize(r.streamCategory))
  }

  function BaseTags(r: Rollup): seq<Pair> {
    [Pair("channel_login", r.channelLogin), Pair("stream_id", r.streamId)] + MetaTags(r)
  }

  /** How many emotes were used at all. */
  function UniqueEmotes(emotes: map<string, Int64>): nat {
    |set k | k in emotes && emotes[k] > 0|
  }

  function ActivityPoint(r: Rollup): Point
    requires r.minute.Some?
  {
    Point("stream_activity_1m", BaseTags(r),
          [IntField("viewer_avg", r.viewerAvg), IntField("viewer_max", r.viewerMax), IntField("chat_count", r.chatCount),
           IntField("total_emote_count", r.totalEmoteCount), IntField("seventv_emote_count", r.sevenTvEmoteCount),
           IntField("unique_emote_count", UniqueEmotes(r.emotes))],
          r.minute.value)
  }

  function EmoteTags(key: string): seq<Pair> {
    var k := SplitEmoteKey(key);
    [Pair("provider", if k.provider == "" then "unknown" else k.provider),
     Pair("emote_id", if k.id == "" then key else k.id),
     Pair("emote_name", k.name)]
  }

  function EmotePoint(r: Rollup, key: string): Point
    requires r.minute.Some? && key in r.emotes
  {
    Point("emote_usage_1m", BaseTags(r) + EmoteTags(key), [IntField("count", r.emotes[key])], r.minute.value)
  }

  /** The points of the emotes that were used, in the order the map is walked. */
  function EmotePoints(r: Rollup, order: seq<string>): seq<Point>
    requires r.minute.Some?
  {
    if order == [] then []
    else
      var key := order[|order| - 1];
      EmotePoints(r, order[..|order| - 1]) + if key in r.emotes && r.emotes[key] > 0 then [EmotePoint(r, key)] else []
  }

  function RollupPoints(r: Rollup, order: seq<string>): seq<Point> {
    if Skipped(r) then [] else [ActivityPoint(r)] + EmotePoints(r, order)
  }

  function Points(rs: seq<Rollup>, orders: seq<seq<string>>): seq<Point>
    requires |orders| == |rs|
  {
    if rs == [] then []
    else Points(rs[..|rs| - 1], orders[..|rs| - 1]) + RollupPoints(rs[|rs| - 1], orders[|rs| - 1])
  }

  /** `order` is one way to walk the map. */
  ghost predicate Walks(order: seq<string>, emotes: map<string, Int64>) {
    && (forall k :: k in order <==> k in emotes)
    && (forall i, j :: 0 <= i < j < |order| ==> order[i] != order[j])
  }

  ghost predicate AllWalk(orders: seq<seq<string>>, rs: seq<Rollup>) {
    |orders| == |rs| && forall i :: 0 <= i < |rs| ==> Walks(orders[i], rs[i].emotes)
  }

  /** `out` is what the printer may write, walking each map in some order. */
  ghost predicate Prints(out: string, rs: seq<Rollup>) {
    exists orders :: |orders| == |rs| && AllWalk(orders, rs) && out == Lines(Points(rs, orders))
  }

  // ---------------------------------------------------------------- the count of unique emotes

  function Used(r: Rollup, order: seq<string>): set<string> {
    set k | k in order && k in r.emotes && r.emotes[k] > 0
  }

  lemma {:induction false} OnePointPerUsedEmote(r: Rollup, order: seq<string>)
    requires r.minute.Some? && forall i, j :: 0 <= i < j < |order| ==> order[i] != order[j]
    ensures |EmotePoints(r, order)| == |Used(r, order)|
  {
    if order != [] {
      var n := |order| - 1;
      var init, key := order[..n], order[n];
      OnePointPerUsedEmote(r, init);
      if key in r.emotes && r.emotes[key] > 0 {
        assert key !in init;
        assert Used(r, order) == Used(r, init) + {key};
      } else {
        assert Used(r, order) == Used(r, init);
      }
    }
  }

  /** `unique_emote_count` is the number of emote lines of the rollup, in whatever order the map is walked. */
  lemma UniqueCountIsEmoteLines(r: Rollup, order: seq<string>)
    requires r.minute.Some? && Walks(order, r.emotes)
    ensures ActivityPoint(r).fields[5] == IntField("unique_emote_count", |EmotePoints(r, order)|)
  {
    OnePointPerUsedEmote(r, order);
    assert Used(r, order) == set k | k in r.emotes && r.emotes[k] > 0;
  }

  // ---------------------------------------------------------------- reading back

  /** A Go map is no larger than an int. */
  ghost predicate Sized(rs: seq<Rollup>) {
    forall i :: 0 <= i < |rs| ==> UniqueEmotes(rs[i].emotes) <= MAX_INT64
  }

  lemma {:induction false} EmotePointsArePrintable(r: Rollup, order: seq<string>)
    requires r.minute.Some?
    ensures forall p :: p in EmotePoints(r, order) ==> Printable(p)
  {
    hide BaseTags, EmoteTags;
    if order != [] {
      EmotePointsArePrintable(r, order[..|order| - 1]);
    }
  }

  lemma {:induction false} PointsArePrintable(rs: seq<Rollup>, orders: seq<seq<string>>)
    requires |orders| == |rs| && Sized(rs)
    ensures forall p :: p in Points(rs, orders) ==> Printable(p)
  {
    hide EmotePoints, BaseTags, TrimSpace;
    if rs != [] {
      var n := |rs| - 1;
      PointsArePrintable(rs[..n], orders[..n]);
      if !Skipped(rs[n]) {
        EmotePointsArePrintable(rs[n], orders[n]);
        ActivityIsPrintable(rs[n]);
      }
    }
  }

  lemma ActivityIsPrintable(r: Rollup)
    requires r.minute.Some? && UniqueEmotes(r.emotes) <= MAX_INT64
    ensures Printable(ActivityPoint(r))
  {
    hide BaseTags, UniqueEmotes;
  }

  ghost predicate OneLineTags(tags: seq<Pair>) {
    forall i :: 0 <= i < |tags| ==> OneLine(tags[i].key) && OneLine(tags[i].value)
  }

  /** No newline in what is printed of the rollup: its channel, stream, title and category, and the keys of its used emotes. */
  ghost predicate OneLineRollup(r: Rollup) {
    && OneLineBase(r)
    && forall key :: key in r.emotes && r.emotes[key] > 0 ==> OneLine(key)
  }

  ghost predicate OneLineBase(r: Rollup) {
    && OneLine(r.channelLogin) && OneLine(r.streamId)
    && OneLine(Sanitize(r.streamTitle)) && OneLine(Sanitize(r.streamCategory))
  }

  ghost predicate OneLinePoints(ps: seq<Point>) {
    forall i :: 0 <= i < |ps| ==> OneLinePoint(ps[i])
  }

  lemma OneLineTagsAppend(a: seq<Pair>, b: seq<Pair>)
    ensures OneLineTags(a + b) <==> OneLineTags(a) && OneLineTags(b)
  {
    if OneLineTags(a + b) {
      assert forall i :: 0 <= i < |a| ==> (a + b)[i] == a[i];
      assert forall i :: 0 <= i < |b| ==> (a + b)[|a| + i] == b[i];
    }
  }

  lemma OneLinePointsAppend(a: seq<Point>, b: seq<Point>)
    ensures OneLinePoints(a + b) <==> OneLinePoints(a) && OneLinePoints(b)
  {
    hide OneLinePoint;
    if OneLinePoints(a + b) {
      assert forall i :: 0 <= i < |a| ==> (a + b)[i] == a[i];
      assert forall i :: 0 <= i < |b| ==> (a + b)[|a| + i] == b[i];
    }
  }

  lemma ItoaIsOneLine(n: int)
    ensures OneLine(Itoa(n))
  {
  }

  lemma OptionalTagLines(key: string, value: string)
    requires OneLine(key)
    ensures OneLineTags(OptionalTag(key, value)) <==> OneLine(value)
  {
    if value != "" {
      assert OptionalTag(key, value)[0] == Pair(key, value);
    }
  }

  lemma BaseTagsLines(r: Rollup)
    ensures OneLineTags(BaseTags(r)) <==> OneLineBase(r)
  {
    hide Sanitize, OptionalTag, Itoa;
    var own := [Pair("channel_login", r.channelLogin), Pair("stream_id", r.streamId)];
    var title := OptionalTag("stream_title", Sanitize(r.streamTitle));
    var category := OptionalTag("stream_category", Sanitize(r.streamCategory));
    var started := if r.startedAt.None? then [] else [Pair("stream_started", Itoa(r.startedAt.value))];
    if r.startedAt.Some? {
      ItoaIsOneLine(r.startedAt.value);
    }
    OptionalTagLines("stream_title", Sanitize(r.streamTitle));
    OptionalTagLines("stream_category", Sanitize(r.streamCategory));
    OneLineTagsAppend(started, title);
    OneLineTagsAppend(started + title, category);
    OneLineTagsAppend(own, started + title + category);
    assert OneLineTags(own) <==> OneLine(r.channelLogin) && OneLine(r.streamId) by {
      assert own[0].value == r.channelLogin && own[1].value == r.streamId;
    }
    assert OneLineTags(started);
  }

  /** The pieces of an emote key and what stands in for missing ones hold a newline only if the key does. */
  lemma EmoteTagsLines(key: string)
    ensures OneLineTags(EmoteTags(key)) <==> OneLine(key)
  {
    var tags := EmoteTags(key);
    KeyLines(key);
    assert tags[0].value == "unknown" || tags[0].value == SplitEmoteKey(key).provider;
    assert tags[1].value == key || tags[1].value == SplitEmoteKey(key).id;
    assert tags[2].value == SplitEmoteKey(key).name;
    hide SplitEmoteKey;
    assert OneLine("unknown") && OneLine("provider") && OneLine("emote_id") && OneLine("emote_name");
  }

  lemma KeyLines(key: string)
    ensures
      var k := SplitEmoteKey(key);
      OneLine(key) <==> OneLine(k.provider) && OneLine(k.id) && OneLine(k.name)
  {
    var a := IndexOf(key, ':');
    if a < |key| {
      var rest := key[a + 1..];
      assert key == key[..a] + [':'] + rest;
      var b := IndexOf(rest, ':');
      if b < |rest| {
        assert rest == rest[..b] + [':'] + rest[b + 1..];
      }
    }
  }

  lemma PointLines(p: Point)
    requires OneLine(p.measurement) && forall i :: 0 <= i < |p.fields| ==> OneLine(p.fields[i].key)
    ensures OneLinePoint(p) <==> OneLineTags(p.tags)
  {
    hide OneLine;
  }

  lemma ActivityNames()
    ensures OneLine("stream_activity_1m") && OneLine("viewer_avg") && OneLine("viewer_max") && OneLine("chat_count")
    ensures OneLine("total_emote_count") && OneLine("seventv_emote_count") && OneLine("unique_emote_count")
  {
  }

  lemma ActivityLines(r: Rollup)
    requires r.minute.Some?
    ensures OneLinePoint(ActivityPoint(r)) <==> OneLineBase(r)
  {
    hide BaseTags, OneLineBase, UniqueEmotes, OneLine, OneLinePoint, OneLineTags;
    BaseTagsLines(r);
    ActivityNames();
    PointLines(ActivityPoint(r));
  }

  lemma EmoteLines(r: Rollup, key: string)
    requires r.minute.Some? && key in r.emotes
    ensures OneLinePoint(EmotePoint(r, key)) <==> OneLineBase(r) && OneLine(key)
  {
    hide BaseTags, OneLineBase, EmoteTags;
    BaseTagsLines(r);
    EmoteTagsLines(key);
    OneLineTagsAppend(BaseTags(r), EmoteTags(key));
    assert OneLine("emote_usage_1m") && OneLine("count");
  }

  lemma {:induction false} EmotePointsLines(r: Rollup, order: seq<string>)
    requires r.minute.Some? && OneLineBase(r)
    ensures OneLinePoints(EmotePoints(r, order)) <==>
      forall key :: key in order && key in r.emotes && r.emotes[key] > 0 ==> OneLine(key)
  {
    hide OneLinePoint, OneLineBase, OneLine, EmotePoint;
    if order != [] {
      var init, key := order[..|order| - 1], order[|order| - 1];
      EmotePointsLines(r, init);
      assert order == init + [key];
      if key in r.emotes && r.emotes[key] > 0 {
        EmoteLines(r, key);
        OneLinePointsAppend(EmotePoints(r, init), [EmotePoint(r, key)]);
        assert OneLinePoints([EmotePoint(r, key)]) <==> OneLinePoint(EmotePoint(r, key)) by {
          assert [EmotePoint(r, key)][0] == EmotePoint(r, key);
        }
      } else {
        assert EmotePoints(r, init) + [] == EmotePoints(r, init);
      }
    }
  }

  lemma RollupPointsLines(r: Rollup, order: seq<string>)
    requires Walks(order, r.emotes)
    ensures OneLinePoints(RollupPoints(r, order)) <==> Skipped(r) || OneLineRollup(r)
  {
    hide OneLinePoint, OneLineBase, OneLine, EmotePoints, ActivityPoint, TrimSpace;
    if !Skipped(r) {
      ActivityLines(r);
      OneLinePointsAppend([ActivityPoint(r)], EmotePoints(r, order));
      assert OneLinePoints([ActivityPoint(r)]) <==> OneLinePoint(ActivityPoint(r)) by {
        assert [ActivityPoint(r)][0] == ActivityPoint(r);
      }
      if OneLineBase(r) {
        EmotePointsLines(r, order);
      }
    }
  }

  lemma {:induction false} PointsLines(rs: seq<Rollup>, orders: seq<seq<string>>)
    requires |orders| == |rs| && AllWalk(orders, rs)
    ensures OneLinePoints(Points(rs, orders)) <==> forall i :: 0 <= i < |rs| ==> Skipped(rs[i]) || OneLineRollup(rs[i])
  {
    hide OneLinePoint, RollupPoints, Walks, Skipped, OneLineRollup, AllWalk;
    if rs != [] {
      var n := |rs| - 1;
      AllWalkPop(orders, rs);
      PointsLines(rs[..n], orders[..n]);
      RollupPointsLines(rs[n], orders[n]);
      OneLinePointsAppend(Points(rs[..n], orders[..n]), RollupPoints(rs[n], orders[n]));
      assert rs == rs[..n] + [rs[n]];
    }
  }

  /** The points of rollups are printable, so they read back if and only if none of their names and values holds a newline. */
  lemma PointsReadBack(rs: seq<Rollup>, orders: seq<seq<string>>)
    requires |orders| == |rs| && Sized(rs)
    ensures ReadLines(Lines(Points(rs, orders))) == Some(Points(rs, orders)) <==> OneLinePoints(Points(rs, orders))
  {
    hide Points, Printable, OneLinePoint, ReadLines, Lines;
    PointsArePrintable(rs, orders);
    PrintedPointsReadBack(Points(rs, orders));
  }

  /** What is printed reads back as the very points, if and only if no rollup that is printed holds a newline in what is printed of it. */
  lemma RollupsReadBack(rs: seq<Rollup>, orders: seq<seq<string>>)
    requires |orders| == |rs| && AllWalk(orders, rs) && Sized(rs)
    ensures ReadLines(Lines(Points(rs, orders))) == Some(Points(rs, orders))
       <==> forall i :: 0 <= i < |rs| ==> Skipped(rs[i]) || OneLineRollup(rs[i])
  {
    hide Points, OneLinePoints, ReadLines, Lines, Skipped, OneLineRollup;
    PointsReadBack(rs, orders);
    PointsLines(rs, orders);
  }

  lemma KeptNewline(title: string)
    requires title == "a\nb"
    ensures !OneLine(Sanitize(title))
  {
    TrimSpaceTrims(title);
    assert Sanitize(title)[1] == '\n';
  }

  /** A title with a newline inside is printed as two lines, which do not read back. */
  lemma NewlineInTitle(r: Rollup, order: seq<string>)
    requires !Skipped(r) && r.streamTitle == "a\nb" && Walks(order, r.emotes) && Sized([r])
    ensures ReadLines(Lines(Points([r], [order]))) != Some(Points([r], [order]))
  {
    hide Points, ReadLines, Lines, Skipped, Walks, Sanitize, OneLine;
    KeptNewline(r.streamTitle);
    assert [r][0] == r && !OneLineRollup(r);
    RollupsReadBack([r], [order]);
  }

  // ---------------------------------------------------------------- filtering first

  /** Only the emotes that were used. */
  function Positive(emotes: map<string, Int64>): map<string, Int64> {
    map k | k in emotes && emotes[k] > 0 :: emotes[k]
  }

  function Cloned(r: Rollup): Rollup {
    r.(emotes := Positive(r.emotes))
  }

  /** Rollups that would be skipped are dropped, and so are emotes that were not used. */
  function Clones(rs: seq<Rollup>): seq<Rollup> {
    if rs == [] then []
    else Clones(rs[..|rs| - 1]) + if Skipped(rs[|rs| - 1]) then [] else [Cloned(rs[|rs| - 1])]
  }

  lemma ClonesPush(rs: seq<Rollup>, r: Rollup)
    ensures Clones(rs + [r]) == if Skipped(r) then Clones(rs) else Clones(rs) + [Cloned(r)]
  {
    hide Skipped, Cloned;
    assert (rs + [r])[..|rs|] == rs;
    assert Clones(rs) + [] == Clones(rs);
  }

  lemma NoClones()
    ensures Clones([]) == []
  {
  }

  method CloneRollups(rs: seq<Rollup>) returns (out: seq<Rollup>)
    ensures out == Clones(rs)
  {
    hide Positive, TrimSpace, Clones;
    NoClones();
    out := [];
    for i := 0 to |rs|
      invariant out == Clones(rs[..i])
    {
      var r := rs[i];
      assert rs[..i + 1] == rs[..i] + [r];
      ClonesPush(rs[..i], r);
      if r.minute.None? || TrimSpace(r.streamId) == "" || TrimSpace(r.channelLogin) == "" {
        continue;
      }
      out := out + [r.(emotes := Positive(r.emotes))];
    }
    assert rs[..|rs|] == rs;
  }

  lemma {:induction false} CloneHasSamePoints(r: Rollup, order: seq<string>)
    requires r.minute.Some?
    ensures EmotePoints(Cloned(r), order) == EmotePoints(r, order)
  {
    hide BaseTags, EmoteTags;
    if order != [] {
      CloneHasSamePoints(r, order[..|order| - 1]);
      BaseTagsOfClone(r);
    }
  }

  lemma BaseTagsOfClone(r: Rollup)
    ensures BaseTags(Cloned(r)) == BaseTags(r)
  {
  }

  lemma ActivityOfClone(r: Rollup)
    requires r.minute.Some?
    ensures ActivityPoint(Cloned(r)) == ActivityPoint(r)
  {
    assert (set k | k in Positive(r.emotes) && Positive(r.emotes)[k] > 0) == set k | k in r.emotes && r.emotes[k] > 0;
  }

  function OnlyUsed(r: Rollup, order: seq<string>): (o: seq<string>)
    ensures forall k :: k in o <==> k in order && k in r.emotes && r.emotes[k] > 0
  {
    if order == [] then []
    else
      var key := order[|order| - 1];
      OnlyUsed(r, order[..|order| - 1]) + if key in r.emotes && r.emotes[key] > 0 then [key] else []
  }

  lemma {:induction false} OnlyUsedIsDistinct(r: Rollup, order: seq<string>)
    requires forall i, j :: 0 <= i < j < |order| ==> order[i] != order[j]
    ensures forall i, j :: 0 <= i < j < |OnlyUsed(r, order)| ==> OnlyUsed(r, order)[i] != OnlyUsed(r, order)[j]
  {
    if order != [] {
      OnlyUsedIsDistinct(r, order[..|order| - 1]);
      assert order[|order| - 1] !in order[..|order| - 1];
    }
  }

  lemma EmotePointsPush(r: Rollup, order: seq<string>, key: string)
    requires r.minute.Some?
    ensures EmotePoints(r, order + [key]) == EmotePoints(r, order) + if key in r.emotes && r.emotes[key] > 0 then [EmotePoint(r, key)] else []
  {
    hide EmotePoint;
    assert (order + [key])[..|order|] == order;
  }

  lemma PointsPush(rs: seq<Rollup>, orders: seq<seq<string>>, r: Rollup, order: seq<string>)
    requires |orders| == |rs|
    ensures Points(rs + [r], orders + [order]) == Points(rs, orders) + RollupPoints(r, order)
  {
    hide RollupPoints;
    assert (rs + [r])[..|rs|] == rs && (orders + [order])[..|rs|] == orders;
  }

  lemma OnlyUsedPush(r: Rollup, order: seq<string>, key: string)
    ensures OnlyUsed(r, order + [key]) == OnlyUsed(r, order) + if key in r.emotes && r.emotes[key] > 0 then [key] else []
  {
    assert (order + [key])[..|order|] == order;
  }

  lemma {:induction false} OnlyUsedHasSamePoints(r: Rollup, order: seq<string>)
    requires r.minute.Some?
    ensures EmotePoints(r, OnlyUsed(r, order)) == EmotePoints(r, order)
  {
    hide EmotePoint, EmotePoints, OnlyUsed;
    if order == [] {
      NothingUsed(r);
    } else {
      var init, key := order[..|order| - 1], order[|order| - 1];
      assert order == init + [key];
      OnlyUsedHasSamePoints(r, init);
      OnlyUsedPush(r, init, key);
      EmotePointsPush(r, init, key);
      EmotePointsPush(r, OnlyUsed(r, init), key);
      assert OnlyUsed(r, init) + [] == OnlyUsed(r, init) && EmotePoints(r, init) + [] == EmotePoints(r, init);
    }
  }

  lemma NothingUsed(r: Rollup)
    ensures OnlyUsed(r, []) == []
  {
  }

  /** Walks of the filtered rollups, from walks of the originals. */
  function CloneOrders(rs: seq<Rollup>, orders: seq<seq<string>>): seq<seq<string>>
    requires |orders| == |rs|
  {
    if rs == [] then []
    else
      var n := |rs| - 1;
      CloneOrders(rs[..n], orders[..n]) + if Skipped(rs[n]) then [] else [OnlyUsed(rs[n], orders[n])]
  }

  lemma AllWalkPush(orders: seq<seq<string>>, rs: seq<Rollup>, order: seq<string>, r: Rollup)
    requires AllWalk(orders, rs) && Walks(order, r.emotes)
    ensures AllWalk(orders + [order], rs + [r])
  {
    hide Walks;
  }

  lemma AllWalkPop(orders: seq<seq<string>>, rs: seq<Rollup>)
    requires AllWalk(orders, rs) && rs != []
    ensures AllWalk(orders[..|rs| - 1], rs[..|rs| - 1]) && Walks(orders[|rs| - 1], rs[|rs| - 1].emotes)
  {
    hide Walks;
  }

  /** Whatever way the maps are walked, filtering first prints the same text under some walk of the filtered maps. */
  lemma {:induction false} FilteringChangesNothing(rs: seq<Rollup>, orders: seq<seq<string>>)
    requires |orders| == |rs| && AllWalk(orders, rs)
    ensures |CloneOrders(rs, orders)| == |Clones(rs)| && AllWalk(CloneOrders(rs, orders), Clones(rs))
    ensures Points(Clones(rs), CloneOrders(rs, orders)) == Points(rs, orders)
  {
    hide RollupPoints, OnlyUsed, Skipped, Cloned, AllWalk, Walks;
    if rs == [] {
      NobodyWalks();
    } else {
      var n := |rs| - 1;
      var cs, os := Clones(rs[..n]), CloneOrders(rs[..n], orders[..n]);
      AllWalkPop(orders, rs);
      FilteringChangesNothing(rs[..n], orders[..n]);
      if Skipped(rs[n]) {
        NoPoints(Points(rs[..n], orders[..n]), rs[n], orders[n]);
        assert cs + [] == cs && os + [] == os;
      } else {
        CloneIsPrintedAlike(rs[n], orders[n]);
        AllWalkPush(os, cs, OnlyUsed(rs[n], orders[n]), Cloned(rs[n]));
        PointsPush(cs, os, Cloned(rs[n]), OnlyUsed(rs[n], orders[n]));
      }
    }
  }

  lemma CloneIsPrintedAlike(r: Rollup, order: seq<string>)
    requires !Skipped(r) && Walks(order, r.emotes)
    ensures Walks(OnlyUsed(r, order), Cloned(r).emotes)
    ensures !Skipped(Cloned(r))
    ensures RollupPoints(Cloned(r), OnlyUsed(r, order)) == RollupPoints(r, order)
  {
    hide EmotePoints, ActivityPoint, OnlyUsed;
    OnlyUsedIsDistinct(r, order);
    OnlyUsedHasSamePoints(r, order);
    CloneHasSamePoints(r, OnlyUsed(r, order));
    ActivityOfClone(r);
  }

  lemma {:induction false} Listing(keys: set<string>) returns (order: seq<string>)
    ensures forall k :: k in order <==> k in keys
    ensures forall i, j :: 0 <= i < j < |order| ==> order[i] != order[j]
    decreases keys
  {
    if keys == {} {
      order := [];
    } else {
      var key :| key in keys;
      var rest := Listing(keys - {key});
      order := rest + [key];
    }
  }

  lemma {:induction false} UnusedPrintNothing(r: Rollup, order: seq<string>, unused: seq<string>)
    requires r.minute.Some? && forall k :: k in unused ==> k in r.emotes && r.emotes[k] <= 0
    ensures EmotePoints(r, order + unused) == EmotePoints(r, order)
    decreases |unused|
  {
    hide EmotePoints, EmotePoint;
    if unused == [] {
      assert order + unused == order;
    } else {
      var n := |unused| - 1;
      assert forall k :: k in unused[..n] ==> k in unused;
      UnusedPrintNothing(r, order, unused[..n]);
      assert order + unused == (order + unused[..n]) + [unused[n]];
      assert unused[n] in unused;
      EmotePointsPush(r, order + unused[..n], unused[n]);
      assert EmotePoints(r, order) + [] == EmotePoints(r, order);
    }
  }

  lemma WalksTogether(used: seq<string>, unused: seq<string>, emotes: map<string, Int64>)
    requires Walks(used, Positive(emotes))
    requires forall k :: k in unused <==> k in emotes.Keys - Positive(emotes).Keys
    requires forall i, j :: 0 <= i < j < |unused| ==> unused[i] != unused[j]
    ensures Walks(used + unused, emotes)
  {
    var order := used + unused;
    forall i, j | 0 <= i < j < |order|
      ensures order[i] != order[j]
    {
      if i < |used| <= j {
        assert used[i] in used && unused[j - |used|] in unused;
      }
    }
  }

  lemma WalkOfOriginal(r: Rollup, used: seq<string>) returns (order: seq<string>)
    requires !Skipped(r) && Walks(used, Cloned(r).emotes)
    ensures Walks(order, r.emotes) && RollupPoints(r, order) == RollupPoints(Cloned(r), used)
  {
    var unused := Listing(r.emotes.Keys - Positive(r.emotes).Keys);
    order := used + unused;
    WalksTogether(used, unused, r.emotes);
    CloneHasSamePoints(r, used);
    UnusedPrintNothing(r, used, unused);
    ActivityOfClone(r);
    hide EmotePoints, ActivityPoint, Walks;
  }

  /** Nor does filtering print anything new: its text is that of the originals under some walk. */
  lemma {:induction false} FilteringAddsNothing(rs: seq<Rollup>, orders: seq<seq<string>>) returns (originals: seq<seq<string>>)
    requires |orders| == |Clones(rs)| && AllWalk(orders, Clones(rs))
    ensures |originals| == |rs| && AllWalk(originals, rs)
    ensures Points(rs, originals) == Points(Clones(rs), orders)
  {
    hide RollupPoints, Skipped, Cloned, AllWalk, Walks, Clones, Points;
    if rs == [] {
      NobodyWalks();
      NoClones();
      originals := [];
    } else {
      var n := |rs| - 1;
      var init, r := rs[..n], rs[n];
      assert rs == init + [r];
      ClonesPush(init, r);
      if Skipped(r) {
        originals := FilteringAddsNothing(init, orders);
        var order := Listing(r.emotes.Keys);
        ListingWalks(order, r.emotes);
        AllWalkPush(originals, init, order, r);
        PointsPush(init, originals, r, order);
        NoPoints(Points(init, originals), r, order);
        originals := originals + [order];
      } else {
        var m := |orders| - 1;
        AllWalkPop(orders, Clones(rs));
        assert Clones(rs)[..m] == Clones(init);
        originals := FilteringAddsNothing(init, orders[..m]);
        var order := WalkOfOriginal(r, orders[m]);
        AllWalkPush(originals, init, order, r);
        PointsPush(init, originals, r, order);
        PointsPush(Clones(init), orders[..m], Cloned(r), orders[m]);
        assert orders == orders[..m] + [orders[m]];
        originals := originals + [order];
      }
    }
  }

  /** Filtering first makes no difference to what may be printed. */
  lemma FilteringIsInvisible(rs: seq<Rollup>, out: string)
    ensures Prints(out, rs) <==> Prints(out, Clones(rs))
  {
    hide Points, Lines, Clones;
    if Prints(out, rs) {
      var orders :| |orders| == |rs| && AllWalk(orders, rs) && out == Lines(Points(rs, orders));
      FilteringChangesNothing(rs, orders);
    }
    if Prints(out, Clones(rs)) {
      var orders :| |orders| == |Clones(rs)| && AllWalk(orders, Clones(rs)) && out == Lines(Points(Clones(rs), orders));
      var originals := FilteringAddsNothing(rs, orders);
    }
  }

  lemma ListingWalks(order: seq<string>, emotes: map<string, Int64>)
    requires forall k :: k in order <==> k in emotes.Keys
    requires forall i, j :: 0 <= i < j < |order| ==> order[i] != order[j]
    ensures Walks(order, emotes)
  {
  }

  // ---------------------------------------------------------------- the printer

  class Builder {
    var text: string

    constructor ()
      ensures text == ""
    {
      text := "";
    }

    method WriteString(s: string)
      modifies this
      ensures text == old(text) + s
    {
      text := text + s;
    }
  }

  method WriteTag(b: Builder, key: string, value: string)
    modifies b
    ensures b.text == old(b.text) + TagText(Pair(key, value))
  {
    EscapeTagIsOnePass(key);
    EscapeTagIsOnePass(value);
    b.WriteString(",");
    b.WriteString(EscapeTag(key));
    b.WriteString("=");
    b.WriteString(EscapeTag(value));
  }

  method WriteIntField(b: Builder, key: string, value: int)
    modifies b
    ensures b.text == old(b.text) + FieldText(IntField(key, value))
  {
    hide EscapeTag, Escape, Itoa;
    EscapeTagIsOnePass(key);
    b.WriteString(EscapeTag(key));
    b.WriteString("=");
    b.WriteString(Itoa(value));
    b.WriteString("i");
  }

  lemma {:induction false} TagsTextAppend(a: seq<Pair>, b: seq<Pair>)
    ensures TagsText(a + b) == TagsText(a) + TagsText(b)
  {
    hide TagText;
    if a == [] {
      assert a + b == b;
    } else {
      assert (a + b)[1..] == a[1..] + b;
      TagsTextAppend(a[1..], b);
    }
  }

  lemma TagsTextPush(a: seq<Pair>, t: Pair)
    ensures TagsText(a + [t]) == TagsText(a) + TagText(t)
  {
    hide TagText;
    TagsTextAppend(a, [t]);
    assert TagsText([t]) == TagText(t) + "";
  }

  /** A tag appended to tags already written. */
  method WriteTagAfter(b: Builder, ghost start: string, ghost tags: seq<Pair>, key: string, value: string)
    requires b.text == start + TagsText(tags)
    modifies b
    ensures b.text == start + TagsText(tags + [Pair(key, value)])
  {
    TagsTextPush(tags, Pair(key, value));
    WriteTag(b, key, value);
  }

  method WriteStreamMetaTags(b: Builder, r: Rollup)
    modifies b
    ensures b.text == old(b.text) + TagsText(MetaTags(r))
  {
    hide TagsText, TrimSpace;
    ghost var start := b.text;
    ghost var tags: seq<Pair> := [];
    assert start + TagsText([]) == start by { NoTags(); }
    if r.startedAt.Some? {
      WriteTagAfter(b, start, tags, "stream_started", Itoa(r.startedAt.value));
      tags := tags + [Pair("stream_started", Itoa(r.startedAt.value))];
    }
    var title := Sanitize(r.streamTitle);
    if title != "" {
      WriteTagAfter(b, start, tags, "stream_title", title);
      tags := tags + [Pair("stream_title", title)];
    }
    var category := Sanitize(r.streamCategory);
    if category != "" {
      WriteTagAfter(b, start, tags, "stream_category", category);
      tags := tags + [Pair("stream_category", category)];
    }
    assert tags == MetaTags(r);
  }

  lemma NoTags()
    ensures TagsText([]) == ""
  {
  }

  method WriteBaseTags(b: Builder, r: Rollup)
    modifies b
    ensures b.text == old(b.text) + TagsText(BaseTags(r))
  {
    hide TagsText, MetaTags;
    ghost var start := b.text;
    NoTags();
    WriteTagAfter(b, start, [], "channel_login", r.channelLogin);
    ghost var tags := [Pair("channel_login", r.channelLogin)];
    assert [] + tags == tags;
    WriteTagAfter(b, start, tags, "stream_id", r.streamId);
    tags := tags + [Pair("stream_id", r.streamId)];
    assert tags + MetaTags(r) == BaseTags(r);
    TagsTextAppend(tags, MetaTags(r));
    Assoc(start, TagsText(tags), TagsText(MetaTags(r)));
    WriteStreamMetaTags(b, r);
  }

  method WriteEmoteTags(b: Builder, r: Rollup, key: string)
    modifies b
    ensures b.text == old(b.text) + TagsText(BaseTags(r) + EmoteTags(key))
  {
    hide TagsText, BaseTags, SplitEmoteKey;
    ghost var start := b.text;
    var k := SplitEmoteKey(key);
    var provider := if k.provider == "" then "unknown" else k.provider;
    var id := if k.id == "" then key else k.id;
    WriteBaseTags(b, r);
    ghost var tags := BaseTags(r);
    WriteTagAfter(b, start, tags, "provider", provider);
    tags := tags + [Pair("provider", provider)];
    WriteTagAfter(b, start, tags, "emote_id", id);
    tags := tags + [Pair("emote_id", id)];
    WriteTagAfter(b, start, tags, "emote_name", k.name);
    assert tags + [Pair("emote_name", k.name)] == BaseTags(r) + EmoteTags(key);
  }

  /** The keys in `seen` that were used. */
  ghost function SeenUsed(emotes: map<string, Int64>, seen: set<string>): set<string>
    requires seen <= emotes.Keys
  {
    set k | k in seen && emotes[k] > 0
  }

  lemma UsedPush(emotes: map<string, Int64>, seen: set<string>, key: string)
    requires seen <= emotes.Keys && key in emotes && key !in seen
    ensures |SeenUsed(emotes, seen + {key})| == |SeenUsed(emotes, seen)| + if emotes[key] > 0 then 1 else 0
  {
    var more := if emotes[key] > 0 then {key} else {};
    assert SeenUsed(emotes, seen + {key}) == SeenUsed(emotes, seen) + more;
  }

  lemma UsedIsUnique(emotes: map<string, Int64>)
    ensures |SeenUsed(emotes, emotes.Keys)| == UniqueEmotes(emotes) && SeenUsed(emotes, {}) == {}
  {
    assert SeenUsed(emotes, emotes.Keys) == set k | k in emotes && emotes[k] > 0;
  }

  method CountUniqueEmotes(emotes: map<string, Int64>) returns (count: nat)
    ensures count == UniqueEmotes(emotes)
  {
    hide SeenUsed, UniqueEmotes;
    count := 0;
    UsedIsUnique(emotes);
    var keys := emotes.Keys;
    ghost var seen: set<string> := {};
    while keys != {}
      invariant seen + keys == emotes.Keys && seen !! keys
      invariant count == |SeenUsed(emotes, seen)|
      decreases keys
    {
      var key :| key in keys;
      UsedPush(emotes, seen, key);
      keys := keys - {key};
      seen := seen + {key};
      if emotes[key] > 0 {
        count := count + 1;
      }
    }
    assert seen == emotes.Keys;
  }

  lemma {:induction false} FieldsTextPush(fs: seq<IntField>, f: IntField)
    requires fs != []
    ensures FieldsText(fs + [f]) == FieldsText(fs) + "," + FieldText(f)
  {
    hide FieldText;
    if |fs| == 1 {
      assert (fs + [f])[1..] == [f];
    } else {
      assert (fs + [f])[1..] == fs[1..] + [f];
      FieldsTextPush(fs[1..], f);
      Assoc(FieldText(fs[0]) + ",", FieldsText(fs[1..]) + ",", FieldText(f));
      Assoc(FieldText(fs[0]) + ",", FieldsText(fs[1..]), ",");
    }
  }

  /** A further field behind fields already written. */
  method WriteFieldAfter(b: Builder, ghost start: string, ghost fs: seq<IntField>, key: string, value: int)
    requires fs != [] && b.text == start + FieldsText(fs)
    modifies b
    ensures b.text == start + FieldsText(fs + [IntField(key, value)])
  {
    hide FieldText, FieldsText;
    ghost var f := IntField(key, value);
    FieldsTextPush(fs, f);
    Assoc(start, FieldsText(fs), ",");
    Assoc(start, FieldsText(fs) + ",", FieldText(f));
    b.WriteString(",");
    WriteIntField(b, key, value);
  }

  method WriteActivityFields(b: Builder, r: Rollup)
    requires r.minute.Some?
    modifies b
    ensures b.text == old(b.text) + FieldsText(ActivityPoint(r).fields)
  {
    hide FieldText, FieldsText, UniqueEmotes, BaseTags;
    ghost var start := b.text;
    WriteIntField(b, "viewer_avg", r.viewerAvg);
    ghost var fs := [IntField("viewer_avg", r.viewerAvg)];
    OneField(fs);
    WriteFieldAfter(b, start, fs, "viewer_max", r.viewerMax);
    fs := fs + [IntField("viewer_max", r.viewerMax)];
    WriteFieldAfter(b, start, fs, "chat_count", r.chatCount);
    fs := fs + [IntField("chat_count", r.chatCount)];
    WriteFieldAfter(b, start, fs, "total_emote_count", r.totalEmoteCount);
    fs := fs + [IntField("total_emote_count", r.totalEmoteCount)];
    WriteFieldAfter(b, start, fs, "seventv_emote_count", r.sevenTvEmoteCount);
    fs := fs + [IntField("seventv_emote_count", r.sevenTvEmoteCount)];
    var unique := CountUniqueEmotes(r.emotes);
    WriteFieldAfter(b, start, fs, "unique_emote_count", unique);
    assert fs + [IntField("unique_emote_count", unique)] == ActivityPoint(r).fields;
  }

  lemma OneField(fs: seq<IntField>)
    requires |fs| == 1
    ensures FieldsText(fs) == FieldText(fs[0])
  {
  }

  method WriteStreamActivityLine(b: Builder, r: Rollup)
    requires r.minute.Some?
    modifies b
    ensures b.text == old(b.text) + Line(ActivityPoint(r)) + "\n"
  {
    hide TagsText, BaseTags, FieldsText, Itoa, UniqueEmotes;
    ghost var start := b.text;
    PlainIsEscaped("stream_activity_1m");
    b.WriteString("stream_activity_1m");
    WriteBaseTags(b, r);
    b.WriteString(" ");
    WriteActivityFields(b, r);
    b.WriteString(" ");
    b.WriteString(Itoa(r.minute.value));
    b.WriteString("\n");
    LineIs(start, ActivityPoint(r));
  }

  lemma LineIs(start: string, p: Point)
    ensures start + Escape(p.measurement) + TagsText(p.tags) + " " + FieldsText(p.fields) + " " + Itoa(p.ts) + "\n"
         == start + Line(p) + "\n"
  {
    hide Escape, TagsText, FieldsText, Itoa;
  }

  method WriteEmoteLine(b: Builder, r: Rollup, key: string)
    requires r.minute.Some? && key in r.emotes
    modifies b
    ensures b.text == old(b.text) + Line(EmotePoint(r, key)) + "\n"
  {
    hide TagsText, BaseTags, EmoteTags, Itoa, Line, Escape, FieldsText;
    ghost var start := b.text;
    ghost var p := EmotePoint(r, key);
    b.WriteString("emote_usage_1m");
    WriteEmoteTags(b, r, key);
    b.WriteString(" ");
    ghost var before := b.text;
    b.WriteString("count=");
    b.WriteString(Itoa(r.emotes[key]));
    b.WriteString("i");
    CountField(before, p);
    b.WriteString(" ");
    b.WriteString(Itoa(r.minute.value));
    b.WriteString("\n");
    PlainIsEscaped("emote_usage_1m");
    LineIs(start, p);
  }

  lemma CountField(start: string, p: Point)
    requires |p.fields| == 1 && p.fields[0].key == "count"
    ensures start + "count=" + Itoa(p.fields[0].value) + "i" == start + FieldsText(p.fields)
  {
    hide Itoa, Escape;
    PlainIsEscaped("count");
    assert "count=" == "count" + "=";
  }

  /** The keys of a map, in whatever order they come. */
  method Keys(emotes: map<string, Int64>) returns (order: seq<string>)
    ensures Walks(order, emotes)
  {
    order := [];
    var keys := emotes.Keys;
    while keys != {}
      invariant keys <= emotes.Keys
      invariant forall k :: k in order <==> k in emotes.Keys - keys
      invariant forall i, j :: 0 <= i < j < |order| ==> order[i] != order[j]
      decreases keys
    {
      var key :| key in keys;
      assert key !in order;
      order := order + [key];
      keys := keys - {key};
    }
  }

  lemma {:induction false} LinesAppend(a: seq<Point>, b: seq<Point>)
    ensures Lines(a + b) == Lines(a) + Lines(b)
  {
    hide Line;
    if a == [] {
      assert a + b == b;
    } else {
      assert (a + b)[1..] == a[1..] + b;
      LinesAppend(a[1..], b);
    }
  }

  lemma LinesPush(start: string, a: seq<Point>, p: Point)
    ensures start + Lines(a) + Line(p) + "\n" == start + Lines(a + [p])
  {
    hide Line;
    LinesAppend(a, [p]);
    assert Lines([p]) == Line(p) + "\n" + "";
  }

  method WriteEmoteLines(b: Builder, r: Rollup, order: seq<string>)
    requires r.minute.Some? && Walks(order, r.emotes)
    modifies b
    ensures b.text == old(b.text) + Lines(EmotePoints(r, order))
  {
    hide EmotePoint, Line, Lines;
    ghost var start := b.text;
    NoLines(start);
    for i := 0 to |order|
      invariant b.text == start + Lines(EmotePoints(r, order[..i]))
    {
      assert order[..i + 1] == order[..i] + [order[i]];
      EmotePointsPush(r, order[..i], order[i]);
      if r.emotes[order[i]] <= 0 {
        assert EmotePoints(r, order[..i]) + [] == EmotePoints(r, order[..i]);
        continue;
      }
      LinesPush(start, EmotePoints(r, order[..i]), EmotePoint(r, order[i]));
      WriteEmoteLine(b, r, order[i]);
    }
    assert order[..|order|] == order;
  }

  lemma NoLines(start: string)
    ensures start + Lines([]) == start
  {
  }

  lemma RollupLines(start: string, done: seq<Point>, r: Rollup, order: seq<string>)
    requires !Skipped(r)
    ensures start + Lines(done) + Line(ActivityPoint(r)) + "\n" + Lines(EmotePoints(r, order)) == start + Lines(done + RollupPoints(r, order))
  {
    hide Line, Lines, ActivityPoint, EmotePoints, TrimSpace;
    LinesPush(start, done, ActivityPoint(r));
    LinesAppend(done + [ActivityPoint(r)], EmotePoints(r, order));
    Assoc(start, Lines(done + [ActivityPoint(r)]), Lines(EmotePoints(r, order)));
    Assoc(done, [ActivityPoint(r)], EmotePoints(r, order));
  }

  /** The text of all rollups that have a minute, a stream and a channel. */
  method BuildInfluxLineProtocol(rs: seq<Rollup>) returns (out: string)
    ensures Prints(out, rs)
  {
    hide Lines, Line, ActivityPoint, EmotePoints, RollupPoints, Walks, AllWalk, TrimSpace;
    NobodyWalks();
    var b := new Builder();
    ghost var orders: seq<seq<string>> := [];
    NoLines("");
    for i := 0 to |rs|
      invariant fresh(b)
      invariant |orders| == i && AllWalk(orders, rs[..i])
      invariant b.text == "" + Lines(Points(rs[..i], orders))
    {
      var r := rs[i];
      var order := Keys(r.emotes);
      assert rs[..i + 1] == rs[..i] + [r];
      PointsPush(rs[..i], orders, r, order);
      AllWalkPush(orders, rs[..i], order, r);
      if r.minute.None? || TrimSpace(r.streamId) == "" || TrimSpace(r.channelLogin) == "" {
        NoPoints(Points(rs[..i], orders), r, order);
        orders := orders + [order];
        continue;
      }
      RollupLines("", Points(rs[..i], orders), r, order);
      WriteStreamActivityLine(b, r);
      WriteEmoteLines(b, r, order);
      orders := orders + [order];
    }
    assert rs[..|rs|] == rs;
    out := b.text;
  }

  lemma NobodyWalks()
    ensures AllWalk([], [])
  {
  }

  lemma NoPoints(done: seq<Point>, r: Rollup, order: seq<string>)
    requires Skipped(r)
    ensures done + RollupPoints(r, order) == done
  {
  }
}
