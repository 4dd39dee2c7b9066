/** The browser's list of chat messages, and how its own messages are recognised when they come back. */
module ChatStore {
  import opened Text
  import opened Tokens
  import opened Blanks
  import opened EmotesTag
  import opened NativeEmotes
  import opened Enrich
  import TokenLaws
  import EmoteText

  /** A message as the server sends it. */
  datatype Incoming = Incoming(
    id: string, user: string, ts: Option<int>, serverReceivedTs: Option<int>, fragments: seq<Fragment>)

  datatype Ack = NoAck | Waiting | Queued | Sent | Live | Failed

  datatype Message = Message(
    body: Incoming, receivedAt: Option<int>, remote: bool, pending: bool,
    clientMsgId: Option<string>, clientSentTs: Option<int>, ack: Ack, echoLatency: Option<int>)

  const ECHO_WINDOW_MS := 60000
  const LATENCY_SAMPLES := 180

  /** Lower-casing is left to the caller: any function will do. */
  type Fold = string -> string

  /** Whether a message sent from here has been pending for too long; a time of zero counts as none. */
  predicate Expired(c: Message, now: int) {
    c.clientSentTs.Some? && c.clientSentTs.value != 0 && now - c.clientSentTs.value > ECHO_WINDOW_MS
  }

  predicate Matches(fold: Fold, c: Message, m: Incoming, now: int) {
    && c.pending && !c.ack.Failed? && !Expired(c, now)
    && fold(c.body.user) == fold(m.user)
    && TrimSpace(Contents(c.body.fragments)) == TrimSpace(Contents(m.fragments))
  }

  /** From `k` on, the first message the incoming one answers, or the end of the list. */
  function MatchFrom(fold: Fold, messages: seq<Message>, m: Incoming, now: int, k: nat): (i: nat)
    requires k <= |messages|
    ensures k <= i <= |messages|
    decreases |messages| - k
  {
    if k == |messages| || Matches(fold, messages[k], m, now) then k
    else MatchFrom(fold, messages, m, now, k + 1)
  }

  lemma {:induction false} MatchFromIsFirst(fold: Fold, messages: seq<Message>, m: Incoming, now: int, k: nat)
    requires k <= |messages|
    ensures
      var i := MatchFrom(fold, messages, m, now, k);
      && (i < |messages| ==> Matches(fold, messages[i], m, now))
      && (forall j: nat :: k <= j < i ==> !Matches(fold, messages[j], m, now))
    decreases |messages| - k
  {
    hide Matches;
    if k < |messages| && !Matches(fold, messages[k], m, now) {
      MatchFromIsFirst(fold, messages, m, now, k + 1);
    }
  }

  function FirstMatch(fold: Fold, messages: seq<Message>, m: Incoming, now: int): (i: nat)
    ensures i <= |messages|
  {
    MatchFrom(fold, messages, m, now, 0)
  }

  function Latency(c: Message, now: int): Option<int> {
    if c.clientSentTs.Some? && c.clientSentTs.value != 0 then Some(now - c.clientSentTs.value) else None
  }

  function Remote(m: Incoming, now: int): Message {
    Message(m, Some(now), true, false, None, None, NoAck, None)
  }

  /** The pending message `c`, once `m` has come back for it. */
  function Echo(c: Message, m: Incoming, now: int): Message {
    Remote(m, now).(clientMsgId := c.clientMsgId, clientSentTs := c.clientSentTs, ack := Live, echoLatency := Latency(c, now))
  }

  function MergeOne(fold: Fold, messages: seq<Message>, m: Incoming, now: int): seq<Message> {
    var i := FirstMatch(fold, messages, m, now);
    if i < |messages| then messages[i := Echo(messages[i], m, now)] else messages + [Remote(m, now)]
  }

  function Merged(fold: Fold, messages: seq<Message>, incoming: seq<Incoming>, now: int): seq<Message> {
    if incoming == [] then messages
    else
      var n := |incoming| - 1;
      MergeOne(fold, Merged(fold, messages, incoming[..n], now), incoming[n], now)
  }

  /** Where each incoming message ends up. */
  function Spots(fold: Fold, messages: seq<Message>, incoming: seq<Incoming>, now: int): (r: seq<nat>)
    ensures |r| == |incoming|
  {
    if incoming == [] then []
    else
      var n := |incoming| - 1;
      Spots(fold, messages, incoming[..n], now) +
        [FirstMatch(fold, Merged(fold, messages, incoming[..n], now), incoming[n], now)]
  }

  // ---------------------------------------------------------------- what merging does

  /** Each incoming message stands in the merged list, at a spot of its own. */
  ghost predicate EachOnce(merged: seq<Message>, incoming: seq<Incoming>, spots: seq<nat>) {
    && |spots| == |incoming|
    && (forall k :: 0 <= k < |spots| ==>
         spots[k] < |merged| && merged[spots[k]].body == incoming[k] && !merged[spots[k]].pending)
    && (forall j, k :: 0 <= j < k < |spots| ==> spots[j] != spots[k])
  }

  /** Messages nobody answered stay as they are; what is added stands at the end, in the order it came. */
  ghost predicate RestInPlace(messages: seq<Message>, merged: seq<Message>, spots: seq<nat>) {
    && |messages| <= |merged|
    && (forall p: nat :: p < |messages| && p !in spots ==> merged[p] == messages[p])
    && (forall p: nat :: |messages| <= p < |merged| ==> p in spots)
    && (forall j, k :: 0 <= j < k < |spots| && |messages| <= spots[j] && |messages| <= spots[k] ==> spots[j] < spots[k])
  }

  /** A message that answers one of ours answers the oldest it can; one that is added could answer none that was left. */
  ghost predicate OldestFirst(
      fold: Fold, messages: seq<Message>, incoming: seq<Incoming>, spots: seq<nat>, now: int)
    requires |spots| == |incoming|
  {
    && (forall k :: 0 <= k < |spots| && spots[k] < |messages| ==> Matches(fold, messages[spots[k]], incoming[k], now))
    && (forall k, p: nat :: 0 <= k < |spots| && p < |messages| && p < spots[k] && Matches(fold, messages[p], incoming[k], now) ==>
         p in spots[..k])
  }

  /** An answered message keeps its own number and sending time, and learns how long the echo took. */
  ghost predicate Echoed(
      messages: seq<Message>, merged: seq<Message>, incoming: seq<Incoming>, spots: seq<nat>, now: int)
    requires |spots| == |incoming|
  {
    forall k :: 0 <= k < |spots| && spots[k] < |messages| && spots[k] < |merged| ==>
      merged[spots[k]] == Echo(messages[spots[k]], incoming[k], now)
  }

  /** `after` is `before` with `m` standing at `i`, which may be the end. */
  ghost predicate PutAt(before: seq<Message>, after: seq<Message>, i: nat, m: Incoming) {
    && i <= |before| && |after| == (if i < |before| then |before| else i + 1)
    && after[i].body == m && !after[i].pending
    && (forall q: nat :: q < |before| && q != i ==> after[q] == before[q])
  }

  lemma MergeOnePuts(fold: Fold, before: seq<Message>, m: Incoming, now: int)
    ensures
      var i := FirstMatch(fold, before, m, now);
      && PutAt(before, MergeOne(fold, before, m, now), i, m)
      && (i < |before| ==> before[i].pending && MergeOne(fold, before, m, now)[i] == Echo(before[i], m, now))
  {
    hide TrimSpace, Contents, MatchFrom;
    MatchFromIsFirst(fold, before, m, now, 0);
  }

  lemma PutKeepsEachOnce(before: seq<Message>, after: seq<Message>, init: seq<Incoming>, spots: seq<nat>, i: nat, m: Incoming)
    requires EachOnce(before, init, spots) && PutAt(before, after, i, m) && i !in spots
    ensures EachOnce(after, init + [m], spots + [i])
  {
    forall j, k | 0 <= j < k < |spots + [i]|
      ensures (spots + [i])[j] != (spots + [i])[k]
    {
      assert (spots + [i])[j] == spots[j] && spots[j] in spots;
    }
  }

  lemma PutKeepsRest(messages: seq<Message>, before: seq<Message>, after: seq<Message>, spots: seq<nat>, i: nat, m: Incoming)
    requires RestInPlace(messages, before, spots) && PutAt(before, after, i, m) && i !in spots
    requires forall k :: 0 <= k < |spots| ==> spots[k] < |before|
    ensures RestInPlace(messages, after, spots + [i])
  {
    assert i < |messages| || i == |before|;
    var spots' := spots + [i];
    assert forall p: nat :: p in spots' <==> p in spots || p == i;
    forall j, k | 0 <= j < k < |spots'| && |messages| <= spots'[j] && |messages| <= spots'[k]
      ensures spots'[j] < spots'[k]
    {
      assert spots'[j] == spots[j];
    }
  }

  lemma NotTakenTwice(before: seq<Message>, incoming: seq<Incoming>, spots: seq<nat>, i: nat)
    requires EachOnce(before, incoming, spots) && (i < |before| ==> before[i].pending)
    ensures i !in spots
  {
  }

  lemma {:induction false} MergingPlacesEachOnce(fold: Fold, messages: seq<Message>, incoming: seq<Incoming>, now: int)
    ensures
      var merged, spots := Merged(fold, messages, incoming, now), Spots(fold, messages, incoming, now);
      EachOnce(merged, incoming, spots) && RestInPlace(messages, merged, spots)
    decreases |incoming|
  {
    hide FirstMatch, MergeOne;
    if incoming != [] {
      var n := |incoming| - 1;
      var init, m := incoming[..n], incoming[n];
      assert incoming == init + [m];
      MergingPlacesEachOnce(fold, messages, init, now);
      var before, spots := Merged(fold, messages, init, now), Spots(fold, messages, init, now);
      var i, after := FirstMatch(fold, before, m, now), MergeOne(fold, before, m, now);
      MergeOnePuts(fold, before, m, now);
      NotTakenTwice(before, init, spots, i);
      PutKeepsEachOnce(before, after, init, spots, i, m);
      PutKeepsRest(messages, before, after, spots, i, m);
      hide EachOnce, RestInPlace;
    }
  }

  lemma PutKeepsEchoed(
      messages: seq<Message>, before: seq<Message>, after: seq<Message>, init: seq<Incoming>, spots: seq<nat>,
      i: nat, m: Incoming, now: int)
    requires EachOnce(before, init, spots) && RestInPlace(messages, before, spots) && PutAt(before, after, i, m)
    requires Echoed(messages, before, init, spots, now) && i !in spots
    requires i < |messages| ==> after[i] == Echo(before[i], m, now)
    ensures Echoed(messages, after, init + [m], spots + [i], now)
  {
    hide Echo;
    forall k | 0 <= k < |spots + [i]| && (spots + [i])[k] < |messages|
      ensures after[(spots + [i])[k]] == Echo(messages[(spots + [i])[k]], (init + [m])[k], now)
    {
      if k < |spots| {
        assert spots[k] in spots;
      } else {
        assert before[i] == messages[i];
      }
    }
  }

  lemma RestStays(messages: seq<Message>, merged: seq<Message>, spots: seq<nat>, p: nat)
    requires RestInPlace(messages, merged, spots) && p < |messages|
    ensures p !in spots ==> merged[p] == messages[p]
  {
  }

  lemma FirstMatchIsOldest(
      fold: Fold, messages: seq<Message>, before: seq<Message>, init: seq<Incoming>, spots: seq<nat>, m: Incoming, now: int)
    requires |spots| == |init| && RestInPlace(messages, before, spots) && OldestFirst(fold, messages, init, spots, now)
    requires FirstMatch(fold, before, m, now) !in spots
    ensures OldestFirst(fold, messages, init + [m], spots + [FirstMatch(fold, before, m, now)], now)
  {
    hide Matches;
    MatchFromIsFirst(fold, before, m, now, 0);
    var i := FirstMatch(fold, before, m, now);
    hide MatchFrom;
    var spots' := spots + [i];
    forall k, p: nat | 0 <= k < |spots'| && p < |messages| && p < spots'[k] && Matches(fold, messages[p], (init + [m])[k], now)
      ensures p in spots'[..k]
    {
      if k < |spots| {
        assert spots'[..k] == spots[..k];
      } else {
        assert spots'[..k] == spots;
        RestStays(messages, before, spots, p);
      }
    }
    assert i < |messages| ==> before[i] == messages[i];
  }

  /** Sends that look alike are answered oldest first, and an echo is only added when nothing of ours is left to answer. */
  lemma {:induction false} MergingAnswersOldestFirst(fold: Fold, messages: seq<Message>, incoming: seq<Incoming>, now: int)
    ensures
      var merged, spots := Merged(fold, messages, incoming, now), Spots(fold, messages, incoming, now);
      OldestFirst(fold, messages, incoming, spots, now) && Echoed(messages, merged, incoming, spots, now)
    decreases |incoming|
  {
    hide FirstMatch, MergeOne;
    if incoming != [] {
      var n := |incoming| - 1;
      var init, m := incoming[..n], incoming[n];
      assert incoming == init + [m];
      MergingAnswersOldestFirst(fold, messages, init, now);
      MergingPlacesEachOnce(fold, messages, init, now);
      var before, spots := Merged(fold, messages, init, now), Spots(fold, messages, init, now);
      var i, after := FirstMatch(fold, before, m, now), MergeOne(fold, before, m, now);
      MergeOnePuts(fold, before, m, now);
      NotTakenTwice(before, init, spots, i);
      RestIsLonger(messages, before, spots);
      PutKeepsEchoed(messages, before, after, init, spots, i, m, now);
      FirstMatchIsOldest(fold, messages, before, init, spots, m, now);
      hide EachOnce, RestInPlace, OldestFirst, Echoed, Echo;
    }
  }

  lemma RestIsLonger(messages: seq<Message>, merged: seq<Message>, spots: seq<nat>)
    requires RestInPlace(messages, merged, spots)
    ensures |messages| <= |merged|
  {
  }

  // ---------------------------------------------------------------- recognising one's own message

  /** A message sent from here, shown before the server has seen it. */
  function OwnMessage(user: string, text: string, emotes: seq<EmoteText.ChannelEmote>, now: int, id: string): Message {
    Message(Incoming(id, user, Some(now), None, EmoteText.ClientFragments(text, emotes)), None, false,
            true, Some(id), Some(now), Waiting, None)
  }

  /** The positions of the blanks the browser drops from a message over the emotes it has loaded. */
  ghost function ClientDropped(emotes: seq<EmoteText.ChannelEmote>, text: string): set<int> {
    Dropped(EmoteText.AsDictionary(EmoteText.LookupOf(emotes)), text)
  }

  lemma PlainContents(text: string)
    ensures Contents([TextFragment(text)]) == text
  {
    assert "" + text == text;
  }

  lemma ClientContents(emotes: seq<EmoteText.ChannelEmote>, text: string)
    requires text != ""
    ensures Contents(EmoteText.ClientFragments(text, emotes)) == Keep(text, ClientDropped(emotes, text), 0, |text|)
  {
    hide Contents, Fragments, Dropped;
    var e := EmoteText.AsDictionary(EmoteText.LookupOf(emotes));
    if emotes == [] {
      PlainContents(text);
      NothingGoesWithoutZeroWidth(e, text);
      KeepAll(text, {}, 0, |text|);
      assert text[0..|text|] == text;
    } else {
      ContentsAreKept(e, false, text);
    }
  }

  /** The names agree and a minute has not passed. */
  predicate SameSender(fold: Fold, user: string, sentAt: int, m: Incoming, now: int) {
    fold(user) == fold(m.user) && (sentAt == 0 || now - sentAt <= ECHO_WINDOW_MS)
  }

  lemma TrimmedStays(s: string)
    requires Trimmed(s)
    ensures TrimSpace(s) == s
  {
    TrimSpaceTrims(s);
  }

  lemma ClientIsTrimmed(emotes: seq<EmoteText.ChannelEmote>, text: string)
    requires text != "" && Trimmed(text)
    ensures Trimmed(Keep(text, ClientDropped(emotes, text), 0, |text|))
  {
    hide Drops, Trimmed;
    var e := EmoteText.AsDictionary(EmoteText.LookupOf(emotes));
    forall p | p in ClientDropped(emotes, text)
      ensures 0 < p < |text| - 1
    {
      EndsStay(e, text, p);
    }
    KeepIsTrimmed(text, ClientDropped(emotes, text));
  }

  lemma ServerIsTrimmed(d: Option<Dictionary>, text: string, native: seq<EmoteRange>)
    requires text != "" && Trimmed(text) && WellFormed(native)
    ensures Trimmed(Keep(text, ServerDropped(d, text, native), 0, |text|))
  {
    hide Trimmed;
    DroppedInside(d, text, native);
    KeepIsTrimmed(text, ServerDropped(d, text, native));
  }

  /**
   Whatever emotes either side knows and whatever native emotes the message
   carries: what the server makes of a message sent from here is recognised if
   and only if the sender fits and both sides leave the same of its text. Then it
   takes a message's place instead of being shown a second time. A message that
   is sent is trimmed, and stays so on both sides.
   */
  lemma EchoIsRecognised(
      fold: Fold, d: Option<Dictionary>, native: seq<EmoteRange>, user: string, text: string,
      emotes: seq<EmoteText.ChannelEmote>, sentAt: int, id: string, m: Incoming, now: int, messages: seq<Message>)
    requires text != "" && WellFormed(native) && MessageFragments(d, text, native) == Some(m.fragments)
    ensures
      var own := OwnMessage(user, text, emotes, sentAt, id);
      var server := Keep(text, ServerDropped(d, text, native), 0, |text|);
      var client := Keep(text, ClientDropped(emotes, text), 0, |text|);
      && (Matches(fold, own, m, now) <==> SameSender(fold, user, sentAt, m, now) && TrimSpace(server) == TrimSpace(client))
      && (Trimmed(text) ==> TrimSpace(server) == server && TrimSpace(client) == client)
      && (own in messages && Matches(fold, own, m, now) ==> |MergeOne(fold, messages, m, now)| == |messages|)
  {
    hide Contents, TrimSpace, Trimmed, EmoteText.ClientFragments, MessageFragments, FirstMatch, ClientDropped, ServerDropped, Keep;
    MessageContents(d, text, native);
    ClientContents(emotes, text);
    if Trimmed(text) {
      ClientIsTrimmed(emotes, text);
      ServerIsTrimmed(d, text, native);
      TrimmedStays(Keep(text, ServerDropped(d, text, native), 0, |text|));
      TrimmedStays(Keep(text, ClientDropped(emotes, text), 0, |text|));
    }
    AnswerIsNotAdded(fold, messages, OwnMessage(user, text, emotes, sentAt, id), m, now);
    hide MergeOne;
  }

  lemma AnswerIsNotAdded(fold: Fold, messages: seq<Message>, own: Message, m: Incoming, now: int)
    ensures own in messages && Matches(fold, own, m, now) ==> |MergeOne(fold, messages, m, now)| == |messages|
  {
    hide Matches, MatchFrom;
    MatchFromIsFirst(fold, messages, m, now, 0);
    if own in messages && Matches(fold, own, m, now) {
      var j :| 0 <= j < |messages| && messages[j] == own;
      assert FirstMatch(fold, messages, m, now) <= j;
    }
  }

  /** A sent message, with names free of white space: recognised if and only if the sender fits and no blank is dropped on one side only. */
  lemma EchoNeedsTheSameBlanks(
      fold: Fold, d: Option<Dictionary>, native: seq<EmoteRange>, user: string, text: string,
      emotes: seq<EmoteText.ChannelEmote>, sentAt: int, id: string, m: Incoming, now: int)
    requires text != "" && Trimmed(text) && WellFormed(native) && MessageFragments(d, text, native) == Some(m.fragments)
    requires d.Some? ==> BareNames(d.value)
    requires BareNames(EmoteText.AsDictionary(EmoteText.LookupOf(emotes)))
    ensures Matches(fold, OwnMessage(user, text, emotes, sentAt, id), m, now) <==>
      SameSender(fold, user, sentAt, m, now) && ServerDropped(d, text, native) == ClientDropped(emotes, text)
  {
    hide Trimmed, MessageFragments, Matches, OwnMessage, SameSender, BareNames, WholeStretches;
    EchoIsRecognised(fold, d, native, user, text, emotes, sentAt, id, m, now, []);
    ServerDropsWholeStretches(d, text, native);
    DroppedAreWholeStretches(EmoteText.AsDictionary(EmoteText.LookupOf(emotes)), text);
    SameKeptSameBlanks(text, ServerDropped(d, text, native), ClientDropped(emotes, text));
  }

  lemma SameKeptSameBlanks(text: string, a: set<int>, b: set<int>)
    requires WholeStretches(text, a) && WholeStretches(text, b)
    ensures Keep(text, a, 0, |text|) == Keep(text, b, 0, |text|) <==> a == b
  {
    hide IsSpace;
    if Keep(text, a, 0, |text|) == Keep(text, b, 0, |text|) {
      SameTextSameBlanks(text, a, b, |text|);
      assert forall p :: p in a <==> p in b;
    }
  }

  /** Over the same emotes, a message without native emotes is recognised if and only if the sender fits. */
  lemma EchoOverTheSameEmotes(
      fold: Fold, d: Dictionary, user: string, text: string, emotes: seq<EmoteText.ChannelEmote>, sentAt: int, id: string,
      m: Incoming, now: int)
    requires text != "" && EmoteText.SameEmotes(d, emotes) && m.fragments == Fragments(d, true, text)
    ensures Matches(fold, OwnMessage(user, text, emotes, sentAt, id), m, now) <==> SameSender(fold, user, sentAt, m, now)
  {
    hide Contents, TrimSpace, Fragments, EmoteText.ClientFragments, EmoteText.SameEmotes;
    EmoteText.ThreeTokenizersAgree(d, emotes, text);
    TokenLaws.NormalizeKeepsContents(Fragments(d, true, text));
  }

  ghost predicate NoZeroWidth(d: Dictionary) {
    forall name :: name in d ==> !d[name].zw
  }

  /** Without zero-width names it does not matter which emotes either side knows, nor which native ones there are. */
  lemma EchoIsRecognisedWithoutZeroWidth(
      fold: Fold, d: Option<Dictionary>, native: seq<EmoteRange>, user: string, text: string,
      emotes: seq<EmoteText.ChannelEmote>, sentAt: int, id: string, m: Incoming, now: int)
    requires text != "" && WellFormed(native) && MessageFragments(d, text, native) == Some(m.fragments)
    requires (d.Some? ==> NoZeroWidth(d.value)) && NoZeroWidth(EmoteText.AsDictionary(EmoteText.LookupOf(emotes)))
    ensures Matches(fold, OwnMessage(user, text, emotes, sentAt, id), m, now) <==> SameSender(fold, user, sentAt, m, now)
  {
    hide Trimmed, MessageFragments, Matches, OwnMessage, SameSender;
    EchoIsRecognised(fold, d, native, user, text, emotes, sentAt, id, m, now, []);
    NothingGoesWithoutZeroWidth(EmoteText.AsDictionary(EmoteText.LookupOf(emotes)), text);
    ServerDropsNothing(d, text, native);
    hide ServerDropped, ClientDropped;
  }

  // ---------------------------------------------------------------- two messages that are not recognised

  /** The blank of "A Z" goes where both names are known and nothing is covered. */
  lemma ThreeWords(d: Dictionary, a: Emote, z: Emote)
    requires d == map["A" := a, "Z" := z] && !a.zw && z.zw
    ensures Contents(Fragments(d, true, "A Z")) == "AZ"
  {
    var s := "A Z";
    StretchEndIs(s, false, 0, 1);
    StretchEndIs(s[1..], true, 0, 1);
    StretchEndIs(s[1..][1..], false, 0, 1);
    var fa, fz := EmoteFragment("A", a), EmoteFragment("Z", z);
    assert s[..1] == "A" && s[1..][..1] == " " && s[1..][1..][..1] == "Z" && s[1..][1..][1..] == "";
    assert Word(d, true, Start, "A") == State([fa], "");
    assert Word(d, true, State([fa], " "), "Z") == State([fa, fz], "");
    assert Run(d, true, State([fa, fz], ""), "") == State([fa, fz], "");
    assert Run(d, true, State([fa], " "), s[1..][1..]) == State([fa, fz], "");
    assert Run(d, true, State([fa], ""), s[1..]) == State([fa, fz], "");
    assert [fa, fz] == [fa] + [fz];
    TokenLaws.ContentsPush([fa], fz);
    assert [fa] == [] + [fa];
    TokenLaws.ContentsPush([], fa);
  }

  lemma ShortTextsAreTrimmed(s: string, t: string)
    requires s == "A Z" && t == "AZ"
    ensures TrimSpace(s) == s && TrimSpace(t) == t && s != t
  {
    TrimSpaceTrims(s);
    TrimSpaceTrims(t);
    assert |s| != |t|;
  }

  /** A browser that has not loaded a zero-width emote misses the echo of a message using it. */
  lemma UnloadedZeroWidthMissesTheEcho(fold: Fold, user: string, a: Emote, z: Emote, now: int, id: string)
    requires !a.zw && z.zw
    ensures
      var m := Incoming(id, user, Some(now), None, Fragments(map["A" := a, "Z" := z], true, "A Z"));
      !Matches(fold, OwnMessage(user, "A Z", [], now, id), m, now)
  {
    hide Contents, TrimSpace, Fragments;
    ThreeWords(map["A" := a, "Z" := z], a, z);
    PlainContents("A Z");
    ShortTextsAreTrimmed("A Z", "AZ");
  }

  /** Over the same emotes, a native emote in front of a zero-width one keeps the blank on the server only. */
  lemma NativeEmoteMissesTheEcho(
      fold: Fold, user: string, a: EmoteText.ChannelEmote, z: EmoteText.ChannelEmote, native: seq<EmoteRange>,
      frags: seq<Fragment>, now: int, id: string)
    requires a.name == "A" && !a.zw && z.name == "Z" && z.zw && native == [EmoteRange("25", 0, 0)]
    requires MessageFragments(Some(EmoteText.AsDictionary(EmoteText.LookupOf([a, z]))), "A Z", native) == Some(frags)
    ensures !Matches(fold, OwnMessage(user, "A Z", [a, z], now, id), Incoming(id, user, Some(now), None, frags), now)
  {
    TwoEmotes(a, z);
    var d := EmoteText.AsDictionary(EmoteText.LookupOf([a, z]));
    NativeThenZeroWidth(d, native, "A Z");
    hide Contents, TrimSpace, Fragments, EmoteText.LookupOf, EmoteText.AsDictionary, MessageFragments;
    ThreeWords(d, EmoteText.AsEmote(a), EmoteText.AsEmote(z));
    TokenLaws.ServerAndBrowserContentsAgree(d, "A Z");
    ShortTextsAreTrimmed("A Z", "AZ");
  }

  lemma TwoEmotes(a: EmoteText.ChannelEmote, z: EmoteText.ChannelEmote)
    requires a.name == "A" && z.name == "Z"
    ensures EmoteText.AsDictionary(EmoteText.LookupOf([a, z])) == map["A" := EmoteText.AsEmote(a), "Z" := EmoteText.AsEmote(z)]
  {
    assert [a, z][..1] == [a] && [a][..0] == [];
    assert EmoteText.LookupOf([]) == map[];
    assert EmoteText.LookupOf([a]) == map["A" := a];
    assert EmoteText.LookupOf([a, z]) == map["A" := a]["Z" := z];
  }

  /** Behind a native emote the text is tokenized afresh, so its leading blank stays. */
  lemma NativeThenZeroWidth(d: Dictionary, native: seq<EmoteRange>, text: string)
    requires text == "A Z" && native == [EmoteRange("25", 0, 0)] && MessageFragments(Some(d), text, native).Some?
    ensures Contents(MessageFragments(Some(d), text, native).value) == text
  {
    hide MessageFragments, Drops, Contents;
    MessageContents(Some(d), text, native);
    assert native[1..] == [];
    assert Kept(native, 3, 0) == [native[0]] + Kept([], 3, 1);
    assert Kept(native, 3, 0) == native;
    InInside(Some(d), text, 0, 0);
    InInside(Some(d), text, 1, 3);
    assert DroppedAround(Some(d), text, 0, native) == DroppedIn(Some(d), text, 0, 0) + DroppedAround(Some(d), text, 1, []);
    assert DroppedAround(Some(d), text, 1, []) == DroppedIn(Some(d), text, 1, 3);
    KeepAll(text, ServerDropped(Some(d), text, native), 0, 3);
    assert text[0..3] == text;
  }

  // ---------------------------------------------------------------- what is kept

  /** The newest messages, 250 unless the configuration names a positive limit. */
  function Trim<T>(messages: seq<T>, maxRetained: Option<int>): seq<T> {
    Newest(messages, if maxRetained.Some? && maxRetained.value > 0 then maxRetained.value else 250)
  }

  function Newest<T>(s: seq<T>, n: nat): seq<T> {
    if |s| > n then s[|s| - n..] else s
  }

  function NonNegative(values: seq<int>): seq<int> {
    if values == [] then []
    else
      var n := |values| - 1;
      NonNegative(values[..n]) + if values[n] >= 0 then [values[n]] else []
  }

  /** A window of latency samples after some more of them. */
  function Pushed(bucket: seq<int>, values: seq<int>): seq<int> {
    if values == [] then bucket else Newest(bucket + NonNegative(values), LATENCY_SAMPLES)
  }

  lemma NonNegativePush(values: seq<int>, v: int)
    ensures NonNegative(values + [v]) == NonNegative(values) + if v >= 0 then [v] else []
  {
    assert (values + [v])[..|values|] == values;
  }

  lemma NewestOfRest<T>(s: seq<T>, n: nat)
    requires |s| > n
    ensures Newest(s, n) == Newest(s[1..], n)
  {
    assert s[1..][|s| - 1 - n..] == s[|s| - n..];
  }

  lemma {:induction false} NewestOfNewest<T>(s: seq<T>, t: seq<T>, n: nat)
    ensures Newest(Newest(s, n) + t, n) == Newest(s + t, n)
  {
    if |s| > n {
      NewestOfRest(s, n);
      NewestOfNewest(s[1..], t, n);
      hide Newest;
      assert (s + t)[1..] == s[1..] + t;
      NewestOfRest(s + t, n);
    }
  }

  /** Samples pushed one by one leave the same window as samples pushed together. */
  lemma PushedOneMore(bucket: seq<int>, values: seq<int>, v: int)
    requires |bucket| <= LATENCY_SAMPLES
    ensures Pushed(Pushed(bucket, values), [v]) == Pushed(bucket, values + [v])
  {
    NonNegativePush(values, v);
    NonNegativePush([], v);
    var last := if v >= 0 then [v] else [];
    assert [] + [v] == [v] && [] + last == last;
    assert values == [] ==> values + [v] == [v];
    assert (bucket + NonNegative(values)) + last == bucket + (NonNegative(values) + last);
    NewestOfNewest(bucket + NonNegative(values), last, LATENCY_SAMPLES);
  }

  lemma PushedIsBounded(bucket: seq<int>, values: seq<int>)
    requires |bucket| <= LATENCY_SAMPLES
    ensures |Pushed(bucket, values)| <= LATENCY_SAMPLES
    ensures Pushed(bucket, []) == bucket
  {
  }

  /** How long the echoes in a batch took. */
  function EchoLags(fold: Fold, messages: seq<Message>, incoming: seq<Incoming>, now: int): seq<int> {
    if incoming == [] then []
    else
      var n := |incoming| - 1;
      EchoLags(fold, messages, incoming[..n], now) +
        EchoLag(fold, Merged(fold, messages, incoming[..n], now), incoming[n], now)
  }

  function EchoLag(fold: Fold, messages: seq<Message>, m: Incoming, now: int): seq<int> {
    var i := FirstMatch(fold, messages, m, now);
    if i < |messages| && Latency(messages[i], now).Some? then [Latency(messages[i], now).value] else []
  }

  lemma MergingOneMore(fold: Fold, messages: seq<Message>, incoming: seq<Incoming>, k: nat, now: int)
    requires k < |incoming|
    ensures Merged(fold, messages, incoming[..k + 1], now) ==
      MergeOne(fold, Merged(fold, messages, incoming[..k], now), incoming[k], now)
    ensures EchoLags(fold, messages, incoming[..k + 1], now) ==
      EchoLags(fold, messages, incoming[..k], now) + EchoLag(fold, Merged(fold, messages, incoming[..k], now), incoming[k], now)
  {
    hide MergeOne, EchoLag;
    assert incoming[..k + 1][..k] == incoming[..k];
  }

  /** The newest of the echo times, or what was known before. */
  function LastEcho(before: Option<int>, lags: seq<int>): Option<int> {
    if lags == [] then before else Some(lags[|lags| - 1])
  }

  lemma LastEchoOf(before: Option<int>, v: int)
    ensures LastEcho(before, [v]) == Some(v) && LastEcho(before, []) == before
  {
  }

  /** At most one more echo time: the window and the newest one follow. */
  lemma OneMoreLag(bucket: seq<int>, before: Option<int>, lags: seq<int>, lag: seq<int>)
    requires |bucket| <= LATENCY_SAMPLES && |lag| <= 1
    ensures Pushed(Pushed(bucket, lags), lag) == Pushed(bucket, lags + lag) && |Pushed(bucket, lags + lag)| <= LATENCY_SAMPLES
    ensures LastEcho(LastEcho(before, lags), lag) == LastEcho(before, lags + lag)
  {
    PushedIsBounded(bucket, lags + lag);
    if lag == [] {
      assert lags + lag == lags;
    } else {
      assert lag == [lag[0]];
      PushedOneMore(bucket, lags, lag[0]);
    }
    hide Pushed;
  }

  lemma OneMore(fold: Fold, messages: seq<Message>, m: Incoming, now: int)
    ensures
      var i := FirstMatch(fold, messages, m, now);
      if i < |messages| then
        var latency := Latency(messages[i], now);
        && MergeOne(fold, messages, m, now) == messages[i :=
          Remote(m, now).(clientMsgId := messages[i].clientMsgId, clientSentTs := messages[i].clientSentTs,
                          ack := Live, echoLatency := latency)]
        && EchoLag(fold, messages, m, now) == if latency.Some? then [latency.value] else []
      else
        MergeOne(fold, messages, m, now) == messages + [Remote(m, now)] && EchoLag(fold, messages, m, now) == []
  {
    hide FirstMatch;
  }

  // ---------------------------------------------------------------- the store

  class Store {
    const fold: Fold
    const maxRetained: Option<int>
    var messages: seq<Message>
    var lastEcho: Option<int>
    var echoWindow: seq<int>

    constructor (fold: Fold, maxRetained: Option<int>)
      ensures this.fold == fold && this.maxRetained == maxRetained
      ensures messages == [] && lastEcho == None && echoWindow == []
    {
      this.fold, this.maxRetained := fold, maxRetained;
      messages, lastEcho, echoWindow := [], None, [];
    }

    method PushLatency(values: seq<int>)
      modifies this`echoWindow
      ensures echoWindow == Pushed(old(echoWindow), values)
    {
      if values == [] {
        return;
      }
      echoWindow := echoWindow + NonNegative(values);
      if |echoWindow| > LATENCY_SAMPLES {
        echoWindow := echoWindow[|echoWindow| - LATENCY_SAMPLES..];
      }
    }

    /** The body of the merging loop. */
    method MergeNext(list0: seq<Message>, raw: Incoming, now: int) returns (list: seq<Message>)
      modifies this`lastEcho, this`echoWindow
      ensures list == MergeOne(fold, list0, raw, now)
      ensures echoWindow == Pushed(old(echoWindow), EchoLag(fold, list0, raw, now))
      ensures lastEcho == LastEcho(old(lastEcho), EchoLag(fold, list0, raw, now))
    {
      hide FirstMatch, MergeOne, EchoLag, Latency, Remote, NonNegative, Newest, LastEcho;
      OneMore(fold, list0, raw, now);
      LastEchoOf(lastEcho, 0);
      var msg := Remote(raw, now);
      var idx := FirstMatch(fold, list0, raw, now);
      if idx < |list0| {
        var pending := list0[idx];
        var latency := Latency(pending, now);
        list := list0[idx := msg.(clientMsgId := pending.clientMsgId, clientSentTs := pending.clientSentTs,
                                  ack := Live, echoLatency := latency)];
        if latency.Some? {
          LastEchoOf(lastEcho, latency.value);
          lastEcho := latency;
          PushLatency([latency.value]);
        }
      } else {
        list := list0 + [msg];
      }
    }

    method MergeIncoming(incoming: seq<Incoming>, now: int)
      requires |echoWindow| <= LATENCY_SAMPLES
      modifies this
      ensures messages == Trim(Merged(fold, old(messages), incoming, now), maxRetained)
      ensures
        var lags := EchoLags(fold, old(messages), incoming, now);
        && echoWindow == Pushed(old(echoWindow), lags) && |echoWindow| <= LATENCY_SAMPLES
        && lastEcho == LastEcho(old(lastEcho), lags)
    {
      var list := messages;
      ghost var lags: seq<int> := [];
      assert incoming[..0] == [];
      PushedIsBounded(echoWindow, []);
      LastEchoOf(lastEcho, 0);
      hide MergeOne, Merged, EchoLags, Pushed, Newest, LastEcho;
      for k := 0 to |incoming|
        invariant list == Merged(fold, old(messages), incoming[..k], now)
        invariant lags == EchoLags(fold, old(messages), incoming[..k], now)
        invariant echoWindow == Pushed(old(echoWindow), lags) && |echoWindow| <= LATENCY_SAMPLES
        invariant lastEcho == LastEcho(old(lastEcho), lags)
      {
        ghost var lag := EchoLag(fold, list, incoming[k], now);
        MergingOneMore(fold, old(messages), incoming, k, now);
        OneMoreLag(old(echoWindow), old(lastEcho), lags, lag);
        list := MergeNext(list, incoming[k], now);
        lags := lags + lag;
      }
      assert incoming[..|incoming|] == incoming;
      messages := Trim(list, maxRetained);
    }

    /** Blank text is not sent; anything else is shown at once. */
    method SendMessage(text: string, user: string, emotes: seq<EmoteText.ChannelEmote>, now: int, id: string)
      returns (sent: Option<string>)
      modifies this`messages
      ensures sent == if TrimSpace(text) == "" then None else Some(TrimSpace(text))
      ensures messages == if sent.None? then old(messages)
                          else Trim(old(messages) + [OwnMessage(user, sent.value, emotes, now, id)], maxRetained)
    {
      hide TrimSpace, EmoteText.ClientFragments, Newest;
      var clean := TrimSpace(text);
      if clean == "" {
        return None;
      }
      var fragments := EmoteText.TokenizeClientSide(clean, emotes);
      var pending := Message(Incoming(id, user, Some(now), None, fragments), None, false,
                             true, Some(id), Some(now), Waiting, None);
      messages := Trim(messages + [pending], maxRetained);
      return Some(clean);
    }
  }
}
