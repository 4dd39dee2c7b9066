/** The chat batcher: the first message goes out at once, what follows within a window goes out together. */
module Batcher {
  import opened Sequences

  datatype Message = Message(id: string, user: string, text: string, ts: int, receivedTS: int)

  datatype Batch = Batch(channel: string, messages: seq<Message>)

  /**
   The batcher's tables, the batches extracted from them under the lock that
   still have to be emitted, and three histories: what was emitted, what was
   extracted, and what was added.
   */
  datatype State = State(
    pending: map<string, seq<Message>>, timers: set<string>, inFlight: seq<Batch>,
    emitted: seq<Batch>, extracted: seq<Batch>, added: seq<(string, Message)>)

  function Stamp(m: Message, now: int): Message {
    if m.receivedTS == 0 then m.(receivedTS := now) else m
  }

  function Pending(s: State, ch: string): seq<Message> {
    if ch in s.pending then s.pending[ch] else []
  }

  function Extract(s: State, b: Batch): State {
    s.(inFlight := s.inFlight + [b], extracted := s.extracted + [b])
  }

  function AddStep(s: State, ch: string, msg: Message, now: int): State {
    var m := Stamp(msg, now);
    var s1 := s.(added := s.added + [(ch, m)]);
    if ch !in s.timers then Extract(s1, Batch(ch, [m])).(timers := s.timers + {ch})
    else s1.(pending := s.pending[ch := Pending(s, ch) + [m]])
  }

  function FlushStep(s: State, ch: string): State {
    var s1 := s.(pending := s.pending - {ch}, timers := s.timers - {ch});
    if Pending(s, ch) == [] then s1 else Extract(s1, Batch(ch, Pending(s, ch)))
  }

  function EmitStep(s: State, k: nat): State
    requires k < |s.inFlight|
  {
    s.(inFlight := Drop(s.inFlight, k), emitted := s.emitted + [s.inFlight[k]])
  }

  datatype Event = Add(ch: string, msg: Message, now: int) | Fire(ch: string) | Emit(k: nat)

  /** Timers fire only while armed; batches in flight are emitted in any order. */
  function Next(s: State, e: Event): State {
    match e
    case Add(ch, msg, now) => AddStep(s, ch, msg, now)
    case Fire(ch) => if ch in s.timers then FlushStep(s, ch) else s
    case Emit(k) => if k < |s.inFlight| then EmitStep(s, k) else s
  }

  function Run(events: seq<Event>): State {
    if events == [] then State(map[], {}, [], [], [], [])
    else Next(Run(events[..|events| - 1]), events[|events| - 1])
  }

  /** One channel's messages, in the order of the batches. */
  function MessagesOf(batches: seq<Batch>, ch: string): seq<Message> {
    if batches == [] then []
    else
      var last := batches[|batches| - 1];
      MessagesOf(batches[..|batches| - 1], ch) + if last.channel == ch then last.messages else []
  }

  function AddedTo(added: seq<(string, Message)>, ch: string): seq<Message> {
    if added == [] then []
    else
      var last := added[|added| - 1];
      AddedTo(added[..|added| - 1], ch) + if last.0 == ch then [last.1] else []
  }

  ghost predicate Inv(s: State) {
    && (forall ch :: MessagesOf(s.extracted, ch) + Pending(s, ch) == AddedTo(s.added, ch))
    && (forall ch :: ch in s.pending ==> ch in s.timers && s.pending[ch] != [])
    && multiset(s.extracted) == multiset(s.emitted) + multiset(s.inFlight)
    && (forall b :: b in s.extracted ==> b.messages != [])
  }

  lemma MessagesOfPush(batches: seq<Batch>, b: Batch, ch: string)
    ensures MessagesOf(batches + [b], ch) == MessagesOf(batches, ch) + if b.channel == ch then b.messages else []
  {
    assert (batches + [b])[..|batches|] == batches;
  }

  lemma AddedToPush(added: seq<(string, Message)>, x: (string, Message), ch: string)
    ensures AddedTo(added + [x], ch) == AddedTo(added, ch) + if x.0 == ch then [x.1] else []
  {
    assert (added + [x])[..|added|] == added;
  }

  lemma DropIsOneLess<T>(s: seq<T>, k: nat)
    requires k < |s|
    ensures multiset(s) == multiset(Drop(s, k)) + multiset{s[k]}
  {
    assert s == s[..k] + [s[k]] + s[k + 1..];
  }

  lemma AddKeepsOrder(s: State, ch: string, msg: Message, now: int)
    requires Inv(s)
    ensures
      var t := AddStep(s, ch, msg, now);
      forall g :: MessagesOf(t.extracted, g) + Pending(t, g) == AddedTo(t.added, g)
  {
    hide MessagesOf, AddedTo, Stamp;
    var t, m := AddStep(s, ch, msg, now), Stamp(msg, now);
    forall g
      ensures MessagesOf(t.extracted, g) + Pending(t, g) == AddedTo(t.added, g)
    {
      AddedToPush(s.added, (ch, m), g);
      assert MessagesOf(s.extracted, g) + Pending(s, g) == AddedTo(s.added, g);
      if ch !in s.timers {
        MessagesOfPush(s.extracted, Batch(ch, [m]), g);
      } else {
        Assoc(MessagesOf(s.extracted, g), Pending(s, g), [m]);
      }
    }
  }

  lemma AddKeepsInv(s: State, ch: string, msg: Message, now: int)
    requires Inv(s)
    ensures Inv(AddStep(s, ch, msg, now))
  {
    AddKeepsOrder(s, ch, msg, now);
    hide MessagesOf, AddedTo, Stamp, Pending;
  }

  lemma FlushKeepsInv(s: State, ch: string)
    requires Inv(s)
    ensures Inv(FlushStep(s, ch)) && Pending(FlushStep(s, ch), ch) == []
  {
    hide MessagesOf, AddedTo;
    var t := FlushStep(s, ch);
    forall g
      ensures MessagesOf(t.extracted, g) + Pending(t, g) == AddedTo(t.added, g)
    {
      MessagesOfPush(s.extracted, Batch(ch, Pending(s, ch)), g);
      assert MessagesOf(s.extracted, g) + Pending(s, g) == AddedTo(s.added, g);
    }
  }

  lemma EmitKeepsInv(s: State, k: nat)
    requires Inv(s) && k < |s.inFlight|
    ensures Inv(EmitStep(s, k))
  {
    hide MessagesOf, AddedTo;
    DropIsOneLess(s.inFlight, k);
    assert forall g :: Pending(EmitStep(s, k), g) == Pending(s, g);
  }

  lemma {:induction false} EveryRunKeepsInv(events: seq<Event>)
    ensures Inv(Run(events))
  {
    if events != [] {
      var e, s := events[|events| - 1], Run(events[..|events| - 1]);
      EveryRunKeepsInv(events[..|events| - 1]);
      hide Inv;
      match e
      case Add(ch, msg, now) => AddKeepsInv(s, ch, msg, now);
      case Fire(ch) => FlushKeepsInv(s, ch);
      case Emit(k) =>
        if k < |s.inFlight| {
          EmitKeepsInv(s, k);
        }
    }
  }

  lemma Cancel<T>(a: multiset<T>, b: multiset<T>, x: T)
    requires a + multiset{x} == b + multiset{x}
    ensures a == b
  {
    assert a == (a + multiset{x}) - multiset{x};
    assert b == (b + multiset{x}) - multiset{x};
  }

  /** Whatever the order of the batches, the same messages are in them. */
  lemma {:induction false} SameBatchesSameMessages(a: seq<Batch>, b: seq<Batch>, ch: string)
    requires multiset(a) == multiset(b)
    ensures multiset(MessagesOf(a, ch)) == multiset(MessagesOf(b, ch))
    decreases |a|
  {
    if a == [] {
      assert |multiset(b)| == 0;
    } else {
      var last := a[|a| - 1];
      assert a == a[..|a| - 1] + [last];
      assert multiset(a) == multiset(a[..|a| - 1]) + multiset{last};
      assert last in multiset(b);
      var k :| 0 <= k < |b| && b[k] == last;
      DropIsOneLess(b, k);
      Cancel(multiset(a[..|a| - 1]), multiset(Drop(b, k)), last);
      SameBatchesSameMessages(a[..|a| - 1], Drop(b, k), ch);
      DropLosesItsMessages(b, k, ch);
    }
  }

  lemma {:induction false} MessagesOfConcat(x: seq<Batch>, y: seq<Batch>, ch: string)
    ensures MessagesOf(x + y, ch) == MessagesOf(x, ch) + MessagesOf(y, ch)
  {
    if y == [] {
      assert x + y == x;
    } else {
      var n := |y| - 1;
      MessagesOfConcat(x, y[..n], ch);
      hide MessagesOf;
      assert y == y[..n] + [y[n]];
      Assoc(x, y[..n], [y[n]]);
      MessagesOfPush(x + y[..n], y[n], ch);
      MessagesOfPush(y[..n], y[n], ch);
      Assoc(MessagesOf(x, ch), MessagesOf(y[..n], ch), if y[n].channel == ch then y[n].messages else []);
    }
  }

  lemma DropLosesItsMessages(b: seq<Batch>, k: nat, ch: string)
    requires k < |b|
    ensures multiset(MessagesOf(b, ch)) ==
      multiset(MessagesOf(Drop(b, k), ch)) + if b[k].channel == ch then multiset(b[k].messages) else multiset{}
  {
    hide MessagesOf;
    MessagesOfConcat(b[..k], b[k + 1..], ch);
    MessagesOfPush(b[..k], b[k], ch);
    MessagesOfConcat(b[..k] + [b[k]], b[k + 1..], ch);
    assert b == b[..k] + [b[k]] + b[k + 1..];
  }

  /**
   In every interleaving a channel's extracted batches and its pending list make
   up what was added to it, in order, and a timer is running whenever something
   is pending. Once nothing is pending or in flight, every message has been
   emitted exactly once.
   */
  lemma EveryRunLosesNothing(events: seq<Event>, ch: string)
    ensures
      var s := Run(events);
      && MessagesOf(s.extracted, ch) + Pending(s, ch) == AddedTo(s.added, ch)
      && (Pending(s, ch) != [] ==> ch in s.timers)
      && multiset(s.extracted) == multiset(s.emitted + s.inFlight)
    ensures
      var s := Run(events);
      ch !in s.timers && s.inFlight == [] ==>
        multiset(MessagesOf(s.emitted, ch)) == multiset(AddedTo(s.added, ch))
  {
    hide Run, MessagesOf, AddedTo;
    EveryRunKeepsInv(events);
    var s := Run(events);
    if ch !in s.timers && s.inFlight == [] {
      SameBatchesSameMessages(s.extracted, s.emitted, ch);
      assert Pending(s, ch) == [];
      assert MessagesOf(s.extracted, ch) + [] == MessagesOf(s.extracted, ch);
    }
  }

  // ---------------------------------------------------------------- the order of emission

  /** What has been emitted for a channel, and then what is in flight for it, is what was extracted. */
  ghost predicate InOrder(s: State, ch: string) {
    MessagesOf(s.emitted, ch) + MessagesOf(s.inFlight, ch) == MessagesOf(s.extracted, ch)
  }

  ghost predicate AllInOrder(s: State) {
    forall ch :: InOrder(s, ch)
  }

  /** The channel's messages that batch `k` would overtake. */
  function Overtaken(s: State, k: nat): seq<Message>
    requires k < |s.inFlight|
  {
    MessagesOf(s.inFlight[..k], s.inFlight[k].channel)
  }

  lemma InFlightParts(s: State, k: nat, ch: string)
    requires k < |s.inFlight|
    ensures
      var b := s.inFlight[k];
      var x := if b.channel == ch then b.messages else [];
      && MessagesOf(s.inFlight, ch) == MessagesOf(s.inFlight[..k], ch) + x + MessagesOf(s.inFlight[k + 1..], ch)
      && MessagesOf(EmitStep(s, k).inFlight, ch) == MessagesOf(s.inFlight[..k], ch) + MessagesOf(s.inFlight[k + 1..], ch)
      && MessagesOf(EmitStep(s, k).emitted, ch) == MessagesOf(s.emitted, ch) + x
  {
    hide MessagesOf;
    var b := s.inFlight[k];
    MessagesOfPush(s.emitted, b, ch);
    MessagesOfPush(s.inFlight[..k], b, ch);
    MessagesOfConcat(s.inFlight[..k] + [b], s.inFlight[k + 1..], ch);
    MessagesOfConcat(s.inFlight[..k], s.inFlight[k + 1..], ch);
    assert s.inFlight == s.inFlight[..k] + [b] + s.inFlight[k + 1..];
  }

  lemma SwapIsSame<T>(a: seq<T>, x: seq<T>, e: seq<T>, c: seq<T>)
    ensures (a + x) + (e + c) == a + (e + x + c) <==> x + e == e + x
  {
    assert (a + x) + (e + c) == a + ((x + e) + c);
    SameMiddle(a, x + e, e + x, c);
  }

  lemma SameMiddle<T>(a: seq<T>, x: seq<T>, y: seq<T>, c: seq<T>)
    requires |x| == |y|
    ensures a + (x + c) == a + (y + c) <==> x == y
  {
    assert (a + (x + c))[|a|..][..|x|] == x;
    assert (a + (y + c))[|a|..][..|y|] == y;
  }

  lemma Commutes<T>(x: seq<T>, e: seq<T>)
    requires x != [] && x[0] !in e
    ensures x + e == e + x <==> e == []
  {
    if e != [] {
      assert (x + e)[0] == x[0] && (e + x)[0] == e[0] && e[0] in e;
    } else {
      assert x + e == x && e + x == x;
    }
  }

  /** Emitting a batch keeps its channel's order if and only if it commutes with what it overtakes; other channels do not notice. */
  lemma EmitKeepsOrder(s: State, k: nat, ch: string)
    requires k < |s.inFlight| && InOrder(s, ch)
    ensures
      var x := s.inFlight[k].messages;
      InOrder(EmitStep(s, k), ch) <==> s.inFlight[k].channel == ch ==> x + Overtaken(s, k) == Overtaken(s, k) + x
  {
    hide MessagesOf;
    InFlightParts(s, k, ch);
    var x := if s.inFlight[k].channel == ch then s.inFlight[k].messages else [];
    SwapIsSame(MessagesOf(s.emitted, ch), x, MessagesOf(s.inFlight[..k], ch), MessagesOf(s.inFlight[k + 1..], ch));
    Unit(MessagesOf(s.inFlight[..k], ch));
  }

  lemma Unit<T>(e: seq<T>)
    ensures [] + e == e + []
  {
  }

  /** A batch of messages of its own keeps the order if and only if it overtakes nothing of its channel. */
  lemma EmitKeepsOrderIffNothingIsOvertaken(s: State, k: nat)
    requires k < |s.inFlight| && AllInOrder(s)
    requires s.inFlight[k].messages != [] && s.inFlight[k].messages[0] !in Overtaken(s, k)
    ensures AllInOrder(EmitStep(s, k)) <==> Overtaken(s, k) == []
  {
    hide InOrder, Overtaken, EmitStep;
    Commutes(s.inFlight[k].messages, Overtaken(s, k));
    forall ch
      ensures InOrder(EmitStep(s, k), ch) <==>
        s.inFlight[k].channel == ch ==> s.inFlight[k].messages + Overtaken(s, k) == Overtaken(s, k) + s.inFlight[k].messages
    {
      EmitKeepsOrder(s, k, ch);
    }
    if AllInOrder(EmitStep(s, k)) {
      assert InOrder(EmitStep(s, k), s.inFlight[k].channel);
    }
  }

  /** No emission of the run overtakes a batch of its own channel. */
  predicate Guarded(events: seq<Event>) {
    events == [] || (
      var init, e := events[..|events| - 1], events[|events| - 1];
      && Guarded(init)
      && (e.Emit? && e.k < |Run(init).inFlight| ==> Overtaken(Run(init), e.k) == []))
  }

  lemma ExtractKeepsOrder(s: State, b: Batch, ch: string)
    requires InOrder(s, ch)
    ensures InOrder(Extract(s, b), ch)
  {
    hide MessagesOf;
    MessagesOfPush(s.inFlight, b, ch);
    MessagesOfPush(s.extracted, b, ch);
    Assoc(MessagesOf(s.emitted, ch), MessagesOf(s.inFlight, ch), if b.channel == ch then b.messages else []);
  }

  lemma OtherStepsKeepOrder(s: State, e: Event, ch: string)
    requires InOrder(s, ch) && !e.Emit?
    ensures InOrder(Next(s, e), ch)
  {
    hide MessagesOf, Stamp;
    match e
    case Add(g, msg, now) => ExtractKeepsOrder(s, Batch(g, [Stamp(msg, now)]), ch);
    case Fire(g) => ExtractKeepsOrder(s, Batch(g, Pending(s, g)), ch);
    case Emit(_) =>
  }

  ghost predicate Distinct(ms: seq<Message>) {
    forall i, j :: 0 <= i < j < |ms| ==> ms[i] != ms[j]
  }

  /** No message is added to a channel twice. */
  ghost predicate AllDistinct(s: State) {
    forall ch :: Distinct(AddedTo(s.added, ch))
  }

  lemma AddedLater(s: State, e: Event, ch: string)
    ensures AddedTo(s.added, ch) <= AddedTo(Next(s, e).added, ch)
  {
    hide AddedTo, Stamp;
    if e.Add? {
      AddedToPush(s.added, (e.ch, Stamp(e.msg, e.now)), ch);
    }
  }

  lemma DistinctEarlier(a: seq<Message>, b: seq<Message>)
    requires a <= b && Distinct(b)
    ensures Distinct(a)
  {
    forall i, j | 0 <= i < j < |a|
      ensures a[i] != a[j]
    {
      assert a[i] == b[i] && a[j] == b[j];
    }
  }

  lemma InitIsDistinct(events: seq<Event>)
    requires events != [] && AllDistinct(Run(events))
    ensures AllDistinct(Run(events[..|events| - 1]))
  {
    hide AddedTo, Next, Distinct;
    var e, s := events[|events| - 1], Run(events[..|events| - 1]);
    forall ch
      ensures Distinct(AddedTo(s.added, ch))
    {
      AddedLater(s, e, ch);
      DistinctEarlier(AddedTo(s.added, ch), AddedTo(Next(s, e).added, ch));
    }
  }

  /** Of distinct messages, what is in flight is not yet overtaken by itself. */
  lemma OwnMessages(s: State, k: nat)
    requires Inv(s) && AllInOrder(s) && AllDistinct(s) && k < |s.inFlight|
    ensures s.inFlight[k].messages != [] && s.inFlight[k].messages[0] !in Overtaken(s, k)
  {
    hide MessagesOf, AddedTo;
    var b := s.inFlight[k];
    var ch, x, e := b.channel, b.messages, Overtaken(s, k);
    assert b in multiset(s.inFlight) && b in multiset(s.extracted);
    InFlightParts(s, k, ch);
    assert InOrder(s, ch) && MessagesOf(s.extracted, ch) + Pending(s, ch) == AddedTo(s.added, ch);
    assert Distinct(AddedTo(s.added, ch));
    DistinctParts(MessagesOf(s.emitted, ch), e, x, MessagesOf(s.inFlight[k + 1..], ch), Pending(s, ch));
  }

  lemma DistinctParts(a: seq<Message>, e: seq<Message>, x: seq<Message>, c: seq<Message>, p: seq<Message>)
    requires Distinct(a + (e + x + c) + p) && x != []
    ensures x[0] !in e
  {
    var all := a + (e + x + c) + p;
    assert all[|a| + |e|] == x[0];
    assert forall i :: 0 <= i < |e| ==> all[|a| + i] == e[i];
  }

  /**
   With messages that are distinct per channel, a run emits each channel in order
   throughout if and only if no emission overtakes a batch of its own channel.
   */
  lemma {:induction false} RunKeepsOrderIffGuarded(events: seq<Event>)
    requires AllDistinct(Run(events))
    ensures (forall n: nat :: n <= |events| ==> AllInOrder(Run(events[..n]))) <==> Guarded(events)
    decreases |events|
  {
    hide AllInOrder, AllDistinct, Inv, Overtaken, Next;
    assert events[..|events|] == events;
    if events == [] {
      NothingIsInOrder();
    } else {
      var init, e := events[..|events| - 1], events[|events| - 1];
      InitIsDistinct(events);
      RunKeepsOrderIffGuarded(init);
      assert forall n: nat :: n <= |init| ==> events[..n] == init[..n];
      assert init[..|init|] == init;
      if AllInOrder(Run(init)) {
        LastKeepsOrderIffGuarded(init, e);
      }
    }
  }

  lemma LastKeepsOrderIffGuarded(init: seq<Event>, e: Event)
    requires AllInOrder(Run(init)) && AllDistinct(Run(init))
    ensures
      var s := Run(init);
      AllInOrder(Next(s, e)) <==> (e.Emit? && e.k < |s.inFlight| ==> Overtaken(s, e.k) == [])
  {
    hide Inv, Overtaken, AllDistinct, InOrder, Run, EmitStep;
    var s := Run(init);
    EveryRunKeepsInv(init);
    if e.Emit? {
      if e.k < |s.inFlight| {
        OwnMessages(s, e.k);
        EmitKeepsOrderIffNothingIsOvertaken(s, e.k);
      }
    } else {
      forall ch
        ensures InOrder(Next(s, e), ch)
      {
        OtherStepsKeepOrder(s, e, ch);
      }
    }
  }

  lemma NothingIsInOrder()
    ensures AllInOrder(Run([]))
  {
  }

  /** Emission is outside the lock, so a flushed batch may overtake the message before it. */
  lemma EmissionMayOvertake(ch: string, a: Message, b: Message, now: int)
    requires Stamp(a, now) != Stamp(b, now)
    ensures
      var s := Next(Next(Next(Next(Next(Run([]), Add(ch, a, now)), Add(ch, b, now)), Fire(ch)), Emit(1)), Emit(0));
      AddedTo(s.added, ch) == [Stamp(a, now), Stamp(b, now)] && MessagesOf(s.emitted, ch) == [Stamp(b, now), Stamp(a, now)]
  {
    hide MessagesOf, AddedTo;
    var x, y := Stamp(a, now), Stamp(b, now);
    var s := Next(Next(Next(Run([]), Add(ch, a, now)), Add(ch, b, now)), Fire(ch));
    assert [] + [y] == [y];
    assert s.inFlight == [Batch(ch, [x])] + [Batch(ch, [y])];
    var t := Next(Next(s, Emit(1)), Emit(0));
    assert t.emitted == [] + [Batch(ch, [y])] + [Batch(ch, [x])];
    assert t.added == [] + [(ch, x)] + [(ch, y)];
    MessagesOfPush([], Batch(ch, [y]), ch);
    MessagesOfPush([] + [Batch(ch, [y])], Batch(ch, [x]), ch);
    AddedToPush([], (ch, x), ch);
    AddedToPush([] + [(ch, x)], (ch, y), ch);
    Nothing(ch);
  }

  lemma Nothing(ch: string)
    ensures MessagesOf([], ch) == [] && AddedTo([], ch) == []
  {
  }

  // ---------------------------------------------------------------- the batcher

  class Batcher {
    var pending: map<string, seq<Message>>
    var timers: set<string>
    var flushed: seq<Batch>
    ghost var inFlight: seq<Batch>
    ghost var extracted: seq<Batch>
    ghost var added: seq<(string, Message)>

    constructor ()
      ensures View() == Run([])
    {
      pending, timers, flushed := map[], {}, [];
      inFlight, extracted, added := [], [], [];
    }

    ghost function View(): State
      reads this
    {
      State(pending, timers, inFlight, flushed, extracted, added)
    }

    /** Up to the end of the locked section; a nonempty result is what the caller emits next. */
    method Add(channel: string, message: Message, now: int) returns (immediate: seq<Message>)
      modifies this
      ensures View() == AddStep(old(View()), channel, message, now)
      ensures immediate == if channel in old(timers) then [] else [Stamp(message, now)]
    {
      var msg := message;
      if msg.receivedTS == 0 {
        msg := msg.(receivedTS := now);
      }
      immediate := [];
      if channel !in timers {
        immediate := [msg];
        timers := timers + {channel};
        inFlight, extracted := inFlight + [Batch(channel, immediate)], extracted + [Batch(channel, immediate)];
      } else {
        pending := pending[channel := (if channel in pending then pending[channel] else []) + [msg]];
      }
      added := added + [(channel, msg)];
    }

    /** What an armed timer does, up to the end of the locked section. */
    method Flush(channel: string) returns (msgs: seq<Message>)
      modifies this
      ensures View() == FlushStep(old(View()), channel)
      ensures msgs == Pending(old(View()), channel)
    {
      msgs := if channel in pending then pending[channel] else [];
      pending := pending - {channel};
      timers := timers - {channel};
      if |msgs| == 0 {
        return;
      }
      inFlight, extracted := inFlight + [Batch(channel, msgs)], extracted + [Batch(channel, msgs)];
    }

    /** Hands a batch to the flusher, outside the lock. */
    method Emit(channel: string, msgs: seq<Message>, ghost k: nat)
      requires k < |inFlight| && inFlight[k] == Batch(channel, msgs)
      modifies this
      ensures View() == EmitStep(old(View()), k)
    {
      flushed := flushed + [Batch(channel, msgs)];
      inFlight := Drop(inFlight, k);
    }
  }
}
