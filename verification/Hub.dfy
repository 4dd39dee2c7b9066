/** The fan-out hub: which browser reads which channel, and what keeps a channel alive. */
module ChatHub {
  import opened Text

  // ---------------------------------------------------------------- a client's queue

  /** What delivery leaves in a queue of the given capacity: a full queue gives up its oldest frame first. */
  function Push<T>(q: seq<T>, x: T, cap: nat): seq<T> {
    if |q| < cap then q + [x]
    else
      var rest := if q == [] then [] else q[1..];
      if |rest| < cap then rest + [x] else rest
  }

  /**
   A queue with its history: the frames delivered to it, the frames taken from it,
   and where among the delivered ones the taken ones stood.
   */
  datatype Line<T> = Line(queue: seq<T>, delivered: seq<T>, taken: seq<T>, at: seq<nat>)

  datatype QueueEvent<T> = Delivered(frame: T) | Taken

  function Max(a: int, b: int): int {
    if a >= b then a else b
  }

  /** The number of the first delivered frame that comes after all taken ones. */
  function Unread<T>(l: Line<T>): nat {
    if l.at == [] then 0 else l.at[|l.at| - 1] + 1
  }

  function LineNext<T>(l: Line<T>, cap: nat, e: QueueEvent<T>): Line<T> {
    match e
    case Delivered(x) => l.(queue := Push(l.queue, x, cap), delivered := l.delivered + [x])
    case Taken =>
      if l.queue == [] then l
      else
        l.(queue := l.queue[1..],
           taken := l.taken + [l.queue[0]],
           at := l.at + [Max(0, |l.delivered| - |l.queue|)])
  }

  function LineRun<T>(cap: nat, events: seq<QueueEvent<T>>): Line<T> {
    if events == [] then Line([], [], [], [])
    else LineNext(LineRun(cap, events[..|events| - 1]), cap, events[|events| - 1])
  }

  /** The frames not yet taken are waiting, or only the newest `cap` of them if there are more. */
  ghost predicate Suffix<T>(l: Line<T>, cap: nat) {
    Unread(l) <= |l.delivered| && l.queue == l.delivered[Max(Unread(l), |l.delivered| - cap)..]
  }

  /** The taken frames are delivered ones, in the order of delivery and none twice. */
  ghost predicate InOrder<T>(l: Line<T>) {
    && |l.at| == |l.taken|
    && (forall i :: 0 <= i < |l.at| ==> l.at[i] < |l.delivered| && l.taken[i] == l.delivered[l.at[i]])
    && (forall i, j :: 0 <= i < j < |l.at| ==> l.at[i] < l.at[j])
  }

  lemma PushKeepsNewest<T>(q: seq<T>, x: T, cap: nat)
    requires |q| <= cap
    ensures Push(q, x, cap) == (q + [x])[Max(0, |q| + 1 - cap)..]
  {
  }

  lemma DeliveryKeepsSuffix<T>(l: Line<T>, cap: nat, x: T)
    requires Suffix(l, cap)
    ensures Suffix(LineNext(l, cap, Delivered(x)), cap)
  {
    PushKeepsNewest(l.queue, x, cap);
    hide Push;
  }

  lemma DeliveryKeepsOrder<T>(l: Line<T>, cap: nat, x: T)
    requires InOrder(l)
    ensures InOrder(LineNext(l, cap, Delivered(x)))
  {
    hide Push;
  }

  lemma TakingKeepsSuffix<T>(l: Line<T>, cap: nat)
    requires Suffix(l, cap)
    ensures Suffix(LineNext(l, cap, Taken), cap)
  {
    var from := Max(Unread(l), |l.delivered| - cap);
    if from < |l.delivered| {
      assert l.delivered[from..][1..] == l.delivered[from + 1..];
    }
  }

  lemma TakingKeepsOrder<T>(l: Line<T>, cap: nat)
    requires Suffix(l, cap) && InOrder(l)
    ensures InOrder(LineNext(l, cap, Taken))
  {
    var l' := LineNext(l, cap, Taken);
    if l.queue != [] {
      var at := |l.delivered| - |l.queue|;
      assert l.queue[0] == l.delivered[at] && Unread(l) <= at;
      forall i, j | 0 <= i < j < |l'.at|
        ensures l'.at[i] < l'.at[j]
      {
        assert l'.at[i] == l.at[i] && l.at[i] < Unread(l);
      }
    }
  }

  lemma LineNextKeepsSuffix<T>(l: Line<T>, cap: nat, e: QueueEvent<T>)
    requires Suffix(l, cap) && InOrder(l)
    ensures Suffix(LineNext(l, cap, e), cap) && InOrder(LineNext(l, cap, e))
  {
    hide Suffix, InOrder, LineNext;
    match e
    case Delivered(x) =>
      DeliveryKeepsSuffix(l, cap, x);
      DeliveryKeepsOrder(l, cap, x);
    case Taken =>
      TakingKeepsSuffix(l, cap);
      TakingKeepsOrder(l, cap);
  }

  /** However deliveries and reads alternate, a queue holds the newest unread frames and hands them out in order. */
  lemma {:induction false} QueueIsBoundedSuffix<T>(cap: nat, events: seq<QueueEvent<T>>)
    ensures Suffix(LineRun(cap, events), cap) && InOrder(LineRun(cap, events))
    ensures |LineRun(cap, events).queue| <= cap
  {
    if events != [] {
      QueueIsBoundedSuffix(cap, events[..|events| - 1]);
      LineNextKeepsSuffix(LineRun(cap, events[..|events| - 1]), cap, events[|events| - 1]);
    }
  }

  // ---------------------------------------------------------------- subscriptions

  /** `^[a-z0-9][a-z0-9_]{2,24}$` */
  predicate ValidChannel(ch: string) {
    && 3 <= |ch| <= 25
    && ch[0] != '_'
    && forall i :: 0 <= i < |ch| ==> 'a' <= ch[i] <= 'z' || '0' <= ch[i] <= '9' || ch[i] == '_'
  }

  /**
   `C` stands for clients. `channelsOf` knows every client ever connected, `clients`
   those that still are. Redis subscriptions are numbered; `live` says what each one
   still running listens to. `refs` counts the joins of the IRC pool. `grace` holds
   a channel once for every teardown that has yet to run.
   */
  datatype State<C(==)> = State(
    clients: set<C>, channelsOf: map<C, set<string>>, members: map<string, set<C>>,
    unsubs: map<string, nat>, live: map<nat, string>, refs: map<string, int>, grace: multiset<string>)

  function Members<C>(s: State<C>, ch: string): set<C> {
    if ch in s.members then s.members[ch] else {}
  }

  function ChannelsOf<C>(s: State<C>, c: C): set<string> {
    if c in s.channelsOf then s.channelsOf[c] else {}
  }

  function Joined(refs: map<string, int>, ch: string): map<string, int> {
    refs[ch := (if ch in refs then refs[ch] else 0) + 1]
  }

  function Parted(refs: map<string, int>, ch: string): map<string, int> {
    var n := (if ch in refs then refs[ch] else 0) - 1;
    if n > 0 then refs[ch := n] else refs - {ch}
  }

  function Connected<C>(s: State<C>, c: C): State<C> {
    s.(clients := s.clients + {c}, channelsOf := s.channelsOf[c := {}])
  }

  function Enter<C>(s: State<C>, c: C, ch: string): State<C> {
    s.(channelsOf := s.channelsOf[c := ChannelsOf(s, c) + {ch}], members := s.members[ch := Members(s, ch) + {c}])
  }

  function Leave<C>(s: State<C>, c: C, ch: string): State<C> {
    s.(channelsOf := s.channelsOf[c := ChannelsOf(s, c) - {ch}],
       members := if ch in s.members then s.members[ch := s.members[ch] - {c}] else s.members,
       grace := if Members(s, ch) - {c} == {} then s.grace + multiset{ch} else s.grace)
  }

  /** Of the running subscriptions, those left when the one kept for `ch` ends. */
  function Ending(live: map<nat, string>, unsubs: map<string, nat>, ch: string): map<nat, string> {
    if ch in unsubs then live - {unsubs[ch]} else live
  }

  /** The new subscription takes the place of one kept over a grace period, which ends. */
  function Listen<C>(s: State<C>, ch: string, id: nat): State<C> {
    s.(live := Ending(s.live[id := ch], s.unsubs, ch), unsubs := s.unsubs[ch := id])
  }

  /** `sub` is the number of the new Redis subscription, None when Redis refused it. */
  function Subscribed<C>(s: State<C>, c: C, ch: string, sub: Option<nat>): State<C> {
    if !ValidChannel(ch) then s
    else if Members(s, ch) != {} then Enter(s, c, ch)
    else
      var s1 := Enter(s, c, ch).(refs := Joined(s.refs, ch));
      match sub
      case Some(id) => Listen(s1, ch, id)
      case None => Leave(s1, c, ch)
  }

  function Unsubscribed<C>(s: State<C>, c: C, ch: string): State<C> {
    if ValidChannel(ch) then Leave(s, c, ch) else s
  }

  /** The hub lets go of a channel. */
  function Closed<C>(s: State<C>, ch: string): State<C> {
    s.(refs := Parted(s.refs, ch),
       live := Ending(s.live, s.unsubs, ch),
       unsubs := s.unsubs - {ch},
       members := s.members - {ch})
  }

  /** The end of a grace period. */
  function TornDown<C>(s: State<C>, ch: string): State<C> {
    var s1 := s.(grace := s.grace - multiset{ch});
    if Members(s, ch) != {} then s1 else Closed(s1, ch)
  }

  /** The channels that lose their last client with `c`. */
  function Emptied<C>(s: State<C>, c: C, channels: set<string>): set<string> {
    set ch | ch in channels && Members(s, ch) - {c} == {}
  }

  /** `c` has left these channels. */
  function LeaveAll<C>(s: State<C>, c: C, channels: set<string>): State<C> {
    s.(channelsOf := s.channelsOf[c := ChannelsOf(s, c) - channels],
       members := map ch | ch in s.members :: if ch in channels then s.members[ch] - {c} else s.members[ch],
       grace := s.grace + multiset(Emptied(s, c, channels)))
  }

  function Disconnected<C>(s: State<C>, c: C): State<C> {
    LeaveAll(s.(clients := s.clients - {c}), c, ChannelsOf(s, c))
  }

  datatype Event<C> =
    | Connecting(c: C)
    | Subscribing(c: C, ch: string, sub: Option<nat>)
    | Unsubscribing(c: C, ch: string)
    | Disconnecting(c: C)
    | GraceOver(ch: string)

  /** A client is new when it connects, Redis hands out new numbers, and a grace period ends once. */
  predicate Enabled<C>(s: State<C>, e: Event<C>) {
    match e
    case Connecting(c) => c !in s.channelsOf
    case Subscribing(c, _, sub) => c in s.clients && (sub.Some? ==> sub.value !in s.live)
    case Unsubscribing(c, _) => c in s.clients
    case Disconnecting(c) => c in s.clients
    case GraceOver(ch) => ch in s.grace
  }

  function Next<C>(s: State<C>, e: Event<C>): State<C> {
    if !Enabled(s, e) then s
    else match e
      case Connecting(c) => Connected(s, c)
      case Subscribing(c, ch, sub) => Subscribed(s, c, ch, sub)
      case Unsubscribing(c, ch) => Unsubscribed(s, c, ch)
      case Disconnecting(c) => Disconnected(s, c)
      case GraceOver(ch) => TornDown(s, ch)
  }

  function Run<C>(s: State<C>, events: seq<Event<C>>): State<C> {
    if events == [] then s else Next(Run(s, events[..|events| - 1]), events[|events| - 1])
  }

  function Fresh<C(==)>(): State<C> {
    State({}, map[], map[], map[], map[], map[], multiset{})
  }

  // ---------------------------------------------------------------- what every run keeps

  /** Clients' channels and channels' clients are one relation, over connected clients and valid names. */
  ghost predicate Mirrored<C>(s: State<C>) {
    && (forall c :: c in s.clients ==> c in s.channelsOf)
    && (forall c, ch :: c in s.channelsOf && ch in s.channelsOf[c] ==> c in Members(s, ch))
    && (forall ch, c :: c in Members(s, ch) ==> c in s.clients && ch in ChannelsOf(s, c))
    && (forall ch :: ch in s.members ==> ValidChannel(ch))
  }

  /** The running subscriptions are exactly those the hub can end, one for each of its channels. */
  ghost predicate Held<C>(s: State<C>) {
    && (forall id :: id in s.live ==> s.live[id] in s.unsubs && s.unsubs[s.live[id]] == id)
    && (forall ch :: ch in s.unsubs ==> s.unsubs[ch] in s.live && s.live[s.unsubs[ch]] == ch)
  }

  /** A channel with clients is joined and subscribed; one without is on its way out. */
  ghost predicate ServedBut<C>(s: State<C>, entering: set<string>) {
    && (forall ch :: ch in s.refs ==> s.refs[ch] >= 1)
    && (forall ch :: Members(s, ch) != {} && ch !in entering ==> ch in s.refs && ch in s.unsubs)
    && (forall ch :: ch in s.unsubs && Members(s, ch) == {} ==> ch in s.grace)
  }

  ghost predicate Inv<C>(s: State<C>) {
    Mirrored(s) && Held(s) && ServedBut(s, {})
  }

  lemma EnterKeepsMirrored<C>(s: State<C>, c: C, ch: string)
    requires Mirrored(s) && c in s.clients && ValidChannel(ch)
    ensures Mirrored(Enter(s, c, ch))
  {
    hide ValidChannel;
    var t := Enter(s, c, ch);
    assert forall d :: ChannelsOf(t, d) == if d == c then ChannelsOf(s, c) + {ch} else ChannelsOf(s, d);
    assert forall g :: Members(t, g) == if g == ch then Members(s, ch) + {c} else Members(s, g);
  }

  lemma EnterKeepsServed<C>(s: State<C>, c: C, ch: string)
    requires ServedBut(s, {})
    ensures ServedBut(Enter(s, c, ch), {ch})
    ensures Members(s, ch) != {} ==> ServedBut(Enter(s, c, ch), {})
    ensures Members(Enter(s, c, ch), ch) == Members(s, ch) + {c}
  {
    var t := Enter(s, c, ch);
    assert forall g :: Members(t, g) == if g == ch then Members(s, ch) + {c} else Members(s, g);
  }

  lemma LeaveAllKeepsMirrored<C>(s: State<C>, c: C, channels: set<string>)
    requires Mirrored(s) && c in s.channelsOf
    ensures Mirrored(LeaveAll(s, c, channels))
    ensures ChannelsOf(LeaveAll(s, c, channels), c) == ChannelsOf(s, c) - channels
  {
    hide ValidChannel;
    var t := LeaveAll(s, c, channels);
    assert forall d :: ChannelsOf(t, d) == if d == c then ChannelsOf(s, c) - channels else ChannelsOf(s, d);
    assert forall g :: Members(t, g) == if g in channels then Members(s, g) - {c} else Members(s, g);
  }

  lemma LeaveAllKeepsServed<C>(s: State<C>, c: C, channels: set<string>, entering: set<string>)
    requires ServedBut(s, entering)
    requires forall ch :: ch in entering ==> ch in channels && Members(s, ch) == {c}
    ensures ServedBut(LeaveAll(s, c, channels), {})
  {
    var t := LeaveAll(s, c, channels);
    assert forall g :: Members(t, g) == if g in channels then Members(s, g) - {c} else Members(s, g);
    forall ch | ch in s.unsubs && Members(t, ch) == {}
      ensures ch in t.grace
    {
      if Members(s, ch) != {} {
        assert ch in Emptied(s, c, channels);
      }
    }
  }

  lemma LeaveIsLeaveAll<C>(s: State<C>, c: C, ch: string)
    ensures Leave(s, c, ch) == LeaveAll(s, c, {ch})
  {
    if Members(s, ch) - {c} == {} {
      assert Emptied(s, c, {ch}) == {ch};
      assert multiset({ch}) == multiset{ch};
    } else {
      assert Emptied(s, c, {ch}) == {};
    }
    assert Leave(s, c, ch).members == LeaveAll(s, c, {ch}).members;
    hide Emptied;
  }

  lemma ConnectKeepsMirrored<C>(s: State<C>, c: C)
    requires Mirrored(s) && c !in s.channelsOf
    ensures Mirrored(Connected(s, c))
  {
    hide ValidChannel;
    var t := Connected(s, c);
    assert forall g :: Members(t, g) == Members(s, g);
    assert forall d :: ChannelsOf(t, d) == ChannelsOf(s, d);
  }

  lemma GoneKeepsMirrored<C>(s: State<C>, c: C)
    requires Mirrored(s) && ChannelsOf(s, c) == {}
    ensures Mirrored(s.(clients := s.clients - {c}))
  {
    hide ValidChannel;
    var t := s.(clients := s.clients - {c});
    assert forall g :: Members(t, g) == Members(s, g);
    assert forall d :: ChannelsOf(t, d) == ChannelsOf(s, d);
  }

  /** What serving a channel looks at. */
  lemma SameServed<C>(s: State<C>, t: State<C>, entering: set<string>)
    requires ServedBut(s, entering)
    requires s.members == t.members && s.refs == t.refs && s.unsubs == t.unsubs && s.grace <= t.grace
    ensures ServedBut(t, entering)
  {
    assert forall g :: Members(t, g) == Members(s, g);
  }

  lemma SameMirrored<C>(s: State<C>, t: State<C>)
    requires Mirrored(s) && s.clients == t.clients && s.channelsOf == t.channelsOf && s.members == t.members
    ensures Mirrored(t)
  {
    hide ValidChannel;
    assert forall g :: Members(t, g) == Members(s, g);
    assert forall d :: ChannelsOf(t, d) == ChannelsOf(s, d);
  }

  lemma DisconnectKeepsInv<C>(s: State<C>, c: C)
    requires Inv(s) && c in s.clients
    ensures Inv(Disconnected(s, c))
  {
    assert c in s.channelsOf;
    hide Mirrored, ServedBut;
    var t := LeaveAll(s, c, ChannelsOf(s, c));
    LeaveAllKeepsMirrored(s, c, ChannelsOf(s, c));
    LeaveAllKeepsServed(s, c, ChannelsOf(s, c), {});
    GoneKeepsMirrored(t, c);
    SameServed(t, t.(clients := s.clients - {c}), {});
    DisconnectIsLeaveAll(s, c);
  }

  lemma DisconnectIsLeaveAll<C>(s: State<C>, c: C)
    ensures Disconnected(s, c) == LeaveAll(s, c, ChannelsOf(s, c)).(clients := s.clients - {c})
  {
    var s1 := s.(clients := s.clients - {c});
    assert forall g :: Members(s1, g) == Members(s, g);
    assert Emptied(s1, c, ChannelsOf(s, c)) == Emptied(s, c, ChannelsOf(s, c));
  }

  lemma ListenKeepsHeld<C>(s: State<C>, ch: string, id: nat)
    requires Held(s) && id !in s.live
    ensures Held(Listen(s, ch, id))
  {
  }

  lemma ListenKeepsServed<C>(s: State<C>, ch: string, id: nat)
    requires ServedBut(s, {ch}) && ch in s.refs && Members(s, ch) != {}
    ensures ServedBut(Listen(s, ch, id), {})
  {
    hide Ending;
    assert forall g :: Members(Listen(s, ch, id), g) == Members(s, g);
  }

  lemma ListenKeepsInv<C>(s: State<C>, ch: string, id: nat)
    requires Mirrored(s) && Held(s) && ServedBut(s, {ch}) && ch in s.refs && id !in s.live
    requires Members(s, ch) != {}
    ensures Inv(Listen(s, ch, id))
  {
    SameMirrored(s, Listen(s, ch, id));
    ListenKeepsHeld(s, ch, id);
    ListenKeepsServed(s, ch, id);
    hide Mirrored, Held, ServedBut, Listen;
  }

  lemma JoinedKeeps<C>(s: State<C>, ch: string)
    requires Mirrored(s) && Held(s) && ServedBut(s, {ch})
    ensures
      var t := s.(refs := Joined(s.refs, ch));
      Mirrored(t) && Held(t) && ServedBut(t, {ch}) && ch in t.refs && Members(t, ch) == Members(s, ch)
  {
    var t := s.(refs := Joined(s.refs, ch));
    SameMirrored(s, t);
    hide Mirrored;
    assert forall g :: Members(t, g) == Members(s, g);
  }

  lemma SubscribeKeepsInv<C>(s: State<C>, c: C, ch: string, sub: Option<nat>)
    requires Inv(s) && c in s.clients && (sub.Some? ==> sub.value !in s.live)
    ensures Inv(Subscribed(s, c, ch, sub))
  {
    hide ValidChannel, Mirrored, Held, ServedBut, Listen, Leave, LeaveAll;
    if ValidChannel(ch) {
      EnterKeepsMirrored(s, c, ch);
      EnterKeepsServed(s, c, ch);
      EnterLeavesHeld(s, c, ch);
      if Members(s, ch) == {} {
        JoinedKeeps(Enter(s, c, ch), ch);
        var s1 := Enter(s, c, ch).(refs := Joined(s.refs, ch));
        match sub
        case Some(id) => ListenKeepsInv(s1, ch, id);
        case None =>
          LeaveIsLeaveAll(s1, c, ch);
          LeaveAllKeepsMirrored(s1, c, {ch});
          LeaveAllKeepsServed(s1, c, {ch}, {ch});
          LeaveAllLeavesHeld(s1, c, {ch});
      }
    }
  }

  lemma EnterLeavesHeld<C>(s: State<C>, c: C, ch: string)
    requires Held(s)
    ensures Held(Enter(s, c, ch)) && Enter(s, c, ch).live == s.live && c in Enter(s, c, ch).channelsOf
  {
  }

  lemma LeaveAllLeavesHeld<C>(s: State<C>, c: C, channels: set<string>)
    requires Held(s)
    ensures Held(LeaveAll(s, c, channels))
  {
  }

  lemma TeardownKeepsMirrored<C>(s: State<C>, ch: string)
    requires Mirrored(s)
    ensures Mirrored(TornDown(s, ch))
  {
    hide ValidChannel;
    var t := TornDown(s, ch);
    assert forall g :: Members(t, g) == Members(s, g);
    assert forall d :: ChannelsOf(t, d) == ChannelsOf(s, d);
  }

  lemma TeardownKeepsHeld<C>(s: State<C>, ch: string)
    requires Held(s)
    ensures Held(TornDown(s, ch))
  {
    GraceEnds(s, ch);
    hide TornDown;
    if Members(s, ch) == {} {
      EndingOneKeepsHeld(s, TornDown(s, ch), ch);
    }
  }

  lemma EndingOneKeepsHeld<C>(s: State<C>, t: State<C>, ch: string)
    requires Held(s) && t.unsubs == s.unsubs - {ch} && t.live == Ending(s.live, s.unsubs, ch)
    ensures Held(t)
  {
  }

  lemma TeardownKeepsServed<C>(s: State<C>, ch: string)
    requires ServedBut(s, {})
    ensures ServedBut(TornDown(s, ch), {})
  {
    hide ServedBut, TornDown;
    if Members(s, ch) == {} {
      ClosedKeepsServed(s, ch);
    } else {
      SparedKeepsServed(s, ch);
    }
  }

  lemma PartedLeavesOthers(refs: map<string, int>, ch: string)
    requires forall g :: g in refs ==> refs[g] >= 1
    ensures forall g :: g in Parted(refs, ch) ==> Parted(refs, ch)[g] >= 1
    ensures forall g :: g in refs && g != ch ==> g in Parted(refs, ch)
  {
  }

  lemma ClosedKeepsServed<C>(s: State<C>, ch: string)
    requires ServedBut(s, {}) && Members(s, ch) == {}
    ensures ServedBut(TornDown(s, ch), {})
  {
    hide Parted, Ending;
    PartedLeavesOthers(s.refs, ch);
    var t := TornDown(s, ch);
    assert forall g :: Members(t, g) == Members(s, g);
    assert forall g :: g in s.grace && g != ch ==> g in t.grace;
  }

  lemma SparedKeepsServed<C>(s: State<C>, ch: string)
    requires ServedBut(s, {}) && Members(s, ch) != {}
    ensures ServedBut(TornDown(s, ch), {})
  {
    var t := TornDown(s, ch);
    assert forall g :: Members(t, g) == Members(s, g);
    assert forall g :: g in s.grace && g != ch ==> g in t.grace;
  }

  lemma UnsubscribeKeepsInv<C>(s: State<C>, c: C, ch: string)
    requires Inv(s) && c in s.clients
    ensures Inv(Unsubscribed(s, c, ch))
  {
    assert c in s.channelsOf;
    hide Mirrored, ServedBut;
    LeaveIsLeaveAll(s, c, ch);
    LeaveAllKeepsMirrored(s, c, {ch});
    LeaveAllKeepsServed(s, c, {ch}, {});
  }

  lemma ConnectKeepsInv<C>(s: State<C>, c: C)
    requires Inv(s) && c !in s.channelsOf
    ensures Inv(Connected(s, c))
  {
    ConnectKeepsMirrored(s, c);
    hide Mirrored;
    SameServed(s, Connected(s, c), {});
  }

  lemma TeardownKeepsInv<C>(s: State<C>, ch: string)
    requires Inv(s)
    ensures Inv(TornDown(s, ch))
  {
    hide Mirrored, Held, ServedBut;
    TeardownKeepsMirrored(s, ch);
    TeardownKeepsHeld(s, ch);
    TeardownKeepsServed(s, ch);
  }

  lemma NextKeepsInv<C>(s: State<C>, e: Event<C>)
    requires Inv(s)
    ensures Inv(Next(s, e))
  {
    hide Inv;
    if Enabled(s, e) {
      match e
      case Connecting(c) => ConnectKeepsInv(s, c);
      case Subscribing(c, ch, sub) => SubscribeKeepsInv(s, c, ch, sub);
      case Unsubscribing(c, ch) => UnsubscribeKeepsInv(s, c, ch);
      case Disconnecting(c) => DisconnectKeepsInv(s, c);
      case GraceOver(ch) => TeardownKeepsInv(s, ch);
    }
  }

  lemma {:induction false} EveryRunKeepsInv<C>(events: seq<Event<C>>)
    ensures Inv(Run(Fresh<C>(), events))
  {
    if events != [] {
      EveryRunKeepsInv(events[..|events| - 1]);
      NextKeepsInv(Run(Fresh<C>(), events[..|events| - 1]), events[|events| - 1]);
    }
  }

  /**
   In every run of connects, subscriptions that Redis may refuse, departures and
   teardowns, a subscribed channel is joined in IRC and has exactly one live
   subscription; once no teardown is due, nothing else has one.
   */
  lemma EveryRunServesSubscribers<C>(events: seq<Event<C>>, c: C, ch: string)
    ensures
      var s := Run(Fresh<C>(), events);
      ch in ChannelsOf(s, c) ==>
        && c in s.clients && ch in s.refs && s.refs[ch] >= 1 && ch in s.unsubs
        && forall id :: id in s.live && s.live[id] == ch <==> id == s.unsubs[ch]
    ensures
      var s := Run(Fresh<C>(), events);
      s.grace == multiset{} ==> forall id :: id in s.live ==> Members(s, s.live[id]) != {}
  {
    hide Run, ValidChannel;
    EveryRunKeepsInv(events);
    assert Inv(Run(Fresh<C>(), events));
  }

  // ---------------------------------------------------------------- who is in a channel

  /** The first time the client connects; a client is not used again. */
  ghost predicate ConnectsAt<C>(events: seq<Event<C>>, i: int, c: C) {
    0 <= i < |events| && events[i] == Connecting(c) && forall j :: 0 <= j < i ==> events[j] != Connecting(c)
  }

  ghost predicate OnlineSince<C>(events: seq<Event<C>>, i: int, c: C) {
    ConnectsAt(events, i, c) && forall j :: i < j < |events| ==> events[j] != Disconnecting(c)
  }

  /** The client has connected, and not disconnected since. */
  ghost predicate Online<C>(events: seq<Event<C>>, c: C) {
    exists i :: OnlineSince(events, i, c)
  }

  /** The name is valid, and Redis grants a new subscription or need not be asked, for others are in the channel already. */
  ghost predicate Takes<C>(s: State<C>, e: Event<C>) {
    && e.Subscribing? && ValidChannel(e.ch)
    && (e.sub.Some? ==> e.sub.value !in s.live)
    && (e.sub.Some? || Members(s, e.ch) != {})
  }

  /** A connected client's subscription to the channel that is not refused. */
  ghost predicate EntersAt<C>(events: seq<Event<C>>, i: int, c: C, ch: string) {
    && 0 <= i < |events| && events[i].Subscribing? && events[i].c == c && events[i].ch == ch
    && Online(events[..i], c) && Takes(Run(Fresh<C>(), events[..i]), events[i])
  }

  /** Since then the client has neither left the channel nor disconnected. */
  ghost predicate InSince<C>(events: seq<Event<C>>, i: int, c: C, ch: string) {
    && EntersAt(events, i, c, ch)
    && forall j :: i < j < |events| ==> events[j] != Unsubscribing(c, ch) && events[j] != Disconnecting(c)
  }

  lemma StepConnects<C>(s: State<C>, e: Event<C>, c: C)
    requires forall d :: d in s.clients ==> d in s.channelsOf
    ensures c in Next(s, e).channelsOf <==> c in s.channelsOf || e == Connecting(c)
    ensures c in Next(s, e).clients <==>
      (c in s.clients && e != Disconnecting(c)) || (c !in s.channelsOf && e == Connecting(c))
  {
    hide ValidChannel, Ending, Emptied, Members, Subscribed, Disconnected, TornDown, Leave;
    if Enabled(s, e) {
      match e
      case Connecting(_) =>
      case Subscribing(d, ch, sub) => SubscribingConnectsNobody(s, d, ch, sub);
      case Unsubscribing(d, ch) => LeaveIsLeaveAll(s, d, ch);
      case Disconnecting(d) => DisconnectIsLeaveAll(s, d);
      case GraceOver(ch) => GraceConnectsNobody(s, ch);
    }
  }

  lemma SubscribingConnectsNobody<C>(s: State<C>, c: C, ch: string, sub: Option<nat>)
    requires c in s.channelsOf
    ensures Subscribed(s, c, ch, sub).clients == s.clients
    ensures Subscribed(s, c, ch, sub).channelsOf.Keys == s.channelsOf.Keys
  {
    hide ValidChannel, Ending, Members, Joined;
  }

  lemma GraceConnectsNobody<C>(s: State<C>, ch: string)
    ensures TornDown(s, ch).clients == s.clients && TornDown(s, ch).channelsOf == s.channelsOf
  {
    hide Ending, Members, Parted;
  }

  /** The last event of a run. */
  lemma LastConnects<C>(events: seq<Event<C>>, c: C)
    requires events != []
    ensures
      var init, e := events[..|events| - 1], events[|events| - 1];
      && ((exists i :: ConnectsAt(events, i, c)) <==> (exists i :: ConnectsAt(init, i, c)) || e == Connecting(c))
      && (Online(events, c) <==>
            (Online(init, c) && e != Disconnecting(c)) || (!(exists i :: ConnectsAt(init, i, c)) && e == Connecting(c)))
  {
    var n := |events| - 1;
    var init, e := events[..n], events[n];
    forall i | 0 <= i < n
      ensures ConnectsAt(events, i, c) <==> ConnectsAt(init, i, c)
      ensures OnlineSince(events, i, c) <==> OnlineSince(init, i, c) && e != Disconnecting(c)
    {
      assert OnlineSince(init, i, c) ==> forall j :: i < j < |init| ==> events[j] == init[j];
    }
    FirstConnects(init, n, c);
    assert ConnectsAt(events, n, c) <==> !(exists i :: ConnectsAt(init, i, c)) && e == Connecting(c) by {
      assert forall j :: 0 <= j < n ==> init[j] == events[j];
    }
    assert OnlineSince(events, n, c) <==> ConnectsAt(events, n, c);
  }

  lemma {:induction false} FirstConnects<C>(events: seq<Event<C>>, n: nat, c: C)
    requires n <= |events|
    ensures (exists j :: 0 <= j < n && events[j] == Connecting(c)) <==> exists i :: i < n && ConnectsAt(events, i, c)
  {
    if n > 0 {
      FirstConnects(events, n - 1, c);
      if events[n - 1] == Connecting(c) && !exists i :: i < n - 1 && ConnectsAt(events, i, c) {
        assert ConnectsAt(events, n - 1, c);
      }
    }
  }

  /** The hub's clients are those that are online. */
  lemma {:induction false} ClientsAreOnline<C>(events: seq<Event<C>>, c: C)
    ensures c in Run(Fresh<C>(), events).channelsOf <==> exists i :: ConnectsAt(events, i, c)
    ensures c in Run(Fresh<C>(), events).clients <==> Online(events, c)
  {
    hide Next;
    if events != [] {
      var n := |events| - 1;
      ClientsAreOnline(events[..n], c);
      EveryRunKeepsInv(events[..n]);
      StepConnects(Run(Fresh<C>(), events[..n]), events[n], c);
      LastConnects(events, c);
      hide Online, ConnectsAt;
    }
  }

  lemma EnteringTakes<C>(s: State<C>, c: C, ch: string, sub: Option<nat>, d: C, g: string)
    requires c in s.clients && (sub.Some? ==> sub.value !in s.live)
    ensures d in Members(Subscribed(s, c, ch, sub), g) <==>
      d in Members(s, g) || (c == d && ch == g && Takes(s, Subscribing(c, ch, sub)))
  {
    hide ValidChannel, Ending, Joined, Enter, Leave;
    var s1 := Enter(s, c, ch).(refs := Joined(s.refs, ch));
    EnterAndLeave(s, c, ch, d, g);
    EnterAndLeave(s1, c, ch, d, g);
    SameMembers(Enter(s, c, ch), s1, g);
    if sub.Some? {
      SameMembers(s1, Listen(s1, ch, sub.value), g);
    }
    hide Members, Listen;
  }

  lemma SameMembers<C>(s: State<C>, t: State<C>, ch: string)
    requires s.members == t.members
    ensures Members(s, ch) == Members(t, ch)
  {
  }

  lemma EnterAndLeave<C>(s: State<C>, c: C, ch: string, d: C, g: string)
    ensures d in Members(Enter(s, c, ch), g) <==> d in Members(s, g) || (c == d && ch == g)
    ensures d in Members(Leave(s, c, ch), g) <==> d in Members(s, g) && !(c == d && ch == g)
  {
  }

  lemma LeavingLeaves<C>(s: State<C>, c: C, channels: set<string>, d: C, g: string)
    ensures d in Members(LeaveAll(s, c, channels), g) <==> d in Members(s, g) && !(c == d && g in channels)
  {
    hide Emptied;
  }

  lemma TeardownMovesNobody<C>(s: State<C>, ch: string, d: C, g: string)
    ensures d in Members(TornDown(s, ch), g) <==> d in Members(s, g)
  {
  }

  /** What one step makes of one membership. */
  lemma StepMembers<C>(s: State<C>, e: Event<C>, c: C, ch: string)
    requires Inv(s)
    ensures c in Members(Next(s, e), ch) <==>
      && e != Unsubscribing(c, ch) && e != Disconnecting(c)
      && (c in Members(s, ch) || (e.Subscribing? && e.c == c && e.ch == ch && c in s.clients && Takes(s, e)))
  {
    assert c in Members(s, ch) ==> c in s.clients && ch in ChannelsOf(s, c) && ValidChannel(ch);
    hide ValidChannel, Subscribed, Leave, LeaveAll, TornDown, Inv;
    if Enabled(s, e) {
      match e
      case Connecting(_) =>
      case Subscribing(d, g, sub) => EnteringTakes(s, d, g, sub, c, ch);
      case Unsubscribing(d, g) =>
        LeaveIsLeaveAll(s, d, g);
        LeavingLeaves(s, d, {g}, c, ch);
      case Disconnecting(d) =>
        DisconnectIsLeaveAll(s, d);
        LeavingLeaves(s, d, ChannelsOf(s, d), c, ch);
      case GraceOver(g) => TeardownMovesNobody(s, g, c, ch);
    }
  }

  lemma LastEnters<C>(events: seq<Event<C>>, c: C, ch: string)
    requires events != []
    ensures
      var n := |events| - 1;
      (exists i :: InSince(events, i, c, ch)) <==>
        && events[n] != Unsubscribing(c, ch) && events[n] != Disconnecting(c)
        && ((exists i :: InSince(events[..n], i, c, ch)) || EntersAt(events, n, c, ch))
  {
    hide Run, Takes, Online;
    var n := |events| - 1;
    var init := events[..n];
    forall i | 0 <= i < n
      ensures InSince(events, i, c, ch) <==>
        InSince(init, i, c, ch) && events[n] != Unsubscribing(c, ch) && events[n] != Disconnecting(c)
    {
      assert init[..i] == events[..i];
      assert forall j :: i < j < |init| ==> events[j] == init[j];
    }
    assert InSince(events, n, c, ch) <==> EntersAt(events, n, c, ch);
  }

  /**
   In every run a client is among a channel's members if and only if it has entered
   the channel by a subscription that was not refused, and neither unsubscribed
   from it nor disconnected since.
   */
  lemma {:induction false} MembersHaveSubscribed<C>(events: seq<Event<C>>, c: C, ch: string)
    ensures c in Members(Run(Fresh<C>(), events), ch) <==> exists i :: InSince(events, i, c, ch)
  {
    assert forall i :: InSince(events, i, c, ch) ==> |events| > 0;
    hide Next, Takes, Online, InSince;
    if events != [] {
      var n := |events| - 1;
      MembersHaveSubscribed(events[..n], c, ch);
      ClientsAreOnline(events[..n], c);
      EveryRunKeepsInv(events[..n]);
      StepMembers(Run(Fresh<C>(), events[..n]), events[n], c, ch);
      LastEnters(events, c, ch);
    }
  }

  function Refs<C>(s: State<C>, ch: string): int {
    if ch in s.refs then s.refs[ch] else 0
  }

  /** The pool counts one join for each channel the hub can still end. */
  ghost predicate Tight<C>(s: State<C>) {
    forall ch :: Refs(s, ch) == if ch in s.unsubs then 1 else 0
  }

  /** Coming back within the grace period joins a second time, and so does a refused subscription. */
  lemma SubscribeCountsOnce<C>(s: State<C>, c: C, ch: string, sub: Option<nat>)
    requires Tight(s)
    ensures Tight(Subscribed(s, c, ch, sub)) <==>
      !ValidChannel(ch) || Members(s, ch) != {} || (sub.Some? && ch !in s.unsubs)
  {
    hide ValidChannel;
    var t := Subscribed(s, c, ch, sub);
    if ValidChannel(ch) && Members(s, ch) == {} {
      assert Refs(t, ch) == Refs(s, ch) + 1;
      assert forall g :: g != ch ==> Refs(t, g) == Refs(s, g);
    } else {
      assert forall g :: Refs(t, g) == Refs(s, g);
    }
  }

  lemma NothingElseMiscounts<C>(s: State<C>, e: Event<C>)
    requires Tight(s) && !e.Subscribing?
    ensures Tight(Next(s, e))
  {
    hide ValidChannel;
    if Enabled(s, e) && e.GraceOver? {
      forall g
        ensures Refs(TornDown(s, e.ch), g) == if g in TornDown(s, e.ch).unsubs then 1 else 0
      {
        GraceEnds(s, e.ch);
        assert Refs(s, g) == if g in s.unsubs then 1 else 0;
      }
    } else {
      assert Next(s, e).refs == s.refs && Next(s, e).unsubs == s.unsubs;
    }
  }

  // ---------------------------------------------------------------- when a join is left over

  /** Every join of a channel is one its clients still need, or one a teardown that is due will end. */
  ghost predicate CoveredAt<C>(s: State<C>, ch: string) {
    Refs(s, ch) <= s.grace[ch] + if Members(s, ch) != {} then 1 else 0
  }

  ghost predicate Covered<C>(s: State<C>) {
    forall ch :: CoveredAt(s, ch)
  }

  /** What a step has to heed: no grace period ends in vain over a channel with more joins than teardowns to come. */
  ghost predicate Heeds<C>(s: State<C>, e: Event<C>) {
    e.GraceOver? && Enabled(s, e) && Members(s, e.ch) != {} ==> Refs(s, e.ch) <= s.grace[e.ch]
  }

  lemma SameCover<C>(s: State<C>, t: State<C>)
    requires Covered(s) && t.refs == s.refs && t.grace == s.grace
    requires forall ch :: Members(s, ch) != {} ==> Members(t, ch) != {}
    ensures Covered(t)
  {
    forall ch ensures CoveredAt(t, ch) { assert CoveredAt(s, ch); }
  }

  lemma SubscribeKeepsCovered<C>(s: State<C>, c: C, ch: string, sub: Option<nat>)
    requires Covered(s)
    ensures Covered(Subscribed(s, c, ch, sub))
  {
    hide ValidChannel, Ending;
    var t := Subscribed(s, c, ch, sub);
    forall g ensures CoveredAt(t, g) { assert CoveredAt(s, g); }
  }

  lemma LeaveAllKeepsCovered<C>(s: State<C>, c: C, channels: set<string>)
    requires Covered(s)
    ensures Covered(LeaveAll(s, c, channels))
  {
    var t := LeaveAll(s, c, channels);
    forall g ensures CoveredAt(t, g) {
      assert CoveredAt(s, g);
      assert Members(t, g) == if g in channels then Members(s, g) - {c} else Members(s, g);
    }
  }

  lemma TeardownKeepsCovered<C>(s: State<C>, ch: string)
    requires Covered(s) && ch in s.grace
    ensures Covered(TornDown(s, ch)) <==> Heeds(s, GraceOver(ch))
  {
    var t := TornDown(s, ch);
    GraceEnds(s, ch);
    assert CoveredAt(s, ch);
    forall g | g != ch ensures CoveredAt(t, g) {
      assert CoveredAt(s, g);
      assert Members(t, g) == Members(s, g) && Refs(t, g) == Refs(s, g);
    }
    hide TornDown;
    assert CoveredAt(t, ch) <==> Heeds(s, GraceOver(ch));
  }

  /** A step leaves a join uncovered if and only if it ends a grace period in vain: subscribing never does, nor does leaving. */
  lemma StepKeepsCovered<C>(s: State<C>, e: Event<C>)
    requires Covered(s)
    ensures Covered(Next(s, e)) <==> Heeds(s, e)
  {
    hide Covered, Subscribed, LeaveAll, Leave, TornDown, ValidChannel;
    if Enabled(s, e) {
      match e
      case Connecting(c) => SameCover(s, Connected(s, c));
      case Subscribing(c, ch, sub) => SubscribeKeepsCovered(s, c, ch, sub);
      case Unsubscribing(c, ch) =>
        LeaveIsLeaveAll(s, c, ch);
        LeaveAllKeepsCovered(s, c, {ch});
      case Disconnecting(c) =>
        DisconnectIsLeaveAll(s, c);
        LeaveAllKeepsCovered(s, c, ChannelsOf(s, c));
        SameCover(LeaveAll(s, c, ChannelsOf(s, c)), Disconnected(s, c));
      case GraceOver(ch) => TeardownKeepsCovered(s, ch);
    }
  }

  ghost predicate AllHeed<C>(s: State<C>, events: seq<Event<C>>) {
    events == [] || (
      var init := events[..|events| - 1];
      AllHeed(s, init) && Heeds(Run(s, init), events[|events| - 1]))
  }

  /** In a run every join stays covered throughout if and only if no grace period ends in vain. */
  lemma {:induction false} RunKeepsCoveredIffHeeding<C>(s: State<C>, events: seq<Event<C>>)
    requires Covered(s)
    ensures (forall n: nat :: n <= |events| ==> Covered(Run(s, events[..n]))) <==> AllHeed(s, events)
    decreases |events|
  {
    hide Covered, Heeds, Next;
    assert events[..|events|] == events;
    if events != [] {
      var init := events[..|events| - 1];
      RunKeepsCoveredIffHeeding(s, init);
      assert forall n: nat :: n <= |init| ==> events[..n] == init[..n];
      assert init[..|init|] == init;
      if Covered(Run(s, init)) {
        StepKeepsCovered(Run(s, init), events[|events| - 1]);
      }
    }
  }

  /** From the start, a run in which no grace period ends in vain joins no channel without clients or a teardown due. */
  lemma HeedingRunsLeakNoJoin<C>(events: seq<Event<C>>, ch: string)
    requires AllHeed(Fresh<C>(), events)
    ensures
      var t := Run(Fresh<C>(), events);
      ch in t.refs ==> Members(t, ch) != {} || ch in t.grace
  {
    hide Run, AllHeed;
    RunKeepsCoveredIffHeeding(Fresh<C>(), events);
    EveryRunKeepsInv(events);
    var t := Run(Fresh<C>(), events);
    assert events[..|events|] == events;
    assert Covered(t) && CoveredAt(t, ch);
    assert Inv(t);
  }

  /** `n` grace periods of the channel end one after another. */
  function Endings<C>(ch: string, n: nat): seq<Event<C>> {
    seq(n, _ => GraceOver(ch))
  }

  lemma {:induction false} TeardownsPart<C>(s: State<C>, ch: string, n: nat)
    requires Members(s, ch) == {} && n <= s.grace[ch] && Refs(s, ch) >= 0
    ensures
      var t := Run(s, Endings(ch, n));
      Members(t, ch) == {} && t.grace[ch] == s.grace[ch] - n && Refs(t, ch) == Max(0, Refs(s, ch) - n)
  {
    hide TornDown;
    if n > 0 {
      TeardownsPart(s, ch, n - 1);
      assert Endings<C>(ch, n)[..n - 1] == Endings(ch, n - 1);
      GraceEnds(Run(s, Endings(ch, n - 1)), ch);
    }
  }

  /** Once nobody reads a channel, the teardowns due leave it joined if and only if its joins are not covered. */
  lemma UncoveredJoinsStay<C>(s: State<C>, ch: string)
    requires Members(s, ch) == {} && Refs(s, ch) >= 0
    ensures
      var t := Run(s, Endings(ch, s.grace[ch]));
      ch !in t.grace && Members(t, ch) == {} && (Refs(t, ch) > 0 <==> !CoveredAt(s, ch))
  {
    hide Run, Endings;
    TeardownsPart(s, ch, s.grace[ch]);
  }

  /** A grace period that ends in vain: leave, come back, be spared by the teardown and leave again. The channel stays joined. */
  lemma ComingBackLeaksAJoin<C>(a: C, ch: string)
    requires ValidChannel(ch)
    ensures
      var s1 := Unsubscribed(Subscribed(Connected(Fresh<C>(), a), a, ch, Some(0)), a, ch);
      var s2 := TornDown(Subscribed(s1, a, ch, Some(1)), ch);
      var s3 := TornDown(Unsubscribed(s2, a, ch), ch);
      s3.grace == multiset{} && s3.live == map[] && ChannelsOf(s3, a) == {} && Refs(s3, ch) == 1
  {
    hide Subscribed, Unsubscribed, TornDown, ValidChannel;
    var s := Connected(Fresh<C>(), a);
    var s0 := Subscribed(s, a, ch, Some(0));
    var s1 := Unsubscribed(s0, a, ch);
    var s2 := Subscribed(s1, a, ch, Some(1));
    var s3 := TornDown(s2, ch);
    var s4 := Unsubscribed(s3, a, ch);
    EnteringAlone(s, a, ch, 0);
    LeavingAlone(s0, a, ch);
    EnteringAlone(s1, a, ch, 1);
    GraceEnds(s2, ch);
    LeavingAlone(s3, a, ch);
    GraceEnds(s4, ch);
  }

  /** So does a refused subscription whose teardown finds the channel in use, without anybody coming back to a channel it had. */
  lemma RefusedSubscriptionLeaksAJoin<C>(a: C, ch: string)
    requires ValidChannel(ch)
    ensures
      var s1 := Subscribed(Connected(Fresh<C>(), a), a, ch, None);
      var s2 := TornDown(Subscribed(s1, a, ch, Some(0)), ch);
      var s3 := TornDown(Unsubscribed(s2, a, ch), ch);
      s3.grace == multiset{} && s3.live == map[] && ChannelsOf(s3, a) == {} && Refs(s3, ch) == 1
  {
    hide Subscribed, Unsubscribed, TornDown, ValidChannel;
    var s := Connected(Fresh<C>(), a);
    var s1 := Subscribed(s, a, ch, None);
    var s2 := Subscribed(s1, a, ch, Some(0));
    var s3 := TornDown(s2, ch);
    var s4 := Unsubscribed(s3, a, ch);
    RefusedAlone(s, a, ch);
    EnteringAlone(s1, a, ch, 0);
    GraceEnds(s2, ch);
    LeavingAlone(s3, a, ch);
    GraceEnds(s4, ch);
  }

  lemma RefusedAlone<C>(s: State<C>, a: C, ch: string)
    requires ValidChannel(ch) && Members(s, ch) == {}
    ensures
      var t := Subscribed(s, a, ch, None);
      && Members(t, ch) == {} && ChannelsOf(t, a) == ChannelsOf(s, a) - {ch}
      && Refs(t, ch) == Refs(s, ch) + 1 && t.grace == s.grace + multiset{ch}
      && t.unsubs == s.unsubs && t.live == s.live
  {
    hide ValidChannel;
  }

  lemma EnteringAlone<C>(s: State<C>, a: C, ch: string, id: nat)
    requires ValidChannel(ch) && Members(s, ch) == {}
    ensures
      var t := Subscribed(s, a, ch, Some(id));
      && Members(t, ch) == {a} && ChannelsOf(t, a) == ChannelsOf(s, a) + {ch}
      && Refs(t, ch) == Refs(s, ch) + 1 && t.grace == s.grace
      && t.unsubs == s.unsubs[ch := id] && t.live == Ending(s.live[id := ch], s.unsubs, ch)
  {
    hide ValidChannel;
  }

  lemma LeavingAlone<C>(s: State<C>, a: C, ch: string)
    requires ValidChannel(ch) && Members(s, ch) == {a}
    ensures
      var t := Unsubscribed(s, a, ch);
      && Members(t, ch) == {} && ChannelsOf(t, a) == ChannelsOf(s, a) - {ch}
      && t.grace == s.grace + multiset{ch}
      && t.refs == s.refs && t.unsubs == s.unsubs && t.live == s.live
  {
    hide ValidChannel;
  }

  lemma GraceEnds<C>(s: State<C>, ch: string)
    ensures
      var t := TornDown(s, ch);
      && Members(t, ch) == Members(s, ch) && t.channelsOf == s.channelsOf
      && t.grace == s.grace - multiset{ch}
      && Refs(t, ch) == (if Members(s, ch) != {} then Refs(s, ch) else Max(0, Refs(s, ch) - 1))
      && t.unsubs == (if Members(s, ch) != {} then s.unsubs else s.unsubs - {ch})
      && t.live == (if Members(s, ch) != {} then s.live else Ending(s.live, s.unsubs, ch))
  {
    hide Ending;
    if Members(s, ch) == {} {
      ClosedEnds(s.(grace := s.grace - multiset{ch}), ch);
      hide Closed;
    }
  }

  lemma ClosedEnds<C>(s: State<C>, ch: string)
    ensures
      var t := Closed(s, ch);
      && Members(t, ch) == {} && t.channelsOf == s.channelsOf && t.grace == s.grace
      && Refs(t, ch) == Max(0, Refs(s, ch) - 1)
      && t.unsubs == s.unsubs - {ch} && t.live == Ending(s.live, s.unsubs, ch)
  {
    hide Ending;
  }

  // ---------------------------------------------------------------- the hub

  datatype Frame =
    | Data(body: string)
    | Status(channel: string, state: string)
    | Failure(channel: string, message: string)

  class Client {
    const cap: nat
    var channels: set<string>
    var send: seq<Frame>
    ghost var history: seq<QueueEvent<Frame>>

    constructor (cap: nat)
      ensures this.cap == cap && channels == {} && history == [] && Valid()
    {
      this.cap := cap;
      channels, send, history := {}, [], [];
    }

    ghost predicate Valid()
      reads this`send, this`history
    {
      send == LineRun(cap, history).queue
    }

    /** Two attempts to send, with the oldest frame given up in between. */
    method Deliver(data: Frame)
      requires Valid()
      modifies this`send, this`history
      ensures Valid() && history == old(history) + [Delivered(data)]
    {
      ghost var e := Delivered(data);
      assert (history + [e])[..|history|] == history;
      history := history + [e];
      if |send| < cap {
        send := send + [data];
      } else {
        if |send| > 0 {
          send := send[1..];
        }
        if |send| < cap {
          send := send + [data];
        }
      }
    }

    /** What the write loop takes next, if anything waits. */
    method Take() returns (data: Option<Frame>)
      requires Valid()
      modifies this`send, this`history
      ensures Valid() && history == old(history) + [Taken]
      ensures data.None? <==> old(send) == []
      ensures data.Some? ==> LineRun(cap, history).taken == LineRun(cap, old(history)).taken + [data.value]
    {
      assert (history + [Taken])[..|history|] == history;
      history := history + [Taken];
      if send == [] {
        return None;
      }
      data := Some(send[0]);
      send := send[1..];
    }
  }

  /** The IRC pool as the hub sees it. */
  class Joiner {
    var refs: map<string, int>

    method Join(channel: string)
      modifies this
      ensures refs == Joined(old(refs), channel)
    {
      refs := refs[channel := (if channel in refs then refs[channel] else 0) + 1];
    }

    method Part(channel: string)
      modifies this
      ensures refs == Parted(old(refs), channel)
    {
      var n := (if channel in refs then refs[channel] else 0) - 1;
      if n > 0 {
        refs := refs[channel := n];
      } else {
        refs := refs - {channel};
      }
    }
  }

  /** Redis as the hub sees it: reachable or not, and numbering the subscriptions it grants. */
  class Broker {
    var up: bool
    var next: nat
    var live: map<nat, string>

    ghost predicate Valid()
      reads this`live, this`next
    {
      forall id :: id in live ==> id < next
    }

    ghost function Answer(): Option<nat>
      reads this
    {
      if up then Some(next) else None
    }

    method Subscribe(channel: string) returns (sub: Option<nat>)
      requires Valid()
      modifies this`next, this`live
      ensures Valid() && sub == old(Answer())
      ensures live == if sub.Some? then old(live)[sub.value := channel] else old(live)
    {
      if !up {
        return None;
      }
      sub := Some(next);
      live := live[next := channel];
      next := next + 1;
    }

    method Cancel(id: nat)
      requires Valid()
      modifies this`live
      ensures Valid() && live == old(live) - {id}
    {
      live := live - {id};
    }
  }

  /** What a client is told about a subscription. */
  function Replies(first: bool, ch: string, sub: Option<nat>): seq<QueueEvent<Frame>> {
    if !ValidChannel(ch) then [Delivered(Failure(ch, "invalid channel"))]
    else if first && sub.None? then
      [Delivered(Failure(ch, "subscribe failed")), Delivered(Status(ch, "unsubscribed"))]
    else [Delivered(Status(ch, "subscribed"))]
  }

  /** Whoever is told "subscribed" is in the channel, whoever is told anything else is not, and nobody else moves. */
  lemma ToldSubscribedIsMember<C>(s: State<C>, c: C, ch: string, sub: Option<nat>)
    requires Inv(s) && c in s.clients && (sub.Some? ==> sub.value !in s.live)
    ensures
      var told := Replies(Members(s, ch) == {}, ch, sub);
      && (Delivered(Status(ch, "subscribed")) in told <==> c in Members(Subscribed(s, c, ch, sub), ch))
      && (Delivered(Status(ch, "subscribed")) in told <==> told == [Delivered(Status(ch, "subscribed"))])
    ensures forall d, g :: d != c || g != ch ==> (d in Members(Subscribed(s, c, ch, sub), g) <==> d in Members(s, g))
  {
    assert c in Members(s, ch) ==> ValidChannel(ch);
    hide ValidChannel, Subscribed;
    EnteringTakes(s, c, ch, sub, c, ch);
    forall d, g | d != c || g != ch
      ensures d in Members(Subscribed(s, c, ch, sub), g) <==> d in Members(s, g)
    {
      EnteringTakes(s, c, ch, sub, d, g);
    }
  }

  class Hub {
    const joiner: Joiner
    const broker: Broker
    const queueSize: nat
    var clients: set<Client>
    var chanClients: map<string, set<Client>>
    var unsubs: map<string, nat>
    var grace: multiset<string>
    ghost var known: set<Client>

    constructor (joiner: Joiner, broker: Broker, queueSize: nat)
      requires joiner.refs == map[] && broker.live == map[]
      ensures this.joiner == joiner && this.broker == broker && this.queueSize == queueSize
      ensures Known() && View() == Fresh()
    {
      this.joiner, this.broker, this.queueSize := joiner, broker, queueSize;
      clients, chanClients, unsubs, grace, known := {}, map[], map[], multiset{}, {};
    }

    /** What the hub relies on in others: its clients' queues and Redis' numbering. */
    ghost predicate Known()
      reads this`known, known`send, known`history, broker
    {
      (forall c :: c in known ==> c.Valid()) && broker.Valid()
    }

    ghost function Channels(): map<Client, set<string>>
      reads this`known, known`channels
    {
      map c | c in known :: c.channels
    }

    ghost function View(): State<Client>
      reads this, known`channels, joiner, broker
    {
      State(clients, Channels(), chanClients, unsubs, broker.live, joiner.refs, grace)
    }

    method Accept() returns (c: Client)
      requires Known()
      modifies this`clients, this`known
      ensures Known() && fresh(c) && known == old(known) + {c}
      ensures View() == Connected(old(View()), c)
    {
      c := new Client(queueSize);
      clients := clients + {c};
      known := known + {c};
      assert Channels() == old(Channels())[c := {}];
    }

    /** Under the lock: the tables take the client in. */
    method EnterTables(c: Client, channel: string) returns (first: bool)
      requires Known() && c in known
      modifies this`chanClients, c`channels
      ensures Known() && View() == Enter(old(View()), c, channel)
      ensures first <==> Members(old(View()), channel) == {}
    {
      hide LineRun;
      c.channels := c.channels + {channel};
      var others := if channel in chanClients then chanClients[channel] else {};
      first := others == {};
      chanClients := chanClients[channel := others + {c}];
      assert Channels() == old(Channels())[c := c.channels];
    }

    /** Under the lock: the tables let the client go, and the last one out starts a grace period. */
    method LeaveTables(c: Client, channel: string)
      requires Known() && c in known
      modifies this`chanClients, this`grace, c`channels
      ensures Known() && View() == Leave(old(View()), c, channel)
    {
      hide LineRun, Client.Valid, Broker.Valid;
      c.channels := c.channels - {channel};
      assert Channels() == old(Channels())[c := c.channels];
      if channel in chanClients {
        chanClients := chanClients[channel := chanClients[channel] - {c}];
      }
      var remaining := if channel in chanClients then chanClients[channel] else {};
      if remaining == {} {
        grace := grace + multiset{channel};
      }
    }

    /** Ends the subscription the hub holds for the channel, if any. */
    method EndKept(channel: string)
      requires broker.Valid()
      modifies broker`live
      ensures broker.Valid() && broker.live == Ending(old(broker.live), unsubs, channel)
    {
      if channel in unsubs {
        broker.Cancel(unsubs[channel]);
      }
    }

    /** For a channel's first client: join it in IRC and listen to it in Redis. */
    method StartListening(channel: string) returns (listening: bool)
      requires Known()
      modifies this`unsubs, joiner, broker
      ensures Known() && listening == old(broker.Answer()).Some?
      ensures
        var s := old(View()).(refs := Joined(old(joiner.refs), channel));
        View() == if listening then Listen(s, channel, old(broker.Answer()).value) else s
    {
      hide LineRun, Joined, Ending, Client.Valid, Broker.Valid;
      joiner.Join(channel);
      var sub := broker.Subscribe(channel);
      if sub.None? {
        return false;
      }
      EndKept(channel);
      unsubs := unsubs[channel := sub.value];
      return true;
    }

    method Unsubscribe(c: Client, channel: string)
      requires Known() && c in known
      modifies this`chanClients, this`grace, c
      ensures Known() && View() == Unsubscribed(old(View()), c, channel)
      ensures c.history == old(c.history) +
        [Delivered(if ValidChannel(channel) then Status(channel, "unsubscribed") else Failure(channel, "invalid channel"))]
    {
      hide LineRun, ValidChannel, Leave;
      if !ValidChannel(channel) {
        c.Deliver(Failure(channel, "invalid channel"));
        return;
      }
      LeaveTables(c, channel);
      c.Deliver(Status(channel, "unsubscribed"));
    }

    method Subscribe(c: Client, channel: string)
      requires Known() && c in known
      modifies this`chanClients, this`unsubs, this`grace, c, joiner, broker
      ensures Known() && View() == Subscribed(old(View()), c, channel, old(broker.Answer()))
      ensures c.history == old(c.history) +
        Replies(Members(old(View()), channel) == {}, channel, old(broker.Answer()))
    {
      hide LineRun, ValidChannel, Leave, Enter, Joined, Listen, Client.Valid, Broker.Valid;
      if !ValidChannel(channel) {
        c.Deliver(Failure(channel, "invalid channel"));
        return;
      }
      var first := EnterTables(c, channel);
      if first {
        var listening := StartListening(channel);
        if !listening {
          c.Deliver(Failure(channel, "subscribe failed"));
          Unsubscribe(c, channel);
          return;
        }
      }
      c.Deliver(Status(channel, "subscribed"));
    }

    method Close(channel: string)
      requires Known()
      modifies this`chanClients, this`unsubs, joiner, broker
      ensures Known() && View() == Closed(old(View()), channel)
    {
      hide LineRun, Parted, Ending, Client.Valid, Broker.Valid;
      joiner.Part(channel);
      EndKept(channel);
      unsubs := unsubs - {channel};
      chanClients := chanClients - {channel};
    }

    /** What runs when a channel's grace period is over. */
    method Teardown(channel: string)
      requires Known() && channel in grace
      modifies this`chanClients, this`unsubs, this`grace, joiner, broker
      ensures Known() && View() == TornDown(old(View()), channel)
    {
      hide LineRun, Closed, Client.Valid, Broker.Valid;
      grace := grace - multiset{channel};
      var still := if channel in chanClients then chanClients[channel] else {};
      if still == {} {
        Close(channel);
      }
    }

    /** Only channels with valid names are ever entered. */
    method RemoveClient(c: Client)
      requires Known() && c in known && forall ch :: ch in c.channels ==> ValidChannel(ch)
      modifies this`clients, this`chanClients, this`grace, c
      ensures Known() && View() == Disconnected(old(View()), c)
    {
      hide LineRun, ValidChannel, Unsubscribed, LeaveAll;
      ghost var s := View().(clients := clients - {c});
      var channels := c.channels;
      clients := clients - {c};
      LeavingNone(s, c);
      assert channels - channels == {};
      var rest := channels;
      while rest != {}
        invariant Known() && rest <= channels
        invariant View() == LeaveAll(s, c, channels - rest)
      {
        var ch :| ch in rest;
        LeavingOneMore(s, c, channels - rest, ch);
        assert channels - (rest - {ch}) == (channels - rest) + {ch};
        Unsubscribe(c, ch);
        rest := rest - {ch};
      }
      assert channels - rest == channels;
    }

    /** Every client of the channel gets the frame, and nobody else does. */
    method Broadcast(channel: string, data: string)
      requires Known() && Members(View(), channel) <= known
      modifies known
      ensures Known() && View() == old(View())
      ensures forall c :: c in known ==>
        c.history == old(c.history) + if c in Members(View(), channel) then [Delivered(Data(data))] else []
    {
      hide LineRun, ValidChannel;
      var targets := if channel in chanClients then chanClients[channel] else {};
      var rest := targets;
      while rest != {}
        invariant Known() && rest <= targets
        invariant forall c :: c in known ==> c.channels == old(c.channels)
        invariant forall c :: c in known ==>
          c.history == old(c.history) + if c in targets - rest then [Delivered(Data(data))] else []
      {
        var c :| c in rest;
        c.Deliver(Data(data));
        rest := rest - {c};
      }
    }
  }

  lemma LeavingNone<C>(s: State<C>, c: C)
    requires c in s.channelsOf
    ensures LeaveAll(s, c, {}) == s
  {
    assert Emptied(s, c, {}) == {};
    assert ChannelsOf(s, c) - {} == s.channelsOf[c];
    assert LeaveAll(s, c, {}).channelsOf == s.channelsOf;
    assert LeaveAll(s, c, {}).members == s.members;
  }

  lemma LeavingOneMore<C>(s: State<C>, c: C, gone: set<string>, ch: string)
    requires c in s.channelsOf && ch !in gone && ValidChannel(ch)
    ensures Unsubscribed(LeaveAll(s, c, gone), c, ch) == LeaveAll(s, c, gone + {ch})
  {
    hide ValidChannel;
    EmptyingOneMore(s, c, gone, ch);
    MembersLosingOneMore(s, c, gone, ch);
    assert (ChannelsOf(s, c) - gone) - {ch} == ChannelsOf(s, c) - (gone + {ch});
    hide Emptied, Members;
  }

  lemma MembersLosingOneMore<C>(s: State<C>, c: C, gone: set<string>, ch: string)
    requires ch !in gone
    ensures Members(LeaveAll(s, c, gone), ch) == Members(s, ch)
    ensures Leave(LeaveAll(s, c, gone), c, ch).members == LeaveAll(s, c, gone + {ch}).members
  {
    hide Emptied;
  }

  lemma EmptyingOneMore<C>(s: State<C>, c: C, gone: set<string>, ch: string)
    requires ch !in gone
    ensures multiset(Emptied(s, c, gone + {ch})) ==
      multiset(Emptied(s, c, gone)) + if Members(s, ch) - {c} == {} then multiset{ch} else multiset{}
  {
    var more := if Members(s, ch) - {c} == {} then {ch} else {};
    assert Emptied(s, c, gone + {ch}) == Emptied(s, c, gone) + more;
  }
}
