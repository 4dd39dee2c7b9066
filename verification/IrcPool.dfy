/** The pool of IRC sockets: which channel is read on which socket. */
module IrcPool {
  import opened Sequences
  import opened Text

  /** `C` stands for sockets. `channels` knows every socket ever dialled, `conns` those in use. */
  datatype Pool<C(==)> = Pool(
    conns: seq<C>, channels: map<C, set<string>>, owner: map<string, C>, subs: map<string, int>)

  function Count<C>(p: Pool<C>, ch: string): int {
    if ch in p.subs then p.subs[ch] else 0
  }

  function ChannelsOf<C>(p: Pool<C>, c: C): set<string> {
    if c in p.channels then p.channels[c] else {}
  }

  // ---------------------------------------------------------------- the sections under the lock

  /** The first socket with room. */
  function Pick<C>(p: Pool<C>, max: int, k: nat): Option<C>
    requires k <= |p.conns|
    decreases |p.conns| - k
  {
    if k == |p.conns| then None
    else if |ChannelsOf(p, p.conns[k])| < max then Some(p.conns[k])
    else Pick(p, max, k + 1)
  }

  function Place<C>(p: Pool<C>, ch: string, c: C): (r: Pool<C>)
    ensures r.subs == p.subs && r.conns == p.conns
  {
    p.(channels := p.channels[c := ChannelsOf(p, c) + {ch}], owner := p.owner[ch := c])
  }

  datatype JoinResult<C> = AlreadyJoined | Placed(conn: C) | MustDial

  function Subscribe<C>(p: Pool<C>, ch: string): Pool<C> {
    p.(subs := p.subs[ch := Count(p, ch) + 1])
  }

  function JoinStart<C>(p: Pool<C>, max: int, ch: string): (Pool<C>, JoinResult<C>) {
    var p1 := Subscribe(p, ch);
    if Count(p, ch) + 1 > 1 then (p1, AlreadyJoined)
    else match Pick(p1, max, 0)
      case Some(c) => (Place(p1, ch, c), Placed(c))
      case None => (p1, MustDial)
  }

  function JoinDialFailed<C>(p: Pool<C>, ch: string): Pool<C> {
    var n := Count(p, ch) - 1;
    p.(subs := if n <= 0 then p.subs - {ch} else p.subs[ch := n])
  }

  function Add<C>(p: Pool<C>, c: C): Pool<C> {
    p.(conns := p.conns + [c], channels := p.channels[c := {}])
  }

  function JoinAttach<C>(p: Pool<C>, ch: string, c: C): Pool<C> {
    Place(Add(p, c), ch, c)
  }

  function PartStep<C>(p: Pool<C>, ch: string): Pool<C> {
    var n := Count(p, ch) - 1;
    if n > 0 then p.(subs := p.subs[ch := n])
    else
      var p1 := p.(subs := p.subs - {ch});
      if ch !in p.owner then p1
      else
        var c := p.owner[ch];
        p1.(channels := p.channels[c := ChannelsOf(p, c) - {ch}], owner := p.owner - {ch})
  }

  function Without<C(==)>(conns: seq<C>, dead: C): (r: seq<C>)
    ensures forall c :: c in r ==> c in conns
    ensures forall c :: c in conns && c != dead ==> c in r
  {
    if conns == [] then []
    else if conns[0] == dead then conns[1..]
    else [conns[0]] + Without(conns[1..], dead)
  }

  function Detach<C(==)>(p: Pool<C>, dead: C): Pool<C> {
    p.(conns := Without(p.conns, dead), owner := p.owner - ChannelsOf(p, dead))
  }

  /** Of the channels waiting for a new socket, those somebody still wants. */
  function Wanted<C>(p: Pool<C>, waiting: set<string>): set<string> {
    set ch | ch in waiting && Count(p, ch) > 0
  }

  function ReconnectAttach<C>(p: Pool<C>, waiting: set<string>, c: C): Pool<C> {
    var wanted := Wanted(p, waiting);
    var p1 := Add(p, c);
    p1.(channels := p1.channels[c := wanted], owner := p.owner + map ch | ch in wanted :: c)
  }

  // ---------------------------------------------------------------- what every interleaving keeps

  /** A channel's socket is in use and knows the channel; no socket holds more than `max` channels. */
  ghost predicate Mapped<C>(p: Pool<C>, max: int) {
    && (forall c :: c in p.conns ==> c in p.channels)
    && (forall i, j :: 0 <= i < j < |p.conns| ==> p.conns[i] != p.conns[j])
    && (forall ch :: ch in p.owner ==> p.owner[ch] in p.conns && ch in p.channels[p.owner[ch]])
    && (forall c :: c in p.channels ==> |p.channels[c]| <= max)
  }

  lemma {:induction false} PickHasRoom<C>(p: Pool<C>, max: int, k: nat)
    requires k <= |p.conns|
    ensures match Pick(p, max, k)
            case Some(c) => c in p.conns && |ChannelsOf(p, c)| < max
            case None => forall i :: k <= i < |p.conns| ==> |ChannelsOf(p, p.conns[i])| >= max
    decreases |p.conns| - k
  {
    if k < |p.conns| {
      PickHasRoom(p, max, k + 1);
    }
  }

  lemma JoinKeepsMapped<C>(p: Pool<C>, max: int, ch: string)
    requires Mapped(p, max)
    ensures Mapped(JoinStart(p, max, ch).0, max)
  {
    PickHasRoom(p.(subs := p.subs[ch := Count(p, ch) + 1]), max, 0);
  }

  lemma AttachKeepsMapped<C>(p: Pool<C>, max: int, ch: string, c: C)
    requires Mapped(p, max) && max >= 1 && c !in p.channels
    ensures Mapped(JoinAttach(p, ch, c), max)
  {
  }

  lemma PartKeepsMapped<C>(p: Pool<C>, max: int, ch: string)
    requires Mapped(p, max)
    ensures Mapped(PartStep(p, ch), max)
  {
    if ch in p.owner {
      var c := p.owner[ch];
      assert |p.channels[c] - {ch}| <= |p.channels[c]| by {
        assert p.channels[c] == (p.channels[c] - {ch}) + {ch};
      }
    }
  }

  lemma {:induction false} WithoutIsDistinct<C>(conns: seq<C>, dead: C)
    requires forall i, j :: 0 <= i < j < |conns| ==> conns[i] != conns[j]
    ensures forall i, j :: 0 <= i < j < |Without(conns, dead)| ==> Without(conns, dead)[i] != Without(conns, dead)[j]
    ensures dead !in Without(conns, dead)
  {
    if conns != [] {
      WithoutIsDistinct(conns[1..], dead);
      assert conns[0] !in conns[1..];
    }
  }

  lemma DetachKeepsMapped<C>(p: Pool<C>, max: int, dead: C)
    requires Mapped(p, max) && dead in p.channels
    ensures Mapped(Detach(p, dead), max)
  {
    WithoutIsDistinct(p.conns, dead);
  }

  lemma ReconnectKeepsMapped<C>(p: Pool<C>, max: int, waiting: set<string>, c: C)
    requires Mapped(p, max) && c !in p.channels && |waiting| <= max
    ensures Mapped(ReconnectAttach(p, waiting, c), max)
  {
    WantedIsSmaller(p, waiting);
  }

  lemma WantedIsSmaller<C>(p: Pool<C>, waiting: set<string>)
    ensures Wanted(p, waiting) <= waiting && |Wanted(p, waiting)| <= |waiting|
  {
    assert waiting == Wanted(p, waiting) + (waiting - Wanted(p, waiting));
  }

  /**
   All threads together: joins waiting for their socket, and reconnects waiting
   for theirs with the channels they carry over.
   */
  datatype Sys<C(==)> = Sys(pool: Pool<C>, joining: seq<string>, waiting: seq<set<string>>)

  datatype Event<C> =
    | Join(ch: string)
    | Dialled(k: nat, conn: C)
    | DialGaveUp(k: nat)
    | Part(ch: string)
    | Broke(conn: C)
    | Recheck(k: nat)
    | Redialled(k: nat, conn: C)
    | GaveUp(k: nat)

  /** What can happen next: a dial brings a socket never seen before, and only a dialled socket breaks. */
  predicate Enabled<C>(s: Sys<C>, e: Event<C>) {
    match e
    case Join(_) => true
    case Dialled(k, c) => k < |s.joining| && c !in s.pool.channels
    case DialGaveUp(k) => k < |s.joining|
    case Part(_) => true
    case Broke(c) => c in s.pool.channels
    case Recheck(k) => k < |s.waiting|
    case Redialled(k, c) => k < |s.waiting| && c !in s.pool.channels
    case GaveUp(k) => k < |s.waiting|
  }

  function Next<C>(s: Sys<C>, max: int, e: Event<C>): Sys<C> {
    if !Enabled(s, e) then s
    else match e
      case Join(ch) =>
        var r := JoinStart(s.pool, max, ch);
        s.(pool := r.0, joining := if r.1.MustDial? then s.joining + [ch] else s.joining)
      case Dialled(k, c) => s.(pool := JoinAttach(s.pool, s.joining[k], c), joining := Drop(s.joining, k))
      case DialGaveUp(k) => s.(pool := JoinDialFailed(s.pool, s.joining[k]), joining := Drop(s.joining, k))
      case Part(ch) => s.(pool := PartStep(s.pool, ch))
      case Broke(c) => s.(pool := Detach(s.pool, c), waiting := s.waiting + [ChannelsOf(s.pool, c)])
      case Recheck(k) => s.(waiting := s.waiting[k := Wanted(s.pool, s.waiting[k])])
      case Redialled(k, c) => s.(pool := ReconnectAttach(s.pool, s.waiting[k], c), waiting := Drop(s.waiting, k))
      case GaveUp(k) => s.(waiting := Drop(s.waiting, k))
  }

  /** The locked sections, in whatever way they interleave. */
  function Run<C>(s: Sys<C>, max: int, events: seq<Event<C>>): Sys<C> {
    if events == [] then s else Next(Run(s, max, events[..|events| - 1]), max, events[|events| - 1])
  }

  ghost predicate Inv<C>(s: Sys<C>, max: int) {
    Mapped(s.pool, max) && forall k :: 0 <= k < |s.waiting| ==> |s.waiting[k]| <= max
  }

  lemma NextKeepsInv<C>(s: Sys<C>, max: int, e: Event<C>)
    requires Inv(s, max) && max >= 1
    ensures Inv(Next(s, max, e), max)
  {
    if !Enabled(s, e) {
      return;
    }
    match e
    case Join(ch) => JoinKeepsMapped(s.pool, max, ch);
    case Dialled(k, c) => AttachKeepsMapped(s.pool, max, s.joining[k], c);
    case DialGaveUp(k) =>
    case Part(ch) => PartKeepsMapped(s.pool, max, ch);
    case Broke(c) => DetachKeepsMapped(s.pool, max, c);
    case Recheck(k) => WantedIsSmaller(s.pool, s.waiting[k]);
    case Redialled(k, c) => ReconnectKeepsMapped(s.pool, max, s.waiting[k], c);
    case GaveUp(k) =>
  }

  /** In every interleaving of the locked sections the pool stays mapped and within its limits. */
  lemma {:induction false} EveryRunIsMapped<C>(s: Sys<C>, max: int, events: seq<Event<C>>)
    requires Inv(s, max) && max >= 1
    ensures Inv(Run(s, max, events), max)
  {
    hide Inv, Next;
    if events != [] {
      EveryRunIsMapped(s, max, events[..|events| - 1]);
      NextKeepsInv(Run(s, max, events[..|events| - 1]), max, events[|events| - 1]);
    }
  }

  /** Without room for a single channel the very first join breaks the limit. */
  lemma LimitNeedsRoom<C>(p: Pool<C>, max: int, ch: string, c: C)
    requires Mapped(p, max) && c !in p.channels
    ensures Mapped(JoinAttach(p, ch, c), max) <==> max >= 1
  {
    if max >= 1 {
      AttachKeepsMapped(p, max, ch, c);
    }
    assert JoinAttach(p, ch, c).channels[c] == {ch};
  }

  // ---------------------------------------------------------------- whole operations, one at a time

  ghost predicate OwnerIs<C>(p: Pool<C>, ch: string, c: C) {
    ch in p.owner && p.owner[ch] == c
  }

  /** A channel has subscribers exactly when it is placed or in `unplaced`; a placed channel sits on its socket only. */
  ghost predicate ExactBut<C>(p: Pool<C>, unplaced: set<string>) {
    && (forall ch :: ch in p.subs <==> ch in p.owner || ch in unplaced)
    && (forall ch :: ch in unplaced ==> ch !in p.owner)
    && (forall ch :: ch in p.subs ==> p.subs[ch] > 0)
    && (forall c, ch :: c in p.conns && ch in ChannelsOf(p, c) ==> ch in p.owner && p.owner[ch] == c)
  }

  ghost predicate Exact<C>(p: Pool<C>) {
    ExactBut(p, {})
  }

  lemma PlaceIsExact<C>(p: Pool<C>, ch: string, c: C)
    requires ExactBut(p, {ch}) && c in p.conns
    ensures Exact(Place(p, ch, c))
  {
  }

  lemma AddIsExact<C>(p: Pool<C>, unplaced: set<string>, c: C)
    requires ExactBut(p, unplaced) && c !in p.channels && forall c :: c in p.conns ==> c in p.channels
    ensures ExactBut(Add(p, c), unplaced) && c in Add(p, c).conns
  {
  }

  lemma DetachIsExactBut<C>(p: Pool<C>, dead: C)
    requires Exact(p) && dead in p.conns && dead !in Without(p.conns, dead)
    ensures ExactBut(Detach(p, dead), ChannelsOf(p, dead))
  {
    var p', waiting := Detach(p, dead), ChannelsOf(p, dead);
    forall c, ch | c in p'.conns && ch in ChannelsOf(p', c)
      ensures ch in p'.owner && p'.owner[ch] == c
    {
      assert c in p.conns && ch in ChannelsOf(p, c);
      assert ch in waiting ==> OwnerIs(p, ch, dead);
    }
    forall ch
      ensures ch in p'.subs <==> ch in p'.owner || ch in waiting
    {
      assert ch in p.subs <==> ch in p.owner;
    }
  }

  lemma ReattachIsExact<C>(p: Pool<C>, waiting: set<string>, c: C)
    requires ExactBut(p, waiting) && c !in p.channels && forall c :: c in p.conns ==> c in p.channels
    ensures Wanted(p, waiting) == waiting && Exact(ReconnectAttach(p, waiting, c))
  {
    assert forall ch :: ch in waiting ==> ch in p.subs;
    assert Wanted(p, waiting) == waiting;
  }

  function WholeJoin<C>(p: Pool<C>, max: int, ch: string, c: C): Pool<C> {
    var r := JoinStart(p, max, ch);
    if r.1.MustDial? then JoinAttach(r.0, ch, c) else r.0
  }

  function WholeReconnect<C>(p: Pool<C>, dead: C, c: C): Pool<C> {
    var p1 := Detach(p, dead);
    if Wanted(p1, ChannelsOf(p, dead)) == {} then p1 else ReconnectAttach(p1, ChannelsOf(p, dead), c)
  }

  lemma SubscribeIsExact<C>(p: Pool<C>, ch: string)
    requires Exact(p)
    ensures ExactBut(Subscribe(p, ch), if Count(p, ch) == 0 then {ch} else {})
    ensures Count(p, ch) >= 0
  {
  }

  lemma SubscribeIsMapped<C>(p: Pool<C>, max: int, ch: string)
    requires Mapped(p, max)
    ensures Mapped(Subscribe(p, ch), max) && forall c :: c in Subscribe(p, ch).conns ==> c in p.channels
  {
  }

  /** Joins, parts and reconnects that are not interleaved keep every channel where it belongs, and count right. */
  lemma WholeJoinIsExact<C>(p: Pool<C>, max: int, ch: string, c: C)
    requires Mapped(p, max) && Exact(p) && max >= 1 && c !in p.channels
    ensures Mapped(WholeJoin(p, max, ch, c), max) && Exact(WholeJoin(p, max, ch, c))
    ensures Count(WholeJoin(p, max, ch, c), ch) == Count(p, ch) + 1
  {
    hide Place, Pick, ExactBut, Mapped;
    JoinKeepsMapped(p, max, ch);
    SubscribeIsExact(p, ch);
    SubscribeIsMapped(p, max, ch);
    var p1 := Subscribe(p, ch);
    if Count(p, ch) == 0 {
      PickHasRoom(p1, max, 0);
      match Pick(p1, max, 0)
      case Some(picked) =>
        PlaceIsExact(p1, ch, picked);
      case None =>
        AttachKeepsMapped(p1, max, ch, c);
        AddIsExact(p1, {ch}, c);
        PlaceIsExact(Add(p1, c), ch, c);
    }
  }

  lemma LastPartIsExact<C>(p: Pool<C>, ch: string)
    requires Exact(p) && Count(p, ch) <= 1
    ensures Exact(PartStep(p, ch))
  {
    assert ch in p.subs ==> p.subs[ch] == 1;
    assert ch !in PartStep(p, ch).subs && ch !in PartStep(p, ch).owner;
  }

  lemma PartIsExact<C>(p: Pool<C>, max: int, ch: string)
    requires Mapped(p, max) && Exact(p)
    ensures Mapped(PartStep(p, ch), max) && Exact(PartStep(p, ch))
    ensures Count(PartStep(p, ch), ch) == if Count(p, ch) > 0 then Count(p, ch) - 1 else 0
  {
    PartKeepsMapped(p, max, ch);
    hide Mapped;
    if Count(p, ch) <= 1 {
      LastPartIsExact(p, ch);
      hide ExactBut;
    }
  }

  lemma WholeReconnectIsExact<C>(p: Pool<C>, max: int, dead: C, c: C)
    requires Mapped(p, max) && Exact(p) && dead in p.conns && c !in p.channels
    ensures Mapped(WholeReconnect(p, dead, c), max) && Exact(WholeReconnect(p, dead, c))
    ensures WholeReconnect(p, dead, c).subs == p.subs
  {
    hide Detach, Wanted, ReconnectAttach, ExactBut, Exact;
    DetachLeaves(p, dead);
    DetachKeepsMapped(p, max, dead);
    DeadIsGone(p, max, dead);
    DetachIsExactBut(p, dead);
    ReattachIsExact(Detach(p, dead), ChannelsOf(p, dead), c);
    ReconnectKeepsMapped(Detach(p, dead), max, ChannelsOf(p, dead), c);
    ReconnectLeaves(Detach(p, dead), ChannelsOf(p, dead), c);
    NothingUnplaced(Detach(p, dead));
  }

  lemma DeadIsGone<C>(p: Pool<C>, max: int, dead: C)
    requires Mapped(p, max)
    ensures dead !in Without(p.conns, dead)
  {
    WithoutIsDistinct(p.conns, dead);
  }

  lemma DetachLeaves<C>(p: Pool<C>, dead: C)
    ensures Detach(p, dead).channels == p.channels && Detach(p, dead).subs == p.subs
  {
  }

  lemma ReconnectLeaves<C>(p: Pool<C>, waiting: set<string>, c: C)
    ensures ReconnectAttach(p, waiting, c).subs == p.subs
  {
  }

  lemma NothingUnplaced<C>(p: Pool<C>)
    ensures Exact(p) <==> ExactBut(p, {})
  {
  }

  /** Exactly one socket in use reads a channel with subscribers, and none reads any other. */
  lemma ExactMeansOnePlace<C>(p: Pool<C>, max: int, ch: string)
    requires Mapped(p, max) && Exact(p)
    ensures Count(p, ch) > 0 <==> exists c :: c in p.conns && ch in p.channels[c]
    ensures forall c, c' :: c in p.conns && c' in p.conns && ch in p.channels[c] && ch in p.channels[c'] ==> c == c'
  {
    if Count(p, ch) > 0 {
      assert p.owner[ch] in p.conns;
    }
  }

  // ---------------------------------------------------------------- when a channel has one place at most

  /** No channel is on two sockets in use. */
  ghost predicate OnePlace<C>(p: Pool<C>) {
    forall c, c', ch :: c in p.conns && c' in p.conns && ch in ChannelsOf(p, c) && ch in ChannelsOf(p, c') ==> c == c'
  }

  /** Some socket in use reads the channel. */
  ghost predicate Sits<C>(p: Pool<C>, ch: string) {
    exists c :: c in p.conns && ch in ChannelsOf(p, c)
  }

  ghost predicate SitsOnlyOn<C>(p: Pool<C>, ch: string, c: C) {
    forall c' :: c' in p.conns && ch in ChannelsOf(p, c') ==> c' == c
  }

  /** A dialled socket may take the channel exactly when no socket in use reads it. */
  lemma AttachKeepsOnePlace<C>(p: Pool<C>, ch: string, c: C)
    requires OnePlace(p) && c !in p.conns
    ensures OnePlace(JoinAttach(p, ch, c)) <==> !Sits(p, ch)
  {
    var t := JoinAttach(p, ch, c);
    assert c in t.conns && ChannelsOf(t, c) == {ch};
    assert forall d :: d in p.conns ==> d in t.conns && ChannelsOf(t, d) == ChannelsOf(p, d);
    if Sits(p, ch) {
      var d :| d in p.conns && ch in ChannelsOf(p, d);
      assert d in t.conns && ch in ChannelsOf(t, d) && ch in ChannelsOf(t, c);
    }
  }

  /** A redialled socket may take over exactly when no channel still wanted is read by a socket in use. */
  lemma ReconnectKeepsOnePlace<C>(p: Pool<C>, waiting: set<string>, c: C)
    requires OnePlace(p) && c !in p.conns
    ensures OnePlace(ReconnectAttach(p, waiting, c)) <==> forall ch :: ch in Wanted(p, waiting) ==> !Sits(p, ch)
  {
    hide Wanted;
    var t := ReconnectAttach(p, waiting, c);
    assert c in t.conns && ChannelsOf(t, c) == Wanted(p, waiting);
    assert forall d :: d in p.conns ==> d in t.conns && ChannelsOf(t, d) == ChannelsOf(p, d);
    if ch :| ch in Wanted(p, waiting) && Sits(p, ch) {
      var d :| d in p.conns && ch in ChannelsOf(p, d);
      assert d in t.conns && ch in ChannelsOf(t, d) && ch in ChannelsOf(t, c);
    }
  }

  /** Placing on a socket in use is right exactly when no other socket in use reads the channel. */
  lemma PlaceKeepsOnePlace<C>(p: Pool<C>, ch: string, c: C)
    requires OnePlace(p) && c in p.conns
    ensures OnePlace(Place(p, ch, c)) <==> SitsOnlyOn(p, ch, c)
  {
    var t := Place(p, ch, c);
    assert ch in ChannelsOf(t, c);
    assert forall d :: d in p.conns && d != c ==> ChannelsOf(t, d) == ChannelsOf(p, d);
  }

  /** What a step has to heed for no channel to get a second place. */
  ghost predicate Heeds<C>(s: Sys<C>, max: int, e: Event<C>) {
    Enabled(s, e) ==>
      match e
      case Join(ch) =>
        var r := JoinStart(s.pool, max, ch).1;
        r.Placed? ==> SitsOnlyOn(s.pool, ch, r.conn)
      case Dialled(k, _) => !Sits(s.pool, s.joining[k])
      case Redialled(k, _) => forall ch :: ch in Wanted(s.pool, s.waiting[k]) ==> !Sits(s.pool, ch)
      case _ => true
  }

  lemma SamePlaces<C>(p: Pool<C>, t: Pool<C>)
    requires p.conns == t.conns && p.channels == t.channels
    ensures OnePlace(p) <==> OnePlace(t)
    ensures forall ch, c :: c in p.conns ==> (SitsOnlyOn(p, ch, c) <==> SitsOnlyOn(t, ch, c))
  {
    assert forall c :: c in p.conns ==> ChannelsOf(p, c) == ChannelsOf(t, c);
  }

  lemma JoinKeepsOnePlace<C>(p: Pool<C>, max: int, ch: string)
    requires OnePlace(p)
    ensures
      var r := JoinStart(p, max, ch);
      OnePlace(r.0) <==> (r.1.Placed? ==> SitsOnlyOn(p, ch, r.1.conn))
  {
    hide OnePlace, SitsOnlyOn, Place, Pick;
    var p1 := Subscribe(p, ch);
    SamePlaces(p, p1);
    PickHasRoom(p1, max, 0);
    if Pick(p1, max, 0).Some? {
      PlaceKeepsOnePlace(p1, ch, Pick(p1, max, 0).value);
    }
  }

  lemma PartKeepsOnePlace<C>(p: Pool<C>, ch: string)
    requires OnePlace(p)
    ensures OnePlace(PartStep(p, ch))
  {
    var t := PartStep(p, ch);
    assert t.conns == p.conns;
    assert forall c :: c in p.conns ==> ChannelsOf(t, c) <= ChannelsOf(p, c);
  }

  lemma DetachKeepsOnePlace<C>(p: Pool<C>, dead: C)
    requires OnePlace(p)
    ensures OnePlace(Detach(p, dead))
  {
    DetachLeaves(p, dead);
    assert forall c :: c in Detach(p, dead).conns ==> c in p.conns && ChannelsOf(Detach(p, dead), c) == ChannelsOf(p, c);
  }

  ghost predicate ConnsKnown<C>(p: Pool<C>) {
    forall c :: c in p.conns ==> c in p.channels
  }

  /** A step gives no channel a second place if and only if it heeds what is in place. */
  lemma StepKeepsOnePlace<C>(s: Sys<C>, max: int, e: Event<C>)
    requires OnePlace(s.pool) && ConnsKnown(s.pool)
    ensures OnePlace(Next(s, max, e).pool) <==> Heeds(s, max, e)
  {
    hide OnePlace, Sits, SitsOnlyOn, JoinStart, JoinAttach, ReconnectAttach, PartStep, Detach, Wanted;
    if Enabled(s, e) {
      match e
      case Join(ch) => JoinKeepsOnePlace(s.pool, max, ch);
      case Dialled(k, c) => AttachKeepsOnePlace(s.pool, s.joining[k], c);
      case DialGaveUp(k) => SamePlaces(s.pool, JoinDialFailed(s.pool, s.joining[k]));
      case Part(ch) => PartKeepsOnePlace(s.pool, ch);
      case Broke(c) => DetachKeepsOnePlace(s.pool, c);
      case Recheck(_) =>
      case Redialled(k, c) => ReconnectKeepsOnePlace(s.pool, s.waiting[k], c);
      case GaveUp(_) =>
    }
  }

  lemma StepKeepsConnsKnown<C>(s: Sys<C>, max: int, e: Event<C>)
    requires ConnsKnown(s.pool)
    ensures ConnsKnown(Next(s, max, e).pool)
  {
    hide Pick, Wanted;
  }

  ghost predicate AllHeed<C>(s: Sys<C>, max: int, events: seq<Event<C>>) {
    events == [] || (
      var init := events[..|events| - 1];
      AllHeed(s, max, init) && Heeds(Run(s, max, init), max, events[|events| - 1]))
  }

  lemma {:induction false} RunKeepsConnsKnown<C>(s: Sys<C>, max: int, events: seq<Event<C>>)
    requires ConnsKnown(s.pool)
    ensures ConnsKnown(Run(s, max, events).pool)
  {
    hide ConnsKnown, Next;
    if events != [] {
      RunKeepsConnsKnown(s, max, events[..|events| - 1]);
      StepKeepsConnsKnown(Run(s, max, events[..|events| - 1]), max, events[|events| - 1]);
    }
  }

  /** In a run no channel ever has two places if and only if every step heeds what is in place. */
  lemma {:induction false} RunKeepsOnePlaceIffHeeding<C>(s: Sys<C>, max: int, events: seq<Event<C>>)
    requires OnePlace(s.pool) && ConnsKnown(s.pool)
    ensures (forall n: nat :: n <= |events| ==> OnePlace(Run(s, max, events[..n]).pool)) <==> AllHeed(s, max, events)
    decreases |events|
  {
    hide OnePlace, ConnsKnown, Heeds, Next;
    assert events[..|events|] == events;
    if events != [] {
      var init := events[..|events| - 1];
      RunKeepsOnePlaceIffHeeding(s, max, init);
      RunKeepsConnsKnown(s, max, init);
      assert forall n: nat :: n <= |init| ==> events[..n] == init[..n];
      assert init[..|init|] == init;
      if OnePlace(Run(s, max, init).pool) {
        StepKeepsOnePlace(Run(s, max, init), max, events[|events| - 1]);
      }
    }
  }

  // ---------------------------------------------------------------- when the channels read are the channels wanted

  /** A socket is known to read the channel, is being dialled for it, or will take it over. */
  ghost predicate CaredFor<C>(s: Sys<C>, ch: string) {
    ch in s.pool.owner || ch in s.joining || Waits(s.waiting, ch)
  }

  ghost predicate Waits(waiting: seq<set<string>>, ch: string) {
    exists k :: 0 <= k < |waiting| && ch in waiting[k]
  }

  ghost predicate Attended<C>(s: Sys<C>) {
    forall ch :: Count(s.pool, ch) > 0 ==> CaredFor(s, ch)
  }

  /** No socket in use reads a channel nobody wants. */
  ghost predicate NoneIdle<C>(p: Pool<C>) {
    forall c, ch :: c in p.conns && ch in ChannelsOf(p, c) ==> Count(p, ch) > 0
  }

  ghost predicate Counted<C>(p: Pool<C>) {
    forall ch :: ch in p.subs ==> p.subs[ch] > 0
  }

  /** What a step has to heed for no subscriber to be forgotten: whoever gives up is the last one to want the channel, or not alone. */
  ghost predicate HeedsSubscribers<C>(s: Sys<C>, e: Event<C>) {
    Enabled(s, e) ==>
      match e
      case DialGaveUp(k) => Count(s.pool, s.joining[k]) > 1 ==> CaredFor(s.(joining := Drop(s.joining, k)), s.joining[k])
      case GaveUp(k) => forall ch :: ch in Wanted(s.pool, s.waiting[k]) ==> CaredFor(s.(waiting := Drop(s.waiting, k)), ch)
      case _ => true
  }

  /** What a step has to heed for no channel to be read in vain: dials end while wanted, and the last to leave leaves no reader behind. */
  ghost predicate HeedsReaders<C>(s: Sys<C>, e: Event<C>) {
    Enabled(s, e) ==>
      match e
      case Dialled(k, _) => Count(s.pool, s.joining[k]) > 0
      case DialGaveUp(k) => Count(s.pool, s.joining[k]) <= 1 ==> !Sits(s.pool, s.joining[k])
      case Part(ch) =>
        Count(s.pool, ch) <= 1 ==>
          if ch in s.pool.owner then SitsOnlyOn(s.pool, ch, s.pool.owner[ch]) else !Sits(s.pool, ch)
      case _ => true
  }

  lemma StepKeepsCounted<C>(s: Sys<C>, max: int, e: Event<C>)
    requires Counted(s.pool)
    ensures Counted(Next(s, max, e).pool)
  {
    hide Pick, Wanted;
  }

  lemma WaitsElsewhere(waiting: seq<set<string>>, k: nat, ch: string)
    requires k < |waiting|
    ensures Waits(waiting, ch) <==> ch in waiting[k] || Waits(Drop(waiting, k), ch)
  {
    var rest := Drop(waiting, k);
    if j :| 0 <= j < |waiting| && ch in waiting[j] && j != k {
      assert rest[if j < k then j else j - 1] == waiting[j];
    }
    if j :| 0 <= j < |rest| && ch in rest[j] {
      assert rest[j] == waiting[if j < k then j else j + 1];
    }
  }

  lemma JoinsElsewhere(joining: seq<string>, k: nat, ch: string)
    requires k < |joining|
    ensures ch in joining <==> ch == joining[k] || ch in Drop(joining, k)
  {
  }

  /** Whoever was cared for still is, and so are those who only now have subscribers. */
  lemma StaysAttended<C>(s: Sys<C>, t: Sys<C>)
    requires Attended(s)
    requires forall ch :: Count(t.pool, ch) > 0 ==> CaredFor(t, ch) || (Count(s.pool, ch) > 0 && (CaredFor(s, ch) ==> CaredFor(t, ch)))
    ensures Attended(t)
  {
  }

  lemma JoinKeepsAttended<C>(s: Sys<C>, max: int, ch: string)
    requires Attended(s)
    ensures Attended(Next(s, max, Join(ch)))
  {
    hide Pick, Attended, Waits;
    var t := Next(s, max, Join(ch));
    StaysAttended(s, t);
  }

  lemma DialledKeepsAttended<C>(s: Sys<C>, max: int, k: nat, c: C)
    requires Attended(s) && Enabled(s, Dialled(k, c))
    ensures Attended(Next(s, max, Dialled(k, c)))
  {
    hide Attended, Waits, Drop;
    var t := Next(s, max, Dialled(k, c));
    forall ch | ch in s.joining
      ensures CaredFor(t, ch)
    {
      JoinsElsewhere(s.joining, k, ch);
    }
    StaysAttended(s, t);
  }

  lemma DialGaveUpKeepsAttended<C>(s: Sys<C>, max: int, k: nat)
    requires Attended(s) && k < |s.joining|
    ensures Attended(Next(s, max, DialGaveUp(k))) <==> HeedsSubscribers(s, DialGaveUp(k))
  {
    hide Waits, Drop;
    var t := Next(s, max, DialGaveUp(k));
    var ch := s.joining[k];
    assert Count(t.pool, ch) == if Count(s.pool, ch) > 1 then Count(s.pool, ch) - 1 else 0;
    assert CaredFor(t, ch) <==> CaredFor(s.(joining := Drop(s.joining, k)), ch);
    forall g | g != ch && Count(t.pool, g) > 0
      ensures CaredFor(t, g)
    {
      JoinsElsewhere(s.joining, k, g);
      assert Count(s.pool, g) > 0 && CaredFor(s, g);
    }
  }

  lemma PartKeepsAttended<C>(s: Sys<C>, max: int, ch: string)
    requires Attended(s)
    ensures Attended(Next(s, max, Part(ch)))
  {
    hide Attended, Waits;
    StaysAttended(s, Next(s, max, Part(ch)));
  }

  lemma BrokeKeepsAttended<C>(s: Sys<C>, max: int, c: C)
    requires Attended(s) && Enabled(s, Broke(c))
    ensures Attended(Next(s, max, Broke(c)))
  {
    hide Attended, Waits, Without;
    var t := Next(s, max, Broke(c));
    forall ch
      ensures Waits(t.waiting, ch) <==> ch in ChannelsOf(s.pool, c) || Waits(s.waiting, ch)
    {
      WaitsElsewhere(t.waiting, |s.waiting|, ch);
      assert Drop(t.waiting, |s.waiting|) == s.waiting;
    }
    StaysAttended(s, t);
  }

  lemma RecheckKeepsAttended<C>(s: Sys<C>, max: int, k: nat)
    requires Attended(s) && k < |s.waiting|
    ensures Attended(Next(s, max, Recheck(k)))
  {
    hide Attended, Waits, Drop;
    var t := Next(s, max, Recheck(k));
    assert Drop(t.waiting, k) == Drop(s.waiting, k) by { SameDropped(s.waiting, k, Wanted(s.pool, s.waiting[k])); }
    forall ch
      ensures Waits(t.waiting, ch) <==> ch in Wanted(s.pool, s.waiting[k]) || Waits(Drop(s.waiting, k), ch)
      ensures Waits(s.waiting, ch) <==> ch in s.waiting[k] || Waits(Drop(s.waiting, k), ch)
    {
      WaitsElsewhere(t.waiting, k, ch);
      WaitsElsewhere(s.waiting, k, ch);
    }
    StaysAttended(s, t);
  }

  lemma SameDropped<T>(s: seq<T>, k: nat, x: T)
    requires k < |s|
    ensures Drop(s[k := x], k) == Drop(s, k)
  {
  }

  lemma RedialledKeepsAttended<C>(s: Sys<C>, max: int, k: nat, c: C)
    requires Attended(s) && Enabled(s, Redialled(k, c))
    ensures Attended(Next(s, max, Redialled(k, c)))
  {
    hide Attended, Waits, Drop;
    var t := Next(s, max, Redialled(k, c));
    forall ch
      ensures Waits(s.waiting, ch) <==> ch in s.waiting[k] || Waits(t.waiting, ch)
    {
      WaitsElsewhere(s.waiting, k, ch);
    }
    StaysAttended(s, t);
  }

  lemma GaveUpKeepsAttended<C>(s: Sys<C>, max: int, k: nat)
    requires Attended(s) && k < |s.waiting|
    ensures Attended(Next(s, max, GaveUp(k))) <==> HeedsSubscribers(s, GaveUp(k))
  {
    hide Waits, Drop;
    var t := Next(s, max, GaveUp(k));
    forall ch
      ensures Waits(s.waiting, ch) <==> ch in s.waiting[k] || Waits(t.waiting, ch)
    {
      WaitsElsewhere(s.waiting, k, ch);
    }
  }

  lemma StepIsIdle<C>(s: Sys<C>, max: int, e: Event<C>)
    ensures !Enabled(s, e) ==> Next(s, max, e) == s
  {
  }

  /** A step forgets no subscriber if and only if it heeds who else is caring for the channel. */
  lemma StepKeepsAttended<C>(s: Sys<C>, max: int, e: Event<C>)
    requires Attended(s)
    ensures Attended(Next(s, max, e)) <==> HeedsSubscribers(s, e)
  {
    hide Attended, Next;
    assert !Enabled(s, e) ==> Next(s, max, e) == s by { StepIsIdle(s, max, e); }
    if !Enabled(s, e) {
      return;
    }
    match e
    case Join(ch) => JoinKeepsAttended(s, max, ch);
    case Dialled(k, c) => DialledKeepsAttended(s, max, k, c);
    case DialGaveUp(k) => DialGaveUpKeepsAttended(s, max, k);
    case Part(ch) => PartKeepsAttended(s, max, ch);
    case Broke(c) => BrokeKeepsAttended(s, max, c);
    case Recheck(k) => RecheckKeepsAttended(s, max, k);
    case Redialled(k, c) => RedialledKeepsAttended(s, max, k, c);
    case GaveUp(k) => GaveUpKeepsAttended(s, max, k);
  }

  lemma JoinKeepsNoneIdle<C>(p: Pool<C>, max: int, ch: string)
    requires NoneIdle(p) && Counted(p)
    ensures NoneIdle(JoinStart(p, max, ch).0)
  {
    hide Pick;
    var t := JoinStart(p, max, ch).0;
    assert Count(p, ch) >= 0;
    assert forall g :: Count(t, g) == Count(p, g) + if g == ch then 1 else 0;
    assert forall c, g :: g in ChannelsOf(t, c) ==> g == ch || g in ChannelsOf(p, c);
  }

  /** A dial is worth while exactly when somebody still wants the channel. */
  lemma AttachKeepsNoneIdle<C>(p: Pool<C>, ch: string, c: C)
    requires NoneIdle(p) && c !in p.conns
    ensures NoneIdle(JoinAttach(p, ch, c)) <==> Count(p, ch) > 0
  {
    var t := JoinAttach(p, ch, c);
    assert c in t.conns && ChannelsOf(t, c) == {ch};
    assert forall d :: d in p.conns ==> ChannelsOf(t, d) == ChannelsOf(p, d);
    assert forall g :: Count(t, g) == Count(p, g);
  }

  lemma DialFailedKeepsNoneIdle<C>(p: Pool<C>, ch: string)
    requires NoneIdle(p)
    ensures NoneIdle(JoinDialFailed(p, ch)) <==> (Count(p, ch) <= 1 ==> !Sits(p, ch))
  {
    var t := JoinDialFailed(p, ch);
    assert forall g :: Count(t, g) == if g != ch then Count(p, g) else if Count(p, ch) > 1 then Count(p, ch) - 1 else 0;
    assert forall d :: ChannelsOf(t, d) == ChannelsOf(p, d);
  }

  lemma PartKeepsNoneIdle<C>(p: Pool<C>, ch: string)
    requires NoneIdle(p)
    ensures NoneIdle(PartStep(p, ch)) <==>
      (Count(p, ch) <= 1 ==> if ch in p.owner then SitsOnlyOn(p, ch, p.owner[ch]) else !Sits(p, ch))
  {
    var t := PartStep(p, ch);
    assert forall g :: Count(t, g) == if g != ch then Count(p, g) else if Count(p, ch) > 1 then Count(p, ch) - 1 else 0;
    var placed := Count(p, ch) <= 1 && ch in p.owner;
    assert forall d :: ChannelsOf(t, d) == if placed && d == p.owner[ch] then ChannelsOf(p, d) - {ch} else ChannelsOf(p, d);
  }

  lemma ReconnectKeepsNoneIdle<C>(p: Pool<C>, waiting: set<string>, c: C)
    requires NoneIdle(p) && c !in p.conns
    ensures NoneIdle(ReconnectAttach(p, waiting, c))
  {
    var t := ReconnectAttach(p, waiting, c);
    assert ChannelsOf(t, c) == Wanted(p, waiting);
    assert forall d :: d in p.conns ==> ChannelsOf(t, d) == ChannelsOf(p, d);
    assert forall g :: Count(t, g) == Count(p, g);
  }

  lemma DetachKeepsNoneIdle<C>(p: Pool<C>, dead: C)
    requires NoneIdle(p)
    ensures NoneIdle(Detach(p, dead))
  {
    var t := Detach(p, dead);
    assert forall d :: ChannelsOf(t, d) == ChannelsOf(p, d);
    assert forall g :: Count(t, g) == Count(p, g);
  }

  /** A step leaves no channel read in vain if and only if it heeds who still wants it. */
  lemma StepKeepsNoneIdle<C>(s: Sys<C>, max: int, e: Event<C>)
    requires NoneIdle(s.pool) && Counted(s.pool) && ConnsKnown(s.pool)
    ensures NoneIdle(Next(s, max, e).pool) <==> HeedsReaders(s, e)
  {
    hide NoneIdle, Sits, SitsOnlyOn, JoinStart, JoinAttach, JoinDialFailed, ReconnectAttach, PartStep, Detach, Wanted, Counted;
    if Enabled(s, e) {
      match e
      case Join(ch) => JoinKeepsNoneIdle(s.pool, max, ch);
      case Dialled(k, c) => AttachKeepsNoneIdle(s.pool, s.joining[k], c);
      case DialGaveUp(k) => DialFailedKeepsNoneIdle(s.pool, s.joining[k]);
      case Part(ch) => PartKeepsNoneIdle(s.pool, ch);
      case Broke(c) => DetachKeepsNoneIdle(s.pool, c);
      case Recheck(_) =>
      case Redialled(k, c) => ReconnectKeepsNoneIdle(s.pool, s.waiting[k], c);
      case GaveUp(_) =>
    }
  }

  /** Every channel with subscribers is cared for, and no other is read. */
  ghost predicate InDemand<C>(s: Sys<C>) {
    Attended(s) && NoneIdle(s.pool)
  }

  ghost predicate AllHeedDemand<C>(s: Sys<C>, max: int, events: seq<Event<C>>) {
    events == [] || (
      var init := events[..|events| - 1];
      && AllHeedDemand(s, max, init)
      && HeedsSubscribers(Run(s, max, init), events[|events| - 1])
      && HeedsReaders(Run(s, max, init), events[|events| - 1]))
  }

  lemma {:induction false} RunKeepsCounted<C>(s: Sys<C>, max: int, events: seq<Event<C>>)
    requires Counted(s.pool)
    ensures Counted(Run(s, max, events).pool)
  {
    hide Counted, Next;
    if events != [] {
      RunKeepsCounted(s, max, events[..|events| - 1]);
      StepKeepsCounted(Run(s, max, events[..|events| - 1]), max, events[|events| - 1]);
    }
  }

  /** In a run no subscriber is ever forgotten and no channel ever read in vain if and only if every step heeds both. */
  lemma {:induction false} RunKeepsDemandIffHeeding<C>(s: Sys<C>, max: int, events: seq<Event<C>>)
    requires InDemand(s) && Counted(s.pool) && ConnsKnown(s.pool)
    ensures (forall n: nat :: n <= |events| ==> InDemand(Run(s, max, events[..n]))) <==> AllHeedDemand(s, max, events)
    decreases |events|
  {
    hide Attended, NoneIdle, Counted, ConnsKnown, HeedsSubscribers, HeedsReaders, Next;
    assert events[..|events|] == events;
    if events != [] {
      var init := events[..|events| - 1];
      RunKeepsDemandIffHeeding(s, max, init);
      RunKeepsConnsKnown(s, max, init);
      RunKeepsCounted(s, max, init);
      assert forall n: nat :: n <= |init| ==> events[..n] == init[..n];
      assert init[..|init|] == init;
      if InDemand(Run(s, max, init)) {
        StepKeepsAttended(Run(s, max, init), max, events[|events| - 1]);
        StepKeepsNoneIdle(Run(s, max, init), max, events[|events| - 1]);
      }
    }
  }

  /** With no dial and no reconnect under way, exact placement is the same as meeting demand and giving no channel two places. */
  lemma QuietIsExact<C>(s: Sys<C>, max: int)
    requires Mapped(s.pool, max) && Counted(s.pool) && s.joining == [] && s.waiting == []
    ensures Exact(s.pool) <==> InDemand(s) && OnePlace(s.pool)
  {
    var p := s.pool;
    assert forall ch :: CaredFor(s, ch) <==> ch in p.owner;
    assert forall ch :: Count(p, ch) > 0 <==> ch in p.subs;
    assert forall ch :: ch in p.owner ==> ch in ChannelsOf(p, p.owner[ch]);
    if Exact(p) {
      assert forall c, ch :: c in p.conns && ch in ChannelsOf(p, c) ==> OwnerIs(p, ch, c);
    }
    if InDemand(s) && OnePlace(p) {
      forall c, ch | c in p.conns && ch in ChannelsOf(p, c)
        ensures OwnerIs(p, ch, c)
      {
        assert Count(p, ch) > 0;
      }
    }
  }

  /** From the empty pool, a run that heeds everything leaves exact placement whenever no dial and no reconnect is under way. */
  lemma HeedingRunsAreExact<C>(max: int, events: seq<Event<C>>)
    requires max >= 1
    ensures
      var s0: Sys<C> := Sys(Pool([], map[], map[], map[]), [], []);
      var t := Run(s0, max, events);
      AllHeed(s0, max, events) && AllHeedDemand(s0, max, events) && t.joining == [] && t.waiting == [] ==> Exact(t.pool)
  {
    hide Run, AllHeed, AllHeedDemand, Exact;
    var s0: Sys<C> := Sys(Pool([], map[], map[], map[]), [], []);
    var t := Run(s0, max, events);
    EveryRunIsMapped(s0, max, events);
    RunKeepsCounted(s0, max, events);
    RunKeepsOnePlaceIffHeeding(s0, max, events);
    RunKeepsDemandIffHeeding(s0, max, events);
    assert events[..|events|] == events;
    hide Mapped, Counted, OnePlace, InDemand;
    if t.joining == [] && t.waiting == [] {
      QuietIsExact(t, max);
    }
  }

  /** A join whose dial fails, not interleaved, leaves no trace. */
  lemma FailedJoinLeavesNoTrace<C>(p: Pool<C>, max: int, ch: string)
    requires Exact(p) && JoinStart(p, max, ch).1.MustDial?
    ensures JoinDialFailed(JoinStart(p, max, ch).0, ch) == p
  {
    hide Pick;
  }

  /** Of two joins the first gives up dialling: the second subscriber is counted but nothing cares for the channel. */
  lemma GivingUpForgetsTheOther<C>(max: int, ch: string)
    ensures
      var s0: Sys<C> := Sys(Pool([], map[], map[], map[]), [], []);
      var t := Next(Next(Next(s0, max, Join(ch)), max, Join(ch)), max, DialGaveUp(0));
      t == Sys(Pool([], map[], map[], map[ch := 1]), [], [])
  {
    var s0: Sys<C> := Sys(Pool([], map[], map[], map[]), [], []);
    var s1 := Next(s0, max, Join(ch));
    assert s1 == Sys(Pool([], map[], map[], map[ch := 1]), [ch], []);
    var s2 := Next(s1, max, Join(ch));
    assert s2 == Sys(Pool([], map[], map[], map[ch := 2]), [ch], []);
  }

  /** A part while the join is dialling: the socket goes on reading a channel nobody wants. */
  lemma LateDialReadsInVain<C>(max: int, ch: string, a: C)
    ensures
      var s0: Sys<C> := Sys(Pool([], map[], map[], map[]), [], []);
      var t := Next(Next(Next(s0, max, Join(ch)), max, Part(ch)), max, Dialled(0, a));
      t == Sys(Pool([a], map[a := {ch}], map[ch := a], map[]), [], [])
  {
    var s0: Sys<C> := Sys(Pool([], map[], map[], map[]), [], []);
    var s1 := Next(s0, max, Join(ch));
    assert s1 == Sys(Pool([], map[], map[], map[ch := 1]), [ch], []);
    var s2 := Next(s1, max, Part(ch));
    assert s2 == Sys(Pool([], map[], map[], map[]), [ch], []);
    var t := Next(s2, max, Dialled(0, a));
    assert ChannelsOf(Add(s2.pool, a), a) + {ch} == {ch};
    assert t.pool.conns == [a] && t.pool.channels == map[a := {ch}] && t.pool.owner == map[ch := a];
  }

  /** A part and a second join while the first join is still dialling put the channel on two sockets. */
  lemma ConcurrentDialsDuplicate<C>(ch: string, a: C, b: C)
    requires a != b
    ensures
      var s0: Sys<C> := Sys(Pool([], map[], map[], map[]), [], []);
      var s3 := Next(Next(Next(s0, 1, Join(ch)), 1, Part(ch)), 1, Join(ch));
      var p := Next(Next(s3, 1, Dialled(0, a)), 1, Dialled(0, b)).pool;
      p.conns == [a, b] && ch in ChannelsOf(p, a) && ch in ChannelsOf(p, b)
  {
    var s0: Sys<C> := Sys(Pool([], map[], map[], map[]), [], []);
    var s1 := Next(s0, 1, Join(ch));
    assert s1 == Sys(Pool([], map[], map[], map[ch := 1]), [ch], []);
    var s2 := Next(s1, 1, Part(ch));
    assert s2 == Sys(Pool([], map[], map[], map[]), [ch], []);
    var s3 := Next(s2, 1, Join(ch));
    assert s3 == Sys(Pool([], map[], map[], map[ch := 1]), [ch] + [ch], []);
    var s4 := Next(s3, 1, Dialled(0, a));
    assert s4.joining == [ch] && s4.pool.conns == [a];
  }

  /** Interleaved, a part and a join while a socket is being redialled leave the channel on two sockets. */
  lemma InterleavedJoinDuplicates<C>(ch: string, a: C, b: C, c: C)
    requires a != b && b != c && a != c
    ensures
      var p0 := Pool([a, b], map[a := {ch}, b := {}], map[ch := a], map[ch := 1]);
      var p1 := Detach(p0, a);
      var p2 := PartStep(p1, ch);
      var p3 := JoinStart(p2, 1, ch).0;
      var p4 := ReconnectAttach(p3, p0.channels[a], c);
      Exact(p0) && ch in p4.channels[b] && ch in p4.channels[c] && b in p4.conns && c in p4.conns
  {
    var p0: Pool<C> := Pool([a, b], map[a := {ch}, b := {}], map[ch := a], map[ch := 1]);
    var p1 := Detach(p0, a);
    assert p1.conns == [b];
    var p2 := PartStep(p1, ch);
    assert p2.conns == [b] && p2.subs == map[];
    var p3 := JoinStart(p2, 1, ch).0;
    assert Pick(p2.(subs := p2.subs[ch := 1]), 1, 0) == Some(b);
  }

  // ---------------------------------------------------------------- the manager

  class Conn {
    var channels: set<string>

    constructor ()
      ensures channels == {}
    {
      channels := {};
    }
  }

  class Manager {
    const maxPerSocket: int
    var conns: seq<Conn>
    var channelToConn: map<string, Conn>
    var subscriptions: map<string, int>
    ghost var dialled: set<Conn>

    constructor (maxPerSocket: int)
      ensures this.maxPerSocket == maxPerSocket && Known()
      ensures View() == Pool([], map[], map[], map[])
    {
      this.maxPerSocket := maxPerSocket;
      conns, channelToConn, subscriptions, dialled := [], map[], map[], {};
    }

    /** Every socket in use or owning a channel has been dialled by this manager. */
    ghost predicate Known()
      reads this
    {
      && (forall c :: c in conns ==> c in dialled)
      && (forall ch :: ch in channelToConn ==> channelToConn[ch] in dialled)
    }

    ghost function View(): Pool<Conn>
      reads this, dialled
    {
      Pool(conns, map c | c in dialled :: c.channels, channelToConn, subscriptions)
    }

    method PickConn() returns (r: Option<Conn>)
      requires Known()
      ensures r == Pick(View(), maxPerSocket, 0)
      ensures r.Some? ==> r.value in conns
    {
      for k := 0 to |conns|
        invariant Pick(View(), maxPerSocket, 0) == Pick(View(), maxPerSocket, k)
      {
        assert ChannelsOf(View(), conns[k]) == conns[k].channels;
        if |conns[k].channels| < maxPerSocket {
          return Some(conns[k]);
        }
      }
      return None;
    }

    /** The first locked section of a join; without a socket that has room the caller dials. */
    method Join(channel: string) returns (r: JoinResult<Conn>)
      requires Known()
      modifies this, dialled
      ensures Known() && dialled == old(dialled)
      ensures View() == JoinStart(old(View()), maxPerSocket, channel).0
      ensures r == JoinStart(old(View()), maxPerSocket, channel).1
    {
      subscriptions := subscriptions[channel := (if channel in subscriptions then subscriptions[channel] else 0) + 1];
      if subscriptions[channel] > 1 {
        return AlreadyJoined;
      }
      var c := PickConn();
      assert View() == Subscribe(old(View()), channel);
      assert c == Pick(Subscribe(old(View()), channel), maxPerSocket, 0);
      if c.None? {
        return MustDial;
      }
      c.value.channels := c.value.channels + {channel};
      channelToConn := channelToConn[channel := c.value];
      return Placed(c.value);
    }

    /** After a dial that gave up. */
    method DialFailed(channel: string)
      requires Known()
      modifies this
      ensures Known() && dialled == old(dialled) && View() == JoinDialFailed(old(View()), channel)
    {
      subscriptions := subscriptions[channel := (if channel in subscriptions then subscriptions[channel] else 0) - 1];
      if subscriptions[channel] <= 0 {
        subscriptions := subscriptions - {channel};
      }
    }

    /** After a dial that brought the socket `c`. */
    method Attach(channel: string, c: Conn)
      requires Known() && c !in dialled && c.channels == {}
      modifies this, c
      ensures Known() && dialled == old(dialled) + {c}
      ensures View() == JoinAttach(old(View()), channel, c)
    {
      dialled := dialled + {c};
      conns := conns + [c];
      c.channels := c.channels + {channel};
      channelToConn := channelToConn[channel := c];
    }

    method Part(channel: string) returns (left: Option<Conn>)
      requires Known()
      modifies this, dialled
      ensures Known() && dialled == old(dialled) && View() == PartStep(old(View()), channel)
      ensures left.Some? ==> channel in old(channelToConn) && left.value == old(channelToConn)[channel]
    {
      var n := (if channel in subscriptions then subscriptions[channel] else 0) - 1;
      subscriptions := subscriptions[channel := n];
      if n > 0 {
        return None;
      }
      subscriptions := subscriptions - {channel};
      if channel !in channelToConn {
        return None;
      }
      var c := channelToConn[channel];
      c.channels := c.channels - {channel};
      channelToConn := channelToConn - {channel};
      return Some(c);
    }

    /** The first locked section of a reconnect: the dead socket leaves, its channels lose their place. */
    method DetachDead(dead: Conn) returns (channels: set<string>)
      requires Known() && dead in dialled
      modifies this
      ensures Known() && dialled == old(dialled) && View() == Detach(old(View()), dead)
      ensures channels == dead.channels
    {
      channels := dead.channels;
      var kept := Without(conns, dead);
      conns := kept;
      channelToConn := channelToConn - channels;
    }

    /** Of the channels waiting for a socket, exactly those that still have subscribers. */
    method StillWanted(waiting: set<string>) returns (still: set<string>)
      requires Known()
      ensures forall ch :: ch in still <==> ch in waiting && ch in subscriptions && subscriptions[ch] > 0
      ensures still == Wanted(View(), waiting)
    {
      still := {};
      var rest := waiting;
      while rest != {}
        invariant rest <= waiting
        invariant forall ch :: ch in still <==> ch in waiting - rest && ch in subscriptions && subscriptions[ch] > 0
      {
        var ch :| ch in rest;
        if (if ch in subscriptions then subscriptions[ch] else 0) > 0 {
          still := still + {ch};
        }
        rest := rest - {ch};
      }
    }

    /** The last locked section of a reconnect: the new socket takes over what is still wanted. */
    method AttachAgain(waiting: set<string>, c: Conn)
      requires Known() && c !in dialled && c.channels == {}
      modifies this, c
      ensures Known() && dialled == old(dialled) + {c}
      ensures View() == ReconnectAttach(old(View()), waiting, c)
    {
      hide Wanted;
      var still := StillWanted(waiting);
      dialled := dialled + {c};
      conns := conns + [c];
      c.channels := still;
      channelToConn := channelToConn + map ch | ch in still :: c;
    }
  }
}
