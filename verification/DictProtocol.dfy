/** Writer, Redis and one reading channel as a step system: what every run keeps. */
module DictProtocol {
  import opened Text
  import opened RedisStore
  import opened EmoteDict

  /**
   `built` remembers, for every login, the last accepted rebuild with every
   patch applied since. The rest of the state belongs to one channel's reader:
   the hash it serves, deltas still to be published (`owed`) or received
   (`queue`), and the debounce timer. `missed` is set when a delta could not be
   published or a read failed, until the next read succeeds.
   */
  datatype Sys = Sys(
    db: Store, now: nat, built: map<string, Hash>,
    cache: Hash, owed: nat, queue: nat, timer: bool, missed: bool)

  datatype Event =
    | Rebuild(login: string, fields: Fields, accepted: bool)
    | PatchOne(login: string, patch: Patch)
    | Backfill(key: string, extra: nat)
    | Tick(now: nat)
    | Publish(delivered: bool)
    | Receive
    | Fire(readOk: bool)

  /** One delta is owed for every accepted change to the reader's channel. */
  function Owe(s: Sys, mine: bool): Sys {
    if mine then s.(owed := s.owed + 1) else s
  }

  function ReloadStep(s: Sys, channel: string, readOk: bool): Sys {
    var key := ChannelKey(channel);
    var s1 := s.(timer := false);
    if !readOk then s1.(missed := true)
    else if key !in s.db then s1
    else s1.(cache := s.db[key].hash, missed := false)
  }

  function Next(s: Sys, channel: string, ttl: nat, e: Event): Sys {
    match e
    case Rebuild(login, fields, accepted) =>
      if !accepted then s.(db := Rejected(s.db, login, ttl, s.now))
      else
        var built := if fields == [] then s.built - {login} else s.built[login := HashOf(fields)];
        Owe(s.(db := Rebuilt(s.db, login, fields, ttl, s.now), built := built), login == channel)
    case PatchOne(login, patch) =>
      if ChannelKey(login) !in s.db || login !in s.built then s.(db := Patched(s.db, login, patch, ttl, s.now))
      else
        var built := s.built[login := PatchHash(s.built[login], patch)];
        Owe(s.(db := Patched(s.db, login, patch, ttl, s.now), built := built), login == channel)
    case Backfill(key, extra) =>
      if ttl == 0 then s else s.(db := Apply(s.db, ExpireNX(key, s.now + ttl + extra)))
    case Tick(now) => if now < s.now then s else s.(now := now, db := RedisStore.Expire(s.db, now))
    case Publish(delivered) =>
      if s.owed == 0 then s
      else if delivered then s.(owed := s.owed - 1, queue := s.queue + 1)
      else s.(owed := s.owed - 1, missed := true)
    case Receive => if s.queue == 0 then s else s.(queue := s.queue - 1, timer := true)
    case Fire(readOk) => if s.timer then ReloadStep(s, channel, readOk) else s
  }

  function Run(s: Sys, channel: string, ttl: nat, events: seq<Event>): Sys {
    if events == [] then s
    else Next(Run(s, channel, ttl, events[..|events| - 1]), channel, ttl, events[|events| - 1])
  }

  // ---------------------------------------------------------------- the live keys

  /** A live dictionary is the last accepted rebuild with all later patches: never partial, never empty, never unbounded. */
  ghost predicate LiveIsBuilt(db: Store, built: map<string, Hash>, ttl: nat) {
    forall login :: ChannelKey(login) in db ==>
      var e := db[ChannelKey(login)];
      && login in built && e.hash == built[login] && e.hash != map[]
      && (ttl > 0 ==> e.expires.Some?)
  }

  ghost predicate Live(s: Sys, ttl: nat) {
    LiveIsBuilt(s.db, s.built, ttl)
  }

  lemma KeysDiffer(a: string, b: string)
    ensures ChannelKey(a) == ChannelKey(b) <==> a == b
  {
    assert ChannelKey(a)[15..] == a && ChannelKey(b)[15..] == b;
  }

  lemma AllKeysDiffer(b: string)
    ensures forall a :: ChannelKey(a) == ChannelKey(b) <==> a == b
  {
    forall a { KeysDiffer(a, b); }
  }

  lemma RebuildKeepsLive(db: Store, built: map<string, Hash>, login: string, fields: Fields, ttl: nat, now: nat)
    requires LiveIsBuilt(db, built, ttl)
    ensures LiveIsBuilt(Rebuilt(db, login, fields, ttl, now), if fields == [] then built - {login} else built[login := HashOf(fields)], ttl)
    ensures LiveIsBuilt(Rejected(db, login, ttl, now), built, ttl)
  {
    hide HashOf, ChannelKey, StagingKey;
    AllKeysDiffer(login);
    assert fields != [] ==> HashOf(fields) != map[] by { if fields != [] { HashOfSome(fields); } }
  }

  lemma HashOfSome(fields: Fields)
    requires fields != []
    ensures HashOf(fields) != map[]
  {
    SetFieldsIsNonempty(map[], fields);
  }

  lemma PatchKeepsLive(db: Store, built: map<string, Hash>, login: string, patch: Patch, ttl: nat, now: nat)
    requires LiveIsBuilt(db, built, ttl)
    ensures ChannelKey(login) in db ==> login in built
    ensures ChannelKey(login) in db ==>
      LiveIsBuilt(Patched(db, login, patch, ttl, now), built[login := PatchHash(built[login], patch)], ttl)
    ensures ChannelKey(login) !in db ==> Patched(db, login, patch, ttl, now) == db
  {
    hide ChannelKey, PatchHash;
    AllKeysDiffer(login);
  }

  lemma ExpiryKeepsLive(db: Store, built: map<string, Hash>, key: string, at: nat, now: nat, ttl: nat)
    requires LiveIsBuilt(db, built, ttl)
    ensures LiveIsBuilt(Apply(db, ExpireNX(key, at)), built, ttl)
    ensures LiveIsBuilt(RedisStore.Expire(db, now), built, ttl)
  {
    hide ChannelKey;
  }

  lemma NextKeepsLive(s: Sys, channel: string, ttl: nat, e: Event)
    requires Live(s, ttl)
    ensures Live(Next(s, channel, ttl, e), ttl)
  {
    hide LiveIsBuilt, Rebuilt, Rejected, Patched, PatchHash, HashOf, Apply, RedisStore.Expire, ChannelKey;
    match e
    case Rebuild(login, fields, accepted) =>
      RebuildKeepsLive(s.db, s.built, login, fields, ttl, s.now);
    case PatchOne(login, patch) =>
      PatchKeepsLive(s.db, s.built, login, patch, ttl, s.now);
    case Backfill(key, extra) =>
      ExpiryKeepsLive(s.db, s.built, key, s.now + ttl + extra, s.now, ttl);
    case Tick(now) =>
      ExpiryKeepsLive(s.db, s.built, "", 0, now, ttl);
    case _ =>
  }

  /** In every run a live dictionary is whole. */
  lemma {:induction false} EveryRunKeepsLive(s: Sys, channel: string, ttl: nat, events: seq<Event>)
    requires Live(s, ttl)
    ensures Live(Run(s, channel, ttl, events), ttl)
  {
    if events != [] {
      EveryRunKeepsLive(s, channel, ttl, events[..|events| - 1]);
      NextKeepsLive(Run(s, channel, ttl, events[..|events| - 1]), channel, ttl, events[|events| - 1]);
    }
  }

  /** Only an accepted rebuild brings a dictionary into being; in particular no patch does. */
  lemma OnlyRebuildCreates(s: Sys, channel: string, ttl: nat, e: Event, login: string)
    requires ChannelKey(login) !in s.db && ChannelKey(login) in Next(s, channel, ttl, e).db
    ensures e.Rebuild? && e.accepted && e.login == login && e.fields != []
  {
    match e
    case Rebuild(changed, fields, accepted) => KeysDiffer(login, changed);
    case PatchOne(changed, patch) => KeysDiffer(login, changed);
    case _ =>
  }

  // ---------------------------------------------------------------- the reader

  /** The reader changes what it serves only to the whole dictionary it reads. */
  lemma CacheIsSnapshot(s: Sys, channel: string, ttl: nat, e: Event)
    requires Live(s, ttl)
    ensures var s' := Next(s, channel, ttl, e);
      s'.cache != s.cache ==>
        && e == Fire(true)
        && ChannelKey(channel) in s.db && s'.cache == s.db[ChannelKey(channel)].hash
        && channel in s.built && s'.cache == s.built[channel]
  {
  }

  /** Everything `built` has been for the channel. */
  ghost function Snapshots(s: Sys, channel: string, ttl: nat, events: seq<Event>): set<Hash> {
    (if channel in Run(s, channel, ttl, events).built then {Run(s, channel, ttl, events).built[channel]} else {})
    + if events == [] then {} else Snapshots(s, channel, ttl, events[..|events| - 1])
  }

  /** In every run the reader serves what it started with or a whole dictionary as it was built at some moment. */
  lemma {:induction false} EveryRunServesSnapshots(s: Sys, channel: string, ttl: nat, events: seq<Event>)
    requires Live(s, ttl)
    ensures var cache := Run(s, channel, ttl, events).cache;
      cache == s.cache || cache in Snapshots(s, channel, ttl, events)
  {
    hide Live, Next;
    if events != [] {
      var init := events[..|events| - 1];
      EveryRunServesSnapshots(s, channel, ttl, init);
      EveryRunKeepsLive(s, channel, ttl, init);
      CacheIsSnapshot(Run(s, channel, ttl, init), channel, ttl, events[|events| - 1]);
      SnapshotOfRun(s, channel, ttl, init);
    }
  }

  lemma SnapshotOfRun(s: Sys, channel: string, ttl: nat, events: seq<Event>)
    ensures var b := Run(s, channel, ttl, events).built;
      channel in b ==> b[channel] in Snapshots(s, channel, ttl, events)
  {
  }

  /** A delta is on its way: to be published, queued, or behind an armed timer. */
  predicate Pending(s: Sys) {
    s.owed > 0 || s.queue > 0 || s.timer
  }

  /** Serving anything but the live dictionary means that a delta is on its way or was missed. */
  ghost predicate Fresh(s: Sys, channel: string) {
    ChannelKey(channel) in s.db && s.cache != s.db[ChannelKey(channel)].hash ==> Pending(s) || s.missed
  }

  lemma NextKeepsFresh(s: Sys, channel: string, ttl: nat, e: Event)
    requires Live(s, ttl) && Fresh(s, channel)
    ensures Fresh(Next(s, channel, ttl, e), channel)
  {
    match e
    case Rebuild(login, fields, accepted) =>
      KeysDiffer(login, channel);
    case PatchOne(login, patch) =>
      KeysDiffer(login, channel);
    case _ =>
  }

  /**
   In every run: once no delta is on its way and none was missed since the last
   successful read, the reader serves the live dictionary whenever there is one.
   */
  lemma {:induction false} QuiescentReaderAgrees(s: Sys, channel: string, ttl: nat, events: seq<Event>)
    requires Live(s, ttl) && Fresh(s, channel)
    ensures Fresh(Run(s, channel, ttl, events), channel)
    ensures var t := Run(s, channel, ttl, events);
      !Pending(t) && !t.missed && ChannelKey(channel) in t.db ==>
        channel in t.built && t.cache == t.db[ChannelKey(channel)].hash == t.built[channel]
  {
    hide Next;
    if events != [] {
      var init := events[..|events| - 1];
      QuiescentReaderAgrees(s, channel, ttl, init);
      EveryRunKeepsLive(s, channel, ttl, init);
      NextKeepsFresh(Run(s, channel, ttl, init), channel, ttl, events[|events| - 1]);
    }
    EveryRunKeepsLive(s, channel, ttl, events);
  }

  /** A rebuild from an empty list removes the dictionary, but its delta leaves the reader serving the one it has. */
  lemma EmptyRebuildIsNotNoticed(s: Sys, channel: string, ttl: nat)
    requires s.owed == 0 && s.queue == 0
    ensures
      var built := Next(s, channel, ttl, Rebuild(channel, [], true));
      var told := Next(Next(built, channel, ttl, Publish(true)), channel, ttl, Receive);
      var t := Next(told, channel, ttl, Fire(true));
      ChannelKey(channel) !in t.db && !Pending(t) && t.cache == s.cache
  {
    hide ChannelKey, StagingKey;
  }

  /** Once its delta has been acted on, a rebuild is what the reader serves if and only if its list is not empty, or the reader served nothing. */
  lemma RebuildIsNoticed(s: Sys, channel: string, ttl: nat, fields: Fields)
    requires s.owed == 0 && s.queue == 0
    ensures
      var built := Next(s, channel, ttl, Rebuild(channel, fields, true));
      var told := Next(Next(built, channel, ttl, Publish(true)), channel, ttl, Receive);
      var t := Next(told, channel, ttl, Fire(true));
      !Pending(t) && (t.cache == HashOf(fields) <==> fields != [] || s.cache == map[])
  {
    hide ChannelKey, StagingKey;
    if fields == [] {
      EmptyRebuildIsNotNoticed(s, channel, ttl);
    }
  }

  /** A patch, likewise, if and only if it leaves an entry, or the reader served nothing: the removal of the last entry is not noticed. */
  lemma PatchIsNoticed(s: Sys, channel: string, ttl: nat, patch: Patch)
    requires Live(s, ttl) && ChannelKey(channel) in s.db && s.owed == 0 && s.queue == 0
    ensures
      var patched := Next(s, channel, ttl, PatchOne(channel, patch));
      var told := Next(Next(patched, channel, ttl, Publish(true)), channel, ttl, Receive);
      var t := Next(told, channel, ttl, Fire(true));
      var left := PatchHash(s.built[channel], patch);
      && !Pending(t)
      && (ChannelKey(channel) in t.db <==> left != map[])
      && (t.cache == left <==> left != map[] || s.cache == map[])
      && (left == map[] ==> t.cache == s.cache)
  {
    hide ChannelKey, PatchHash;
  }
}
