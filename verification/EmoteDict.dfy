/** The writer of the channel emote dictionaries. */
module EmoteDict {
  import opened Text
  import opened RedisStore

  function ChannelKey(login: string): string {
    "channel:emotes:" + login
  }

  const REBUILD_SUFFIX := ":rebuild"

  function StagingKey(login: string): string {
    ChannelKey(login) + REBUILD_SUFFIX
  }

  type Fields = seq<(string, string)>

  /** The fields as one hash. */
  function HashOf(fields: Fields): Hash {
    SetFields(map[], fields)
  }

  function Deadline(ttl: nat, now: nat): Option<nat> {
    if ttl > 0 then Some(now + ttl) else None
  }

  // ---------------------------------------------------------------- what the operations do to the store

  /** The old dictionary or the new one, whole, with its expiry; an empty list removes it. */
  function Rebuilt(db: Store, login: string, fields: Fields, ttl: nat, now: nat): Store {
    var rest := db - {StagingKey(login)};
    if fields == [] then rest - {ChannelKey(login)}
    else rest[ChannelKey(login) := Entry(HashOf(fields), Deadline(ttl, now))]
  }

  /** A rejected rebuild leaves the dictionary, and gives it an expiry if it has none. */
  function Rejected(db: Store, login: string, ttl: nat, now: nat): Store {
    var key := ChannelKey(login);
    if ttl > 0 && key in db && db[key].expires.None? then db[key := db[key].(expires := Some(now + ttl))] else db
  }

  datatype Patch = Add(name: string, value: string) | Remove(name: string)

  function PatchHash(h: Hash, p: Patch): Hash {
    match p
    case Add(name, value) => h[name := value]
    case Remove(name) => h - {name}
  }

  /** A patch changes an existing dictionary and renews its expiry; the last entry takes the dictionary with it. */
  function Patched(db: Store, login: string, p: Patch, ttl: nat, now: nat): Store {
    var key := ChannelKey(login);
    if key !in db then db
    else
      var h := PatchHash(db[key].hash, p);
      if h == map[] then db - {key}
      else db[key := Entry(h, if ttl > 0 then Some(now + ttl) else db[key].expires)]
  }

  // ---------------------------------------------------------------- the operations

  lemma {:induction false} SetFieldsIsNonempty(h: Hash, fields: Fields)
    requires fields != []
    ensures SetFields(h, fields) != map[]
  {
    assert fields[|fields| - 1].0 in SetFields(h, fields);
  }

  lemma {:induction false} SetFieldsLastWins(fields: Fields, name: string)
    ensures name in HashOf(fields) <==> exists k :: 0 <= k < |fields| && fields[k].0 == name
    ensures name in HashOf(fields) ==> exists k ::
      0 <= k < |fields| && fields[k] == (name, HashOf(fields)[name]) && forall j :: k < j < |fields| ==> fields[j].0 != name
  {
    if fields != [] {
      var n := |fields| - 1;
      SetFieldsLastWins(fields[..n], name);
      if fields[n].0 == name {
        assert fields[n] == (name, HashOf(fields)[name]);
      } else if name in HashOf(fields) {
        var k :| 0 <= k < n && fields[..n][k] == (name, HashOf(fields)[name]) && forall j :: k < j < n ==> fields[..n][j].0 != name;
        assert fields[k] == (name, HashOf(fields)[name]);
        forall j | k < j < |fields|
          ensures fields[j].0 != name
        {
          assert j < n ==> fields[..n][j] == fields[j];
        }
      }
    }
  }

  function RebuildCommands(login: string, fields: Fields, ttl: nat, now: nat): seq<Command> {
    var key, staging := ChannelKey(login), StagingKey(login);
    [Command.Del(staging)]
    + (if fields == [] then [Command.Del(key)]
       else [HSet(staging, fields)] + (if ttl > 0 then [PExpire(staging, now + ttl)] else []) + [Rename(staging, key)])
  }

  /** The staged commands put the whole new dictionary in place at once. */
  lemma RebuildCommandsRebuild(db: Store, login: string, fields: Fields, ttl: nat, now: nat)
    ensures Exec(db, RebuildCommands(login, fields, ttl, now)) == Rebuilt(db, login, fields, ttl, now)
  {
    var key, staging := ChannelKey(login), StagingKey(login);
    var cmds := RebuildCommands(login, fields, ttl, now);
    assert |staging| > |key|;
    var db1 := db - {staging};
    if fields == [] {
      ExecTwo(db, cmds[0], cmds[1]);
      assert cmds == [cmds[0], cmds[1]];
    } else {
      SetFieldsIsNonempty(map[], fields);
      var db2 := db1[staging := Entry(HashOf(fields), None)];
      assert Apply(db1, HSet(staging, fields)) == db2;
      if ttl > 0 {
        assert cmds == [cmds[0], cmds[1], cmds[2], cmds[3]];
        ExecFour(db, cmds[0], cmds[1], cmds[2], cmds[3]);
      } else {
        assert cmds == [cmds[0], cmds[1], cmds[2]];
        ExecThree(db, cmds[0], cmds[1], cmds[2]);
      }
      assert db2 - {staging} == db1;
    }
  }

  lemma ExecOne(db: Store, a: Command)
    ensures Exec(db, [a]) == Apply(db, a)
  {
    hide Apply;
  }

  lemma ExecTwo(db: Store, a: Command, b: Command)
    ensures Exec(db, [a, b]) == Apply(Apply(db, a), b)
  {
    hide Apply;
    assert [a, b][1..] == [b];
    ExecOne(Apply(db, a), b);
  }

  lemma ExecThree(db: Store, a: Command, b: Command, c: Command)
    ensures Exec(db, [a, b, c]) == Apply(Apply(Apply(db, a), b), c)
  {
    hide Apply;
    assert [a, b, c][1..] == [b, c];
    ExecTwo(Apply(db, a), b, c);
  }

  lemma ExecFour(db: Store, a: Command, b: Command, c: Command, d: Command)
    ensures Exec(db, [a, b, c, d]) == Apply(Apply(Apply(Apply(db, a), b), c), d)
  {
    hide Apply;
    assert [a, b, c, d][1..] == [b, c, d];
    ExecThree(Apply(db, a), b, c, d);
  }

  /** An accepted rebuild changes another channel's dictionary exactly when that channel bears the name of its staging key. */
  lemma RebuildDisturbs(db: Store, login: string, other: string, fields: Fields, ttl: nat, now: nat)
    requires other != login && ChannelKey(other) in db
    ensures
      var db' := Rebuilt(db, login, fields, ttl, now);
      ChannelKey(other) in db' && db'[ChannelKey(other)] == db[ChannelKey(other)] <==> other != login + REBUILD_SUFFIX
  {
    assert ChannelKey(other)[15..] == other && ChannelKey(login)[15..] == login;
    assert StagingKey(login) == ChannelKey(login + REBUILD_SUFFIX);
    assert ChannelKey(login + REBUILD_SUFFIX)[15..] == login + REBUILD_SUFFIX;
  }

  datatype PatchResult = Done | DictMissing

  class Dict {
    const redis: Redis
    const ttl: nat

    constructor (redis: Redis, ttl: nat)
      ensures this.redis == redis && this.ttl == ttl
    {
      this.redis, this.ttl := redis, ttl;
    }

    /** Replaces the dictionary in one transaction, or leaves it when the transaction is discarded. */
    method Rebuild(login: string, fields: Fields, accepted: bool) returns (ok: bool)
      modifies redis
      ensures ok == accepted && redis.now == old(redis.now)
      ensures redis.db == if accepted then Rebuilt(old(redis.db), login, fields, ttl, redis.now)
                          else Rejected(old(redis.db), login, ttl, redis.now)
    {
      var key := ChannelKey(login);
      var staging := key + REBUILD_SUFFIX;
      var pipe := [Command.Del(staging)];
      if |fields| == 0 {
        pipe := pipe + [Command.Del(key)];
      } else {
        pipe := pipe + [HSet(staging, fields)];
        if ttl > 0 {
          pipe := pipe + [PExpire(staging, redis.now + ttl)];
        }
        pipe := pipe + [Rename(staging, key)];
      }
      assert pipe == RebuildCommands(login, fields, ttl, redis.now);
      RebuildCommandsRebuild(redis.db, login, fields, ttl, redis.now);
      hide RebuildCommands;
      ok := redis.TxExec(pipe, accepted);
      if !ok && ttl > 0 {
        redis.Do(ExpireNX(key, redis.now + ttl));
      }
    }

    /** The add script: set one entry of an existing dictionary and renew its expiry. */
    method AddEmote(login: string, name: string, value: string) returns (r: PatchResult)
      modifies redis
      ensures r == if ChannelKey(login) in old(redis.db) then Done else DictMissing
      ensures redis.db == Patched(old(redis.db), login, Add(name, value), ttl, redis.now) && redis.now == old(redis.now)
    {
      var key := ChannelKey(login);
      if key !in redis.db {
        return DictMissing;
      }
      SetFieldsIsNonempty(redis.db[key].hash, [(name, value)]);
      redis.Do(HSet(key, [(name, value)]));
      if ttl > 0 {
        redis.Do(PExpire(key, redis.now + ttl));
      }
      return Done;
    }

    /** The remove script: delete one entry and renew the expiry of what is left. */
    method RemoveEmote(login: string, name: string) returns (r: PatchResult)
      modifies redis
      ensures r == if ChannelKey(login) in old(redis.db) then Done else DictMissing
      ensures redis.db == Patched(old(redis.db), login, Remove(name), ttl, redis.now) && redis.now == old(redis.now)
    {
      var key := ChannelKey(login);
      if key !in redis.db {
        return DictMissing;
      }
      redis.Do(HDel(key, name));
      if ttl > 0 && key in redis.db {
        redis.Do(PExpire(key, redis.now + ttl));
      }
      return Done;
    }

    /** EXPIRE NX on every key of one scanned page; `jitter` spreads the first wave. Without a TTL it is disabled. */
    method BackfillPage(keys: seq<string>, jitter: string -> nat) returns (updated: nat)
      modifies redis
      ensures redis.now == old(redis.now)
      ensures redis.db == if ttl == 0 then old(redis.db) else Backfilled(old(redis.db), keys, ttl, jitter, redis.now)
      ensures updated == |Unexpiring(old(redis.db))| - |Unexpiring(redis.db)|
    {
      hide Apply, Unexpiring, Backfilled;
      if ttl == 0 {
        return 0;
      }
      BackfilledNothing(redis.db, ttl, jitter, redis.now);
      updated := 0;
      for i := 0 to |keys|
        invariant redis.now == old(redis.now)
        invariant redis.db == Backfilled(old(redis.db), keys[..i], ttl, jitter, redis.now)
        invariant updated == |Unexpiring(old(redis.db))| - |Unexpiring(redis.db)|
      {
        var key := keys[i];
        assert keys[..i + 1] == keys[..i] + [key];
        BackfilledPush(old(redis.db), keys[..i], key, ttl, jitter, redis.now);
        AttachOne(redis.db, key, redis.now + ttl + jitter(key));
        var attached := key in redis.db && redis.db[key].expires.None?;
        redis.Do(ExpireNX(key, redis.now + ttl + jitter(key)));
        if attached {
          updated := updated + 1;
        }
      }
      assert keys[..|keys|] == keys;
    }
  }

  // ---------------------------------------------------------------- the legacy backfill

  /** The keys that never expire. */
  function Unexpiring(db: Store): set<string> {
    set key | key in db && db[key].expires.None?
  }

  function Backfilled(db: Store, keys: seq<string>, ttl: nat, jitter: string -> nat, now: nat): Store {
    if keys == [] then db
    else
      var key := keys[|keys| - 1];
      Apply(Backfilled(db, keys[..|keys| - 1], ttl, jitter, now), ExpireNX(key, now + ttl + jitter(key)))
  }

  lemma BackfilledNothing(db: Store, ttl: nat, jitter: string -> nat, now: nat)
    ensures Backfilled(db, [], ttl, jitter, now) == db
  {
  }

  lemma BackfilledPush(db: Store, keys: seq<string>, key: string, ttl: nat, jitter: string -> nat, now: nat)
    ensures Backfilled(db, keys + [key], ttl, jitter, now) == Apply(Backfilled(db, keys, ttl, jitter, now), ExpireNX(key, now + ttl + jitter(key)))
  {
    hide Apply;
    assert (keys + [key])[..|keys|] == keys;
  }

  lemma AttachOne(db: Store, key: string, at: nat)
    ensures |Unexpiring(Apply(db, ExpireNX(key, at)))| == |Unexpiring(db)| - if key in db && db[key].expires.None? then 1 else 0
  {
    assert Unexpiring(Apply(db, ExpireNX(key, at))) == Unexpiring(db) - {key};
  }

  /** The backfill gives every scanned dictionary an expiry, never changes one that is there, and touches no entry. */
  lemma {:induction false} BackfillBoundsLegacy(db: Store, keys: seq<string>, ttl: nat, jitter: string -> nat, now: nat)
    ensures Backfilled(db, keys, ttl, jitter, now).Keys == db.Keys
    ensures forall key :: key in db ==>
      var e := Backfilled(db, keys, ttl, jitter, now)[key];
      && e.hash == db[key].hash
      && (db[key].expires.Some? ==> e == db[key])
      && (db[key].expires.None? ==> e.expires == if key in keys then Some(now + ttl + jitter(key)) else None)
  {
    if keys != [] {
      BackfillBoundsLegacy(db, keys[..|keys| - 1], ttl, jitter, now);
    }
  }
}
