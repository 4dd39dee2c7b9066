/** The part of Redis the emote dictionary relies on: hashes with an optional expiry. */
module RedisStore {
  import opened Text

  type Hash = map<string, string>

  datatype Entry = Entry(hash: Hash, expires: Option<nat>)

  type Store = map<string, Entry>

  datatype Command =
    | Del(key: string)
    | HSet(key: string, fields: seq<(string, string)>)
    | HDel(key: string, field: string)
    | PExpire(key: string, at: nat)
    | ExpireNX(key: string, at: nat)
    | Rename(from: string, key: string)

  /** Fields are set left to right; the last value of a name stays. */
  function SetFields(h: Hash, fields: seq<(string, string)>): Hash {
    if fields == [] then h
    else SetFields(h, fields[..|fields| - 1])[fields[|fields| - 1].0 := fields[|fields| - 1].1]
  }

  function HashAt(db: Store, key: string): Hash {
    if key in db then db[key].hash else map[]
  }

  function ExpiryAt(db: Store, key: string): Option<nat> {
    if key in db then db[key].expires else None
  }

  /** A hash without fields does not exist. */
  function Keep(db: Store, key: string, e: Entry): Store {
    if e.hash == map[] then db - {key} else db[key := e]
  }

  function Apply(db: Store, c: Command): Store {
    match c
    case Del(key) => db - {key}
    case HSet(key, fields) => Keep(db, key, Entry(SetFields(HashAt(db, key), fields), ExpiryAt(db, key)))
    case HDel(key, field) => if key in db then Keep(db, key, db[key].(hash := db[key].hash - {field})) else db
    case PExpire(key, at) => if key in db then db[key := db[key].(expires := Some(at))] else db
    case ExpireNX(key, at) => if key in db && db[key].expires.None? then db[key := db[key].(expires := Some(at))] else db
    case Rename(from, key) => if from in db then (db - {from})[key := db[from]] else db
  }

  /** MULTI/EXEC: all commands, one after the other, with nothing in between. */
  function Exec(db: Store, cmds: seq<Command>): Store
    decreases |cmds|
  {
    if cmds == [] then db else Exec(Apply(db, cmds[0]), cmds[1..])
  }

  /** Keys whose time has come are gone. */
  function Expire(db: Store, now: nat): Store {
    map key | key in db && (db[key].expires.Some? ==> now < db[key].expires.value) :: db[key]
  }

  class Redis {
    var db: Store
    var now: nat

    constructor ()
      ensures db == map[] && now == 0
    {
      db, now := map[], 0;
    }

    /** A transaction; a command rejected at queueing discards all of it. */
    method TxExec(cmds: seq<Command>, accepted: bool) returns (ok: bool)
      modifies this`db
      ensures ok == accepted
      ensures db == if accepted then Exec(old(db), cmds) else old(db)
    {
      if accepted {
        for i := 0 to |cmds|
          invariant Exec(old(db), cmds) == Exec(db, cmds[i..])
        {
          assert cmds[i..][0] == cmds[i] && cmds[i..][1..] == cmds[i + 1..];
          db := Apply(db, cmds[i]);
        }
      }
      ok := accepted;
    }

    method Do(c: Command)
      modifies this`db
      ensures db == Apply(old(db), c)
    {
      db := Apply(db, c);
    }
  }
}
