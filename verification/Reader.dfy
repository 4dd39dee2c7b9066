/** The reader's loop and its trie, as the step system of the emote dictionary sees them. */
module Reader {
  import opened Text
  import Tokens
  import opened RedisStore
  import EmoteDict
  import opened DictProtocol
  import Enrich

  /** How a stored value decodes, if it does. */
  type Decode = string -> Option<Tokens.Emote>

  function DecodeAll(decode: Decode, h: Hash): map<string, Option<Tokens.Emote>> {
    map name | name in h :: decode(h[name])
  }

  /** The dictionary a hash stands for. */
  function Shown(decode: Decode, h: Hash): Tokens.Dictionary {
    Enrich.Decoded(DecodeAll(decode, h))
  }

  /** What reading the channel's key comes to. */
  function ReadOf(decode: Decode, db: Store, channel: string, readOk: bool): Enrich.Read {
    var key := EmoteDict.ChannelKey(channel);
    if !readOk then Enrich.Failed
    else if key !in db then Enrich.Missing
    else Enrich.Hit(DecodeAll(decode, db[key].hash))
  }

  /** The step system's reload is the reload of the trie served. */
  lemma ReloadShows(decode: Decode, s: Sys, channel: string, readOk: bool)
    ensures Some(Shown(decode, ReloadStep(s, channel, readOk).cache)) ==
      Enrich.Reloaded(Some(Shown(decode, s.cache)), ReadOf(decode, s.db, channel, readOk))
  {
    hide EmoteDict.ChannelKey, Enrich.Decoded, DecodeAll;
  }

  /** The loop's timer and the trie it keeps up to date are those of the step system. */
  ghost predicate Mirrors(loop: Enrich.DeltaLoop, decode: Decode, s: Sys)
    reads loop, loop.dict, loop.dict.current, if loop.dict.current == null then {} else loop.dict.current.repr
  {
    loop.dict.Valid() && loop.armed == s.timer && loop.dict.Names() == Some(Shown(decode, s.cache))
  }

  /** Receiving a delta is the step `Receive`. */
  method OnDelta(loop: Enrich.DeltaLoop, ghost decode: Decode, ghost s: Sys, ghost channel: string, ghost ttl: nat)
    requires Mirrors(loop, decode, s) && s.queue > 0
    modifies loop
    ensures Mirrors(loop, decode, Next(s, channel, ttl, Receive))
  {
    hide Shown;
    loop.OnDelta();
  }

  /** The timer going off is the step `Fire`. */
  method OnTimer(
      loop: Enrich.DeltaLoop, read: Enrich.Read, ghost decode: Decode, ghost s: Sys, ghost channel: string, ghost ttl: nat,
      ghost readOk: bool)
    requires Mirrors(loop, decode, s) && loop.armed && read == ReadOf(decode, s.db, channel, readOk)
    modifies loop, loop.dict
    ensures Mirrors(loop, decode, Next(s, channel, ttl, Fire(readOk)))
  {
    hide Shown, ReadOf, ReloadStep, Enrich.Reloaded;
    ReloadShows(decode, s, channel, readOk);
    ReloadDisarms(s, channel, readOk);
    var swapped := loop.OnTimer(read);
  }

  lemma ReloadDisarms(s: Sys, channel: string, readOk: bool)
    ensures !ReloadStep(s, channel, readOk).timer
  {
  }

  /** No other step touches the loop. */
  lemma OthersLeaveTheReader(s: Sys, channel: string, ttl: nat, e: Event)
    requires !e.Receive? && !e.Fire?
    ensures Next(s, channel, ttl, e).cache == s.cache && Next(s, channel, ttl, e).timer == s.timer
  {
  }

  /** In every run the trie served shows what it started with or a whole dictionary as it was built at some moment. */
  lemma EveryRunShowsSnapshots(decode: Decode, s: Sys, channel: string, ttl: nat, events: seq<Event>)
    requires Live(s, ttl)
    ensures exists h ::
      && (h == s.cache || h in Snapshots(s, channel, ttl, events))
      && Shown(decode, Run(s, channel, ttl, events).cache) == Shown(decode, h)
  {
    hide Shown, Live;
    EveryRunServesSnapshots(s, channel, ttl, events);
    var h := Run(s, channel, ttl, events).cache;
    assert h == s.cache || h in Snapshots(s, channel, ttl, events);
  }

  /** In every run, with no delta on its way and none missed, the trie served shows the live dictionary. */
  lemma QuiescentTrieAgrees(decode: Decode, s: Sys, channel: string, ttl: nat, events: seq<Event>)
    requires Live(s, ttl) && Fresh(s, channel)
    ensures
      var t := Run(s, channel, ttl, events);
      !Pending(t) && !t.missed && EmoteDict.ChannelKey(channel) in t.db ==>
        channel in t.built && Shown(decode, t.cache) == Shown(decode, t.built[channel])
  {
    hide Shown, Live, Fresh;
    QuiescentReaderAgrees(s, channel, ttl, events);
  }
}
