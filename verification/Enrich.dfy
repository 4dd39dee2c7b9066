/** The reader of the emote dictionaries: one cached trie per channel, reloaded after deltas. */
module Enrich {
  import opened Text
  import opened Tokens
  import opened TokenLaws
  import opened Trie
  import opened EmotesTag
  import opened NativeEmotes
  import opened Blanks

  /** What reading a channel's hash came to; a value that does not decode is `None`. */
  datatype Read = Hit(hash: map<string, Option<Emote>>) | Missing | Failed

  /** The decoded entries of a hash. */
  function Decoded(hash: map<string, Option<Emote>>): Dictionary {
    map name | name in hash && hash[name].Some? :: hash[name].value
  }

  /** Inserts every entry that decodes, in whatever order the map is walked. */
  method LoadTrie(hash: map<string, Option<Emote>>) returns (t: Trie)
    ensures t.Valid() && fresh(t) && fresh(t.repr) && t.Names() == Decoded(hash)
  {
    t := new Trie();
    var names := hash.Keys;
    while names != {}
      invariant names <= hash.Keys
      invariant t.Valid() && fresh(t) && fresh(t.repr)
      invariant t.Names() == map name | name in hash && name !in names && hash[name].Some? :: hash[name].value
      decreases names
    {
      var name :| name in names;
      names := names - {name};
      if hash[name].Some? {
        t.Insert(name, hash[name].value);
      }
    }
  }

  /** What a channel serves after a reload: the whole hash read, or what it served before. */
  function Reloaded(served: Option<Dictionary>, read: Read): Option<Dictionary> {
    if read.Hit? then Some(Decoded(read.hash)) else served
  }

  /** Re-reads a channel's dictionary and swaps it in as a whole; reports whether it did. */
  method Reload(dict: ChannelDict, read: Read) returns (swapped: bool)
    requires dict.Valid()
    modifies dict
    ensures dict.Valid() && swapped == read.Hit?
    ensures dict.Names() == Reloaded(old(dict.Names()), read)
  {
    if !read.Hit? {
      return false;
    }
    var t := LoadTrie(read.hash);
    dict.Swap(t);
    return true;
  }

  /** The debounce loop of one channel: deltas received from the subscription arm the timer, the timer reloads. */
  class DeltaLoop {
    const dict: ChannelDict
    var armed: bool

    constructor (dict: ChannelDict)
      ensures this.dict == dict && !armed
    {
      this.dict := dict;
      armed := false;
    }

    method OnDelta()
      modifies this
      ensures armed
    {
      armed := true;
    }

    method OnTimer(read: Read) returns (swapped: bool)
      requires armed && dict.Valid()
      modifies this, dict
      ensures !armed && dict.Valid() && swapped == read.Hit?
      ensures dict.Names() == Reloaded(old(dict.Names()), read)
    {
      armed := false;
      swapped := Reload(dict, read);
    }
  }

  /** What a message becomes; None when splicing panics. */
  function MessageFragments(d: Option<Dictionary>, text: string, native: seq<EmoteRange>): Option<seq<Fragment>>
    requires WellFormed(native)
  {
    if native == [] then Some(ServedFragments(d, text)) else Splice(d, text, 0, native)
  }

  lemma MessageIsSpelled(d: Option<Dictionary>, text: string, native: seq<EmoteRange>)
    requires WellFormed(native)
    ensures
      match MessageFragments(d, text, native)
      case Some(frags) => !EndsAtMax(Kept(native, |text|, 0)) && Spells(frags, text)
      case None => EndsAtMax(Kept(native, |text|, 0))
  {
    hide Splice, Spells;
    ServedFragmentsSpell(d, text);
    SplicedMessageIsSpelled(d, text, native);
  }

  /** A message's fragments spell it without the blanks dropped around the native emotes that are kept. */
  lemma MessageContents(d: Option<Dictionary>, text: string, native: seq<EmoteRange>)
    requires text != "" && WellFormed(native) && MessageFragments(d, text, native).Some?
    ensures Contents(MessageFragments(d, text, native).value) == Keep(text, ServerDropped(d, text, native), 0, |text|)
  {
    hide Splice, DroppedIn, Disjoint;
    if native == [] {
      KeptAreDisjoint(native, |text|, 0);
      BetweenContents(d, text, 0, |text|);
      assert text[0..|text|] == text;
    } else {
      SplicedContents(d, text, 0, native);
    }
  }

  class Enricher {
    var dicts: map<string, ChannelDict>

    constructor ()
      ensures dicts == map[]
    {
      dicts := map[];
    }

    /** The channel's dictionary; on first use it is what Redis holds, or empty when there is nothing to read. */
    method Ensure(channel: string, read: Read) returns (d: ChannelDict)
      requires channel in dicts ==> dicts[channel].Valid()
      modifies this
      ensures d.Valid()
      ensures if channel in old(dicts) then dicts == old(dicts) && d == dicts[channel]
              else dicts == old(dicts)[channel := d] && d.Names() == Reloaded(Some(map[]), read)
    {
      if channel in dicts {
        return dicts[channel];
      }
      d := new ChannelDict();
      dicts := dicts[channel := d];
      if read.Hit? {
        var t := LoadTrie(read.hash);
        d.Swap(t);
      } else {
        var t := new Trie();
        d.Swap(t);
      }
    }

    /**
     A message's fragments: the channel's dictionary alone, or spliced around native
     emotes. They spell the message, unless a span that is kept makes splicing panic.
     */
    method Tokenize(channel: string, text: string, native: seq<EmoteRange>, read: Read) returns (r: Option<seq<Fragment>>)
      requires channel in dicts ==> dicts[channel].Valid()
      requires WellFormed(native)
      modifies this
      ensures channel in dicts && r == MessageFragments(dicts[channel].Names(), text, native)
      ensures r.None? <==> EndsAtMax(Kept(native, |text|, 0))
      ensures r.Some? ==> Spells(r.value, text)
    {
      hide Splice, EndsAtMax, Spells;
      var d := Ensure(channel, read);
      MessageIsSpelled(d.Names(), text, native);
      if |native| == 0 {
        var frags := d.Tokenize(text);
        r := Some(frags);
      } else {
        r := TokenizeWithNative(d, text, native);
      }
    }
  }
}
