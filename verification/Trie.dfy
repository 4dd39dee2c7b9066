/** The server's emote trie and its tokenizer. */
module Trie {
  import opened Text
  import opened Tokens
  import opened TokenLaws

  class Node {
    var children: map<char, Node>
    var emote: Option<Emote>
    ghost const path: string  // the runes that lead from the root to this node

    constructor (ghost path: string)
      ensures children == map[] && emote == None && this.path == path
    {
      children, emote := map[], None;
      this.path := path;
    }
  }

  ghost predicate PrefixClosed(dom: set<string>) {
    forall p, k :: p in dom && 0 <= k <= |p| ==> p[..k] in dom
  }

  lemma SnocInjective(p: string, q: char, prefix: string, r: char)
    ensures p + [q] == prefix + [r] <==> p == prefix && q == r
  {
    assert (p + [q])[..|p|] == p && (prefix + [r])[..|prefix|] == prefix;
    assert p + [q] == prefix + [r] ==> |p| == |prefix| && (p + [q])[|p|] == (prefix + [r])[|prefix|];
  }

  /** A new child of a stored prefix is a leaf, and no other prefix gains a child. */
  lemma NewLeaf(dom: set<string>, prefix: string, r: char)
    requires PrefixClosed(dom) && prefix in dom && prefix + [r] !in dom
    ensures PrefixClosed(dom + {prefix + [r]})
    ensures forall q :: prefix + [r] + [q] !in dom + {prefix + [r]}
    ensures forall p, q :: p + [q] == prefix + [r] <==> p == prefix && q == r
  {
    var leaf := prefix + [r];
    forall p, k | p in dom + {leaf} && 0 <= k <= |p|
      ensures p[..k] in dom + {leaf}
    {
      if p == leaf {
        assert leaf[..k] == if k <= |prefix| then prefix[..k] else leaf;
      }
    }
    forall q
      ensures leaf + [q] !in dom + {leaf}
    {
      assert (leaf + [q])[..|leaf|] == leaf;
    }
    forall p, q
      ensures p + [q] == leaf <==> p == prefix && q == r
    {
      SnocInjective(p, q, prefix, r);
    }
  }

  /** What a stored prefix stands for: its node, and what the node holds. */
  datatype Link = Link(node: Node, kids: map<char, Node>, emote: Option<Emote>)

  /** A stored prefix has a child for each stored prefix that is one rune longer, and no other. */
  ghost predicate Linked(at: map<string, Link>) {
    && PrefixClosed(at.Keys)
    && (forall p, r :: p in at ==> (r in at[p].kids <==> p + [r] in at))
    && (forall p, r :: p in at && r in at[p].kids ==> at[p].kids[r] == at[p + [r]].node)
  }

  /** The names stored and their emotes. */
  ghost function NamesOf(at: map<string, Link>): Dictionary {
    map p | p in at && at[p].emote.Some? :: at[p].emote.value
  }

  ghost function WithLeaf(at: map<string, Link>, prefix: string, r: char, leaf: Node): map<string, Link>
    requires prefix in at
  {
    at[prefix + [r] := Link(leaf, map[], None)][prefix := at[prefix].(kids := at[prefix].kids[r := leaf])]
  }

  lemma WithLeafIs(at: map<string, Link>, prefix: string, r: char, leaf: Node)
    requires prefix in at && prefix + [r] !in at
    ensures var at' := WithLeaf(at, prefix, r, leaf);
      && at'.Keys == at.Keys + {prefix + [r]}
      && at'[prefix + [r]] == Link(leaf, map[], None)
      && forall p :: p in at ==> at'[p] == if p == prefix then at[p].(kids := at[p].kids[r := leaf]) else at[p]
  {
  }

  lemma LinkLeaf(at: map<string, Link>, prefix: string, r: char, leaf: Node)
    requires Linked(at) && prefix in at && r !in at[prefix].kids
    ensures prefix + [r] !in at
    ensures Linked(WithLeaf(at, prefix, r, leaf)) && NamesOf(WithLeaf(at, prefix, r, leaf)) == NamesOf(at)
  {
    hide PrefixClosed, WithLeaf;
    NewLeaf(at.Keys, prefix, r);
    WithLeafIs(at, prefix, r, leaf);
  }

  lemma FollowLink(at: map<string, Link>, prefix: string, r: char)
    requires Linked(at) && prefix in at
    ensures if r in at[prefix].kids then prefix + [r] in at && at[prefix].kids[r] == at[prefix + [r]].node
            else forall word :: prefix + [r] <= word ==> word !in at
  {
    if r !in at[prefix].kids {
      forall word | prefix + [r] <= word
        ensures word !in at
      {
        assert word[..|prefix| + 1] == prefix + [r];
      }
    }
  }

  lemma NameAt(at: map<string, Link>, name: string, e: Emote)
    requires Linked(at) && name in at
    ensures var at' := at[name := at[name].(emote := Some(e))];
      Linked(at') && NamesOf(at') == NamesOf(at)[name := e]
  {
    assert at[name := at[name].(emote := Some(e))].Keys == at.Keys;
  }

  class Trie {
    var root: Node
    ghost var at: map<string, Link>  // what each stored prefix stands for
    ghost var repr: set<Node>

    ghost predicate Valid()
      reads this, repr
    {
      && Linked(at)
      && "" in at && at[""].node == root
      && forall p :: p in at ==>
        var n := at[p].node;
        n in repr && n.path == p && n.children == at[p].kids && n.emote == at[p].emote
    }

    /** The names in the trie and their emotes. */
    ghost function Names(): Dictionary
      reads this
    {
      NamesOf(at)
    }

    constructor ()
      ensures Valid() && fresh(repr) && Names() == map[]
    {
      var n := new Node("");
      root := n;
      at := map["" := Link(n, map[], None)];
      repr := {n};
    }

    /** The child of the node at `prefix` for rune `r`, created if it does not exist. */
    method Child(n: Node, ghost prefix: string, r: char) returns (next: Node)
      requires Valid() && prefix in at && n == at[prefix].node
      modifies this`at, this`repr, n`children
      ensures Valid() && fresh(repr - old(repr))
      ensures prefix + [r] in at && next == at[prefix + [r]].node
      ensures Names() == old(Names())
    {
      hide Linked, WithLeaf, NamesOf;
      FollowLink(at, prefix, r);
      if r !in n.children {
        next := new Node(prefix + [r]);
        LinkLeaf(at, prefix, r, next);
        WithLeafIs(at, prefix, r, next);
        n.children := n.children[r := next];
        at := WithLeaf(at, prefix, r, next);
        repr := repr + {next};
      } else {
        next := n.children[r];
      }
    }

    /** Last write wins: the name now has this emote, all other names are unchanged. */
    method Insert(name: string, e: Emote)
      requires Valid()
      modifies this`at, this`repr, repr
      ensures Valid() && fresh(repr - old(repr))
      ensures Names() == old(Names())[name := e]
    {
      hide Linked, NamesOf;
      var n := root;
      for k := 0 to |name|
        invariant Valid() && fresh(repr - old(repr))
        invariant name[..k] in at && n == at[name[..k]].node
        invariant Names() == old(Names())
      {
        assert name[..k + 1] == name[..k] + [name[k]];
        n := Child(n, name[..k], name[k]);
      }
      assert name[..|name|] == name;
      NameAt(at, name, e);
      n.emote := Some(e);
      at := at[name := at[name].(emote := Some(e))];
    }

    method Match(word: string) returns (r: Option<Emote>)
      requires Valid()
      ensures r == if word in Names() then Some(Names()[word]) else None
    {
      hide Linked;
      var n := root;
      for k := 0 to |word|
        invariant word[..k] in at && n == at[word[..k]].node
      {
        assert word[..k + 1] == word[..k] + [word[k]];
        FollowLink(at, word[..k], word[k]);
        if word[k] !in n.children {
          return None;
        }
        n := n.children[word[k]];
      }
      assert word[..|word|] == word;
      return n.emote;
    }

    method MatchZeroWidthChain(text: string) returns (out: seq<Part>, ok: bool)
      requires Valid()
      ensures ok <==> text != "" && Chain(Names(), text).Some?
      ensures ok ==> out == Chain(Names(), text).value
    {
      out := [];
      var remaining := text;
      PrependPrepend([], [], Chain(Names(), text));
      while |remaining| > 0
        invariant Chain(Names(), text) == Prepend(out, Chain(Names(), remaining))
        invariant text != "" && remaining == "" ==> out != []
      {
        LongestUpToIsLongest(Names(), remaining, |remaining|);
        var bestLen := 0;
        var best := None;
        for i := 1 to |remaining| + 1
          invariant bestLen == LongestUpTo(Names(), remaining, i - 1)
          invariant bestLen <= i - 1
          invariant bestLen > 0 ==> IsZeroWidthName(Names(), remaining[..bestLen]) && best == Some(Names()[remaining[..bestLen]])
        {
          var emote := Match(remaining[..i]);
          if emote.Some? && emote.value.zw {
            bestLen := i;
            best := emote;
          }
        }
        if bestLen == 0 {
          return [], false;
        }
        PrependPrepend(out, [Part(remaining[..bestLen], best.value)], Chain(Names(), remaining[bestLen..]));
        out := out + [Part(remaining[..bestLen], best.value)];
        remaining := remaining[bestLen..];
      }
      return out, |out| > 0;
    }

    method SplitZeroWidthSuffix(word: string) returns (base: string, overlays: seq<Part>, ok: bool)
      requires Valid()
      ensures SplitSuffix(Names(), word) == if ok then Some(Split(base, overlays)) else None
    {
      var baseLen := |word| - 1;
      while baseLen > 0
        invariant -1 <= baseLen < |word|
        invariant baseLen >= 0 ==> SplitSuffix(Names(), word) == SplitFrom(Names(), word, baseLen)
        invariant baseLen == -1 ==> word == ""
      {
        var candidate := Match(word[..baseLen]);
        if candidate.Some? {
          var parts, matched := MatchZeroWidthChain(word[baseLen..]);
          if matched {
            return word[..baseLen], parts, true;
          }
        }
        baseLen := baseLen - 1;
      }
      return "", [], false;
    }

    /** The fragments of `text` over the names in the trie; the empty message is one empty text fragment. */
    method Tokenize(text: string) returns (frags: seq<Fragment>)
      requires Valid()
      ensures frags == if text == "" then [TextFragment("")] else Fragments(Names(), true, text)
    {
      if |text| == 0 {
        return [TextFragment("")];
      }
      frags := [];
      var pending := "";
      var i := 0;
      while i < |text|
        invariant 0 <= i <= |text|
        invariant Run(Names(), true, Start, text) == Run(Names(), true, State(frags, pending), text[i..])
      {
        var j := i;
        ghost var st := State(frags, pending);
        if text[i] == ' ' {
          while j < |text| && text[j] == ' '
            invariant i <= j <= |text| && forall k :: i <= k < j ==> text[k] == ' '
          {
            j := j + 1;
          }
          pending := pending + text[i..j];
        } else {
          while j < |text| && text[j] != ' '
            invariant i <= j <= |text| && forall k :: i <= k < j ==> text[k] != ' '
          {
            j := j + 1;
          }
          frags, pending := AddWord(frags, pending, text[i..j]);
        }
        RunStep(Names(), true, st, text, i, j);
        i := j;
      }
      if pending != "" {
        frags := frags + [TextFragment(pending)];
      }
    }

    /** The body of the tokenizing loop for one word. */
    method AddWord(frags0: seq<Fragment>, pending0: string, word: string) returns (frags: seq<Fragment>, pending: string)
      requires Valid()
      ensures State(frags, pending) == Word(Names(), true, State(frags0, pending0), word)
    {
      frags, pending := frags0, pending0;
      var e := Match(word);
      if e.Some? {
        frags, pending := AddEmote(frags, pending, word, e.value);
        return;
      }
      var base, overlays, split := SplitZeroWidthSuffix(word);
      if split {
        var baseEmote := Match(base);
        frags, pending := FlushText(frags, pending);
        frags := AppendOverlays(frags + [EmoteFragment(base, baseEmote.value)], overlays);
        return;
      }
      var end := SplitMentionToken(word);
      if end > 0 {
        frags, pending := FlushText(frags, pending);
        frags := frags + [MentionFragment(word[..end])];
        pending := pending + word[end..];
      } else {
        pending := pending + word;
      }
    }
  }

  method AddEmote(frags0: seq<Fragment>, pending0: string, word: string, e: Emote) returns (frags: seq<Fragment>, pending: string)
    ensures State(frags, pending) == Push(Flush(DropBlank(State(frags0, pending0), e)), EmoteFragment(word, e))
  {
    frags, pending := frags0, pending0;
    TrimSpaceEmpty(pending);
    if e.zw && |frags| > 0 && frags[|frags| - 1].t.EmoteKind? && TrimSpace(pending) == "" {
      pending := "";
    }
    frags, pending := FlushText(frags, pending);
    frags := frags + [EmoteFragment(word, e)];
  }

  method AppendOverlays(frags0: seq<Fragment>, overlays: seq<Part>) returns (frags: seq<Fragment>)
    ensures frags == frags0 + Overlays(overlays)
  {
    frags := frags0;
    for k := 0 to |overlays|
      invariant frags == frags0 + Overlays(overlays)[..k]
    {
      frags := frags + [EmoteFragment(overlays[k].name, overlays[k].emote)];
    }
  }

  function Prepend(out: seq<Part>, rest: Option<seq<Part>>): Option<seq<Part>> {
    if rest.None? then None else Some(out + rest.value)
  }

  lemma PrependPrepend(a: seq<Part>, b: seq<Part>, rest: Option<seq<Part>>)
    ensures Prepend(a, Prepend(b, rest)) == Prepend(a + b, rest)
    ensures Prepend([], rest) == rest
  {
    if rest.Some? {
      assert [] + rest.value == rest.value;
      assert a + (b + rest.value) == a + b + rest.value;
    }
  }

  method FlushText(frags0: seq<Fragment>, pending0: string) returns (frags: seq<Fragment>, pending: string)
    ensures State(frags, pending) == Flush(State(frags0, pending0))
  {
    frags, pending := frags0, pending0;
    if pending != "" {
      frags := frags + [TextFragment(pending)];
      pending := "";
    }
  }

  method SplitMentionToken(word: string) returns (end: nat)
    ensures end == MentionLen(word)
  {
    if |word| < 2 || word[0] != '@' {
      return 0;
    }
    end := 1;
    while end < |word|
      invariant 1 <= end <= |word|
      invariant MentionEnd(word, 1) == MentionEnd(word, end)
    {
      var ch := word[end];
      if 'a' <= ch <= 'z' || 'A' <= ch <= 'Z' || '0' <= ch <= '9' || ch == '_' {
        end := end + 1;
        continue;
      }
      break;
    }
    if end == 1 {
      end := 0;
    }
  }

  /** Inserts in the order they are made; a value that does not decode is `None` and not inserted. */
  type Inserts = seq<(string, Option<Emote>)>

  /** Last write wins. */
  function Entries(h: Inserts): Dictionary {
    if h == [] then map[]
    else
      var d := Entries(h[..|h| - 1]);
      var (name, e) := h[|h| - 1];
      if e.Some? then d[name := e.value] else d
  }

  lemma {:induction false} LastWriteWins(h: Inserts, name: string)
    ensures name in Entries(h) <==> exists k :: 0 <= k < |h| && h[k].0 == name && h[k].1.Some?
    ensures name in Entries(h) ==> exists k ::
      && 0 <= k < |h| && h[k] == (name, Some(Entries(h)[name]))
      && forall j :: k < j < |h| && h[j].0 == name ==> h[j].1.None?
  {
    if h != [] {
      var n := |h| - 1;
      LastWriteWins(h[..n], name);
      if h[n].0 == name && h[n].1.Some? {
        assert h[n] == (name, Some(Entries(h)[name]));
      } else if name in Entries(h) {
        var k :| 0 <= k < n && h[..n][k] == (name, Some(Entries(h)[name])) && forall j :: k < j < n && h[..n][j].0 == name ==> h[..n][j].1.None?;
        assert h[k] == (name, Some(Entries(h)[name]));
        forall j | k < j < |h| && h[j].0 == name
          ensures h[j].1.None?
        {
          if j < n {
            assert h[..n][j] == h[j];
          }
        }
      }
    }
  }

  method InsertAll(h: Inserts) returns (t: Trie)
    ensures t.Valid() && fresh(t) && fresh(t.repr) && t.Names() == Entries(h)
  {
    t := new Trie();
    for k := 0 to |h|
      invariant t.Valid() && fresh(t) && fresh(t.repr) && t.Names() == Entries(h[..k])
    {
      var (name, e) := h[k];
      assert h[..k + 1][..k] == h[..k];
      if e.Some? {
        t.Insert(name, e.value);
      }
    }
    assert h[..|h|] == h;
  }

  /** The dictionary a channel serves: a trie that is swapped as a whole, or none yet. */
  class ChannelDict {
    var current: Trie?

    constructor ()
      ensures current == null
    {
      current := null;
    }

    ghost predicate Valid()
      reads this, current, if current == null then {} else current.repr
    {
      current != null ==> current.Valid()
    }

    /** The names served, if any. */
    ghost function Names(): Option<Dictionary>
      reads this, current
    {
      if current == null then None else Some(current.Names())
    }

    method Swap(t: Trie)
      modifies this
      ensures current == t
    {
      current := t;
    }

    method Tokenize(text: string) returns (frags: seq<Fragment>)
      requires Valid()
      ensures frags == ServedFragments(Names(), text)
    {
      if current == null {
        return [TextFragment(text)];
      }
      frags := current.Tokenize(text);
    }
  }

  function ServedFragments(d: Option<Dictionary>, text: string): seq<Fragment> {
    if d.None? || text == "" then [TextFragment(text)] else Fragments(d.value, true, text)
  }

  /** Whatever is served, nothing but blanks between an emote and a zero-width emote is lost. */
  lemma ServedFragmentsSpell(d: Option<Dictionary>, text: string)
    ensures Spells(ServedFragments(d, text), text)
  {
    if d.None? || text == "" {
      SpellsExactly([TextFragment(text)]);
      ContentsPush([], TextFragment(text));
      assert [] + [TextFragment(text)] == [TextFragment(text)];
    } else {
      TokenizingIsLossless(d.value, true, text);
    }
  }
}
