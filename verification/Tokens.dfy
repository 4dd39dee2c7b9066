/**
 What tokenizing a chat message against an emote dictionary means. The server
 walks a trie and the browser walks a map; both are proved to compute the
 functions of this module.
 */
module Tokens {
  import opened Text

  datatype Emote = Emote(id: string, url: string, zw: bool, provider: string)

  type Dictionary = map<string, Emote>

  datatype Kind = TextKind | EmoteKind | MentionKind

  datatype Fragment = Fragment(t: Kind, c: string, u: string, zw: bool, id: string, provider: string)

  function TextFragment(c: string): Fragment {
    Fragment(TextKind, c, "", false, "", "")
  }

  function MentionFragment(c: string): Fragment {
    Fragment(MentionKind, c, "", false, "", "")
  }

  function EmoteFragment(name: string, e: Emote): Fragment {
    Fragment(EmoteKind, name, e.url, e.zw, e.id, e.provider)
  }

  // ---------------------------------------------------------------- zero-width chains

  /** An overlay found in a word: its name and its dictionary entry. */
  datatype Part = Part(name: string, emote: Emote)

  predicate IsZeroWidthName(d: Dictionary, s: string) {
    s in d && d[s].zw
  }

  /** `n` is the length of the longest nonempty zero-width name that `s` starts with. */
  ghost predicate IsLongestZeroWidth(d: Dictionary, s: string, n: nat) {
    && 1 <= n <= |s|
    && IsZeroWidthName(d, s[..n])
    && forall i :: n < i <= |s| ==> !IsZeroWidthName(d, s[..i])
  }

  /** `parts` consumes all of `s`, taking the longest zero-width name each time. */
  ghost predicate IsGreedyChain(d: Dictionary, s: string, parts: seq<Part>) {
    if parts == [] then s == ""
    else
      && IsLongestZeroWidth(d, s, |parts[0].name|)
      && parts[0] == Part(s[..|parts[0].name|], d[s[..|parts[0].name|]])
      && IsGreedyChain(d, s[|parts[0].name|..], parts[1..])
  }

  function Names(parts: seq<Part>): string {
    if parts == [] then "" else parts[0].name + Names(parts[1..])
  }

  /** The longest zero-width name among the prefixes of `s` up to length `n`; 0 when there is none. */
  function LongestUpTo(d: Dictionary, s: string, n: nat): nat
    requires n <= |s|
  {
    if n == 0 then 0
    else if IsZeroWidthName(d, s[..n]) then n
    else LongestUpTo(d, s, n - 1)
  }

  lemma {:induction false} LongestUpToIsLongest(d: Dictionary, s: string, n: nat)
    requires n <= |s|
    ensures LongestUpTo(d, s, n) <= n
    ensures LongestUpTo(d, s, n) > 0 ==> IsZeroWidthName(d, s[..LongestUpTo(d, s, n)])
    ensures forall i :: LongestUpTo(d, s, n) < i <= n ==> !IsZeroWidthName(d, s[..i])
  {
    if n > 0 {
      LongestUpToIsLongest(d, s, n - 1);
    }
  }

  function Chain(d: Dictionary, s: string): Option<seq<Part>>
    decreases |s|
  {
    if s == "" then Some([])
    else
      var n := LongestUpTo(d, s, |s|);
      LongestUpToIsLongest(d, s, |s|);
      if n == 0 then None
      else match Chain(d, s[n..])
        case None => None
        case Some(rest) => Some([Part(s[..n], d[s[..n]])] + rest)
  }

  /** `Chain` finds the greedy chain exactly when there is one. */
  lemma {:induction false} ChainIsGreedy(d: Dictionary, s: string, parts: seq<Part>)
    ensures IsGreedyChain(d, s, parts) <==> Chain(d, s) == Some(parts)
    decreases |s|
  {
    LongestUpToIsLongest(d, s, |s|);
    var n := LongestUpTo(d, s, |s|);
    if s != "" && n > 0 {
      if parts != [] {
        ChainIsGreedy(d, s[n..], parts[1..]);
        assert parts == [parts[0]] + parts[1..];
      }
      var rest := Chain(d, s[n..]);
      if rest.Some? {
        assert ([Part(s[..n], d[s[..n]])] + rest.value)[1..] == rest.value;
      }
    }
  }

  lemma {:induction false} GreedyChainNames(d: Dictionary, s: string, parts: seq<Part>)
    requires IsGreedyChain(d, s, parts)
    ensures Names(parts) == s
    ensures forall i :: 0 <= i < |parts| ==> parts[i].name != "" && parts[i].name in d && parts[i].emote == d[parts[i].name] && parts[i].emote.zw
    decreases |parts|
  {
    if parts != [] {
      GreedyChainNames(d, s[|parts[0].name|..], parts[1..]);
    }
  }

  // ---------------------------------------------------------------- base and overlays

  datatype Split = Split(base: string, overlays: seq<Part>)

  function SplitFrom(d: Dictionary, word: string, baseLen: nat): (r: Option<Split>)
    requires baseLen <= |word|
    ensures r.Some? ==> r.value.base in d
  {
    if baseLen == 0 then None
    else if word[..baseLen] in d && Chain(d, word[baseLen..]).Some? then
      Some(Split(word[..baseLen], Chain(d, word[baseLen..]).value))
    else SplitFrom(d, word, baseLen - 1)
  }

  function SplitSuffix(d: Dictionary, word: string): (r: Option<Split>)
    ensures r.Some? ==> r.value.base in d
  {
    if word == "" then None else SplitFrom(d, word, |word| - 1)
  }

  /** Splitting at `k` works: a dictionary name, then a remainder the greedy chain consumes. */
  ghost predicate Splits(d: Dictionary, word: string, k: nat, parts: seq<Part>) {
    && 1 <= k < |word|
    && word[..k] in d
    && IsGreedyChain(d, word[k..], parts)
  }

  lemma {:induction false} SplitFromIsLongest(d: Dictionary, word: string, baseLen: nat)
    requires baseLen < |word|
    ensures match SplitFrom(d, word, baseLen)
            case None => forall k: nat, parts :: k <= baseLen ==> !Splits(d, word, k, parts)
            case Some(s) =>
              && |s.base| <= baseLen
              && s.base == word[..|s.base|]
              && Splits(d, word, |s.base|, s.overlays)
              && forall k: nat, parts :: |s.base| < k <= baseLen ==> !Splits(d, word, k, parts)
  {
    if baseLen > 0 {
      forall parts {
        ChainIsGreedy(d, word[baseLen..], parts);
      }
      SplitFromIsLongest(d, word, baseLen - 1);
    }
  }

  /**
   The longest proper base that is a dictionary name and whose remainder is
   consumed by the greedy chain of zero-width names, if there is any.
   */
  lemma SplitSuffixIsLongest(d: Dictionary, word: string)
    ensures match SplitSuffix(d, word)
            case None => forall k: nat, parts :: !Splits(d, word, k, parts)
            case Some(s) =>
              && Splits(d, word, |s.base|, s.overlays)
              && s.base == word[..|s.base|]
              && s.overlays != []
              && s.base + Names(s.overlays) == word
              && (forall k: nat, parts :: Splits(d, word, k, parts) ==> k <= |s.base|)
              && forall parts :: Splits(d, word, |s.base|, parts) ==> parts == s.overlays
  {
    if word != "" {
      SplitFromIsLongest(d, word, |word| - 1);
      match SplitSuffix(d, word)
      case None =>
      case Some(s) =>
        GreedyChainNames(d, word[|s.base|..], s.overlays);
        forall parts {
          ChainIsGreedy(d, word[|s.base|..], parts);
        }
        ChainIsGreedy(d, word[|s.base|..], s.overlays);
    }
  }

  // ---------------------------------------------------------------- mentions

  predicate IsMentionChar(c: char) {
    'a' <= c <= 'z' || 'A' <= c <= 'Z' || '0' <= c <= '9' || c == '_'
  }

  function MentionEnd(word: string, i: nat): (end: nat)
    requires i <= |word|
    ensures i <= end <= |word|
    ensures forall k :: i <= k < end ==> IsMentionChar(word[k])
    ensures end < |word| ==> !IsMentionChar(word[end])
    decreases |word| - i
  {
    if i < |word| && IsMentionChar(word[i]) then MentionEnd(word, i + 1) else i
  }

  /** How many runes of `word` form a leading `@name`; 0 when it does not start with one. */
  function MentionLen(word: string): (n: nat)
    ensures n <= |word| && n != 1
    ensures n > 0 ==> word[0] == '@' && forall k :: 1 <= k < n ==> IsMentionChar(word[k])
    ensures n > 0 && n < |word| ==> !IsMentionChar(word[n])
    ensures n == 0 ==> |word| < 2 || word[0] != '@' || !IsMentionChar(word[1])
  {
    if |word| < 2 || word[0] != '@' then 0
    else
      var end := MentionEnd(word, 1);
      if end == 1 then 0 else end
  }

  // ---------------------------------------------------------------- the run over a message

  datatype State = State(frags: seq<Fragment>, pending: string)

  const Start: State := State([], "")

  function Flush(st: State): State {
    if st.pending == "" then st else State(st.frags + [TextFragment(st.pending)], "")
  }

  predicate EndsInEmote(frags: seq<Fragment>) {
    |frags| > 0 && frags[|frags| - 1].t.EmoteKind?
  }

  /** A blank between an emote and a zero-width emote is dropped. */
  function DropBlank(st: State, e: Emote): State {
    if e.zw && EndsInEmote(st.frags) && Blank(st.pending) then st.(pending := "") else st
  }

  function Push(st: State, f: Fragment): State {
    st.(frags := st.frags + [f])
  }

  function Overlays(parts: seq<Part>): (r: seq<Fragment>)
    ensures |r| == |parts|
    ensures forall i :: 0 <= i < |r| ==> r[i] == EmoteFragment(parts[i].name, parts[i].emote)
  {
    seq(|parts|, i requires 0 <= i < |parts| => EmoteFragment(parts[i].name, parts[i].emote))
  }

  function PushEmote(d: Dictionary, st: State, name: string): State
    requires name in d
  {
    Push(Flush(st), EmoteFragment(name, d[name]))
  }

  function PushSplit(d: Dictionary, st: State, s: Split): State
    requires s.base in d
  {
    var st1 := PushEmote(d, st, s.base);
    st1.(frags := st1.frags + Overlays(s.overlays))
  }

  function PushMention(st: State, word: string, n: nat): State
    requires n <= |word|
  {
    Push(Flush(st), MentionFragment(word[..n])).(pending := word[n..])
  }

  /** One word; `mentions` says whether `@name` becomes a fragment of its own. */
  function Word(d: Dictionary, mentions: bool, st: State, word: string): State {
    if word in d then PushEmote(d, DropBlank(st, d[word]), word)
    else
      match SplitSuffix(d, word)
      case Some(s) =>
        PushSplit(d, st, s)
      case None =>
        if mentions && MentionLen(word) > 0 then PushMention(st, word, MentionLen(word))
        else st.(pending := st.pending + word)
  }

  /** The end of the stretch of spaces (or of non-spaces) that contains position `i`. */
  function StretchEnd(s: string, spaces: bool, i: nat): (j: nat)
    requires i <= |s|
    ensures i <= j <= |s|
    ensures forall k :: i <= k < j ==> (s[k] == ' ') == spaces
    ensures j < |s| ==> (s[j] == ' ') != spaces
    decreases |s| - i
  {
    if i < |s| && (s[i] == ' ') == spaces then StretchEnd(s, spaces, i + 1) else i
  }

  lemma {:induction false} StretchEndIs(s: string, spaces: bool, i: nat, j: nat)
    requires i <= j <= |s|
    requires forall k :: i <= k < j ==> (s[k] == ' ') == spaces
    requires j < |s| ==> (s[j] == ' ') != spaces
    ensures StretchEnd(s, spaces, i) == j
    decreases j - i
  {
    if i < j {
      StretchEndIs(s, spaces, i + 1, j);
    }
  }

  function Run(d: Dictionary, mentions: bool, st: State, s: string): State
    decreases |s|
  {
    if s == "" then st
    else
      var spaces := s[0] == ' ';
      var n := StretchEnd(s, spaces, 0);
      Run(d, mentions, if spaces then st.(pending := st.pending + s[..n]) else Word(d, mentions, st, s[..n]), s[n..])
  }

  /** What the run does with the stretch `text[i..j]`, as the tokenizing loops meet it. */
  lemma RunStep(d: Dictionary, mentions: bool, st: State, text: string, i: nat, j: nat)
    requires i < j <= |text|
    requires forall k :: i <= k < j ==> (text[k] == ' ') == (text[i] == ' ')
    requires j < |text| ==> (text[j] == ' ') != (text[i] == ' ')
    ensures Run(d, mentions, st, text[i..])
         == Run(d, mentions, if text[i] == ' ' then st.(pending := st.pending + text[i..j]) else Word(d, mentions, st, text[i..j]), text[j..])
  {
    var s := text[i..];
    StretchEndIs(s, s[0] == ' ', 0, j - i);
    assert s[..j - i] == text[i..j] && s[j - i..] == text[j..];
  }

  /** The fragments of a nonempty message. */
  function Fragments(d: Dictionary, mentions: bool, text: string): seq<Fragment> {
    Flush(Run(d, mentions, Start, text)).frags
  }

  function Contents(frags: seq<Fragment>): string {
    if frags == [] then "" else Contents(frags[..|frags| - 1]) + frags[|frags| - 1].c
  }

  lemma {:induction false} ContentsAppend(a: seq<Fragment>, b: seq<Fragment>)
    ensures Contents(a + b) == Contents(a) + Contents(b)
    decreases |b|
  {
    if b == [] {
      assert a + b == a;
    } else {
      assert (a + b)[..|a + b| - 1] == a + b[..|b| - 1];
      ContentsAppend(a, b[..|b| - 1]);
    }
  }
}
