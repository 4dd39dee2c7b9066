/** The token-redaction chokepoint. The six patterns are matched character by character. */
module Redact {
  import opened Text

  const PLACEHOLDER := "<redacted>"

  // ---------------------------------------------------------------- what the patterns match

  datatype Pattern = Bearer | Refresh | Access | AuthToken | Oauth

  predicate IsAlnum(c: char) {
    'A' <= c <= 'Z' || 'a' <= c <= 'z' || '0' <= c <= '9'
  }

  /** `[A-Za-z0-9]` when case is ignored: the long s and the Kelvin sign fold into it. */
  predicate IsFoldedAlnum(c: char) {
    IsAlnum(c) || c == '\U{017F}' || c == '\U{212A}'
  }

  predicate IsWhite(c: char) {
    c == ' ' || c == '\t' || c == '\n' || c == '\U{000C}' || c == '\r'
  }

  /** Word characters, for `\b`. */
  predicate IsWordChar(c: char) {
    IsAlnum(c) || c == '_'
  }

  /** `c` matches the lower-case pattern character `l` when case is ignored. */
  predicate Folds(c: char, l: char) {
    || c == l
    || ('a' <= l <= 'z' && c as int == l as int - 32)
    || (l == 's' && c == '\U{017F}')
    || (l == 'k' && c == '\U{212A}')
  }

  predicate FoldsTo(s: string, lit: string) {
    |s| == |lit| && forall x :: 0 <= x < |lit| ==> Folds(s[x], lit[x])
  }

  function Keyword(p: Pattern): string {
    match p
    case Bearer => "bearer"
    case Refresh => "refresh"
    case Access => "access"
    case AuthToken => "auth"
    case Oauth => "oauth:"
  }

  /** The fixed words in front of the separators. */
  predicate IsHead(p: Pattern, s: string) {
    if p.Bearer? || p.Oauth? then FoldsTo(s, Keyword(p))
    else FoldsTo(s, Keyword(p) + "token") || FoldsTo(s, Keyword(p) + "_token") || FoldsTo(s, Keyword(p) + "-token")
  }

  predicate IsSeparator(p: Pattern, c: char) {
    match p
    case Bearer => IsWhite(c)
    case Oauth => false
    case _ => c == '"' || c == '\'' || c == '=' || c == ':' || IsWhite(c)
  }

  predicate IsValue(p: Pattern, c: char) {
    if p.Oauth? then IsFoldedAlnum(c)
    else IsFoldedAlnum(c) || c == '.' || c == '_' || c == '~' || c == '+' || c == '/' || c == '=' || c == '-'
  }

  function MinSeparators(p: Pattern): nat {
    if p.Oauth? then 0 else 1
  }

  /** `s` is a head of length `h`, separators up to `k`, and a nonempty value. */
  ghost predicate IsSecretAt(p: Pattern, s: string, h: nat, k: nat) {
    && h + MinSeparators(p) <= k < |s|
    && IsHead(p, s[..h])
    && (forall x :: h <= x < k ==> IsSeparator(p, s[x]))
    && (forall x :: k <= x < |s| ==> IsValue(p, s[x]))
  }

  ghost predicate IsSecret(p: Pattern, s: string) {
    exists h, k :: IsSecretAt(p, s, h, k)
  }

  /** `\b` in front of `bearer`; the other patterns start anywhere. */
  predicate MayStart(p: Pattern, s: string, i: nat)
    requires i <= |s|
  {
    p.Bearer? && i > 0 ==> !IsWordChar(s[i - 1])
  }

  /** The pattern matches the characters of `s` from `i` to `j`. */
  ghost predicate Matches(p: Pattern, s: string, i: nat, j: nat) {
    i <= j <= |s| && MayStart(p, s, i) && IsSecret(p, s[i..j])
  }

  ghost predicate Free(p: Pattern, s: string) {
    forall i: nat, j: nat :: !Matches(p, s, i, j)
  }

  // ---------------------------------------------------------------- the matcher

  predicate LitAt(s: string, i: nat, lit: string) {
    i + |lit| <= |s| && FoldsTo(s[i..i + |lit|], lit)
  }

  /** The end of the head that starts at `i`. */
  function HeadEnd(p: Pattern, s: string, i: nat): (r: Option<nat>)
    ensures r.Some? ==> i < r.value <= |s|
  {
    if !LitAt(s, i, Keyword(p)) then None
    else
      var m := i + |Keyword(p)|;
      if p.Bearer? || p.Oauth? then Some(m)
      else
        var t := if m < |s| && (s[m] == '_' || s[m] == '-') then m + 1 else m;
        if LitAt(s, t, "token") then Some(t + 5) else None
  }

  function RunEnd(s: string, f: char -> bool, i: nat): (j: nat)
    requires i <= |s|
    ensures i <= j <= |s|
    ensures forall x :: i <= x < j ==> f(s[x])
    ensures j < |s| ==> !f(s[j])
    decreases |s| - i
  {
    if i < |s| && f(s[i]) then RunEnd(s, f, i + 1) else i
  }

  /** The last position from `low` to `k` where a value can start: greedy separators, given back one by one. */
  function ValueStart(p: Pattern, s: string, low: nat, k: nat): (r: Option<nat>)
    requires k <= |s|
    ensures r.Some? ==> low <= r.value <= k && r.value < |s| && IsValue(p, s[r.value])
    ensures forall x :: low <= x <= k && x < |s| && (r.Some? ==> r.value < x) ==> !IsValue(p, s[x])
    decreases k
  {
    if k < low then None
    else if k < |s| && IsValue(p, s[k]) then Some(k)
    else if k == 0 then None
    else ValueStart(p, s, low, k - 1)
  }

  /** Where the preferred match that starts at `i` ends: as many separators as possible, then as long a value as possible. */
  function MatchEnd(p: Pattern, s: string, i: nat): (r: Option<nat>)
    requires i <= |s|
    ensures r.Some? ==> i < r.value <= |s|
  {
    if !MayStart(p, s, i) then None
    else
      var h := HeadEnd(p, s, i);
      if h.None? then None
      else
        var e := RunEnd(s, c => IsSeparator(p, c), h.value);
        var k := ValueStart(p, s, h.value + MinSeparators(p), e);
        if k.None? then None else Some(RunEnd(s, c => IsValue(p, c), k.value))
  }

  lemma FoldsToParts(s: string, a: string, b: string)
    ensures FoldsTo(s, a + b) <==> |s| == |a| + |b| && FoldsTo(s[..|a|], a) && FoldsTo(s[|a|..], b)
  {
    if |s| == |a| + |b| {
      assert forall x :: 0 <= x < |a| ==> (a + b)[x] == a[x] && s[..|a|][x] == s[x];
      assert forall x :: |a| <= x < |s| ==> (a + b)[x] == b[x - |a|] && s[|a|..][x - |a|] == s[x];
    }
  }

  lemma LitsAt(s: string, i: nat, h: nat, a: string, b: string)
    requires i <= h <= |s|
    ensures FoldsTo(s[i..h], a + b) <==> LitAt(s, i, a) && LitAt(s, i + |a|, b) && h == i + |a| + |b|
  {
    FoldsToParts(s[i..h], a, b);
    if h == i + |a| + |b| {
      assert s[i..h][..|a|] == s[i..i + |a|] && s[i..h][|a|..] == s[i + |a|..i + |a| + |b|];
    }
  }

  lemma DashedToken(s: string, m: nat, dash: char)
    requires dash == '_' || dash == '-'
    ensures LitAt(s, m, [dash] + "token") <==> m < |s| && s[m] == dash && LitAt(s, m + 1, "token")
  {
    if m + 6 <= |s| {
      LitsAt(s, m, m + 6, [dash], "token");
      assert s[m..m + 1] == [s[m]];
      assert FoldsTo([s[m]], [dash]) <==> Folds(s[m], dash);
    }
  }

  lemma PlainToken(s: string, m: nat)
    ensures LitAt(s, m, "token") ==> s[m] != '_' && s[m] != '-'
  {
    assert LitAt(s, m, "token") ==> Folds(s[m..m + 5][0], "token"[0]);
  }

  /** The optional `_` or `-` in front of `token` is taken when it is there. */
  lemma OptionalDash(s: string, m: nat, h: nat)
    ensures
      var t := if m < |s| && (s[m] == '_' || s[m] == '-') then m + 1 else m;
      LitAt(s, t, "token") && h == t + 5
      <==> (LitAt(s, m, "token") && h == m + 5) || (LitAt(s, m, "_token") && h == m + 6) || (LitAt(s, m, "-token") && h == m + 6)
  {
    hide LitAt;
    DashedToken(s, m, '_');
    DashedToken(s, m, '-');
    assert ['_'] + "token" == "_token" && ['-'] + "token" == "-token";
    PlainToken(s, m);
  }

  lemma HeadEndIsHead(p: Pattern, s: string, i: nat, h: nat)
    requires i <= h <= |s|
    ensures HeadEnd(p, s, i) == Some(h) <==> IsHead(p, s[i..h])
  {
    hide LitAt, FoldsTo;
    var w := Keyword(p);
    assert w + "" == w;
    LitsAt(s, i, h, w, "");
    LitsAt(s, i, h, w, "token");
    LitsAt(s, i, h, w, "_token");
    LitsAt(s, i, h, w, "-token");
    OptionalDash(s, i + |w|, h);
    EmptyLit(s, i, w);
  }

  lemma EmptyLit(s: string, i: nat, w: string)
    ensures LitAt(s, i, w) ==> LitAt(s, i + |w|, "")
  {
  }

  lemma ExactMatch(p: Pattern, s: string, i: nat, j: nat, h: nat, k: nat)
    requires i <= j <= |s|
    ensures IsSecretAt(p, s[i..j], h, k) <==>
      && i + h <= j && h + MinSeparators(p) <= k < j - i
      && HeadEnd(p, s, i) == Some(i + h)
      && (forall x :: i + h <= x < i + k ==> IsSeparator(p, s[x]))
      && (forall x :: i + k <= x < j ==> IsValue(p, s[x]))
  {
    hide IsHead, HeadEnd, IsSeparator, IsValue;
    var w := s[i..j];
    assert forall x :: 0 <= x < |w| ==> w[x] == s[i + x];
    assert forall x :: i <= x < j ==> s[x] == w[x - i];
    if h <= |w| {
      assert w[..h] == s[i..i + h];
      HeadEndIsHead(p, s, i, i + h);
    }
  }

  /** The matcher finds the longest match that starts at `i`, if any; a longer value would not match. */
  lemma MatchEndIsLongest(p: Pattern, s: string, i: nat)
    requires i <= |s|
    ensures match MatchEnd(p, s, i)
            case None => forall j: nat :: !Matches(p, s, i, j)
            case Some(j) =>
              && Matches(p, s, i, j)
              && (forall j': nat :: Matches(p, s, i, j') ==> j' <= j)
              && (j < |s| ==> !IsValue(p, s[j]))
  {
    hide HeadEnd, IsSeparator, IsValue, IsSecretAt;
    var r := MatchEnd(p, s, i);
    if r.Some? {
      var h := HeadEnd(p, s, i).value;
      var e := RunEnd(s, c => IsSeparator(p, c), h);
      var k := ValueStart(p, s, h + MinSeparators(p), e).value;
      ExactMatch(p, s, i, r.value, h - i, k - i);
    }
    forall j: nat | Matches(p, s, i, j)
      ensures r.Some? && j <= r.value
    {
      var h, k :| IsSecretAt(p, s[i..j], h, k);
      ExactMatch(p, s, i, j, h, k);
      AnyMatchIsShorter(p, s, i, j, i + h, i + k);
    }
  }

  lemma AnyMatchIsShorter(p: Pattern, s: string, i: nat, j: nat, h: nat, k: nat)
    requires i <= |s| && MayStart(p, s, i) && HeadEnd(p, s, i) == Some(h)
    requires h + MinSeparators(p) <= k < j <= |s|
    requires forall x :: h <= x < k ==> IsSeparator(p, s[x])
    requires forall x :: k <= x < j ==> IsValue(p, s[x])
    ensures MatchEnd(p, s, i).Some? && j <= MatchEnd(p, s, i).value
  {
    hide HeadEnd, IsSeparator, IsValue;
    var e := RunEnd(s, c => IsSeparator(p, c), h);
    assert k <= e && IsValue(p, s[k]);
    var v := ValueStart(p, s, h + MinSeparators(p), e);
    assert v.Some? && k <= v.value;
  }

  // ---------------------------------------------------------------- cutting out what matched

  datatype Loc = Loc(start: nat, end: nat)

  /** Nonempty stretches of `s`, in order and disjoint, from `from` on. */
  predicate InOrder(s: string, locs: seq<Loc>, from: nat) {
    if locs == [] then from <= |s|
    else from <= locs[0].start < locs[0].end <= |s| && InOrder(s, locs[1..], locs[0].end)
  }

  lemma {:induction false} InOrderFits(s: string, locs: seq<Loc>, from: nat)
    requires InOrder(s, locs, from)
    ensures from <= |s|
    ensures forall n :: 0 <= n < |locs| ==> from <= locs[n].start < locs[n].end <= |s|
  {
    if locs != [] {
      InOrderFits(s, locs[1..], locs[0].end);
    }
  }

  /** `s` from `from` on, with the placeholder in place of every stretch. */
  function Cut(s: string, locs: seq<Loc>, from: nat): string
    requires InOrder(s, locs, from)
  {
    if locs == [] then s[from..]
    else s[from..locs[0].start] + PLACEHOLDER + Cut(s, locs[1..], locs[0].end)
  }

  ghost predicate InGap(locs: seq<Loc>, i: nat, j: nat) {
    forall n :: 0 <= n < |locs| ==> j <= locs[n].start || locs[n].end <= i
  }

  /** Not made of characters of the placeholder alone, and free of its brackets. */
  ghost predicate Foreign(w: string) {
    && '<' !in w && '>' !in w
    && forall a, b :: 0 <= a <= b <= 8 ==> w != "redacted"[a..b]
  }

  /** What was around `[x, y)` in the cut text is what was around `[i, j)` in `s`, or a stretch was cut there. */
  ghost predicate SameSurroundings(s: string, locs: seq<Loc>, from: nat, x: nat, y: nat, i: nat, j: nat)
    requires InOrder(s, locs, from)
  {
    var out := Cut(s, locs, from);
    && from <= i < j <= |s| && x < y <= |out| && s[i] == out[x] && s[j - 1] == out[y - 1]
    && (if x == 0 then i == from else (i > from && s[i - 1] == out[x - 1]) || exists n :: 0 <= n < |locs| && locs[n].end == i)
    && (if y == |out| then j == |s| else (j < |s| && s[j] == out[y]) || exists n :: 0 <= n < |locs| && locs[n].start == j)
  }

  /** The text up to the first cut, the placeholder, and the rest. */
  lemma CutParts(s: string, locs: seq<Loc>, from: nat)
    requires InOrder(s, locs, from) && locs != []
    ensures var out, g, rest := Cut(s, locs, from), locs[0].start - from, Cut(s, locs[1..], locs[0].end);
      && |out| == g + 10 + |rest|
      && (forall x :: 0 <= x < g ==> out[x] == s[from + x])
      && out[g] == '<' && out[g + 1..g + 9] == "redacted" && out[g + 9] == '>'
      && (forall x :: g + 10 <= x < |out| ==> out[x] == rest[x - g - 10])
  {
    PartsOf(s[from..locs[0].start], Cut(s, locs[1..], locs[0].end));
  }

  lemma PartsOf(before: string, rest: string)
    ensures var out, g := before + PLACEHOLDER + rest, |before|;
      && (forall x :: 0 <= x < g ==> out[x] == before[x])
      && out[g] == '<' && out[g + 1..g + 9] == "redacted" && out[g + 9] == '>'
      && (forall x :: g + 10 <= x < |out| ==> out[x] == rest[x - g - 10])
  {
  }

  lemma Within(s: string, a: nat, b: nat, t: string, x: nat, y: nat)
    requires a <= x <= y <= b <= |s| && s[a..b] == t
    ensures s[x..y] == t[x - a..y - a]
  {
    assert forall k :: 0 <= k < y - x ==> s[x..y][k] == s[a..b][x - a..y - a][k];
  }

  lemma InSlice(s: string, x: nat, y: nat, t: nat)
    requires x <= t < y <= |s|
    ensures s[t] in s[x..y]
  {
    assert s[x..y][t - x] == s[t];
  }

  lemma OutsidePlaceholder(out: string, g: nat, x: nat, y: nat)
    requires g + 10 <= |out| && out[g] == '<' && out[g + 1..g + 9] == "redacted" && out[g + 9] == '>'
    requires x < y <= |out| && Foreign(out[x..y])
    ensures y <= g || g + 10 <= x
  {
    if x <= g < y {
      InSlice(out, x, y, g);
    } else if x <= g + 9 < y {
      InSlice(out, x, y, g + 9);
    } else if g < x && y <= g + 9 {
      Within(out, g + 1, g + 9, "redacted", x, y);
    }
  }

  /** Text that is foreign to the placeholder and survives the cut lies between two cuts. */
  lemma {:induction false} Locate(s: string, locs: seq<Loc>, from: nat, x: nat, y: nat) returns (i: nat, j: nat)
    requires InOrder(s, locs, from)
    requires x < y <= |Cut(s, locs, from)| && Foreign(Cut(s, locs, from)[x..y])
    ensures from <= i < j <= |s| && s[i..j] == Cut(s, locs, from)[x..y]
    ensures InGap(locs, i, j)
    ensures SameSurroundings(s, locs, from, x, y, i, j)
    decreases |locs|
  {
    hide Cut, Foreign, InGap, SameSurroundings;
    InOrderFits(s, locs, from);
    if locs == [] {
      LocateBefore(s, locs, from, x, y);
      i, j := from + x, from + y;
    } else {
      var out, g, next := Cut(s, locs, from), locs[0].start - from, locs[1..];
      CutParts(s, locs, from);
      OutsidePlaceholder(out, g, x, y);
      if y <= g {
        LocateBefore(s, locs, from, x, y);
        i, j := from + x, from + y;
      } else {
        var rest := Cut(s, next, locs[0].end);
        assert out[x..y] == rest[x - g - 10..y - g - 10];
        i, j := Locate(s, next, locs[0].end, x - g - 10, y - g - 10);
        LocateAfter(s, locs, from, x, y, i, j, g);
      }
    }
  }

  /** In front of the first cut nothing moves. */
  lemma LocateBefore(s: string, locs: seq<Loc>, from: nat, x: nat, y: nat)
    requires InOrder(s, locs, from) && x < y <= |Cut(s, locs, from)|
    requires locs != [] ==> y <= locs[0].start - from
    ensures from + y <= |s| && s[from + x..from + y] == Cut(s, locs, from)[x..y]
    ensures InGap(locs, from + x, from + y)
    ensures SameSurroundings(s, locs, from, x, y, from + x, from + y)
  {
    hide Cut;
    InOrderFits(s, locs, from);
    if locs == [] {
      CutOfNothing(s, from);
      assert s[from..][x..y] == s[from + x..from + y];
    } else {
      CutParts(s, locs, from);
      InOrderFits(s, locs[1..], locs[0].end);
      assert forall n :: 0 < n < |locs| ==> locs[n] == locs[1..][n - 1];
      assert y == locs[0].start - from ==> locs[0].start == from + y;
    }
  }

  lemma CutOfNothing(s: string, from: nat)
    requires from <= |s|
    ensures Cut(s, [], from) == s[from..]
  {
  }

  /** Behind the first cut everything moves together. */
  lemma LocateAfter(s: string, locs: seq<Loc>, from: nat, x: nat, y: nat, i: nat, j: nat, g: nat)
    requires InOrder(s, locs, from) && locs != [] && g == locs[0].start - from && x >= g + 10 && y >= g + 10
    requires InGap(locs[1..], i, j) && SameSurroundings(s, locs[1..], locs[0].end, x - g - 10, y - g - 10, i, j)
    ensures InGap(locs, i, j) && SameSurroundings(s, locs, from, x, y, i, j)
  {
    hide Cut;
    CutParts(s, locs, from);
    var next := locs[1..];
    assert forall n :: 0 <= n < |next| ==> next[n] == locs[n + 1];
    assert x == g + 10 ==> locs[0].end == i;
  }

  // ---------------------------------------------------------------- one labelled pass

  function Locs(p: Pattern, s: string, i: nat): (r: seq<Loc>)
    requires i <= |s|
    ensures InOrder(s, r, i)
    decreases |s| - i
  {
    if i == |s| then []
    else match MatchEnd(p, s, i)
      case None => WeakenOrder(s, Locs(p, s, i + 1), i + 1, i); Locs(p, s, i + 1)
      case Some(j) => [Loc(i, j)] + Locs(p, s, j)
  }

  lemma WeakenOrder(s: string, locs: seq<Loc>, from: nat, from': nat)
    requires InOrder(s, locs, from) && from' <= from
    ensures InOrder(s, locs, from')
  {
  }

  function Pass(p: Pattern, s: string): string {
    Cut(s, Locs(p, s, 0), 0)
  }

  /** One position of the scan: cut at a match, move on otherwise. */
  lemma PassStep(p: Pattern, s: string, i: nat, last: nat, done: string)
    requires last <= i < |s| && InOrder(s, Locs(p, s, i), last)
    ensures match MatchEnd(p, s, i)
            case None =>
              InOrder(s, Locs(p, s, i + 1), last) && Cut(s, Locs(p, s, i + 1), last) == Cut(s, Locs(p, s, i), last)
            case Some(j) =>
              done + Cut(s, Locs(p, s, i), last) == done + s[last..i] + PLACEHOLDER + Cut(s, Locs(p, s, j), j)
  {
    hide MatchEnd, Cut;
    match MatchEnd(p, s, i)
    case None =>
      WeakenOrder(s, Locs(p, s, i + 1), i + 1, last);
    case Some(j) =>
      CutFirst(s, Loc(i, j), Locs(p, s, j), last, done);
  }

  lemma CutFirst(s: string, l: Loc, locs: seq<Loc>, from: nat, done: string)
    requires InOrder(s, [l] + locs, from) && InOrder(s, locs, l.end)
    ensures done + Cut(s, [l] + locs, from) == done + s[from..l.start] + PLACEHOLDER + Cut(s, locs, l.end)
  {
    assert ([l] + locs)[1..] == locs;
  }

  method ReplaceAll(p: Pattern, s: string) returns (out: string)
    ensures out == Pass(p, s)
  {
    hide MatchEnd, Cut, InOrder, Locs;
    out := "";
    var i: nat, last: nat := 0, 0;
    while i < |s|
      invariant 0 <= last <= i <= |s|
      invariant InOrder(s, Locs(p, s, i), last)
      invariant Pass(p, s) == out + Cut(s, Locs(p, s, i), last)
    {
      var e := MatchEnd(p, s, i);
      PassStep(p, s, i, last, out);
      if e.Some? {
        out := out + s[last..i] + PLACEHOLDER;
        last, i := e.value, e.value;
      } else {
        i := i + 1;
      }
    }
    NoMoreLocs(p, s);
    CutOfNothing(s, last);
    out := out + s[last..];
  }

  lemma NoMoreLocs(p: Pattern, s: string)
    ensures Locs(p, s, |s|) == []
  {
  }

  /** The scan skips no match: none starts between two of the stretches it cuts. */
  lemma {:induction false} LocsMissNothing(p: Pattern, s: string, from: nat, i: nat, j: nat)
    requires from <= i && Matches(p, s, i, j) && InGap(Locs(p, s, from), i, j) && from <= |s|
    ensures false
    decreases |s| - from
  {
    hide IsSecret, MayStart, MatchEnd;
    MatchIsNonempty(p, s, i, j);
    MatchEndIsLongest(p, s, from);
    match MatchEnd(p, s, from)
    case None =>
      LocsMissNothing(p, s, from + 1, i, j);
    case Some(e) =>
      var next := Locs(p, s, e);
      assert Locs(p, s, from)[0] == Loc(from, e);
      assert forall n :: 0 <= n < |next| ==> next[n] == Locs(p, s, from)[n + 1];
      LocsMissNothing(p, s, e, i, j);
  }

  lemma MatchIsNonempty(p: Pattern, s: string, i: nat, j: nat)
    requires Matches(p, s, i, j)
    ensures i < j
  {
  }

  /** No stretch is followed by a character that could have been part of its value. */
  lemma {:induction false} LocsEndValues(p: Pattern, s: string, from: nat)
    requires from <= |s|
    ensures forall n :: 0 <= n < |Locs(p, s, from)| ==>
      var e := Locs(p, s, from)[n].end;
      e <= |s| && (e < |s| ==> !IsValue(p, s[e]))
    decreases |s| - from
  {
    hide IsValue, MatchEnd, Matches;
    if from < |s| {
      MatchEndIsLongest(p, s, from);
      match MatchEnd(p, s, from)
      case None => LocsEndValues(p, s, from + 1);
      case Some(e) => LocsEndValues(p, s, e);
    }
  }

  // ---------------------------------------------------------------- what a cut cannot bring about

  lemma NotOfThePlaceholder(w: string)
    requires '<' !in w && '>' !in w
    requires |w| > 8 || (|w| >= 7 && w[0] != 'r' && w[0] != 'e')
    ensures Foreign(w)
  {
    forall a, b | 0 <= a <= b <= 8
      ensures w != "redacted"[a..b]
    {
      assert a < b ==> "redacted"[a..b][0] == "redacted"[a];
    }
  }

  lemma FoldedIsBracketless(s: string, lit: string)
    requires FoldsTo(s, lit) && '<' !in lit && '>' !in lit && lit != ""
    ensures '<' !in s && '>' !in s && |s| == |lit| && Folds(s[0], lit[0])
  {
  }

  lemma HeadIsForeign(p: Pattern, s: string)
    requires IsHead(p, s)
    ensures '<' !in s && '>' !in s && |s| >= 6
    ensures p.Bearer? ==> s[0] == 'b' || s[0] == 'B'
    ensures p.Oauth? ==> s[0] == 'o' || s[0] == 'O'
    ensures p.Refresh? || p.Access? || p.AuthToken? ==> |s| >= 9
  {
    hide FoldsTo;
    var lit :| FoldsTo(s, lit) && '<' !in lit && '>' !in lit && |lit| >= 6
      && (p.Bearer? ==> lit[0] == 'b') && (p.Oauth? ==> lit[0] == 'o') && (p.Bearer? || p.Oauth? || |lit| >= 9);
    FoldedIsBracketless(s, lit);
  }

  lemma SecretIsForeign(p: Pattern, w: string)
    requires IsSecret(p, w)
    ensures Foreign(w) && w != ""
    ensures p.Bearer? ==> w[0] == 'b' || w[0] == 'B'
  {
    hide IsHead, Foreign;
    var h: nat, k: nat :| IsSecretAt(p, w, h, k);
    var head := w[..h];
    HeadIsForeign(p, head);
    forall x | 0 <= x < |w|
      ensures w[x] != '<' && w[x] != '>'
    {
      assert x < h ==> w[x] == head[x];
    }
    assert w[0] == head[0];
    NotOfThePlaceholder(w);
  }

  /** After the cut, `bearer` may start only where it could start before. */
  ghost predicate NoBearerAfter(s: string, locs: seq<Loc>) {
    forall n :: 0 <= n < |locs| && locs[n].end < |s| ==> s[locs[n].end] != 'b' && s[locs[n].end] != 'B'
  }

  /** A cut that leaves no match between the stretches leaves none at all. */
  lemma CutIsFree(p: Pattern, s: string, locs: seq<Loc>)
    requires InOrder(s, locs, 0)
    requires forall i: nat, j: nat :: InGap(locs, i, j) ==> !Matches(p, s, i, j)
    requires p.Bearer? ==> NoBearerAfter(s, locs)
    ensures Free(p, Cut(s, locs, 0))
  {
    hide Cut, IsSecret, Foreign, InGap;
    var out := Cut(s, locs, 0);
    forall x: nat, y: nat | Matches(p, out, x, y)
      ensures false
    {
      SecretIsForeign(p, out[x..y]);
      var i, j := Locate(s, locs, 0, x, y);
    }
  }

  // ---------------------------------------------------------------- standalone tokens

  predicate IsLower(c: char) {
    'a' <= c <= 'z' || '0' <= c <= '9'
  }

  /** A run of 30 or more lower-case alphanumerics with no alphanumeric next to it. */
  ghost predicate Exposed(s: string, i: nat, j: nat) {
    && i + 30 <= j <= |s|
    && (forall x :: i <= x < j ==> IsLower(s[x]))
    && (i > 0 ==> !IsAlnum(s[i - 1]))
    && (j < |s| ==> !IsAlnum(s[j]))
  }

  predicate Guarded(s: string, l: Loc)
    requires l.start <= l.end <= |s|
  {
    (l.start > 0 && IsAlnum(s[l.start - 1])) || (l.end < |s| && IsAlnum(s[l.end]))
  }

  /** The maximal runs of 30 or more, as the regular expression finds them. */
  function Runs(s: string, i: nat): (r: seq<Loc>)
    requires i <= |s|
    ensures InOrder(s, r, i)
    decreases |s| - i
  {
    if i == |s| then []
    else
      var e := RunEnd(s, IsLower, i);
      if e >= i + 30 then [Loc(i, e)] + Runs(s, e)
      else
        var next := if e > i then e else i + 1;
        WeakenOrder(s, Runs(s, next), next, i);
        Runs(s, next)
  }

  /** The runs that stand alone. */
  function Unguarded(s: string, locs: seq<Loc>, from: nat): (r: seq<Loc>)
    requires InOrder(s, locs, from)
    ensures InOrder(s, r, from)
    decreases |locs|
  {
    if locs == [] then []
    else
      var rest := Unguarded(s, locs[1..], locs[0].end);
      if Guarded(s, locs[0]) then WeakenOrder(s, rest, locs[0].end, from); rest
      else [locs[0]] + rest
  }

  function Tokens(s: string): (r: seq<Loc>)
    ensures InOrder(s, r, 0)
  {
    Unguarded(s, Runs(s, 0), 0)
  }

  function Standalone(s: string): string {
    Cut(s, Tokens(s), 0)
  }

  method FindRuns(s: string) returns (locs: seq<Loc>)
    ensures locs == Runs(s, 0)
  {
    locs := [];
    var i: nat := 0;
    while i < |s|
      invariant i <= |s|
      invariant Runs(s, 0) == locs + Runs(s, i)
    {
      var e := RunEnd(s, IsLower, i);
      if e >= i + 30 {
        locs := locs + [Loc(i, e)];
        i := e;
      } else {
        i := if e > i then e else i + 1;
      }
    }
  }

  lemma UnguardedStep(s: string, locs: seq<Loc>, from: nat, last: nat, done: string)
    requires InOrder(s, locs, from) && locs != [] && last <= from
    ensures InOrder(s, Unguarded(s, locs, from), last)
    ensures InOrder(s, locs[1..], locs[0].end)
    ensures
      var next := Unguarded(s, locs[1..], locs[0].end);
      if Guarded(s, locs[0]) then
        InOrder(s, next, last) && Cut(s, Unguarded(s, locs, from), last) == Cut(s, next, last)
      else
        done + Cut(s, Unguarded(s, locs, from), last) == done + s[last..locs[0].start] + PLACEHOLDER + Cut(s, next, locs[0].end)
  {
    hide Cut;
    var next := Unguarded(s, locs[1..], locs[0].end);
    WeakenOrder(s, Unguarded(s, locs, from), from, last);
    if Guarded(s, locs[0]) {
      WeakenOrder(s, next, locs[0].end, last);
    } else {
      CutFirst(s, locs[0], next, last, done);
    }
  }

  method RedactStandaloneTokens(s: string) returns (out: string)
    ensures out == Standalone(s)
  {
    hide Cut, InOrder, Unguarded, Runs;
    assert s[0..] == s;
    var locs := FindRuns(s);
    if |locs| == 0 {
      UnguardedNothing(s, 0);
      CutOfNothing(s, 0);
      return s;
    }
    out := "";
    var last: nat := 0;
    ghost var from: nat := 0;
    for k := 0 to |locs|
      invariant last <= from <= |s|
      invariant InOrder(s, locs[k..], from)
      invariant InOrder(s, Unguarded(s, locs[k..], from), last)
      invariant Standalone(s) == out + Cut(s, Unguarded(s, locs[k..], from), last)
      invariant last == 0 ==> out == ""
    {
      var start, end := locs[k].start, locs[k].end;
      FirstFits(s, locs[k..], from);
      UnguardedStep(s, locs[k..], from, last, out);
      assert locs[k..][1..] == locs[k + 1..];
      from := end;
      if start > 0 && IsAlnum(s[start - 1]) {
        continue;
      }
      if end < |s| && IsAlnum(s[end]) {
        continue;
      }
      out := out + s[last..start] + PLACEHOLDER;
      last := end;
    }
    assert locs[|locs|..] == [];
    UnguardedNothing(s, from);
    CutOfNothing(s, last);
    if last == 0 {
      return s;
    }
    out := out + s[last..];
  }

  lemma FirstFits(s: string, locs: seq<Loc>, from: nat)
    requires InOrder(s, locs, from) && locs != []
    ensures from <= locs[0].start < locs[0].end <= |s|
  {
  }

  lemma UnguardedNothing(s: string, from: nat)
    requires from <= |s|
    ensures InOrder(s, [], from) && Unguarded(s, [], from) == []
  {
  }

  lemma {:induction false} TokensAreExposed(s: string, locs: seq<Loc>, from: nat)
    requires InOrder(s, locs, from)
    ensures forall n :: 0 <= n < |Unguarded(s, locs, from)| ==>
      Unguarded(s, locs, from)[n] in locs && Unguarded(s, locs, from)[n].end <= |s|
      && Unguarded(s, locs, from)[n].start <= Unguarded(s, locs, from)[n].end
      && !Guarded(s, Unguarded(s, locs, from)[n])
    decreases |locs|
  {
    if locs != [] {
      TokensAreExposed(s, locs[1..], locs[0].end);
    }
  }

  /** Every exposed run is found, and it is not guarded. */
  lemma {:induction false} ExposedIsRun(s: string, from: nat, i: nat, j: nat)
    requires from <= i && Exposed(s, i, j)
    requires from == 0 || from == |s| || !IsLower(s[from - 1]) || !IsLower(s[from])
    ensures exists n :: 0 <= n < |Runs(s, from)| && Runs(s, from)[n] == Loc(i, j)
    decreases |s| - from
  {
    var e := RunEnd(s, IsLower, from);
    if i < e {
      assert i == from by {
        assert i > from ==> IsLower(s[i - 1]);
      }
      assert e == j;
      assert Runs(s, from)[0] == Loc(i, j);
    } else {
      var next := if e > from then e else from + 1;
      ExposedIsRun(s, next, i, j);
      var n :| 0 <= n < |Runs(s, next)| && Runs(s, next)[n] == Loc(i, j);
      if e >= from + 30 {
        assert Runs(s, from)[n + 1] == Loc(i, j);
      } else {
        assert Runs(s, from) == Runs(s, next);
      }
    }
  }

  lemma {:induction false} UnguardedKeeps(s: string, locs: seq<Loc>, from: nat, l: Loc)
    requires InOrder(s, locs, from) && l in locs && l.start <= l.end <= |s| && !Guarded(s, l)
    ensures exists n :: 0 <= n < |Unguarded(s, locs, from)| && Unguarded(s, locs, from)[n] == l
    decreases |locs|
  {
    var r := Unguarded(s, locs, from);
    if locs[0] == l {
      assert r[0] == l;
    } else {
      var next := Unguarded(s, locs[1..], locs[0].end);
      UnguardedKeeps(s, locs[1..], locs[0].end, l);
      var n :| 0 <= n < |next| && next[n] == l;
      assert Guarded(s, locs[0]) || r[n + 1] == l;
    }
  }

  lemma TokensAreAll(s: string, i: nat, j: nat)
    requires Exposed(s, i, j)
    ensures !InGap(Tokens(s), i, j)
  {
    hide Runs, Unguarded;
    ExposedIsRun(s, 0, i, j);
    UnguardedKeeps(s, Runs(s, 0), 0, Loc(i, j));
  }

  ghost predicate NoneExposed(s: string) {
    forall i: nat, j: nat :: !Exposed(s, i, j)
  }

  lemma LowerIsForeign(w: string)
    requires |w| >= 30 && forall x :: 0 <= x < |w| ==> IsLower(w[x])
    ensures Foreign(w)
  {
  }

  lemma StandaloneExposesNothing(s: string)
    ensures NoneExposed(Standalone(s))
  {
    hide Cut, Tokens, Foreign, InGap;
    var locs := Tokens(s);
    TokensUnguarded(s);
    var out := Cut(s, locs, 0);
    forall x: nat, y: nat | Exposed(out, x, y)
      ensures false
    {
      LowerIsForeign(out[x..y]);
      var i, j := Locate(s, locs, 0, x, y);
      LowerCarriesOver(s, i, j, out, x, y);
      assert Exposed(s, i, j);
      TokensAreAll(s, i, j);
    }
  }

  lemma TokensUnguarded(s: string)
    ensures forall n :: 0 <= n < |Tokens(s)| ==>
      var l := Tokens(s)[n];
      l.start < l.end <= |s| && !Guarded(s, l)
  {
    hide Runs, Unguarded, Guarded;
    TokensAreExposed(s, Runs(s, 0), 0);
    InOrderFits(s, Tokens(s), 0);
  }

  lemma LowerCarriesOver(s: string, i: nat, j: nat, out: string, x: nat, y: nat)
    requires i <= j <= |s| && x <= y <= |out| && s[i..j] == out[x..y]
    requires forall t :: x <= t < y ==> IsLower(out[t])
    ensures j - i == y - x && forall t :: i <= t < j ==> IsLower(s[t])
  {
    assert |s[i..j]| == |out[x..y]|;
    forall t | i <= t < j
      ensures IsLower(s[t])
    {
      assert s[t] == s[i..j][t - i] == out[x..y][t - i] == out[x + (t - i)];
    }
  }

  // ---------------------------------------------------------------- the whole chokepoint

  function Labelled(s: string): string {
    Pass(Oauth, Pass(AuthToken, Pass(Access, Pass(Refresh, Pass(Bearer, s)))))
  }

  function Redacted(s: string): string {
    Standalone(Labelled(s))
  }

  method Redact(s: string) returns (out: string)
    ensures out == Redacted(s)
    ensures SecretFree(out)
  {
    RedactedIsSecretFree(s);
    if s == "" {
      RedactedFixpoint(s);
      EmptyIsSecretFree();
      return "";
    }
    out := ReplaceAll(Bearer, s);
    out := ReplaceAll(Refresh, out);
    out := ReplaceAll(Access, out);
    out := ReplaceAll(AuthToken, out);
    out := ReplaceAll(Oauth, out);
    out := RedactStandaloneTokens(out);
  }

  lemma EmptyIsSecretFree()
    ensures SecretFree("")
  {
  }

  ghost predicate SecretFree(s: string) {
    (forall p :: Free(p, s)) && NoneExposed(s)
  }

  lemma PassFreesItself(p: Pattern, s: string)
    ensures Free(p, Pass(p, s))
  {
    hide Locs, Matches, Cut, IsValue, InGap;
    var locs := Locs(p, s, 0);
    forall i: nat, j: nat | InGap(locs, i, j)
      ensures !Matches(p, s, i, j)
    {
      if Matches(p, s, i, j) {
        LocsMissNothing(p, s, 0, i, j);
      }
    }
    PassEndsBeforeNoBearer(p, s);
    CutIsFree(p, s, locs);
  }

  lemma PassEndsBeforeNoBearer(p: Pattern, s: string)
    ensures NoBearerAfter(s, Locs(p, s, 0))
  {
    hide Locs;
    LocsEndValues(p, s, 0);
  }

  /** A later pass does not bring back what an earlier one removed. */
  lemma PassKeepsFree(q: Pattern, p: Pattern, s: string)
    requires Free(q, s)
    ensures Free(q, Pass(p, s))
  {
    hide Locs, Cut;
    PassEndsBeforeNoBearer(p, s);
    CutIsFree(q, s, Locs(p, s, 0));
  }

  lemma StandaloneKeepsFree(q: Pattern, s: string)
    requires Free(q, s)
    ensures Free(q, Standalone(s))
  {
    hide Tokens, Cut;
    TokensUnguarded(s);
    CutIsFree(q, s, Tokens(s));
  }

  /** No secret shape survives. */
  lemma RedactedIsSecretFree(s: string)
    ensures SecretFree(Redacted(s))
  {
    hide Pass, Standalone, Free;
    var s1 := Pass(Bearer, s);
    var s2 := Pass(Refresh, s1);
    var s3 := Pass(Access, s2);
    var s4 := Pass(AuthToken, s3);
    var s5 := Pass(Oauth, s4);
    PassFreesItself(Bearer, s);
    PassFreesItself(Refresh, s1);
    PassFreesItself(Access, s2);
    PassFreesItself(AuthToken, s3);
    PassFreesItself(Oauth, s4);
    PassKeepsFree(Bearer, Refresh, s1);
    PassKeepsFree(Bearer, Access, s2);
    PassKeepsFree(Bearer, AuthToken, s3);
    PassKeepsFree(Bearer, Oauth, s4);
    PassKeepsFree(Refresh, Access, s2);
    PassKeepsFree(Refresh, AuthToken, s3);
    PassKeepsFree(Refresh, Oauth, s4);
    PassKeepsFree(Access, AuthToken, s3);
    PassKeepsFree(Access, Oauth, s4);
    PassKeepsFree(AuthToken, Oauth, s4);
    forall p
      ensures Free(p, Standalone(s5))
    {
      match p {
        case Bearer =>
        case Refresh =>
        case Access =>
        case AuthToken =>
        case Oauth =>
      }
      StandaloneKeepsFree(p, s5);
    }
    StandaloneExposesNothing(s5);
  }

  // ---------------------------------------------------------------- what redaction leaves alone

  function Brackets(s: string): nat {
    if s == "" then 0 else Brackets(s[..|s| - 1]) + if s[|s| - 1] == '<' then 1 else 0
  }

  lemma {:induction false} BracketsAppend(a: string, b: string)
    ensures Brackets(a + b) == Brackets(a) + Brackets(b)
    decreases |b|
  {
    if b == "" {
      assert a + b == a;
    } else {
      assert (a + b)[..|a + b| - 1] == a + b[..|b| - 1];
      BracketsAppend(a, b[..|b| - 1]);
    }
  }

  lemma {:induction false} BracketsAbsent(s: string)
    requires '<' !in s
    ensures Brackets(s) == 0
  {
    if s != "" {
      BracketsAbsent(s[..|s| - 1]);
    }
  }

  ghost predicate BracketFree(s: string, locs: seq<Loc>) {
    forall n :: 0 <= n < |locs| ==> locs[n].start <= locs[n].end <= |s| && '<' !in s[locs[n].start..locs[n].end]
  }

  /** Every cut brings in exactly one more opening bracket. */
  lemma {:induction false} CutCounts(s: string, locs: seq<Loc>, from: nat)
    requires InOrder(s, locs, from) && BracketFree(s, locs)
    ensures Brackets(Cut(s, locs, from)) == Brackets(s[from..]) + |locs|
    decreases |locs|
  {
    if locs != [] {
      var l := locs[0];
      assert BracketFree(s, locs[1..]) by {
        assert forall n :: 0 <= n < |locs[1..]| ==> locs[1..][n] == locs[n + 1];
      }
      CutCounts(s, locs[1..], l.end);
      CountCut(s[from..l.start], s[l.start..l.end], s[l.end..], Cut(s, locs[1..], l.end));
      assert s[from..] == s[from..l.start] + s[l.start..l.end] + s[l.end..];
    }
  }

  lemma CountThree(a: string, b: string, c: string)
    ensures Brackets(a + b + c) == Brackets(a) + Brackets(b) + Brackets(c)
  {
    BracketsAppend(a + b, c);
    BracketsAppend(a, b);
  }

  lemma CountPlaceholder()
    ensures Brackets(PLACEHOLDER) == 1
  {
    assert PLACEHOLDER == "<" + "redacted>";
    BracketsAppend("<", "redacted>");
    BracketsAbsent("redacted>");
    assert "<"[..0] == "";
  }

  lemma CountCut(before: string, cut: string, after: string, rest: string)
    requires '<' !in cut
    ensures Brackets(before + cut + after) == Brackets(before) + Brackets(after)
    ensures Brackets(before + PLACEHOLDER + rest) == Brackets(before) + 1 + Brackets(rest)
  {
    hide Brackets;
    BracketsAbsent(cut);
    CountThree(before, cut, after);
    CountThree(before, PLACEHOLDER, rest);
    CountPlaceholder();
  }

  lemma {:induction false} LocsAreMatches(p: Pattern, s: string, from: nat)
    requires from <= |s|
    ensures forall n :: 0 <= n < |Locs(p, s, from)| ==> Matches(p, s, Locs(p, s, from)[n].start, Locs(p, s, from)[n].end)
    decreases |s| - from
  {
    hide MatchEnd, Matches, InOrder;
    if from < |s| {
      MatchEndIsLongest(p, s, from);
      match MatchEnd(p, s, from)
      case None => LocsAreMatches(p, s, from + 1);
      case Some(e) => LocsAreMatches(p, s, e);
    }
  }

  lemma FirstLocMatches(p: Pattern, s: string)
    requires Locs(p, s, 0) != []
    ensures !Free(p, s)
  {
    hide Matches, Locs;
    LocsAreMatches(p, s, 0);
    var first := Locs(p, s, 0)[0];
  }

  lemma PassGrows(p: Pattern, s: string)
    ensures Brackets(Pass(p, s)) >= Brackets(s)
    ensures Free(p, s) ==> Pass(p, s) == s
    ensures !Free(p, s) ==> Brackets(Pass(p, s)) > Brackets(s)
  {
    hide Locs, Cut, IsSecret, MayStart;
    var locs := Locs(p, s, 0);
    LocsAreMatches(p, s, 0);
    assert BracketFree(s, locs) by {
      forall n | 0 <= n < |locs|
        ensures locs[n].start <= locs[n].end <= |s| && '<' !in s[locs[n].start..locs[n].end]
      {
        assert Matches(p, s, locs[n].start, locs[n].end);
        SecretIsForeign(p, s[locs[n].start..locs[n].end]);
      }
    }
    CutCounts(s, locs, 0);
    assert s[0..] == s;
    CutOfNothing(s, 0);
    if !Free(p, s) && locs == [] {
      var i: nat, j: nat :| Matches(p, s, i, j);
      LocsMissNothing(p, s, 0, i, j);
    } else if Free(p, s) && locs != [] {
      FirstLocMatches(p, s);
    }
  }

  lemma StandaloneGrows(s: string)
    ensures Brackets(Standalone(s)) >= Brackets(s)
    ensures NoneExposed(s) ==> Standalone(s) == s
    ensures !NoneExposed(s) ==> Brackets(Standalone(s)) > Brackets(s)
  {
    hide Tokens, Cut, InGap;
    var locs := Tokens(s);
    TokensAreRuns(s);
    CutCounts(s, locs, 0);
    assert s[0..] == s;
    CutOfNothing(s, 0);
    if !NoneExposed(s) && locs == [] {
      var i: nat, j: nat :| Exposed(s, i, j);
      TokensAreAll(s, i, j);
      NothingHasNoGaps(i, j);
    }
  }

  lemma NothingHasNoGaps(i: nat, j: nat)
    ensures InGap([], i, j)
  {
  }

  lemma {:induction false} RunsAreLower(s: string, from: nat)
    requires from <= |s|
    ensures forall n :: 0 <= n < |Runs(s, from)| ==>
      var l := Runs(s, from)[n];
      l.start + 30 <= l.end <= |s| && forall x :: l.start <= x < l.end ==> IsLower(s[x])
    decreases |s| - from
  {
    hide InOrder, IsLower;
    if from < |s| {
      var e := RunEnd(s, IsLower, from);
      RunsAreLower(s, if e > from then e else from + 1);
    }
  }

  /** What the last pass cuts is exactly what stands alone. */
  lemma TokensAreRuns(s: string)
    ensures forall n :: 0 <= n < |Tokens(s)| ==> Exposed(s, Tokens(s)[n].start, Tokens(s)[n].end)
    ensures BracketFree(s, Tokens(s))
  {
    hide Runs, Unguarded;
    TokensUnguarded(s);
    TokensAreExposed(s, Runs(s, 0), 0);
    RunsAreLower(s, 0);
    forall n | 0 <= n < |Tokens(s)|
      ensures Exposed(s, Tokens(s)[n].start, Tokens(s)[n].end)
      ensures '<' !in s[Tokens(s)[n].start..Tokens(s)[n].end]
    {
      var l := Tokens(s)[n];
      var m :| 0 <= m < |Runs(s, 0)| && Runs(s, 0)[m] == l;
      assert forall x :: 0 <= x < l.end - l.start ==> s[l.start..l.end][x] == s[l.start + x];
    }
  }

  /** Redacting changes a string if and only if it holds a secret. */
  lemma RedactedFixpoint(s: string)
    ensures Redacted(s) == s <==> SecretFree(s)
  {
    hide Pass, Standalone, Free, NoneExposed;
    var s1 := Pass(Bearer, s);
    var s2 := Pass(Refresh, s1);
    var s3 := Pass(Access, s2);
    var s4 := Pass(AuthToken, s3);
    var s5 := Pass(Oauth, s4);
    PassGrows(Bearer, s);
    PassGrows(Refresh, s1);
    PassGrows(Access, s2);
    PassGrows(AuthToken, s3);
    PassGrows(Oauth, s4);
    StandaloneGrows(s5);
    if Redacted(s) == s {
      forall p
        ensures Free(p, s)
      {
        match p {
          case Bearer =>
          case Refresh =>
          case Access =>
          case AuthToken =>
          case Oauth =>
        }
      }
    }
  }

  /** Redacting twice is redacting once. */
  lemma RedactIsIdempotent(s: string)
    ensures Redacted(Redacted(s)) == Redacted(s)
  {
    RedactedIsSecretFree(s);
    RedactedFixpoint(Redacted(s));
  }

  // ---------------------------------------------------------------- log lines

  /** The message, then `key=value` for each pair, then a field left over, with spaces between. */
  function LogLine(message: string, fields: seq<string>): string
    decreases |fields|
  {
    if fields == [] then message
    else if |fields| == 1 then message + " " + fields[0]
    else LogLine(message + " " + (fields[0] + "=" + fields[1]), fields[2..])
  }

  method Log(message: string, fields: seq<string>) returns (out: string)
    ensures out == Redacted(LogLine(message, fields))
    ensures SecretFree(out)
  {
    hide Redacted, SecretFree;
    var line := message;
    var i := 0;
    while i + 1 < |fields|
      invariant 0 <= i <= |fields|
      invariant LogLine(message, fields) == LogLine(line, fields[i..])
    {
      assert fields[i..][2..] == fields[i + 2..];
      line := line + " " + (fields[i] + "=" + fields[i + 1]);
      i := i + 2;
    }
    if i < |fields| {
      line := line + " " + fields[|fields| - 1];
    }
    out := Redact(line);
  }
}
