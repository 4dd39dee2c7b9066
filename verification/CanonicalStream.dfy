/** Following stream aliases to the canonical stream, with cycle detection. */
module CanonicalStream {
  import opened Text

  // ---------------------------------------------------------------- the least of a set of ids

  /** Lexicographic order, as `sort.Strings` has it. */
  predicate Leq(a: string, b: string) {
    a == "" || (b != "" && (a[0] < b[0] || (a[0] == b[0] && Leq(a[1..], b[1..]))))
  }

  lemma {:induction false} LeqTotal(a: string, b: string)
    ensures Leq(a, b) || Leq(b, a)
    ensures Leq(a, b) && Leq(b, a) ==> a == b
  {
    if a != "" && b != "" && a[0] == b[0] {
      LeqTotal(a[1..], b[1..]);
      assert a == [a[0]] + a[1..] && b == [b[0]] + b[1..];
    }
  }

  lemma {:induction false} LeqTransitive(a: string, b: string, c: string)
    requires Leq(a, b) && Leq(b, c)
    ensures Leq(a, c)
  {
    if a != "" && b != "" && c != "" && a[0] == b[0] == c[0] {
      LeqTransitive(a[1..], b[1..], c[1..]);
    }
  }

  /** The nonblank ids, trimmed, without repeats, in the order they first occur. */
  function UniqueOf(ids: seq<string>): (r: seq<string>)
    ensures forall i, j :: 0 <= i < j < |r| ==> r[i] != r[j]
  {
    if ids == [] then []
    else
      var init := UniqueOf(ids[..|ids| - 1]);
      var id := TrimSpace(ids[|ids| - 1]);
      if id == "" || id in init then init else init + [id]
  }

  /** `id` is what is left of one of `ids` after trimming. */
  ghost predicate Among(ids: seq<string>, id: string) {
    exists k :: 0 <= k < |ids| && TrimSpace(ids[k]) == id
  }

  lemma {:induction false} UniqueOfHas(ids: seq<string>, id: string)
    ensures id in UniqueOf(ids) <==> id != "" && Among(ids, id)
  {
    hide TrimSpace;
    if ids != [] {
      var n := |ids| - 1;
      UniqueOfHas(ids[..n], id);
      assert Among(ids[..n], id) ==> Among(ids, id) by {
        if k :| 0 <= k < n && TrimSpace(ids[..n][k]) == id {
          assert TrimSpace(ids[k]) == id;
        }
      }
      assert Among(ids, id) ==> TrimSpace(ids[n]) == id || Among(ids[..n], id) by {
        if k :| 0 <= k < |ids| && TrimSpace(ids[k]) == id {
          assert k < n ==> ids[..n][k] == ids[k];
        }
      }
      if TrimSpace(ids[n]) == id {
        assert Among(ids, id);
      }
    }
  }

  method Unique(ids: seq<string>) returns (out: seq<string>)
    ensures out == UniqueOf(ids)
  {
    hide UniqueOf;
    UniqueOfNothing();
    var seen := {};
    out := [];
    for k := 0 to |ids|
      invariant out == UniqueOf(ids[..k])
      invariant forall id :: id in seen <==> id in out
    {
      assert ids[..k + 1] == ids[..k] + [ids[k]];
      UniqueOfPush(ids[..k], ids[k]);
      var id := TrimSpace(ids[k]);
      if id == "" || id in seen {
        continue;
      }
      seen := seen + {id};
      out := out + [id];
    }
    assert ids[..|ids|] == ids;
  }

  lemma UniqueOfNothing()
    ensures UniqueOf([]) == []
  {
  }

  lemma UniqueOfPush(ids: seq<string>, next: string)
    ensures UniqueOf(ids + [next]) ==
      var id := TrimSpace(next);
      if id == "" || id in UniqueOf(ids) then UniqueOf(ids) else UniqueOf(ids) + [id]
  {
    assert (ids + [next])[..|ids|] == ids;
  }

  /** `r` is the least of `ids`, or empty when there is none. */
  ghost predicate IsLeast(r: string, ids: seq<string>) {
    if ids == [] then r == "" else r in ids && forall id :: id in ids ==> Leq(r, id)
  }

  lemma HeadIsIn(ids: seq<string>)
    requires |ids| > 0
    ensures exists id :: id in ids
  {
    assert ids[0] in ids;
  }

  lemma LeastIsUnique(r: string, ids: seq<string>, r': string, ids': seq<string>)
    requires IsLeast(r, ids) && IsLeast(r', ids')
    requires forall id :: id in ids <==> id in ids'
    ensures r == r'
  {
    if ids == [] {
      if |ids'| > 0 {
        HeadIsIn(ids');
      }
    } else {
      assert ids[0] in ids';
      LeqTotal(r, r');
    }
  }

  function LeastOf(ids: seq<string>): (r: string)
    ensures IsLeast(r, ids)
  {
    if ids == [] then ""
    else
      var last := ids[|ids| - 1];
      var rest := LeastOf(ids[..|ids| - 1]);
      LeqTotal(last, rest);
      LeqTotal(last, last);
      if |ids| == 1 then last
      else if Leq(rest, last) then rest
      else
        assert forall id :: id in ids[..|ids| - 1] ==> Leq(last, id) by {
          forall id | id in ids[..|ids| - 1] { LeqTransitive(last, rest, id); }
        }
        last
  }

  function StableIdOf(ids: seq<string>): string {
    LeastOf(UniqueOf(ids))
  }

  /** Insertion into a sorted list. */
  method Insert(sorted: seq<string>, id: string) returns (r: seq<string>)
    requires forall i, j :: 0 <= i < j < |sorted| ==> Leq(sorted[i], sorted[j])
    ensures forall i, j :: 0 <= i < j < |r| ==> Leq(r[i], r[j])
    ensures multiset(r) == multiset(sorted) + multiset{id}
  {
    var i := 0;
    while i < |sorted| && Leq(sorted[i], id)
      invariant 0 <= i <= |sorted|
      invariant forall j :: 0 <= j < i ==> Leq(sorted[j], id)
    {
      i := i + 1;
    }
    assert sorted == sorted[..i] + sorted[i..];
    forall k | i <= k < |sorted|
      ensures Leq(id, sorted[k])
    {
      LeqTotal(id, sorted[i]);
      if k > i {
        LeqTransitive(id, sorted[i], sorted[k]);
      }
    }
    r := sorted[..i] + [id] + sorted[i..];
  }

  /** A deterministic id for a set of candidates: the order in which they come does not matter. */
  method StableID(ids: seq<string>) returns (r: string)
    ensures r == StableIdOf(ids)
  {
    hide Leq, UniqueOf;
    var unique := Unique(ids);
    var sorted: seq<string> := [];
    for k := 0 to |unique|
      invariant forall i, j :: 0 <= i < j < |sorted| ==> Leq(sorted[i], sorted[j])
      invariant multiset(sorted) == multiset(unique[..k])
    {
      assert unique[..k + 1] == unique[..k] + [unique[k]];
      sorted := Insert(sorted, unique[k]);
    }
    assert unique[..|unique|] == unique;
    forall id
      ensures id in sorted <==> id in unique
    {
      assert id in sorted <==> id in multiset(sorted);
      assert id in unique <==> id in multiset(unique);
    }
    if |sorted| == 0 {
      assert unique == [] by { assert |multiset(unique)| == |unique|; }
      return "";
    }
    r := sorted[0];
    forall id | id in sorted
      ensures Leq(r, id)
    {
      LeqTotal(r, r);
    }
    LeastIsUnique(r, sorted, StableIdOf(ids), unique);
  }

  /** The candidates may come in any order and any number of times. */
  lemma StableIdIgnoresOrder(ids: seq<string>, ids': seq<string>)
    requires forall id :: id in ids <==> id in ids'
    ensures StableIdOf(ids) == StableIdOf(ids')
  {
    hide UniqueOf, TrimSpace;
    forall id
      ensures id in UniqueOf(ids) <==> id in UniqueOf(ids')
    {
      UniqueOfHas(ids, id);
      UniqueOfHas(ids', id);
      AmongSame(ids, ids', id);
      AmongSame(ids', ids, id);
    }
    LeastIsUnique(StableIdOf(ids), UniqueOf(ids), StableIdOf(ids'), UniqueOf(ids'));
  }

  lemma AmongSame(ids: seq<string>, ids': seq<string>, id: string)
    requires forall x :: x in ids ==> x in ids'
    ensures Among(ids, id) ==> Among(ids', id)
  {
    if k :| 0 <= k < |ids| && TrimSpace(ids[k]) == id {
      assert ids[k] in ids';
    }
  }

  /** Of trimmed, nonempty ids the stable one is one of them. */
  lemma StableIdIsOneOf(ids: seq<string>)
    requires ids != [] && forall id :: id in ids ==> id != "" && Trimmed(id)
    ensures StableIdOf(ids) in ids
  {
    hide UniqueOf, TrimSpace, Trimmed;
    assert ids[0] in ids;
    TrimSpaceTrims(ids[0]);
    assert Among(ids, ids[0]);
    UniqueOfHas(ids, ids[0]);
    UniqueOfHas(ids, StableIdOf(ids));
    var k :| 0 <= k < |ids| && TrimSpace(ids[k]) == StableIdOf(ids);
    assert ids[k] in ids;
    TrimSpaceTrims(ids[k]);
  }

  // ---------------------------------------------------------------- links

  /** What the alias query returns for one id. */
  datatype QueryResult = Row(canonical: string) | NoRows | QueryError

  type Query = string -> QueryResult

  /** The answer names another id to go on with: what trimming leaves of it. */
  predicate LinksTo(q: Query, id: string, next: string) {
    q(id).Row? && TrimSpace(q(id).canonical) == next && next != "" && next != id
  }

  /** The id has no alias: no row, a blank one, or one that names the id itself. */
  predicate Stops(q: Query, id: string) {
    q(id).NoRows? || (q(id).Row? && (TrimSpace(q(id).canonical) == "" || TrimSpace(q(id).canonical) == id))
  }

  predicate Fails(q: Query, id: string) {
    q(id).QueryError?
  }

  datatype Resolution = Resolution(canonicalId: string, path: seq<string>, cycle: seq<string>, cycleDetected: bool)

  datatype Outcome = Resolved(resolution: Resolution) | LookupFailed | TooManyHops

  const MAX_HOPS := 64

  function Position(path: seq<string>, id: string): (k: nat)
    requires id in path
    ensures k < |path| && path[k] == id && forall i :: 0 <= i < k ==> path[i] != id
  {
    if path[0] == id then 0
    else 1 + Position(path[1..], id)
  }

  function Follow(q: Query, path: seq<string>, current: string, hops: nat): Outcome
    decreases hops
  {
    if hops == 0 then TooManyHops
    else if current in path then
      var cycle := path[Position(path, current)..];
      Resolved(Resolution(StableIdOf(cycle), path, cycle, true))
    else match q(current)
      case QueryError => LookupFailed
      case NoRows => Resolved(Resolution(current, path + [current], [], false))
      case Row(canonical) =>
        var next := TrimSpace(canonical);
        if next == "" || next == current then Resolved(Resolution(current, path + [current], [], false))
        else Follow(q, path + [current], next, hops - 1)
  }

  function Resolution0(q: Query, streamId: string): Outcome {
    var id := TrimSpace(streamId);
    if id == "" then Resolved(Resolution("", [], [], false)) else Follow(q, [], id, MAX_HOPS)
  }

  /** `asked` is every id the query was made for. */
  method Resolve(q: Query, streamId: string) returns (o: Outcome, ghost asked: seq<string>)
    ensures o == Resolution0(q, streamId)
    ensures |asked| <= MAX_HOPS
  {
    hide TrimSpace, StableIdOf;
    asked := [];
    var id := TrimSpace(streamId);
    if id == "" {
      return Resolved(Resolution("", [], [], false)), [];
    }
    var seen: map<string, nat> := map[];
    var path: seq<string> := [];
    var current := id;
    for depth := 0 to MAX_HOPS
      invariant asked == path && |path| == depth
      invariant forall x :: x in seen <==> x in path
      invariant forall x :: x in seen ==> x in path && seen[x] == Position(path, x)
      invariant Follow(q, [], id, MAX_HOPS) == Follow(q, path, current, MAX_HOPS - depth)
    {
      if current in seen {
        var cycle := path[seen[current]..];
        var stable := StableID(cycle);
        return Resolved(Resolution(stable, path, cycle, true)), asked;
      }
      PositionOfLast(path, current);
      seen := seen[current := |path|];
      path := path + [current];
      asked := path;
      match q(current)
      case NoRows =>
        return Resolved(Resolution(current, path, [], false)), asked;
      case QueryError =>
        return LookupFailed, asked;
      case Row(canonical) =>
        var next := TrimSpace(canonical);
        if next == "" || next == current {
          return Resolved(Resolution(current, path, [], false)), asked;
        }
        current := next;
    }
    return TooManyHops, asked;
  }

  lemma PositionIs(path: seq<string>, id: string, k: nat)
    requires k < |path| && path[k] == id && forall i :: 0 <= i < k ==> path[i] != id
    ensures id in path && Position(path, id) == k
  {
    hide Position;
  }

  lemma PositionOfLast(path: seq<string>, id: string)
    requires id !in path
    ensures Position(path + [id], id) == |path|
    ensures forall x :: x in path ==> Position(path + [id], x) == Position(path, x)
  {
    hide Position;
    PositionIs(path + [id], id, |path|);
    forall x | x in path
      ensures Position(path + [id], x) == Position(path, x)
    {
      PositionIs(path + [id], x, Position(path, x));
    }
  }

  // ---------------------------------------------------------------- what resolution finds

  ghost predicate Distinct(path: seq<string>) {
    forall i, j :: 0 <= i < j < |path| ==> path[i] != path[j]
  }

  /** Every id links to the next. */
  ghost predicate IsPath(q: Query, path: seq<string>) {
    forall i :: 0 <= i < |path| - 1 ==> LinksTo(q, path[i], path[i + 1])
  }

  /** A path of distinct ids that ends in an id without a link. */
  ghost predicate Ends(q: Query, path: seq<string>) {
    path != [] && |path| <= MAX_HOPS && Distinct(path) && IsPath(q, path) && Stops(q, path[|path| - 1])
  }

  /** A path of distinct ids whose last links back to the one at `k`. */
  ghost predicate Loops(q: Query, path: seq<string>, k: nat) {
    k < |path| < MAX_HOPS && Distinct(path) && IsPath(q, path) && LinksTo(q, path[|path| - 1], path[k])
  }

  /** The cycle reported is a closed chain of links, and the canonical id its stable one. */
  ghost predicate FoundCycle(q: Query, r: Resolution) {
    exists k: nat :: Loops(q, r.path, k) && r.cycle == r.path[k..] && r.canonicalId == StableIdOf(r.cycle)
  }

  ghost predicate FoundEnd(q: Query, r: Resolution) {
    Ends(q, r.path) && r.canonicalId == r.path[|r.path| - 1] && r.cycle == []
  }

  /** A path as long as the hops allow, with a link still to follow. */
  ghost predicate Overruns(q: Query, path: seq<string>) {
    |path| == MAX_HOPS && Distinct(path) && IsPath(q, path) && !Stops(q, path[|path| - 1]) && !Fails(q, path[|path| - 1])
  }

  /** A path to an id whose lookup fails. */
  ghost predicate Breaks(q: Query, path: seq<string>) {
    path != [] && |path| <= MAX_HOPS && Distinct(path) && IsPath(q, path) && Fails(q, path[|path| - 1])
  }

  /** What one answer makes of an id seen for the first time. */
  lemma FollowStep(q: Query, path: seq<string>, id: string, hops: nat)
    requires hops > 0 && id !in path
    ensures Stops(q, id) ==> Follow(q, path, id, hops) == Resolved(Resolution(id, path + [id], [], false))
    ensures Fails(q, id) ==> Follow(q, path, id, hops) == LookupFailed
    ensures !Stops(q, id) && !Fails(q, id) ==> q(id).Row? && LinksTo(q, id, TrimSpace(q(id).canonical))
    ensures forall next :: LinksTo(q, id, next) ==>
      !Stops(q, id) && !Fails(q, id) && Follow(q, path, id, hops) == Follow(q, path + [id], next, hops - 1)
  {
    hide TrimSpace, StableIdOf;
  }

  /** Along a path of links resolution goes one id at a time. */
  lemma {:induction false} FollowAlong(q: Query, path: seq<string>, k: nat)
    requires path != [] && |path| <= MAX_HOPS && Distinct(path) && IsPath(q, path) && k < |path|
    ensures Follow(q, [], path[0], MAX_HOPS) == Follow(q, path[..k], path[k], MAX_HOPS - k)
  {
    hide LinksTo, Stops, Fails, Follow, TrimSpace;
    if k == 0 {
      assert path[..0] == [];
    } else {
      FollowAlong(q, path, k - 1);
      assert path[..k] == path[..k - 1] + [path[k - 1]];
      assert path[k - 1] !in path[..k - 1];
      FollowStep(q, path[..k - 1], path[k - 1], MAX_HOPS - (k - 1));
      assert LinksTo(q, path[k - 1], path[k - 1 + 1]);
    }
  }

  lemma LastIsNew(path: seq<string>, n: nat)
    requires Distinct(path) && n < |path|
    ensures path[n] !in path[..n]
    ensures forall i :: 0 <= i < n ==> path[i] != path[n]
    ensures n == |path| - 1 ==> path[..n] + [path[n]] == path
  {
  }

  lemma FollowToEnd(q: Query, path: seq<string>)
    requires Ends(q, path)
    ensures Follow(q, [], path[0], MAX_HOPS) == Resolved(Resolution(path[|path| - 1], path, [], false))
  {
    hide LinksTo, Stops, Fails, Distinct, IsPath, Follow, TrimSpace;
    var n := |path| - 1;
    FollowAlong(q, path, n);
    LastIsNew(path, n);
    FollowStep(q, path[..n], path[n], MAX_HOPS - n);
  }

  lemma FollowToLoop(q: Query, path: seq<string>, k: nat)
    requires Loops(q, path, k)
    ensures Follow(q, [], path[0], MAX_HOPS) == Resolved(Resolution(StableIdOf(path[k..]), path, path[k..], true))
  {
    hide LinksTo, Stops, Fails, StableIdOf, Distinct, IsPath, Position, TrimSpace;
    var n := |path| - 1;
    FollowAlong(q, path, n);
    LastIsNew(path, n);
    LastIsNew(path, k);
    assert Follow(q, [], path[0], MAX_HOPS) == Follow(q, path, path[k], MAX_HOPS - |path|) by {
      hide Follow;
      FollowStep(q, path[..n], path[n], MAX_HOPS - n);
    }
    PositionIs(path, path[k], k);
  }

  lemma FollowTooFar(q: Query, path: seq<string>)
    requires Overruns(q, path)
    ensures Follow(q, [], path[0], MAX_HOPS) == TooManyHops
  {
    hide LinksTo, Stops, Fails, Distinct, IsPath, TrimSpace, StableIdOf;
    FollowAlong(q, path, MAX_HOPS - 1);
    LastIsNew(path, MAX_HOPS - 1);
    FollowStep(q, path[..MAX_HOPS - 1], path[MAX_HOPS - 1], 1);
  }

  lemma FollowToFailure(q: Query, path: seq<string>)
    requires Breaks(q, path)
    ensures Follow(q, [], path[0], MAX_HOPS) == LookupFailed
  {
    hide LinksTo, Stops, Fails, Distinct, IsPath, Follow, TrimSpace;
    FollowAlong(q, path, |path| - 1);
    LastIsNew(path, |path| - 1);
    FollowStep(q, path[..|path| - 1], path[|path| - 1], MAX_HOPS - (|path| - 1));
  }

  lemma LinksAreLinks(q: Query, id: string, next: string)
    requires LinksTo(q, id, next)
    ensures !Stops(q, id) && !Fails(q, id)
    ensures forall other :: LinksTo(q, id, other) ==> other == next
  {
  }

  /** Every outcome is explained by a path from the start. */
  lemma {:induction false} FollowIsExplained(q: Query, path: seq<string>, current: string, hops: nat)
    requires |path| + hops == MAX_HOPS && Distinct(path) && IsPath(q, path)
    requires path != [] ==> LinksTo(q, path[|path| - 1], current)
    ensures match Follow(q, path, current, hops)
            case Resolved(r) =>
              if r.cycleDetected then FoundCycle(q, r)
              else FoundEnd(q, r)
            case TooManyHops => exists p :: Overruns(q, p) && p[0] == (path + [current])[0]
            case LookupFailed => exists p :: Breaks(q, p) && p[0] == (path + [current])[0]
    ensures match Follow(q, path, current, hops)
            case Resolved(r) => r.path[0] == (path + [current])[0]
            case _ => true
    decreases hops
  {
    hide LinksTo, Stops, Fails, StableIdOf, TrimSpace;
    if hops == 0 {
      assert Overruns(q, path) by { LinksAreLinks(q, path[|path| - 1], current); }
    } else if current in path {
      var k := Position(path, current);
      assert Loops(q, path, k);
    } else {
      var path' := path + [current];
      assert IsPath(q, path');
      FollowStep(q, path, current, hops);
      hide Follow;
      if !Stops(q, current) && !Fails(q, current) {
        FollowIsExplained(q, path', TrimSpace(q(current).canonical), hops - 1);
      } else if Fails(q, current) {
        assert Breaks(q, path');
      }
    }
  }

  /** What resolution finds is there: a path to its end, a closed cycle, 64 distinct ids and no end, or a failed lookup. */
  lemma ResolveIsExact(q: Query, streamId: string)
    requires TrimSpace(streamId) != ""
    ensures
      var id := TrimSpace(streamId);
      match Resolution0(q, streamId)
      case Resolved(r) =>
        && r.path != [] && r.path[0] == id
        && (if r.cycleDetected then FoundCycle(q, r)
            else FoundEnd(q, r))
      case TooManyHops => exists p :: Overruns(q, p) && p[0] == id
      case LookupFailed => exists p :: Breaks(q, p) && p[0] == id
  {
    hide LinksTo, Stops, Fails, StableIdOf, Follow;
    FollowIsExplained(q, [], TrimSpace(streamId), MAX_HOPS);
  }

  /** What is there is found: the path from an id decides how its resolution ends. */
  lemma PathDecides(q: Query, streamId: string, path: seq<string>)
    requires TrimSpace(streamId) != "" && path != [] && path[0] == TrimSpace(streamId)
    ensures Ends(q, path) ==>
      Resolution0(q, streamId) == Resolved(Resolution(path[|path| - 1], path, [], false))
    ensures forall k: nat :: Loops(q, path, k) ==>
      Resolution0(q, streamId) == Resolved(Resolution(StableIdOf(path[k..]), path, path[k..], true))
    ensures Overruns(q, path) ==> Resolution0(q, streamId) == TooManyHops
    ensures Breaks(q, path) ==> Resolution0(q, streamId) == LookupFailed
  {
    hide LinksTo, Stops, Fails, StableIdOf, Follow, Distinct, IsPath;
    if Ends(q, path) {
      FollowToEnd(q, path);
    }
    forall k: nat | Loops(q, path, k)
      ensures Resolution0(q, streamId) == Resolved(Resolution(StableIdOf(path[k..]), path, path[k..], true))
    {
      FollowToLoop(q, path, k);
    }
    if Overruns(q, path) {
      FollowTooFar(q, path);
    }
    if Breaks(q, path) {
      FollowToFailure(q, path);
    }
  }

  /**
   A blank id resolves to nothing. Any other is its own canonical id, on a path of
   one, exactly when it has no alias, and resolution fails exactly when a lookup on
   the way does.
   */
  lemma IdsWithoutAliasAreCanonical(q: Query, streamId: string)
    ensures
      var id, o := TrimSpace(streamId), Resolution0(q, streamId);
      if id == "" then o == Resolved(Resolution("", [], [], false))
      else
        && (o == Resolved(Resolution(id, [id], [], false)) <==> Stops(q, id))
        && (o == LookupFailed <==> exists p :: Breaks(q, p) && p[0] == id)
  {
    hide StableIdOf, Follow, TrimSpace, Stops, LinksTo, Fails, Resolution0;
    if TrimSpace(streamId) == "" {
      BlankResolvesToNothing(q, streamId);
    }
    var id, o := TrimSpace(streamId), Resolution0(q, streamId);
    if id != "" {
      PathDecides(q, streamId, [id]);
      ResolveIsExact(q, streamId);
      if p :| Breaks(q, p) && p[0] == id {
        PathDecides(q, streamId, p);
      }
    }
  }

  lemma BlankResolvesToNothing(q: Query, streamId: string)
    requires TrimSpace(streamId) == ""
    ensures Resolution0(q, streamId) == Resolved(Resolution("", [], [], false))
  {
  }

  function Letters(k: nat): (r: string)
    ensures |r| == k && forall i :: 0 <= i < k ==> r[i] == 'a'
  {
    seq(k, i => 'a')
  }

  /** A ring of `n` ids, each one letter longer than the one before. */
  function Ring(n: nat): Query {
    id => Row(Letters(if |id| == n then 1 else |id| + 1))
  }

  lemma LettersAreTrimmed(k: nat)
    requires k > 0
    ensures TrimSpace(Letters(k)) == Letters(k) && Letters(k) != ""
  {
    TrimSpaceTrims(Letters(k));
  }

  lemma RingLinks(n: nat, k: nat)
    requires 2 <= n && 1 <= k <= n
    ensures LinksTo(Ring(n), Letters(k), Letters(if k == n then 1 else k + 1))
  {
    hide TrimSpace, Letters;
    var next := if k == n then 1 else k + 1;
    LettersAreTrimmed(next);
    assert Ring(n)(Letters(k)) == Row(Letters(next));
    assert |Letters(next)| != |Letters(k)|;
  }

  function RingPath(n: nat): (path: seq<string>)
    ensures |path| == n && forall i :: 0 <= i < n ==> path[i] == Letters(i + 1)
  {
    seq(n, i requires 0 <= i < n => Letters(i + 1))
  }

  lemma RingIsPath(n: nat)
    requires 2 <= n
    ensures Distinct(RingPath(n)) && IsPath(Ring(n), RingPath(n))
    ensures LinksTo(Ring(n), RingPath(n)[n - 1], RingPath(n)[0])
  {
    hide LinksTo, Stops, Fails, Letters, Ring;
    var path := RingPath(n);
    forall i, j | 0 <= i < j < n
      ensures path[i] != path[j]
    {
      assert |path[i]| == i + 1 && |path[j]| == j + 1;
    }
    forall i | 0 <= i < n - 1
      ensures LinksTo(Ring(n), path[i], path[i + 1])
    {
      RingLinks(n, i + 1);
    }
    RingLinks(n, n);
  }

  lemma ClosedPathDecides(q: Query, streamId: string, path: seq<string>)
    requires 0 < |path| <= MAX_HOPS && Distinct(path) && IsPath(q, path) && LinksTo(q, path[|path| - 1], path[0])
    requires TrimSpace(streamId) == path[0] != ""
    ensures Resolution0(q, streamId) ==
      if |path| < MAX_HOPS then Resolved(Resolution(StableIdOf(path), path, path, true)) else TooManyHops
  {
    hide TrimSpace, LinksTo, Stops, Fails, Distinct, IsPath, StableIdOf, Follow;
    WholePath(path);
    if |path| < MAX_HOPS {
      FollowToLoop(q, path, 0);
    } else {
      LinksAreLinks(q, path[|path| - 1], path[0]);
      FollowTooFar(q, path);
    }
  }

  /** A closed chain of up to 63 ids is found; one of 64 makes resolution give up. */
  lemma RingOf64GivesUp(n: nat)
    requires 2 <= n <= MAX_HOPS
    ensures Resolution0(Ring(n), Letters(1)) ==
      if n < MAX_HOPS then Resolved(Resolution(StableIdOf(RingPath(n)), RingPath(n), RingPath(n), true)) else TooManyHops
  {
    hide TrimSpace, LinksTo, Stops, Fails, Ring, RingPath, Letters, Distinct, IsPath, StableIdOf, Resolution0;
    LettersAreTrimmed(1);
    RingIsPath(n);
    ClosedPathDecides(Ring(n), Letters(1), RingPath(n));
  }

  lemma WholePath(path: seq<string>)
    ensures path[0..] == path
  {
  }

  // ---------------------------------------------------------------- the same for every id on the way

  lemma LinksAreTrimmed(q: Query, id: string)
    ensures forall next :: LinksTo(q, id, next) ==> next != "" && Trimmed(next)
  {
    if q(id).Row? {
      TrimSpaceTrims(q(id).canonical);
    }
  }

  /** All ids on a path from a trimmed id are trimmed. */
  lemma PathIsTrimmed(q: Query, path: seq<string>)
    requires path != [] && IsPath(q, path) && path[0] != "" && Trimmed(path[0])
    ensures forall id :: id in path ==> id != "" && Trimmed(id) && TrimSpace(id) == id
  {
    hide LinksTo, Stops, Fails, Trimmed, TrimSpace;
    forall id | id in path
      ensures id != "" && Trimmed(id) && TrimSpace(id) == id
    {
      var i :| 0 <= i < |path| && path[i] == id;
      if i > 0 {
        assert LinksTo(q, path[i - 1], path[i - 1 + 1]);
        LinksAreTrimmed(q, path[i - 1]);
      }
      TrimSpaceTrims(id);
    }
  }

  lemma SuffixEnds(q: Query, path: seq<string>, m: nat)
    requires Ends(q, path) && m < |path|
    ensures Ends(q, path[m..])
  {
    hide LinksTo, Stops, Fails;
    var s := path[m..];
    assert forall i :: 0 <= i < |s| ==> s[i] == path[m + i];
    forall i | 0 <= i < |s| - 1
      ensures LinksTo(q, s[i], s[i + 1])
    {
      assert LinksTo(q, path[m + i], path[m + i + 1]);
    }
  }

  lemma SuffixLoops(q: Query, path: seq<string>, k: nat, m: nat)
    requires Loops(q, path, k) && m <= k
    ensures Loops(q, path[m..], k - m) && path[m..][k - m..] == path[k..]
  {
    hide LinksTo, Stops, Fails;
    var s := path[m..];
    assert forall i :: 0 <= i < |s| ==> s[i] == path[m + i];
    forall i | 0 <= i < |s| - 1
      ensures LinksTo(q, s[i], s[i + 1])
    {
      assert LinksTo(q, path[m + i], path[m + i + 1]);
    }
  }

  ghost function Rotation(path: seq<string>, k: nat, m: nat): (r: seq<string>)
    requires k <= m < |path|
    ensures |r| == |path| - k
    ensures forall i :: 0 <= i < |r| ==> r[i] == if i < |path| - m then path[m + i] else path[k + i - (|path| - m)]
  {
    path[m..] + path[k..m]
  }

  lemma RotationIsDistinct(path: seq<string>, k: nat, m: nat)
    requires k <= m < |path| && Distinct(path)
    ensures Distinct(Rotation(path, k, m))
    ensures forall id :: id in Rotation(path, k, m) <==> id in path[k..]
  {
    assert path[k..] == path[k..m] + path[m..];
  }

  /** From inside the cycle resolution goes once around. */
  lemma RotationLoops(q: Query, path: seq<string>, k: nat, m: nat)
    requires Loops(q, path, k) && k <= m < |path|
    ensures Loops(q, Rotation(path, k, m), 0)
  {
    hide LinksTo, Stops, Fails, Rotation, Distinct;
    var r, a := Rotation(path, k, m), |path| - m;
    RotationIsDistinct(path, k, m);
    forall i | 0 <= i < |r| - 1
      ensures LinksTo(q, r[i], r[i + 1])
    {
      if i < a - 1 {
        assert LinksTo(q, path[m + i], path[m + i + 1]);
      } else if i >= a {
        assert LinksTo(q, path[k + i - a], path[k + i - a + 1]);
      }
    }
    assert LinksTo(q, r[|r| - 1], r[0]) by {
      if m > k {
        assert LinksTo(q, path[m - 1], path[m - 1 + 1]);
      }
    }
  }

  lemma ResolveAlongEnd(q: Query, path: seq<string>, m: nat)
    requires Ends(q, path) && m < |path| && path[0] != "" && Trimmed(path[0])
    ensures Resolution0(q, path[m]) == Resolved(Resolution(path[|path| - 1], path[m..], [], false))
  {
    hide LinksTo, Stops, Fails, Follow;
    PathIsTrimmed(q, path);
    SuffixEnds(q, path, m);
    FollowToEnd(q, path[m..]);
    assert path[m] in path;
  }

  lemma ResolveAlongLoop(q: Query, path: seq<string>, k: nat, m: nat)
    requires Loops(q, path, k) && m < |path| && path[0] != "" && Trimmed(path[0])
    ensures Resolution0(q, path[m]).Resolved? && Resolution0(q, path[m]).resolution.canonicalId == StableIdOf(path[k..])
  {
    hide LinksTo, Stops, Fails, Follow, StableIdOf;
    PathIsTrimmed(q, path);
    assert path[m] in path;
    if m <= k {
      SuffixLoops(q, path, k, m);
      FollowToLoop(q, path[m..], k - m);
    } else {
      RotationLoops(q, path, k, m);
      RotationIsDistinct(path, k, m);
      var r := Rotation(path, k, m);
      FollowToLoop(q, r, 0);
      assert r[0..] == r;
      StableIdIgnoresOrder(r, path[k..]);
    }
  }

  /** Every id on the path of `r` resolves to the canonical id of `r`. */
  ghost predicate SameAlong(q: Query, r: Resolution) {
    forall id :: id in r.path ==>
      Resolution0(q, id).Resolved? && Resolution0(q, id).resolution.canonicalId == r.canonicalId
  }

  lemma CycleStart(q: Query, r: Resolution) returns (k: nat)
    requires FoundCycle(q, r)
    ensures Loops(q, r.path, k) && IsPath(q, r.path)
    ensures k < |r.path| && r.cycle == r.path[k..] && r.canonicalId == StableIdOf(r.cycle)
  {
    k :| Loops(q, r.path, k) && r.cycle == r.path[k..] && r.canonicalId == StableIdOf(r.cycle);
  }

  lemma SameAlongLoop(q: Query, r: Resolution)
    requires r.path != [] && r.path[0] != "" && Trimmed(r.path[0]) && FoundCycle(q, r)
    ensures SameAlong(q, r) && r.canonicalId in r.path
  {
    hide LinksTo, Stops, Fails, Follow, StableIdOf, Resolution0, Trimmed, TrimSpace, Distinct, IsPath, Loops;
    var k := CycleStart(q, r);
    forall id | id in r.path
      ensures Resolution0(q, id).Resolved? && Resolution0(q, id).resolution.canonicalId == r.canonicalId
    {
      var m :| 0 <= m < |r.path| && r.path[m] == id;
      ResolveAlongLoop(q, r.path, k, m);
    }
    PathIsTrimmed(q, r.path);
    assert forall id :: id in r.cycle ==> id in r.path;
    StableIdIsOneOf(r.cycle);
  }

  lemma SameAlongEnd(q: Query, r: Resolution)
    requires r.path != [] && r.path[0] != "" && Trimmed(r.path[0]) && FoundEnd(q, r)
    ensures SameAlong(q, r) && r.canonicalId in r.path
  {
    hide LinksTo, Stops, Fails, Follow, Resolution0, Trimmed, TrimSpace, Distinct, IsPath;
    forall id | id in r.path
      ensures Resolution0(q, id).Resolved? && Resolution0(q, id).resolution.canonicalId == r.canonicalId
    {
      var m :| 0 <= m < |r.path| && r.path[m] == id;
      ResolveAlongEnd(q, r.path, m);
    }
  }

  lemma NextIsOnPath(q: Query, path: seq<string>, k: nat)
    requires path != [] && IsPath(q, path) && k < |path|
    requires Stops(q, path[|path| - 1]) || LinksTo(q, path[|path| - 1], path[k])
    ensures forall next :: LinksTo(q, path[0], next) ==> next in path
  {
    hide LinksTo, Stops, Fails;
    assert |path| > 1 ==> LinksTo(q, path[0], path[0 + 1]);
    forall next | LinksTo(q, path[0], next)
      ensures next in path
    {
      LinksAreLinks(q, path[0], next);
    }
  }

  /**
   Whenever an id resolves, every id on its path resolves too, to the same
   canonical id; so do the id it links to and the canonical id itself.
   */
  lemma CanonicalIsStable(q: Query, streamId: string)
    requires Resolution0(q, streamId).Resolved? && TrimSpace(streamId) != ""
    ensures
      var r := Resolution0(q, streamId).resolution;
      && SameAlong(q, r) && r.canonicalId in r.path
      && Resolution0(q, r.canonicalId).Resolved? && Resolution0(q, r.canonicalId).resolution.canonicalId == r.canonicalId
      && (forall next :: LinksTo(q, TrimSpace(streamId), next) ==> next in r.path)
  {
    hide LinksTo, Stops, Fails, Follow, StableIdOf, Resolution0, TrimSpace, Trimmed;
    ResolveIsExact(q, streamId);
    TrimSpaceTrims(streamId);
    var r := Resolution0(q, streamId).resolution;
    if r.cycleDetected {
      SameAlongLoop(q, r);
      var k := CycleStart(q, r);
      NextIsOnPath(q, r.path, k);
    } else {
      SameAlongEnd(q, r);
      NextIsOnPath(q, r.path, 0);
    }
  }
}
