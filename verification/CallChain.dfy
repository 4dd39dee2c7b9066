/** Direct and indirect callers and callees of a function, found breadth first. */
module CallChain {

  datatype SymbolKind = FunctionKind | ClassKind

  datatype Symbol = Symbol(kind: SymbolKind, id: string, name: string, qualifiedName: string, file: string, line: int)

  /** A CALLS edge: the source is a function, the target a function or a class. */
  datatype Call = Call(source: Symbol, target: Symbol, expr: string, line: int)

  type Graph = seq<Call>

  datatype Mode = Callee | Caller

  /** A symbol, reached as a callee or as a caller. */
  datatype Side = Side(id: string, mode: Mode)

  /** The symbol at the far end of a call, seen from the side we come from. */
  function Other(c: Call, m: Mode): Symbol {
    if m.Callee? then c.target else c.source
  }

  /** Only functions are followed further; callers always are functions. */
  predicate Follows(c: Call, m: Mode) {
    m.Caller? || c.target.kind.FunctionKind?
  }

  /** The calls out of `u` for callees, those into the function `u` for callers. */
  ghost predicate Leaves(g: Graph, m: Mode, u: string, c: Call) {
    c in g && if m.Callee? then c.source.id == u else c.target.kind.FunctionKind? && c.target.id == u
  }

  /** The calls the query for one node returns, calls to functions before calls to classes. */
  function Rows(g: Graph, x: Side): (r: seq<Call>)
    ensures forall c :: c in r <==> Leaves(g, x.mode, x.id, c)
  {
    if x.mode.Callee? then Outgoing(g, x.id, FunctionKind) + Outgoing(g, x.id, ClassKind)
    else Incoming(g, x.id)
  }

  function Outgoing(g: Graph, id: string, kind: SymbolKind): (r: seq<Call>)
    ensures forall c :: c in r <==> c in g && c.source.id == id && c.target.kind == kind
  {
    if g == [] then []
    else
      var rest := Outgoing(g[1..], id, kind);
      if g[0].source.id == id && g[0].target.kind == kind then [g[0]] + rest else rest
  }

  function Incoming(g: Graph, id: string): (r: seq<Call>)
    ensures forall c :: c in r <==> c in g && c.target.kind.FunctionKind? && c.target.id == id
  {
    if g == [] then []
    else
      var rest := Incoming(g[1..], id);
      if g[0].target.kind.FunctionKind? && g[0].target.id == id then [g[0]] + rest else rest
  }

  // ---------------------------------------------------------------- paths

  /** The call leads from `u` to `v`: forwards for callees, backwards for callers. */
  ghost predicate Leads(g: Graph, m: Mode, u: string, c: Call, v: string) {
    Leaves(g, m, u, c) && v == if m.Callee? then c.target.id else c.source.id
  }

  /** A path of `n` calls joins `s` to the function `v`. */
  ghost predicate Walk(g: Graph, m: Mode, s: string, n: nat, v: string) {
    if n == 0 then v == s
    else exists u, c :: Walk(g, m, s, n - 1, u) && Leads(g, m, u, c, v) && c.target.kind.FunctionKind?
  }

  /** A path of `n` calls joins `s` to `v`, through functions; `v` itself may be a class. */
  ghost predicate Joined(g: Graph, m: Mode, s: string, n: nat, v: string) {
    n > 0 && exists u, c :: Walk(g, m, s, n - 1, u) && Leads(g, m, u, c, v)
  }

  /** One call that can be walked on from, in direction `m`. */
  ghost predicate Step(g: Graph, m: Mode, u: string, v: string) {
    exists c :: Leads(g, m, u, c, v) && c.target.kind.FunctionKind?
  }

  lemma StepsMirror(g: Graph, u: string, v: string)
    ensures Step(g, Callee, u, v) <==> Step(g, Caller, v, u)
  {
    if Step(g, Callee, u, v) {
      var c :| Leads(g, Callee, u, c, v) && c.target.kind.FunctionKind?;
      assert Leads(g, Caller, v, c, u);
    }
    if Step(g, Caller, v, u) {
      var c :| Leads(g, Caller, v, c, u);
      assert Leads(g, Callee, u, c, v) && c.target.kind.FunctionKind?;
    }
  }

  lemma {:induction false} StepThenWalk(g: Graph, m: Mode, a: string, b: string, n: nat, v: string)
    requires Step(g, m, a, b) && Walk(g, m, b, n, v)
    ensures Walk(g, m, a, n + 1, v)
  {
    hide Leads;
    if n == 0 {
      var c :| Leads(g, m, a, c, b) && c.target.kind.FunctionKind?;
      assert Walk(g, m, a, 0, a);
    } else {
      var u, c :| Walk(g, m, b, n - 1, u) && Leads(g, m, u, c, v) && c.target.kind.FunctionKind?;
      StepThenWalk(g, m, a, b, n - 1, u);
    }
  }

  lemma {:induction false} TurnWalk(g: Graph, m: Mode, m': Mode, s: string, n: nat, v: string)
    requires m != m' && Walk(g, m, s, n, v)
    ensures Walk(g, m', v, n, s)
  {
    hide Leads;
    if n > 0 {
      var u, c :| Walk(g, m, s, n - 1, u) && Leads(g, m, u, c, v) && c.target.kind.FunctionKind?;
      TurnWalk(g, m, m', s, n - 1, u);
      assert Step(g, m, u, v);
      StepsMirror(g, u, v);
      StepsMirror(g, v, u);
      StepThenWalk(g, m', v, u, n - 1, s);
    }
  }

  /** `v` is a caller of `s` over `n` calls exactly when `s` is a callee of `v` over `n` calls between functions. */
  lemma CallersMirrorCallees(g: Graph, s: string, n: nat, v: string)
    ensures Walk(g, Caller, s, n, v) <==> Walk(g, Callee, v, n, s)
    ensures n > 0 ==> (Joined(g, Caller, s, n, v) <==> Walk(g, Callee, v, n, s))
  {
    if Walk(g, Caller, s, n, v) {
      TurnWalk(g, Caller, Callee, s, n, v);
    }
    if Walk(g, Callee, v, n, s) {
      TurnWalk(g, Callee, Caller, v, n, s);
    }
  }

  // ---------------------------------------------------------------- results

  datatype Found = Found(symbol: Symbol, depth: nat)

  datatype Hop = Hop(call: Call, depth: nat, from: Side)

  datatype Chains = Chains(callers: map<string, Found>, callees: map<string, Found>, edges: seq<Hop>)

  function Table(t: Chains, m: Mode): map<string, Found> {
    if m.Callee? then t.callees else t.callers
  }

  /** Whatever is in a table is joined to one of `seeds` by a path as long as its depth. */
  ghost predicate Sound(g: Graph, seeds: set<string>, max: nat, t: Chains) {
    forall m, v :: v in Table(t, m) ==>
      var f := Table(t, m)[v];
      f.depth <= max && exists s :: s in seeds && Joined(g, m, s, f.depth, v)
  }

  /** Whatever is joined to `s` within `max` calls is in its table, at no greater depth. */
  ghost predicate Complete(g: Graph, s: string, max: nat, t: Chains) {
    forall m, n: nat, v :: n <= max && Joined(g, m, s, n, v) ==> v in Table(t, m) && Table(t, m)[v].depth <= n
  }

  /** `n` calls are the fewest that join `s` to the function `v`. */
  ghost predicate Shortest(g: Graph, m: Mode, s: string, n: nat, v: string) {
    Walk(g, m, s, n, v) && forall k: nat :: k < n ==> !Walk(g, m, s, k, v)
  }

  /** The hop goes on, by a call, from where a shortest path from `s` ends. */
  ghost predicate GoesOn(g: Graph, s: string, max: nat, h: Hop) {
    Leaves(g, h.from.mode, h.from.id, h.call) && 1 <= h.depth <= max && Shortest(g, h.from.mode, s, h.depth - 1, h.from.id)
  }

  /** How often the search from `s` lists the hop: once for every copy of its call, if it goes on from a shortest path. */
  ghost function Share(g: Graph, s: string, max: nat, h: Hop): nat {
    if GoesOn(g, s, max, h) then multiset(g)[h.call] else 0
  }

  /** The search from `s` adds exactly its share of the edges to what earlier ones listed. */
  ghost predicate Lists(g: Graph, s: string, max: nat, was: Chains, t: Chains) {
    forall h :: multiset(t.edges)[h] == multiset(was.edges)[h] + Share(g, s, max, h)
  }

  ghost function Total(g: Graph, seeds: seq<Symbol>, max: nat, h: Hop): nat {
    if seeds == [] then 0 else Total(g, seeds[..|seeds| - 1], max, h) + Share(g, seeds[|seeds| - 1].id, max, h)
  }

  /** The edges are exactly the calls that go on from the end of a shortest path, one call longer, once for each seed. */
  ghost predicate EdgesExact(g: Graph, seeds: seq<Symbol>, max: nat, t: Chains) {
    forall h :: multiset(t.edges)[h] == Total(g, seeds, max, h)
  }

  /** The hop comes from direction `m` to `x`. */
  ghost predicate Reaches(h: Hop, m: Mode, x: Symbol) {
    h.from.mode == m && x == if m.Callee? then h.call.target else h.call.source
  }

  /** The hop at `k` is the last that comes to `x`, or to any symbol with its id. */
  ghost predicate LastTo(edges: seq<Hop>, k: int, m: Mode, x: Symbol) {
    && 0 <= k < |edges| && Reaches(edges[k], m, x)
    && forall j, y :: k < j < |edges| && Reaches(edges[j], m, y) ==> y.id != x.id
  }

  /** A node is listed as the symbol its last edge comes to. */
  ghost predicate Named(t: Chains) {
    forall m, v :: v in Table(t, m) ==> Table(t, m)[v].symbol.id == v && exists k :: LastTo(t.edges, k, m, Table(t, m)[v].symbol)
  }

  /** `t` lists everything `was` lists, at the same depth or nearer. */
  ghost predicate Extends(was: Chains, t: Chains) {
    forall m, v :: v in Table(was, m) ==> v in Table(t, m) && Table(t, m)[v].depth <= Table(was, m)[v].depth
  }

  /** A node is in a table if and only if a nonempty path of at most `max` calls joins it to a seed, and its depth is the length of the shortest. */
  ghost predicate Exact(g: Graph, seeds: set<string>, max: nat, t: Chains) {
    && (forall m, v :: v in Table(t, m) <==> exists s, n: nat :: s in seeds && n <= max && Joined(g, m, s, n, v))
    && (forall m, v :: v in Table(t, m) ==>
      && (exists s :: s in seeds && Joined(g, m, s, Table(t, m)[v].depth, v))
      && forall s, n: nat :: s in seeds && Joined(g, m, s, n, v) ==> Table(t, m)[v].depth <= n)
  }

  lemma SoundAndCompleteIsExact(g: Graph, seeds: set<string>, max: nat, t: Chains)
    requires Sound(g, seeds, max, t)
    requires forall s :: s in seeds ==> Complete(g, s, max, t)
    ensures Exact(g, seeds, max, t)
  {
    forall m, v | v in Table(t, m)
      ensures forall s, n: nat :: s in seeds && Joined(g, m, s, n, v) ==> Table(t, m)[v].depth <= n
    {
      forall s, n: nat | s in seeds && Joined(g, m, s, n, v)
        ensures Table(t, m)[v].depth <= n
      {
        if n <= max {
          assert Complete(g, s, max, t);
        }
      }
    }
  }

  // ---------------------------------------------------------------- the search from one seed

  datatype Entry = Entry(node: Side, depth: nat)

  /** The search state: `dist` gives the depth of every node seen, `done` the nodes taken from the queue. */
  ghost predicate Searching(g: Graph, s: string, queue: seq<Entry>, dist: map<Side, nat>, done: set<Side>) {
    && (forall m :: Side(s, m) in dist && dist[Side(s, m)] == 0)
    && (forall x :: x in dist ==> Walk(g, x.mode, s, dist[x], x.id))
    && (forall k :: 0 <= k < |queue| ==> queue[k].node in dist && dist[queue[k].node] == queue[k].depth && queue[k].node !in done)
    && (forall x :: x in dist ==> x in done || exists k :: 0 <= k < |queue| && queue[k].node == x)
    && (forall x :: x in done ==> x in dist)
    && (forall j, k :: 0 <= j < k < |queue| ==> queue[j].node != queue[k].node)
  }

  /** Depths rise along the queue, by at most one, and what is done is no deeper. */
  ghost predicate Layered(queue: seq<Entry>, dist: map<Side, nat>, done: set<Side>, low: nat) {
    && (forall j, k :: 0 <= j < k < |queue| ==> queue[j].depth <= queue[k].depth)
    && (forall k :: 0 <= k < |queue| ==> low <= queue[k].depth <= low + 1)
    && (forall x :: x in done && x in dist ==> dist[x] <= low)
  }

  /** Call `c` out of `x`, which is at depth `d`, has been taken into account. */
  ghost predicate Recorded(c: Call, x: Side, d: nat, dist: map<Side, nat>, t: Chains) {
    var other := Other(c, x.mode).id;
    && other in Table(t, x.mode) && Table(t, x.mode)[other].depth <= d + 1
    && (Follows(c, x.mode) ==> Side(other, x.mode) in dist && dist[Side(other, x.mode)] <= d + 1)
  }

  ghost predicate Expanded(g: Graph, x: Side, max: nat, dist: map<Side, nat>, t: Chains)
    requires x in dist
  {
    dist[x] < max ==> forall c :: Leaves(g, x.mode, x.id, c) ==> Recorded(c, x, dist[x], dist, t)
  }

  ghost predicate AllExpanded(g: Graph, max: nat, dist: map<Side, nat>, done: set<Side>, t: Chains) {
    forall x :: x in done ==> x in dist && Expanded(g, x, max, dist, t)
  }

  lemma {:induction false} WalksAreSeen(g: Graph, s: string, max: nat, dist: map<Side, nat>, done: set<Side>, t: Chains, m: Mode, n: nat, v: string)
    requires Searching(g, s, [], dist, done) && AllExpanded(g, max, dist, done, t)
    requires n <= max && Walk(g, m, s, n, v)
    ensures Side(v, m) in done && Side(v, m) in dist && dist[Side(v, m)] <= n
  {
    hide Table;
    if n > 0 {
      var u, c :| Walk(g, m, s, n - 1, u) && Leads(g, m, u, c, v) && c.target.kind.FunctionKind?;
      WalksAreSeen(g, s, max, dist, done, t, m, n - 1, u);
      assert Expanded(g, Side(u, m), max, dist, t);
      assert Recorded(c, Side(u, m), dist[Side(u, m)], dist, t);
    }
  }

  lemma SearchIsComplete(g: Graph, s: string, max: nat, dist: map<Side, nat>, done: set<Side>, t: Chains)
    requires Searching(g, s, [], dist, done) && AllExpanded(g, max, dist, done, t)
    ensures Complete(g, s, max, t)
  {
    hide Table, Walk, Searching;
    forall m, n: nat, v | n <= max && Joined(g, m, s, n, v)
      ensures v in Table(t, m) && Table(t, m)[v].depth <= n
    {
      var u, c :| Walk(g, m, s, n - 1, u) && Leads(g, m, u, c, v);
      WalksAreSeen(g, s, max, dist, done, t, m, n - 1, u);
      assert Expanded(g, Side(u, m), max, dist, t);
      assert Recorded(c, Side(u, m), dist[Side(u, m)], dist, t);
    }
  }

  /** How often the expanded nodes list the hop. */
  ghost function Expansion(g: Graph, max: nat, dist: map<Side, nat>, done: set<Side>, h: Hop): nat {
    var x := h.from;
    if x in done && x in dist && dist[x] < max && h.depth == dist[x] + 1 && Leaves(g, x.mode, x.id, h.call) then multiset(g)[h.call]
    else 0
  }

  ghost function Visited(x: Side, d: nat, calls: seq<Call>, h: Hop): nat {
    if h.from == x && h.depth == d + 1 then multiset(calls)[h.call] else 0
  }

  /** The edges are those of earlier searches, those of the expanded nodes, and the first `calls` of `x`. */
  ghost predicate Added(g: Graph, max: nat, was: Chains, t: Chains, dist: map<Side, nat>, done: set<Side>, x: Side, d: nat, calls: seq<Call>) {
    forall h :: multiset(t.edges)[h] == multiset(was.edges)[h] + Expansion(g, max, dist, done, h) + Visited(x, d, calls, h)
  }

  lemma DepthsAreShortest(g: Graph, s: string, max: nat, dist: map<Side, nat>, done: set<Side>, t: Chains, x: Side)
    requires Searching(g, s, [], dist, done) && AllExpanded(g, max, dist, done, t)
    requires x in dist && dist[x] <= max
    ensures Shortest(g, x.mode, s, dist[x], x.id)
  {
    hide Walk, AllExpanded;
    assert Side(x.id, x.mode) == x;
    forall k: nat | k < dist[x]
      ensures !Walk(g, x.mode, s, k, x.id)
    {
      if Walk(g, x.mode, s, k, x.id) {
        WalksAreSeen(g, s, max, dist, done, t, x.mode, k, x.id);
      }
    }
  }

  /** Once the search is over, the new edges are those that go on from shortest paths. */
  lemma SearchListsEdges(g: Graph, s: string, max: nat, dist: map<Side, nat>, done: set<Side>, t: Chains, h: Hop)
    requires Searching(g, s, [], dist, done) && AllExpanded(g, max, dist, done, t)
    ensures Expansion(g, max, dist, done, h) == Share(g, s, max, h)
  {
    hide Walk, Leaves, Table;
    var x := h.from;
    assert Side(x.id, x.mode) == x;
    if x in done && x in dist && dist[x] < max {
      hide Searching;
      DepthsAreShortest(g, s, max, dist, done, t, x);
    }
    if GoesOn(g, s, max, h) {
      WalksAreSeen(g, s, max, dist, done, t, x.mode, h.depth - 1, x.id);
      DepthsAreShortest(g, s, max, dist, done, t, x);
    }
  }

  lemma SearchIsListed(g: Graph, s: string, max: nat, dist: map<Side, nat>, done: set<Side>, was: Chains, t: Chains)
    requires Searching(g, s, [], dist, done) && AllExpanded(g, max, dist, done, t)
    requires Added(g, max, was, t, dist, done, Side(s, Callee), 0, [])
    ensures Lists(g, s, max, was, t)
  {
    hide Searching, AllExpanded, Expansion, Share;
    forall h
      ensures multiset(t.edges)[h] == multiset(was.edges)[h] + Share(g, s, max, h)
    {
      SearchListsEdges(g, s, max, dist, done, t, h);
    }
  }

  // ---------------------------------------------------------------- one call

  /** The nearer of the depth on record and depth `d`. */
  function Nearer(table: map<string, Found>, v: string, d: nat): nat {
    if v in table && table[v].depth < d then table[v].depth else d
  }

  /** The call is added to the edges, its far end to the table, at the nearer of the old and the new depth. */
  function Record(t: Chains, c: Call, x: Side, d: nat): (r: Chains)
    ensures
      var v := Other(c, x.mode).id;
      Table(r, x.mode) == Table(t, x.mode)[v := Found(Other(c, x.mode), Nearer(Table(t, x.mode), v, d + 1))]
    ensures forall m :: m != x.mode ==> Table(r, m) == Table(t, m)
    ensures r.edges == t.edges + [Hop(c, d + 1, x)]
  {
    var v := Other(c, x.mode).id;
    var f := Found(Other(c, x.mode), Nearer(Table(t, x.mode), v, d + 1));
    var edges := t.edges + [Hop(c, d + 1, x)];
    if x.mode.Callee? then Chains(t.callers, t.callees[v := f], edges)
    else Chains(t.callers[v := f], t.callees, edges)
  }

  lemma RecordExtends(t: Chains, c: Call, x: Side, d: nat)
    ensures Extends(t, Record(t, c, x, d))
    ensures Other(c, x.mode).id in Table(Record(t, c, x, d), x.mode)
    ensures Table(Record(t, c, x, d), x.mode)[Other(c, x.mode).id].depth <= d + 1
  {
    hide Record, Table, Other;
  }

  lemma RecordIsSound(g: Graph, s: string, seeds: set<string>, max: nat, t: Chains, c: Call, x: Side, d: nat)
    requires Sound(g, seeds, max, t)
    requires s in seeds && Walk(g, x.mode, s, d, x.id) && Leaves(g, x.mode, x.id, c) && d < max
    ensures Sound(g, seeds, max, Record(t, c, x, d))
  {
    hide Walk, Leaves, Record, Table;
    var v := Other(c, x.mode).id;
    assert Leads(g, x.mode, x.id, c, v);
    assert Joined(g, x.mode, s, d + 1, v);
  }

  lemma RecordKeepsNamed(t: Chains, c: Call, x: Side, d: nat)
    requires Named(t)
    ensures Named(Record(t, c, x, d))
  {
    hide Record, Table;
    var r, n := Record(t, c, x, d), |t.edges|;
    assert LastTo(r.edges, n, x.mode, Other(c, x.mode));
    forall m, v | v in Table(r, m)
      ensures Table(r, m)[v].symbol.id == v && exists k :: LastTo(r.edges, k, m, Table(r, m)[v].symbol)
    {
      if m != x.mode || v != Other(c, x.mode).id {
        var k :| LastTo(t.edges, k, m, Table(t, m)[v].symbol);
        assert LastTo(r.edges, k, m, Table(r, m)[v].symbol);
      }
    }
  }

  lemma RecordAdds(g: Graph, max: nat, was: Chains, t: Chains, c: Call, x: Side, d: nat, dist: map<Side, nat>, done: set<Side>, calls: seq<Call>)
    requires Added(g, max, was, t, dist, done, x, d, calls)
    ensures Added(g, max, was, Record(t, c, x, d), dist, done, x, d, calls + [c])
  {
    hide Record, Expansion;
    var r, hop := Record(t, c, x, d), Hop(c, d + 1, x);
    forall h
      ensures multiset(r.edges)[h] == multiset(was.edges)[h] + Expansion(g, max, dist, done, h) + Visited(x, d, calls + [c], h)
    {
      assert multiset(r.edges)[h] == multiset(t.edges)[h] + if h == hop then 1 else 0;
      assert multiset(calls + [c])[h.call] == multiset(calls)[h.call] + if h.call == c then 1 else 0;
    }
  }

  lemma NothingAdded(g: Graph, max: nat, t: Chains, dist: map<Side, nat>, x: Side, d: nat)
    ensures Added(g, max, t, t, dist, {}, x, d, [])
  {
  }

  lemma NothingVisited(g: Graph, max: nat, was: Chains, t: Chains, dist: map<Side, nat>, done: set<Side>, x: Side, d: nat, y: Side, e: nat)
    requires Added(g, max, was, t, dist, done, x, d, [])
    ensures Added(g, max, was, t, dist, done, y, e, [])
  {
    hide Expansion;
    forall h
      ensures Visited(x, d, [], h) == Visited(y, e, [], h)
    {
    }
  }

  lemma AddedPersists(g: Graph, max: nat, was: Chains, t: Chains, dist: map<Side, nat>, dist': map<Side, nat>, done: set<Side>, x: Side, d: nat, calls: seq<Call>)
    requires Added(g, max, was, t, dist, done, x, d, calls) && Grows(dist, dist') && done <= dist.Keys
    ensures Added(g, max, was, t, dist', done, x, d, calls)
  {
    hide Leaves, Visited;
    forall h
      ensures Expansion(g, max, dist, done, h) == Expansion(g, max, dist', done, h)
    {
    }
  }

  lemma {:induction false} OutgoingCount(g: Graph, id: string, kind: SymbolKind, c: Call)
    ensures multiset(Outgoing(g, id, kind))[c] == if c.source.id == id && c.target.kind == kind then multiset(g)[c] else 0
  {
    if g != [] {
      OutgoingCount(g[1..], id, kind, c);
      assert g == [g[0]] + g[1..];
    }
  }

  lemma {:induction false} IncomingCount(g: Graph, id: string, c: Call)
    ensures multiset(Incoming(g, id))[c] == if c.target.kind.FunctionKind? && c.target.id == id then multiset(g)[c] else 0
  {
    if g != [] {
      IncomingCount(g[1..], id, c);
      assert g == [g[0]] + g[1..];
    }
  }

  /** The query returns a call as often as the graph holds it. */
  lemma RowsCount(g: Graph, x: Side, c: Call)
    ensures multiset(Rows(g, x))[c] == if Leaves(g, x.mode, x.id, c) then multiset(g)[c] else 0
  {
    if x.mode.Callee? {
      OutgoingCount(g, x.id, FunctionKind, c);
      OutgoingCount(g, x.id, ClassKind, c);
    } else {
      IncomingCount(g, x.id, c);
    }
  }

  /** All calls of a node visited, it is one more node expanded. */
  lemma AddedByAll(g: Graph, max: nat, was: Chains, t: Chains, dist: map<Side, nat>, done: set<Side>, x: Side, d: nat, y: Side, e: nat)
    requires Added(g, max, was, t, dist, done, x, d, if d < max then Rows(g, x) else [])
    requires x in dist && dist[x] == d && x !in done
    ensures Added(g, max, was, t, dist, done + {x}, y, e, [])
  {
    hide Rows, Leaves;
    forall h
      ensures multiset(t.edges)[h] == multiset(was.edges)[h] + Expansion(g, max, dist, done + {x}, h) + Visited(y, e, [], h)
    {
      RowsCount(g, x, h.call);
      assert multiset(t.edges)[h] ==
        multiset(was.edges)[h] + Expansion(g, max, dist, done, h) + Visited(x, d, if d < max then Rows(g, x) else [], h);
    }
  }

  lemma ExtendsKeepsComplete(g: Graph, s: string, max: nat, t: Chains, t': Chains)
    requires Complete(g, s, max, t) && Extends(t, t')
    ensures Complete(g, s, max, t')
  {
    hide Joined;
    forall m, n: nat, v | n <= max && Joined(g, m, s, n, v)
      ensures v in Table(t', m) && Table(t', m)[v].depth <= n
    {
      assert v in Table(t, m);
    }
  }

  /** More depths known, never different ones. */
  ghost predicate Grows(dist: map<Side, nat>, dist': map<Side, nat>) {
    forall x :: x in dist ==> x in dist' && dist'[x] == dist[x]
  }

  lemma RecordedPersists(c: Call, x: Side, d: nat, dist: map<Side, nat>, t: Chains, dist': map<Side, nat>, t': Chains)
    requires Recorded(c, x, d, dist, t) && Grows(dist, dist') && Extends(t, t')
    ensures Recorded(c, x, d, dist', t')
  {
  }

  lemma OneCallFurther(g: Graph, s: string, x: Side, d: nat, c: Call, y: Side)
    requires Walk(g, x.mode, s, d, x.id) && Leaves(g, x.mode, x.id, c) && Follows(c, x.mode)
    requires y == Side(Other(c, x.mode).id, x.mode)
    ensures Walk(g, y.mode, s, d + 1, y.id)
  {
    assert Leads(g, x.mode, x.id, c, y.id);
  }

  /** A node seen for the first time joins the queue one layer down. */
  lemma EnqueueKeepsSearching(g: Graph, s: string, queue: seq<Entry>, dist: map<Side, nat>, done: set<Side>, d: nat, y: Side)
    requires Searching(g, s, queue, dist, done) && Layered(queue, dist, done, d)
    requires Walk(g, y.mode, s, d + 1, y.id) && y !in dist
    ensures Searching(g, s, queue + [Entry(y, d + 1)], dist[y := d + 1], done)
    ensures Layered(queue + [Entry(y, d + 1)], dist[y := d + 1], done, d)
    ensures Grows(dist, dist[y := d + 1])
  {
    hide Walk;
    var queue' := queue + [Entry(y, d + 1)];
    forall z | z in dist[y := d + 1]
      ensures z in done || exists k :: 0 <= k < |queue'| && queue'[k].node == z
    {
      if z == y {
        assert queue'[|queue|].node == z;
      } else if z !in done {
        var k :| 0 <= k < |queue| && queue[k].node == z;
        assert queue'[k].node == z;
      }
    }
  }

  /** A node seen before is at most one layer down. */
  lemma SeenIsNear(g: Graph, s: string, queue: seq<Entry>, dist: map<Side, nat>, done: set<Side>, d: nat, y: Side)
    requires Searching(g, s, queue, dist, done) && Layered(queue, dist, done, d) && y in dist
    ensures dist[y] <= d + 1
  {
  }

  lemma ExpandedPersists(g: Graph, max: nat, dist: map<Side, nat>, done: set<Side>, t: Chains, dist': map<Side, nat>, t': Chains)
    requires AllExpanded(g, max, dist, done, t) && Grows(dist, dist') && Extends(t, t')
    ensures AllExpanded(g, max, dist', done, t')
  {
    hide Leaves, Recorded;
    forall x | x in done
      ensures x in dist' && Expanded(g, x, max, dist', t')
    {
      if dist'[x] < max {
        forall c | Leaves(g, x.mode, x.id, c)
          ensures Recorded(c, x, dist'[x], dist', t')
        {
          assert Expanded(g, x, max, dist, t);
          RecordedPersists(c, x, dist[x], dist, t, dist', t');
        }
      }
    }
  }

  /** Taking the first entry from the queue. */
  lemma DequeueKeepsSearching(g: Graph, s: string, queue: seq<Entry>, dist: map<Side, nat>, done: set<Side>, low: nat)
    requires Searching(g, s, queue, dist, done) && Layered(queue, dist, done, low) && queue != []
    ensures Searching(g, s, queue[1..], dist, done + {queue[0].node})
    ensures Layered(queue[1..], dist, done + {queue[0].node}, queue[0].depth)
    ensures
      var x := queue[0].node;
      x in dist && dist[x] == queue[0].depth && x !in done && Walk(g, x.mode, s, queue[0].depth, x.id)
  {
    hide Walk;
    var rest := queue[1..];
    forall x | x in dist
      ensures x in done + {queue[0].node} || exists k :: 0 <= k < |rest| && rest[k].node == x
    {
      if x !in done {
        var k :| 0 <= k < |queue| && queue[k].node == x;
        assert k > 0 ==> rest[k - 1].node == x;
      }
    }
  }

  /** The nodes a search can meet, for termination. */
  function Nodes(g: Graph, s: string): set<Side> {
    set c, m | c in g && m in {Callee, Caller} :: Side(Other(c, m).id, m)
  }

  function Universe(g: Graph, s: string): set<Side> {
    Nodes(g, s) + {Side(s, Callee), Side(s, Caller)}
  }

  lemma RowsAreCalls(g: Graph, s: string, x: Side, c: Call)
    requires Leaves(g, x.mode, x.id, c)
    ensures Side(Other(c, x.mode).id, x.mode) in Nodes(g, s)
  {
  }

  lemma ExtendsTransitive(a: Chains, b: Chains, c: Chains)
    requires Extends(a, b) && Extends(b, c)
    ensures Extends(a, c)
  {
  }

  /** A node is expanded once all its calls are recorded, or when it is too deep to be. */
  lemma FinishExpanding(g: Graph, max: nat, dist: map<Side, nat>, done: set<Side>, t: Chains, x: Side, rows: seq<Call>)
    requires AllExpanded(g, max, dist, done, t) && x in dist
    requires dist[x] < max ==> rows == Rows(g, x) && forall j :: 0 <= j < |rows| ==> Recorded(rows[j], x, dist[x], dist, t)
    ensures AllExpanded(g, max, dist, done + {x}, t)
  {
    hide Leaves, Recorded;
  }

  /** The search from one seed, on top of what earlier seeds found. */
  method Search(g: Graph, s: string, max: nat, t0: Chains, ghost seeds: set<string>) returns (t: Chains)
    requires s in seeds && Sound(g, seeds, max, t0) && Named(t0)
    ensures Sound(g, seeds, max, t) && Named(t)
    ensures Extends(t0, t) && Complete(g, s, max, t) && Lists(g, s, max, t0, t)
  {
    hide Rows, Leaves, Walk, Sound, Named, Added, Recorded, Record, Searching, Layered, AllExpanded, Extends, Grows, Table, Nodes;
    t := t0;
    var queue: seq<Entry> := [Entry(Side(s, Callee), 0), Entry(Side(s, Caller), 0)];
    var seen: set<Side> := {Side(s, Callee), Side(s, Caller)};
    ghost var dist: map<Side, nat> := map[Side(s, Callee) := 0, Side(s, Caller) := 0];
    ghost var done: set<Side> := {};
    ghost var low: nat := 0;
    StartSearching(g, s, max, t);
    NothingAdded(g, max, t, dist, Side(s, Callee), 0);
    while |queue| > 0
      invariant seen == dist.Keys && done <= dist.Keys <= Universe(g, s)
      invariant Searching(g, s, queue, dist, done) && Layered(queue, dist, done, low)
      invariant AllExpanded(g, max, dist, done, t)
      invariant Sound(g, seeds, max, t) && Named(t) && Extends(t0, t)
      invariant Added(g, max, t0, t, dist, done, Side(s, Callee), 0, [])
      decreases Universe(g, s) - done
    {
      DequeueKeepsSearching(g, s, queue, dist, done, low);
      var x, d := queue[0].node, queue[0].depth;
      queue := queue[1..];
      ghost var before := done;
      done, low := done + {x}, d;
      NothingVisited(g, max, t0, t, dist, before, Side(s, Callee), 0, x, d);
      if d >= max {
        FinishExpanding(g, max, dist, before, t, x, []);
        AddedByAll(g, max, t0, t, dist, before, x, d, Side(s, Callee), 0);
        continue;
      }
      var rows := Rows(g, x);
      for k := 0 to |rows|
        invariant seen == dist.Keys && done <= dist.Keys <= Universe(g, s)
        invariant dist[x] == d
        invariant Searching(g, s, queue, dist, done) && Layered(queue, dist, done, d)
        invariant AllExpanded(g, max, dist, before, t)
        invariant forall j :: 0 <= j < k ==> Recorded(rows[j], x, d, dist, t)
        invariant Sound(g, seeds, max, t) && Named(t) && Extends(t0, t)
        invariant Added(g, max, t0, t, dist, before, x, d, rows[..k])
      {
        ghost var wasDist, wasT := dist, t;
        queue, seen, t, dist := Visit(g, s, max, x, d, rows[k], queue, seen, t, dist, done, seeds, t0, before, rows[..k]);
        assert rows[..k] + [rows[k]] == rows[..k + 1];
        ExtendsTransitive(t0, wasT, t);
        ExpandedPersists(g, max, wasDist, before, wasT, dist, t);
        forall j | 0 <= j < k
          ensures Recorded(rows[j], x, d, dist, t)
        {
          RecordedPersists(rows[j], x, d, wasDist, wasT, dist, t);
        }
      }
      FinishExpanding(g, max, dist, before, t, x, rows);
      assert rows[..|rows|] == rows;
      AddedByAll(g, max, t0, t, dist, before, x, d, Side(s, Callee), 0);
    }
    SearchIsComplete(g, s, max, dist, done, t);
    SearchIsListed(g, s, max, dist, done, t0, t);
  }

  /** The body of the loop over the calls of one node. */
  method Visit(g: Graph, s: string, max: nat, x: Side, d: nat, c: Call, queue0: seq<Entry>, seen0: set<Side>, t0: Chains,
               ghost dist0: map<Side, nat>, ghost done: set<Side>, ghost seeds: set<string>, ghost base: Chains,
               ghost before: set<Side>, ghost calls: seq<Call>)
    returns (queue: seq<Entry>, seen: set<Side>, t: Chains, ghost dist: map<Side, nat>)
    requires s in seeds && d < max && Walk(g, x.mode, s, d, x.id) && Leaves(g, x.mode, x.id, c)
    requires seen0 == dist0.Keys <= Universe(g, s) && x in dist0 && dist0[x] == d
    requires Searching(g, s, queue0, dist0, done) && Layered(queue0, dist0, done, d)
    requires Sound(g, seeds, max, t0) && Named(t0)
    requires before <= dist0.Keys && Added(g, max, base, t0, dist0, before, x, d, calls)
    ensures seen == dist.Keys <= Universe(g, s) && dist0.Keys <= dist.Keys && dist[x] == dist0[x]
    ensures Searching(g, s, queue, dist, done) && Layered(queue, dist, done, d)
    ensures Sound(g, seeds, max, t) && Named(t) && Added(g, max, base, t, dist, before, x, d, calls + [c])
    ensures Grows(dist0, dist) && Extends(t0, t) && Recorded(c, x, d, dist, t)
  {
    hide Rows, Leaves, Walk, Sound, Named, Added, Record, Searching, Layered, Extends, Table, Nodes;
    queue, seen, dist := queue0, seen0, dist0;
    var y := Side(Other(c, x.mode).id, x.mode);
    RecordExtends(t0, c, x, d);
    RecordIsSound(g, s, seeds, max, t0, c, x, d);
    RecordKeepsNamed(t0, c, x, d);
    RecordAdds(g, max, base, t0, c, x, d, dist0, before, calls);
    RowsAreCalls(g, s, x, c);
    t := Record(t0, c, x, d);
    if Follows(c, x.mode) && y !in seen {
      OneCallFurther(g, s, x, d, c, y);
      EnqueueKeepsSearching(g, s, queue, dist, done, d, y);
      seen := seen + {y};
      queue := queue + [Entry(y, d + 1)];
      dist := dist[y := d + 1];
      AddedPersists(g, max, base, t, dist0, dist, before, x, d, calls + [c]);
    } else if y in seen {
      SeenIsNear(g, s, queue, dist, done, d, y);
    }
  }

  lemma StartSearching(g: Graph, s: string, max: nat, t: Chains)
    ensures
      var queue := [Entry(Side(s, Callee), 0), Entry(Side(s, Caller), 0)];
      var dist: map<Side, nat> := map[Side(s, Callee) := 0, Side(s, Caller) := 0];
      Searching(g, s, queue, dist, {}) && Layered(queue, dist, {}, 0) && AllExpanded(g, max, dist, {}, t) && Extends(t, t)
  {
    var queue := [Entry(Side(s, Callee), 0), Entry(Side(s, Caller), 0)];
    assert queue[0].node == Side(s, Callee) && queue[1].node == Side(s, Caller);
    var dist: map<Side, nat> := map[Side(s, Callee) := 0, Side(s, Caller) := 0];
    forall m
      ensures Side(s, m) in dist
    {
      assert m == Callee || m == Caller;
    }
  }

  // ---------------------------------------------------------------- the tool

  datatype Answer = NoMatch | Answer(maxDepth: nat, chains: Chains)

  ghost function Ids(seeds: seq<Symbol>): set<string> {
    set s | s in seeds :: s.id
  }

  /** Callers and callees of the functions that match a name, at most three calls away. */
  method GetCallChain(g: Graph, seeds: seq<Symbol>, depth: int) returns (r: Answer)
    ensures r.NoMatch? <==> seeds == []
    ensures r.Answer? && depth < 1 ==> r.maxDepth == 1
    ensures r.Answer? && 1 <= depth <= 3 ==> r.maxDepth == depth
    ensures r.Answer? && depth > 3 ==> r.maxDepth == 3
    ensures r.Answer? ==> Exact(g, Ids(seeds), r.maxDepth, r.chains) && Named(r.chains)
    ensures r.Answer? ==> EdgesExact(g, seeds, r.maxDepth, r.chains)
    ensures r.Answer? ==> Table(r.chains, Callee) == r.chains.callees && Table(r.chains, Caller) == r.chains.callers
  {
    hide Exact, Complete, Extends, Sound, Named, Lists, EdgesExact;
    var maxDepth := if depth < 1 then 1 else if depth > 3 then 3 else depth;
    if |seeds| == 0 {
      return NoMatch;
    }
    var t := Chains(map[], map[], []);
    NothingIsSound(g, Ids(seeds), maxDepth);
    for k := 0 to |seeds|
      invariant Sound(g, Ids(seeds), maxDepth, t) && Named(t) && EdgesExact(g, seeds[..k], maxDepth, t)
      invariant forall j :: 0 <= j < k ==> Complete(g, seeds[j].id, maxDepth, t)
    {
      ghost var was := t;
      t := Search(g, seeds[k].id, maxDepth, t, Ids(seeds));
      forall j | 0 <= j < k
        ensures Complete(g, seeds[j].id, maxDepth, t)
      {
        ExtendsKeepsComplete(g, seeds[j].id, maxDepth, was, t);
      }
      assert seeds[..k + 1][..k] == seeds[..k];
      OneMoreSearch(g, seeds[..k + 1], maxDepth, was, t);
    }
    assert seeds[..|seeds|] == seeds;
    SoundAndCompleteIsExact(g, Ids(seeds), maxDepth, t);
    return Answer(maxDepth, t);
  }

  lemma OneMoreSearch(g: Graph, seeds: seq<Symbol>, max: nat, was: Chains, t: Chains)
    requires seeds != [] && EdgesExact(g, seeds[..|seeds| - 1], max, was) && Lists(g, seeds[|seeds| - 1].id, max, was, t)
    ensures EdgesExact(g, seeds, max, t)
  {
    hide Share;
  }

  lemma NothingIsSound(g: Graph, seeds: set<string>, max: nat)
    ensures Sound(g, seeds, max, Chains(map[], map[], [])) && Named(Chains(map[], map[], []))
    ensures EdgesExact(g, [], max, Chains(map[], map[], []))
  {
  }

  /** A hop is listed if and only if, from some seed, it goes on from the end of a shortest path. */
  lemma {:induction false} TotalIsPositive(g: Graph, seeds: seq<Symbol>, max: nat, h: Hop)
    ensures Total(g, seeds, max, h) > 0 <==> exists s :: s in Ids(seeds) && GoesOn(g, s, max, h)
  {
    hide GoesOn;
    if seeds != [] {
      var last := seeds[|seeds| - 1];
      TotalIsPositive(g, seeds[..|seeds| - 1], max, h);
      assert Ids(seeds) == Ids(seeds[..|seeds| - 1]) + {last.id};
      GoingOnIsACall(g, last.id, max, h);
    }
  }

  lemma GoingOnIsACall(g: Graph, s: string, max: nat, h: Hop)
    ensures GoesOn(g, s, max, h) ==> h.call in g
  {
  }
}
