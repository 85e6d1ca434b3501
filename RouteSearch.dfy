/** The exposure-weighted route search `dijkstra(graph, start, end, alpha,
    beta, gamma, preferScenic)`: a naive Dijkstra over the graph's keys with
    tentative distances, a predecessor dictionary and a set of pending nodes,
    followed by a walk back along the predecessors. */
module RouteSearch {
  import opened RouteGraph

  /** A tentative distance; `Infinity` until the node is reached. */
  datatype Dist = Infinity | Finite(value: int)

  /** JavaScript's `<` on tentative distances: nothing is below Infinity and
      Infinity is below nothing. */
  predicate Less(a: Dist, b: Dist) {
    a.Finite? && (b.Infinity? || a.value < b.value)
  }

  predicate AtMost(a: Dist, b: Dist) {
    !Less(b, a)
  }

  /** `distances[u] + weight`: Infinity absorbs any finite weight. */
  function Plus(a: Dist, w: int): Dist {
    if a.Infinity? then Infinity else Finite(a.value + w)
  }

  /** What the search returns: the node path (possibly empty), or `Diverges`
      when the predecessor walk `while (prev[u])` never ends. */
  datatype Route = Path(nodes: seq<Node>) | Diverges

  /** `prev[u]` is truthy: present and not the empty string. */
  predicate Truthy(prev: map<Node, Node>, u: Node) {
    u in prev && prev[u] != ""
  }

  /** The recorded predecessor of v is the source of a graph edge into v
      (edge number via[v] of its list), both ends have been reached, and v is
      reachable from start. */
  ghost predicate PrevEdge(g: Graph, start: Node, dist: map<Node, Dist>, prev: map<Node, Node>,
                           via: map<Node, nat>, v: Node)
  {
    v in prev && v in g.adj && prev[v] in g.adj && v in dist && prev[v] in dist &&
    v in via && via[v] < |g.adj[prev[v]]| && g.adj[prev[v]][via[v]].to == v &&
    dist[v].Finite? && dist[prev[v]].Finite? && Reachable(g, start, v)
  }

  /** Predecessors were settled before the nodes they lead to, and at
      positions below `bound`: the walk back from any node then ends. */
  ghost predicate Ranked(prev: map<Node, Node>, rank: map<Node, nat>, bound: nat) {
    (forall n :: n in rank ==> rank[n] < bound) &&
    (forall v :: v in prev ==> prev[v] in rank && (v in rank ==> rank[prev[v]] < rank[v]))
  }

  /** The position of u in the settling order, `bound` for unsettled nodes. */
  ghost function Height(rank: map<Node, nat>, bound: nat, u: Node): nat {
    if u in rank then rank[u] else bound
  }

  /** Each predecessor edge accounts exactly for the distance of its target,
      and start keeps distance 0 without a predecessor. */
  ghost predicate Accounted(g: Graph, pol: Policy, start: Node, dist: map<Node, Dist>,
                            prev: map<Node, Node>, via: map<Node, nat>)
  {
    start in dist && dist[start] == Finite(0) && start !in prev &&
    forall v :: v in prev ==>
      (v in dist && prev[v] in dist && prev[v] in g.adj && v in via && via[v] < |g.adj[prev[v]]| &&
       dist[v] == Plus(dist[prev[v]], EdgeWeight(g.adj[prev[v]][via[v]], pol)))
  }

  /** The `reduce` that picks the next node: the first pending node whose
      tentative distance is minimal (strict `<` keeps the earlier one on a
      tie). */
  method SelectMin(pq: seq<Node>, dist: map<Node, Dist>) returns (k: nat)
    requires |pq| > 0 && forall n :: n in pq ==> n in dist
    ensures k < |pq|
    ensures forall j :: 0 <= j < |pq| ==> AtMost(dist[pq[k]], dist[pq[j]])
    ensures forall j :: 0 <= j < k ==> Less(dist[pq[k]], dist[pq[j]])
  {
    k := 0;
    for i := 0 to |pq|
      invariant k < |pq| && k <= i
      invariant forall j :: 0 <= j < i ==> AtMost(dist[pq[k]], dist[pq[j]])
      invariant forall j :: 0 <= j < k ==> Less(dist[pq[k]], dist[pq[j]])
    {
      if Less(dist[pq[i]], dist[pq[k]]) {
        k := i;
      }
    }
  }

  /** Node v kept its distance and predecessor. */
  ghost predicate Kept(v: Node, dist: map<Node, Dist>, prev: map<Node, Node>, via: map<Node, nat>,
                       dist': map<Node, Dist>, prev': map<Node, Node>, via': map<Node, nat>)
  {
    (v in dist <==> v in dist') && (v in dist ==> dist'[v] == dist[v]) &&
    (v in prev <==> v in prev') &&
    (v in prev ==> prev'[v] == prev[v] && v in via && v in via' && via'[v] == via[v])
  }

  /** Node v got a strictly smaller, finite distance through edge via'[v] of u. */
  ghost predicate Relaxed(g: Graph, u: Node, v: Node, dist: map<Node, Dist>,
                          dist': map<Node, Dist>, prev': map<Node, Node>, via': map<Node, nat>)
  {
    u in g.adj && v in dist && v in dist' && Less(dist'[v], dist[v]) && dist'[v].Finite? &&
    v in prev' && prev'[v] == u && v in via' && via'[v] < |g.adj[u]| && g.adj[u][via'[v]].to == v
  }

  /** What relaxing the first i edges of u does to the search state: the
      same nodes have distances, none grows, every node either keeps its
      distance and predecessor or gets a strictly smaller distance with u as
      predecessor, nothing changes when u is unreached; and, with
      non-negative costs, u's own distance stays, every new distance is u's
      plus the cost of the edge recorded, and each of those i edges is
      relaxed. */
  ghost predicate RelaxedPrefix(g: Graph, pol: Policy, u: Node, dist: map<Node, Dist>, prev: map<Node, Node>,
                                via: map<Node, nat>, dist': map<Node, Dist>, prev': map<Node, Node>,
                                via': map<Node, nat>, i: nat)
    requires u in g.adj && u in dist
  {
    i <= |g.adj[u]| &&
    dist'.Keys == dist.Keys &&
    (forall v :: v in prev' ==> v in via') &&
    (forall n :: n in dist ==> AtMost(dist'[n], dist[n])) &&
    (forall v :: Kept(v, dist, prev, via, dist', prev', via') || Relaxed(g, u, v, dist, dist', prev', via')) &&
    (dist[u] == Infinity ==> dist' == dist && prev' == prev && via' == via) &&
    (NonNegative(g, pol) ==>
      (forall v :: Relaxed(g, u, v, dist, dist', prev', via') ==>
         AtMost(dist[u], dist'[v]) && dist'[v] == Plus(dist[u], EdgeWeight(g.adj[u][via'[v]], pol))) &&
      dist'[u] == dist[u] &&
      (forall j :: 0 <= j < i && g.adj[u][j].to in dist ==>
         AtMost(dist'[g.adj[u][j].to], Plus(dist'[u], EdgeWeight(g.adj[u][j], pol)))))
  }

  /** Relaxing all the edges of u. */
  ghost predicate RelaxStep(g: Graph, pol: Policy, u: Node, dist: map<Node, Dist>, prev: map<Node, Node>,
                            via: map<Node, nat>, dist': map<Node, Dist>, prev': map<Node, Node>,
                            via': map<Node, nat>)
    requires u in g.adj && u in dist
  {
    RelaxedPrefix(g, pol, u, dist, prev, via, dist', prev', via', |g.adj[u]|)
  }

  /** Relaxing edge i of u (`if (alt < distances[edge.to])`) extends the
      relaxed prefix by one edge. */
  lemma RelaxOne(g: Graph, pol: Policy, u: Node, dist: map<Node, Dist>, prev: map<Node, Node>,
                 via: map<Node, nat>, d0: map<Node, Dist>, p0: map<Node, Node>, v0: map<Node, nat>, i: nat,
                 d1: map<Node, Dist>, p1: map<Node, Node>, v1: map<Node, nat>)
    requires u in g.adj && u in dist
    requires RelaxedPrefix(g, pol, u, dist, prev, via, d0, p0, v0, i) && i < |g.adj[u]|
    requires var e := g.adj[u][i]; var alt := Plus(d0[u], EdgeWeight(e, pol));
      if e.to in d0 && Less(alt, d0[e.to])
      then d1 == d0[e.to := alt] && p1 == p0[e.to := u] && v1 == v0[e.to := i]
      else d1 == d0 && p1 == p0 && v1 == v0
    ensures RelaxedPrefix(g, pol, u, dist, prev, via, d1, p1, v1, i + 1)
  {
    var e := g.adj[u][i];
    var alt := Plus(d0[u], EdgeWeight(e, pol));
    if e.to in d0 && Less(alt, d0[e.to]) {
      RelaxUpdate(g, pol, u, dist, prev, via, d0, p0, v0, i, d1, p1, v1);
    } else {
      RelaxSkip(g, pol, u, dist, prev, via, d0, p0, v0, i);
    }
  }

  /** An edge that does not improve its target changes nothing. */
  lemma RelaxSkip(g: Graph, pol: Policy, u: Node, dist: map<Node, Dist>, prev: map<Node, Node>,
                  via: map<Node, nat>, d0: map<Node, Dist>, p0: map<Node, Node>, v0: map<Node, nat>, i: nat)
    requires u in g.adj && u in dist
    requires RelaxedPrefix(g, pol, u, dist, prev, via, d0, p0, v0, i) && i < |g.adj[u]|
    requires !(g.adj[u][i].to in d0 && Less(Plus(d0[u], EdgeWeight(g.adj[u][i], pol)), d0[g.adj[u][i].to]))
    ensures RelaxedPrefix(g, pol, u, dist, prev, via, d0, p0, v0, i + 1)
  {
  }

  /** An edge that improves its target records the new distance, u as its
      predecessor and the edge's index. */
  lemma RelaxUpdate(g: Graph, pol: Policy, u: Node, dist: map<Node, Dist>, prev: map<Node, Node>,
                    via: map<Node, nat>, d0: map<Node, Dist>, p0: map<Node, Node>, v0: map<Node, nat>, i: nat,
                    d1: map<Node, Dist>, p1: map<Node, Node>, v1: map<Node, nat>)
    requires Improving(g, pol, u, dist, prev, via, d0, p0, v0, i, d1, p1, v1)
    ensures RelaxedPrefix(g, pol, u, dist, prev, via, d1, p1, v1, i + 1)
  {
    UpdateKeeps(g, pol, u, dist, prev, via, d0, p0, v0, i, d1, p1, v1);
    if NonNegative(g, pol) {
      UpdateCosts(g, pol, u, dist, prev, via, d0, p0, v0, i, d1, p1, v1);
    }
  }

  /** Edge i of u improves its target, and d1, p1, v1 record that. */
  ghost predicate Improving(g: Graph, pol: Policy, u: Node, dist: map<Node, Dist>, prev: map<Node, Node>,
                            via: map<Node, nat>, d0: map<Node, Dist>, p0: map<Node, Node>, v0: map<Node, nat>, i: nat,
                            d1: map<Node, Dist>, p1: map<Node, Node>, v1: map<Node, nat>)
  {
    u in g.adj && u in dist &&
    RelaxedPrefix(g, pol, u, dist, prev, via, d0, p0, v0, i) && i < |g.adj[u]| &&
    g.adj[u][i].to in d0 && Less(Plus(d0[u], EdgeWeight(g.adj[u][i], pol)), d0[g.adj[u][i].to]) &&
    d1 == d0[g.adj[u][i].to := Plus(d0[u], EdgeWeight(g.adj[u][i], pol))] &&
    p1 == p0[g.adj[u][i].to := u] && v1 == v0[g.adj[u][i].to := i]
  }

  /** After an improving edge every node is still kept or relaxed through u,
      and no distance has grown. */
  lemma UpdateKeeps(g: Graph, pol: Policy, u: Node, dist: map<Node, Dist>, prev: map<Node, Node>,
                    via: map<Node, nat>, d0: map<Node, Dist>, p0: map<Node, Node>, v0: map<Node, nat>, i: nat,
                    d1: map<Node, Dist>, p1: map<Node, Node>, v1: map<Node, nat>)
    requires Improving(g, pol, u, dist, prev, via, d0, p0, v0, i, d1, p1, v1)
    ensures forall w :: Kept(w, dist, prev, via, d1, p1, v1) || Relaxed(g, u, w, dist, d1, p1, v1)
    ensures forall n :: n in dist ==> AtMost(d1[n], dist[n])
  {
    var e := g.adj[u][i];
    forall w ensures Kept(w, dist, prev, via, d1, p1, v1) || Relaxed(g, u, w, dist, d1, p1, v1) {
      if w != e.to {
        assert Kept(w, dist, prev, via, d0, p0, v0) || Relaxed(g, u, w, dist, d0, p0, v0);
      } else {
        assert AtMost(d0[w], dist[w]);
      }
    }
  }

  /** With non-negative costs an improving edge never lowers u itself, every
      relaxed distance is u's plus the cost of its edge, and the edges relaxed
      so far stay relaxed. */
  lemma UpdateCosts(g: Graph, pol: Policy, u: Node, dist: map<Node, Dist>, prev: map<Node, Node>,
                    via: map<Node, nat>, d0: map<Node, Dist>, p0: map<Node, Node>, v0: map<Node, nat>, i: nat,
                    d1: map<Node, Dist>, p1: map<Node, Node>, v1: map<Node, nat>)
    requires NonNegative(g, pol)
    requires Improving(g, pol, u, dist, prev, via, d0, p0, v0, i, d1, p1, v1)
    ensures d1[u] == dist[u]
    ensures forall v :: Relaxed(g, u, v, dist, d1, p1, v1) ==>
      AtMost(dist[u], d1[v]) && d1[v] == Plus(dist[u], EdgeWeight(g.adj[u][v1[v]], pol))
    ensures forall j :: 0 <= j < i + 1 && g.adj[u][j].to in dist ==>
      AtMost(d1[g.adj[u][j].to], Plus(d1[u], EdgeWeight(g.adj[u][j], pol)))
  {
    var e := g.adj[u][i];
    assert e in g.adj[u];
    assert e.to != u;
    forall v | Relaxed(g, u, v, dist, d1, p1, v1)
      ensures AtMost(dist[u], d1[v]) && d1[v] == Plus(dist[u], EdgeWeight(g.adj[u][v1[v]], pol))
    {
      if v != e.to {
        assert Kept(v, dist, prev, via, d0, p0, v0) || Relaxed(g, u, v, dist, d0, p0, v0);
      }
    }
    forall j | 0 <= j < i + 1 && g.adj[u][j].to in dist
      ensures AtMost(d1[g.adj[u][j].to], Plus(d1[u], EdgeWeight(g.adj[u][j], pol)))
    {
      if j < i {
        assert AtMost(d0[g.adj[u][j].to], Plus(d0[u], EdgeWeight(g.adj[u][j], pol)));
      }
    }
  }

  /** `graph[u].forEach(edge => ...)`: relax every edge of u, reading
      `distances[u]` afresh for each edge. An edge whose target has no
      tentative distance is never relaxed (`undefined` compares false). */
  method RelaxEdges(g: Graph, pol: Policy, u: Node, dist: map<Node, Dist>, prev: map<Node, Node>,
                    ghost via: map<Node, nat>)
    returns (dist': map<Node, Dist>, prev': map<Node, Node>, ghost via': map<Node, nat>)
    requires u in g.adj && u in dist
    requires forall v :: v in prev ==> v in via
    ensures RelaxStep(g, pol, u, dist, prev, via, dist', prev', via')
  {
    dist', prev', via' := dist, prev, via;
    var edges := g.adj[u];
    for i := 0 to |edges|
      invariant RelaxedPrefix(g, pol, u, dist, prev, via, dist', prev', via', i)
    {
      var e := edges[i];
      var alt := Plus(dist'[u], EdgeWeight(e, pol));
      ghost var (d0, p0, v0) := (dist', prev', via');
      if e.to in dist' && Less(alt, dist'[e.to]) {
        dist' := dist'[e.to := alt];
        prev' := prev'[e.to := u];
        via' := via'[e.to := i];
      }
      RelaxOne(g, pol, u, dist, prev, via, d0, p0, v0, i, dist', prev', via');
    }
  }

  /** Removing the element at k from a sequence of distinct nodes. */
  lemma RemoveAt(pq: seq<Node>, k: nat)
    requires k < |pq| && forall i, j :: 0 <= i < j < |pq| ==> pq[i] != pq[j]
    ensures var rest := pq[..k] + pq[k + 1..];
      |rest| == |pq| - 1 &&
      (forall i, j :: 0 <= i < j < |rest| ==> rest[i] != rest[j]) &&
      (forall n :: n in rest <==> n in pq && n != pq[k])
  {
    var rest := pq[..k] + pq[k + 1..];
    forall i, j | 0 <= i < j < |rest| ensures rest[i] != rest[j] {
      var i' := if i < k then i else i + 1;
      var j' := if j < k then j else j + 1;
      assert rest[i] == pq[i'] && rest[j] == pq[j'];
    }
    forall n ensures n in rest <==> n in pq && n != pq[k] {
      if n in pq && n != pq[k] {
        var i :| 0 <= i < |pq| && pq[i] == n;
        assert i != k;
        if i < k { assert rest[i] == n; } else { assert rest[i - 1] == n; }
      }
      if n in rest {
        var i :| 0 <= i < |rest| && rest[i] == n;
        var i' := if i < k then i else i + 1;
        assert pq[i'] == n;
      }
    }
  }

  /** The state of the walk back: `path` holds the nodes after u, `steps`
      counts them, and `es` is the choice of predecessor edges along u then
      `path`. */
  ghost predicate WalkBack(g: Graph, pol: Policy, start: Node, end: Node, prev: map<Node, Node>, bound: nat,
                           dist: map<Node, Dist>, via: map<Node, nat>, rank: map<Node, nat>,
                           path: seq<Node>, u: Node, steps: nat, es: seq<Edge>)
  {
    steps <= bound && |path| == steps &&
    (path == [] ==> u == end && es == []) &&
    (path != [] ==>
      ((u == start || u in prev) && u in g.adj && u in dist && end in dist && path[|path| - 1] == end &&
       WalkFromTo(g, [u] + path, u, end) && Reachable(g, start, end) && Truthy(prev, end))) &&
    (Ranked(prev, rank, bound) ==> steps + Height(rank, bound, u) <= bound) &&
    (Accounted(g, pol, start, dist, prev, via) && end in dist ==>
      (u in dist && Along(g, [u] + path, es) && dist[end] == Plus(dist[u], Cost(es, pol))))
  }

  /** While the walk goes on, u has a recorded predecessor edge, end is
      reachable, and with a settling order the step bound is not yet hit. */
  lemma WalkBackGo(g: Graph, pol: Policy, start: Node, end: Node, prev: map<Node, Node>, bound: nat,
                   dist: map<Node, Dist>, via: map<Node, nat>, rank: map<Node, nat>,
                   path: seq<Node>, u: Node, steps: nat, es: seq<Edge>)
    requires forall v :: v in prev ==> PrevEdge(g, start, dist, prev, via, v)
    requires WalkBack(g, pol, start, end, prev, bound, dist, via, rank, path, u, steps, es)
    requires Truthy(prev, u)
    ensures PrevEdge(g, start, dist, prev, via, u)
    ensures Truthy(prev, end) && Reachable(g, start, end)
    ensures Ranked(prev, rank, bound) ==> steps < bound
  {
    assert PrevEdge(g, start, dist, prev, via, u);
    if path == [] {
      assert u == end;
    }
  }

  /** One step back along `prev[u]` keeps the walk-back state. */
  lemma WalkBackStep(g: Graph, pol: Policy, start: Node, end: Node, prev: map<Node, Node>, bound: nat,
                     dist: map<Node, Dist>, via: map<Node, nat>, rank: map<Node, nat>,
                     path: seq<Node>, u: Node, steps: nat, es: seq<Edge>)
    requires forall v :: v in prev ==> PrevEdge(g, start, dist, prev, via, v)
    requires forall v :: v in prev ==> prev[v] == start || prev[v] in prev
    requires WalkBack(g, pol, start, end, prev, bound, dist, via, rank, path, u, steps, es)
    requires Truthy(prev, u) && steps < bound && PrevEdge(g, start, dist, prev, via, u)
    ensures WalkBack(g, pol, start, end, prev, bound, dist, via, rank, [u] + path, prev[u], steps + 1,
                     [g.adj[prev[u]][via[u]]] + es)
  {
    var e := g.adj[prev[u]][via[u]];
    var walk := [u] + path;
    assert HasEdge(g, prev[u], u) by {
      assert e in g.adj[prev[u]];
    }
    WalkCons(g, prev[u], walk);
    if Accounted(g, pol, start, dist, prev, via) && end in dist {
      AlongCons(g, pol, prev[u], e, walk, es);
    }
  }

  /** What the walk back yields once u has no truthy predecessor. */
  lemma WalkBackDone(g: Graph, pol: Policy, start: Node, end: Node, prev: map<Node, Node>, bound: nat,
                     dist: map<Node, Dist>, via: map<Node, nat>, rank: map<Node, nat>,
                     path: seq<Node>, u: Node, steps: nat, es: seq<Edge>, r: Route)
    requires forall v :: v in prev ==> PrevEdge(g, start, dist, prev, via, v)
    requires WalkBack(g, pol, start, end, prev, bound, dist, via, rank, path, u, steps, es)
    requires !Truthy(prev, u) && r == Path(if u == start then [start] + path else path)
    ensures !Truthy(prev, end) ==> r == Path(if end == start then [start] else [])
    ensures Truthy(prev, end) ==> r.nodes != []
    ensures r.nodes != [] && NoEmptyIds(g) ==> WalkFromTo(g, r.nodes, start, end)
    ensures !Reachable(g, start, end) ==> r == Path([])
    ensures Accounted(g, pol, start, dist, prev, via) && NoEmptyIds(g) && r.nodes != [] ==>
      end in dist && exists es :: Along(g, r.nodes, es) && dist[end] == Finite(Cost(es, pol))
  {
    if path == [] && end == start {
      ReachableSelf(g, start);
      assert WalkFromTo(g, [start], start, end);
    }
    if u in prev {
      assert PrevEdge(g, start, dist, prev, via, u);
    }
    if path != [] && u == start {
      assert r.nodes == [u] + path;
    }
    if Accounted(g, pol, start, dist, prev, via) && NoEmptyIds(g) && r.nodes != [] {
      assert r.nodes == [u] + path;
      assert Along(g, r.nodes, es);
    }
  }

  /** `p` follows predecessor links: each node after the first has a truthy
      predecessor, and that predecessor is the node before it. */
  ghost predicate PrevChain(prev: map<Node, Node>, p: seq<Node>) {
    forall i :: 1 <= i < |p| ==> Truthy(prev, p[i]) && prev[p[i]] == p[i - 1]
  }

  /** Stepping back from the first node of a chain extends the chain. */
  lemma ChainCons(prev: map<Node, Node>, p: seq<Node>)
    requires PrevChain(prev, p) && p != [] && Truthy(prev, p[0])
    ensures PrevChain(prev, [prev[p[0]]] + p)
  {
    var q := [prev[p[0]]] + p;
    forall i | 1 <= i < |q| ensures Truthy(prev, q[i]) && prev[q[i]] == q[i - 1] {
      if i > 1 {
        assert q[i] == p[i - 1] && q[i - 1] == p[i - 2];
      }
    }
  }

  /** The predecessor links from `end` go round for ever: a chain of one
      more node than the graph has keys, all with truthy predecessors, ends
      at `end` along graph edges and visits some node twice. */
  ghost predicate Loops(g: Graph, prev: map<Node, Node>, end: Node) {
    exists p :: LoopChain(g, prev, end, p)
  }

  /** `p` witnesses `Loops(g, prev, end)`. */
  ghost predicate LoopChain(g: Graph, prev: map<Node, Node>, end: Node, p: seq<Node>) {
    |p| == |g.keys| + 1 && p[|p| - 1] == end && IsWalk(g, p) &&
    Truthy(prev, p[0]) && PrevChain(prev, p) && exists i, j :: 0 <= i < j < |p| && p[i] == p[j]
  }

  /** Predecessor links that go round for ever lie on a cycle of the
      graph. */
  lemma LoopsCycle(g: Graph, prev: map<Node, Node>, end: Node)
    requires Loops(g, prev, end)
    ensures HasCycle(g)
  {
    var p :| LoopChain(g, prev, end, p);
    var i, j :| 0 <= i < j < |p| && p[i] == p[j];
    RepeatCycle(g, p, i, j);
  }

  /** A walk back that has taken as many steps as the graph has keys and can
      still go on has gone round a loop. */
  lemma WalkBackStuck(g: Graph, pol: Policy, start: Node, end: Node, prev: map<Node, Node>,
                      dist: map<Node, Dist>, via: map<Node, nat>, rank: map<Node, nat>,
                      path: seq<Node>, u: Node, es: seq<Edge>)
    requires WellFormed(g)
    requires forall v :: v in prev ==> PrevEdge(g, start, dist, prev, via, v)
    requires WalkBack(g, pol, start, end, prev, |g.keys|, dist, via, rank, path, u, |g.keys|, es)
    requires PrevChain(prev, [u] + path) && Truthy(prev, u)
    ensures Loops(g, prev, end)
  {
    var p := [u] + path;
    assert IsWalk(g, p) && p[|p| - 1] == end;
    forall k | 0 <= k < |p| ensures p[k] in g.adj {
      if k == 0 {
        assert PrevEdge(g, start, dist, prev, via, u);
      } else {
        assert Truthy(prev, p[k]);
        assert PrevEdge(g, start, dist, prev, via, p[k]);
      }
    }
    var i, j := Pigeonhole(g, p);
    assert LoopChain(g, prev, end, p);
  }

  /** The walk back from `end`: while u has a truthy predecessor, put u in
      front of the path and step to its predecessor; then put start in front
      if the walk stopped there. The model counts the steps: once there have
      been as many as the graph has keys and u still has a truthy
      predecessor, the chain of predecessors from `end` has visited some node
      twice. From there the links go round that node for ever, so the loop
      of the source never ends; the model returns `Diverges`. */
  method Reconstruct(g: Graph, pol: Policy, start: Node, end: Node, prev: map<Node, Node>,
                     ghost dist: map<Node, Dist>, ghost via: map<Node, nat>, ghost rank: map<Node, nat>)
    returns (r: Route)
    requires WellFormed(g)
    requires forall v :: v in prev ==> PrevEdge(g, start, dist, prev, via, v)
    requires forall v :: v in prev ==> prev[v] == start || prev[v] in prev
    ensures !Truthy(prev, end) ==> r == Path(if end == start then [start] else [])
    ensures Truthy(prev, end) && r.Path? ==> r.nodes != []
    ensures r.Path? && r.nodes != [] && NoEmptyIds(g) ==> WalkFromTo(g, r.nodes, start, end)
    ensures !Reachable(g, start, end) ==> r == Path([])
    ensures Ranked(prev, rank, |g.keys|) ==> r.Path?
    ensures r.Diverges? ==> Truthy(prev, end) && Loops(g, prev, end)
    ensures Accounted(g, pol, start, dist, prev, via) && NoEmptyIds(g) && r.Path? && r.nodes != [] ==>
      end in dist && exists es :: Along(g, r.nodes, es) && dist[end] == Finite(Cost(es, pol))
  {
    var bound := |g.keys|;
    var path: seq<Node> := [];
    var u := end;
    var steps: nat := 0;
    ghost var es: seq<Edge> := [];
    while Truthy(prev, u)
      invariant WalkBack(g, pol, start, end, prev, bound, dist, via, rank, path, u, steps, es)
      invariant PrevChain(prev, [u] + path)
      decreases bound - steps
    {
      WalkBackGo(g, pol, start, end, prev, bound, dist, via, rank, path, u, steps, es);
      if steps == bound {
        WalkBackStuck(g, pol, start, end, prev, dist, via, rank, path, u, es);
        return Diverges;
      }
      WalkBackStep(g, pol, start, end, prev, bound, dist, via, rank, path, u, steps, es);
      ChainCons(prev, [u] + path);
      es := [g.adj[prev[u]][via[u]]] + es;
      path := [u] + path;
      u := prev[u];
      steps := steps + 1;
    }
    r := Path(if u == start then [start] + path else path);
    WalkBackDone(g, pol, start, end, prev, bound, dist, via, rank, path, u, steps, es, r);
  }

  /** Every edge out of a settled node is relaxed. */
  ghost predicate Tight(g: Graph, pol: Policy, dist: map<Node, Dist>, rank: map<Node, nat>) {
    forall x, j :: x in rank && x in g.adj && x in dist && 0 <= j < |g.adj[x]| && g.adj[x][j].to in dist ==>
      AtMost(dist[g.adj[x][j].to], Plus(dist[x], EdgeWeight(g.adj[x][j], pol)))
  }

  /** What holds only with non-negative edge costs: predecessors are settled
      before their nodes, settled nodes are no farther than pending ones,
      every settled node's edges are relaxed, predecessor edges account for
      the distances, and no distance is negative. */
  ghost predicate Settled(g: Graph, pol: Policy, start: Node, dist: map<Node, Dist>, prev: map<Node, Node>,
                          via: map<Node, nat>, pq: seq<Node>, rank: map<Node, nat>, count: nat)
  {
    Ranked(prev, rank, count) &&
    (forall p, q :: p in rank && q in pq && p in dist && q in dist ==> AtMost(dist[p], dist[q])) &&
    Tight(g, pol, dist, rank) &&
    Accounted(g, pol, start, dist, prev, via) &&
    (forall n :: n in dist && dist[n].Finite? ==> dist[n].value >= 0)
  }

  /** Bookkeeping of the pending queue: `pq` holds, without repeats, the
      keys not yet settled, `rank` the settled ones, each with the iteration
      that settled it; `end` has not been settled. */
  ghost predicate Layout(g: Graph, start: Node, end: Node, dist: map<Node, Dist>, pq: seq<Node>,
                         rank: map<Node, nat>, count: nat)
  {
    (forall n :: n in dist <==> n in g.adj || n == start) &&
    (forall i, j :: 0 <= i < j < |pq| ==> pq[i] != pq[j]) &&
    (forall n :: n in g.adj <==> n in pq || n in rank) &&
    (forall n :: n in pq ==> n !in rank) &&
    (forall n :: n in rank ==> rank[n] < count) &&
    count + |pq| == |g.keys| &&
    end !in rank
  }

  /** Facts about the start: before the first iteration only start has a
      distance, 0; when start is end and a key, the first iteration stops;
      when start is no key, no key is ever reached. */
  ghost predicate Origin(g: Graph, start: Node, end: Node, dist: map<Node, Dist>, prev: map<Node, Node>,
                         count: nat)
    requires forall n :: n in g.adj || n == start ==> n in dist
  {
    (count == 0 ==> prev == map[] && dist[start] == Finite(0) &&
                    forall n :: n in dist && n != start ==> dist[n] == Infinity) &&
    (start == end && start in g.adj ==> count == 0) &&
    (start !in g.adj ==> forall n :: n in g.adj ==> dist[n] == Infinity)
  }

  /** Every predecessor link is a graph edge between reached nodes, and every
      reached node other than start has a predecessor. */
  ghost predicate Links(g: Graph, start: Node, dist: map<Node, Dist>, prev: map<Node, Node>, via: map<Node, nat>) {
    (forall v :: v in prev ==> PrevEdge(g, start, dist, prev, via, v)) &&
    (forall n :: n in dist && dist[n].Finite? ==> n == start || n in prev)
  }

  /** The invariant of the main loop. */
  ghost predicate SearchInv(g: Graph, pol: Policy, start: Node, end: Node, dist: map<Node, Dist>,
                            prev: map<Node, Node>, via: map<Node, nat>, pq: seq<Node>,
                            rank: map<Node, nat>, count: nat)
  {
    Layout(g, start, end, dist, pq, rank, count) &&
    Origin(g, start, end, dist, prev, count) &&
    Links(g, start, dist, prev, via) &&
    (NonNegative(g, pol) ==> Settled(g, pol, start, dist, prev, via, pq, rank, count))
  }

  /** Removing the selected node from the queue and ranking it keeps the
      bookkeeping. */
  lemma StepLayout(g: Graph, start: Node, end: Node, dist: map<Node, Dist>, dist': map<Node, Dist>,
                   pq: seq<Node>, rank: map<Node, nat>, count: nat, k: nat)
    requires Layout(g, start, end, dist, pq, rank, count)
    requires dist'.Keys == dist.Keys && k < |pq| && pq[k] != end
    ensures Layout(g, start, end, dist', pq[..k] + pq[k + 1..], rank[pq[k] := count], count + 1)
    ensures forall n :: n in pq[..k] + pq[k + 1..] <==> n in pq && n != pq[k]
  {
    RemoveAt(pq, k);
  }

  /** The facts about the start survive an iteration that does not stop:
      every key and start keep a distance, and the cases of a start equal to
      end or outside the keys keep their meaning. Start's own distance may
      change (a negative-cost loop back into start lowers it). */
  lemma StepOrigin(g: Graph, pol: Policy, start: Node, end: Node, dist: map<Node, Dist>, prev: map<Node, Node>,
                   via: map<Node, nat>, pq: seq<Node>, rank: map<Node, nat>, count: nat, k: nat,
                   dist': map<Node, Dist>, prev': map<Node, Node>, via': map<Node, nat>)
    requires Layout(g, start, end, dist, pq, rank, count)
    requires Origin(g, start, end, dist, prev, count)
    requires k < |pq| && pq[k] != end && pq[k] in g.adj && pq[k] in dist
    requires forall j :: 0 <= j < |pq| ==> AtMost(dist[pq[k]], dist[pq[j]])
    requires RelaxStep(g, pol, pq[k], dist, prev, via, dist', prev', via')
    ensures forall n :: n in g.adj || n == start ==> n in dist'
    ensures Origin(g, start, end, dist', prev', count + 1)
  {
    var u := pq[k];
    if count == 0 && start in g.adj {
      assert start in pq;
      assert AtMost(dist[u], dist[start]);
      assert u == start;
    }
    if start !in g.adj {
      assert dist[u] == Infinity;
    }
  }

  /** The predecessor links stay edges of the graph between reached nodes,
      and every reached node other than start keeps a predecessor. */
  lemma StepLinks(g: Graph, pol: Policy, start: Node, dist: map<Node, Dist>, prev: map<Node, Node>,
                  via: map<Node, nat>, u: Node, dist': map<Node, Dist>, prev': map<Node, Node>, via': map<Node, nat>)
    requires Links(g, start, dist, prev, via)
    requires forall n :: n in dist <==> n in g.adj || n == start
    requires start !in g.adj ==> forall n :: n in g.adj ==> dist[n] == Infinity
    requires u in g.adj && u in dist
    requires RelaxStep(g, pol, u, dist, prev, via, dist', prev', via')
    ensures Links(g, start, dist', prev', via')
  {
    if dist[u] == Infinity {
      return;
    }
    assert start in g.adj;
    assert Reachable(g, start, u) by {
      if u == start {
        ReachableSelf(g, start);
      } else {
        assert PrevEdge(g, start, dist, prev, via, u);
      }
    }
    forall v | v in prev' ensures PrevEdge(g, start, dist', prev', via', v) {
      if Kept(v, dist, prev, via, dist', prev', via') {
        assert PrevEdge(g, start, dist, prev, via, v);
        assert AtMost(dist'[prev[v]], dist[prev[v]]);
      } else {
        assert Relaxed(g, u, v, dist, dist', prev', via');
        assert AtMost(dist'[u], dist[u]);
        assert HasEdge(g, u, v) by {
          assert g.adj[u][via'[v]] in g.adj[u];
        }
        ReachableStep(g, start, u, v);
      }
    }
    forall n | n in dist' && dist'[n].Finite? ensures n == start || n in prev' {
      if Kept(n, dist, prev, via, dist', prev', via') {
        assert dist[n].Finite?;
      }
    }
  }

  /** With non-negative costs, relaxing u leaves alone every node no farther
      than u: a relaxed node ends at least as far as u yet strictly nearer
      than before. */
  lemma Untouched(g: Graph, pol: Policy, u: Node, dist: map<Node, Dist>, prev: map<Node, Node>,
                  via: map<Node, nat>, dist': map<Node, Dist>, prev': map<Node, Node>, via': map<Node, nat>,
                  n: Node)
    requires NonNegative(g, pol) && u in g.adj && u in dist
    requires RelaxStep(g, pol, u, dist, prev, via, dist', prev', via')
    requires n in dist && AtMost(dist[n], dist[u])
    ensures Kept(n, dist, prev, via, dist', prev', via')
  {
  }

  /** The situation in which the nearest pending node u is settled, with
      non-negative costs: the settled facts hold before, u is pending and no
      farther than any pending node, and its edges have been relaxed. */
  ghost predicate SettleStep(g: Graph, pol: Policy, start: Node, dist: map<Node, Dist>, prev: map<Node, Node>,
                             via: map<Node, nat>, pq: seq<Node>, rank: map<Node, nat>, count: nat,
                             u: Node, dist': map<Node, Dist>, prev': map<Node, Node>, via': map<Node, nat>)
  {
    NonNegative(g, pol) &&
    Settled(g, pol, start, dist, prev, via, pq, rank, count) &&
    u in g.adj && u in dist && u in pq && u !in rank &&
    (forall n :: n in rank ==> n in dist) &&
    (forall q :: q in pq ==> q in dist && AtMost(dist[u], dist[q])) &&
    RelaxStep(g, pol, u, dist, prev, via, dist', prev', via')
  }

  /** Settled nodes, u included, are no farther than u and were left alone. */
  lemma SettledKept(g: Graph, pol: Policy, start: Node, dist: map<Node, Dist>, prev: map<Node, Node>,
                    via: map<Node, nat>, pq: seq<Node>, rank: map<Node, nat>, count: nat,
                    u: Node, dist': map<Node, Dist>, prev': map<Node, Node>, via': map<Node, nat>)
    requires SettleStep(g, pol, start, dist, prev, via, pq, rank, count, u, dist', prev', via')
    ensures forall p :: p in rank ==> AtMost(dist[p], dist[u]) && Kept(p, dist, prev, via, dist', prev', via')
    ensures Kept(u, dist, prev, via, dist', prev', via') && Kept(start, dist, prev, via, dist', prev', via')
  {
    forall p | p in rank ensures AtMost(dist[p], dist[u]) && Kept(p, dist, prev, via, dist', prev', via') {
      Untouched(g, pol, u, dist, prev, via, dist', prev', via', p);
    }
    Untouched(g, pol, u, dist, prev, via, dist', prev', via', u);
    Untouched(g, pol, u, dist, prev, via, dist', prev', via', start);
  }

  /** Predecessors stay settled before the nodes they lead to. */
  lemma SettledRanked(g: Graph, pol: Policy, start: Node, dist: map<Node, Dist>, prev: map<Node, Node>,
                      via: map<Node, nat>, pq: seq<Node>, rank: map<Node, nat>, count: nat,
                      u: Node, dist': map<Node, Dist>, prev': map<Node, Node>, via': map<Node, nat>)
    requires SettleStep(g, pol, start, dist, prev, via, pq, rank, count, u, dist', prev', via')
    ensures Ranked(prev', rank[u := count], count + 1)
  {
    var rank' := rank[u := count];
    SettledKept(g, pol, start, dist, prev, via, pq, rank, count, u, dist', prev', via');
    forall v | v in prev' ensures prev'[v] in rank' && (v in rank' ==> rank'[prev'[v]] < rank'[v]) {
      if Kept(v, dist, prev, via, dist', prev', via') {
        assert prev[v] in rank;
      } else {
        assert Relaxed(g, u, v, dist, dist', prev', via');
        assert v !in rank;
      }
    }
  }

  /** Settled nodes stay no farther than pending ones. */
  lemma SettledOrder(g: Graph, pol: Policy, start: Node, dist: map<Node, Dist>, prev: map<Node, Node>,
                     via: map<Node, nat>, pq: seq<Node>, pq': seq<Node>, rank: map<Node, nat>, count: nat,
                     u: Node, dist': map<Node, Dist>, prev': map<Node, Node>, via': map<Node, nat>)
    requires SettleStep(g, pol, start, dist, prev, via, pq, rank, count, u, dist', prev', via')
    requires forall q :: q in pq' ==> q in pq
    ensures forall p, q :: p in rank[u := count] && q in pq' && p in dist' && q in dist' ==> AtMost(dist'[p], dist'[q])
  {
    SettledKept(g, pol, start, dist, prev, via, pq, rank, count, u, dist', prev', via');
    forall p, q | p in rank[u := count] && q in pq' && p in dist' && q in dist' ensures AtMost(dist'[p], dist'[q]) {
      assert AtMost(dist[p], dist[u]);
      assert dist'[p] == dist[p];
      assert AtMost(dist[u], dist[q]);
      if !Kept(q, dist, prev, via, dist', prev', via') {
        assert Relaxed(g, u, q, dist, dist', prev', via');
      }
    }
  }

  /** Every edge out of a settled node, u included, stays relaxed. */
  lemma SettledTight(g: Graph, pol: Policy, start: Node, dist: map<Node, Dist>, prev: map<Node, Node>,
                     via: map<Node, nat>, pq: seq<Node>, rank: map<Node, nat>, count: nat,
                     u: Node, dist': map<Node, Dist>, prev': map<Node, Node>, via': map<Node, nat>)
    requires SettleStep(g, pol, start, dist, prev, via, pq, rank, count, u, dist', prev', via')
    ensures Tight(g, pol, dist', rank[u := count])
  {
    SettledKept(g, pol, start, dist, prev, via, pq, rank, count, u, dist', prev', via');
    forall x, j | x in rank[u := count] && x in g.adj && x in dist' && 0 <= j < |g.adj[x]| && g.adj[x][j].to in dist'
      ensures AtMost(dist'[g.adj[x][j].to], Plus(dist'[x], EdgeWeight(g.adj[x][j], pol)))
    {
      if x != u {
        var t := g.adj[x][j].to;
        assert dist'[x] == dist[x];
        assert AtMost(dist[t], Plus(dist[x], EdgeWeight(g.adj[x][j], pol)));
        assert AtMost(dist'[t], dist[t]);
      }
    }
  }

  /** Predecessor edges keep accounting for the distances, and no distance
      becomes negative. */
  lemma SettledAccounted(g: Graph, pol: Policy, start: Node, dist: map<Node, Dist>, prev: map<Node, Node>,
                         via: map<Node, nat>, pq: seq<Node>, rank: map<Node, nat>, count: nat,
                         u: Node, dist': map<Node, Dist>, prev': map<Node, Node>, via': map<Node, nat>)
    requires SettleStep(g, pol, start, dist, prev, via, pq, rank, count, u, dist', prev', via')
    ensures Accounted(g, pol, start, dist', prev', via')
    ensures forall n :: n in dist' && dist'[n].Finite? ==> dist'[n].value >= 0
  {
    SettledKept(g, pol, start, dist, prev, via, pq, rank, count, u, dist', prev', via');
    forall v | v in prev' ensures v in dist' && prev'[v] in dist' && prev'[v] in g.adj && v in via' &&
      via'[v] < |g.adj[prev'[v]]| && dist'[v] == Plus(dist'[prev'[v]], EdgeWeight(g.adj[prev'[v]][via'[v]], pol))
    {
      if Kept(v, dist, prev, via, dist', prev', via') {
        assert prev[v] in rank;
        assert dist'[prev[v]] == dist[prev[v]];
      } else {
        assert Relaxed(g, u, v, dist, dist', prev', via');
      }
    }
    forall n | n in dist' && dist'[n].Finite? ensures dist'[n].value >= 0 {
      if !Kept(n, dist, prev, via, dist', prev', via') {
        assert Relaxed(g, u, n, dist, dist', prev', via');
      }
    }
  }

  /** With non-negative costs settling the nearest pending node u keeps the
      settled part of the state. */
  lemma StepSettled(g: Graph, pol: Policy, start: Node, dist: map<Node, Dist>, prev: map<Node, Node>,
                    via: map<Node, nat>, pq: seq<Node>, pq': seq<Node>, rank: map<Node, nat>, count: nat,
                    u: Node, dist': map<Node, Dist>, prev': map<Node, Node>, via': map<Node, nat>)
    requires SettleStep(g, pol, start, dist, prev, via, pq, rank, count, u, dist', prev', via')
    requires forall q :: q in pq' ==> q in pq
    ensures Settled(g, pol, start, dist', prev', via', pq', rank[u := count], count + 1)
  {
    SettledRanked(g, pol, start, dist, prev, via, pq, rank, count, u, dist', prev', via');
    SettledOrder(g, pol, start, dist, prev, via, pq, pq', rank, count, u, dist', prev', via');
    SettledTight(g, pol, start, dist, prev, via, pq, rank, count, u, dist', prev', via');
    SettledAccounted(g, pol, start, dist, prev, via, pq, rank, count, u, dist', prev', via');
  }

  /** One iteration of the main loop that does not stop at `end` keeps the
      invariant. */
  lemma Step(g: Graph, pol: Policy, start: Node, end: Node, dist: map<Node, Dist>,
             prev: map<Node, Node>, via: map<Node, nat>, pq: seq<Node>, rank: map<Node, nat>,
             count: nat, k: nat, dist': map<Node, Dist>, prev': map<Node, Node>, via': map<Node, nat>)
    requires SearchInv(g, pol, start, end, dist, prev, via, pq, rank, count)
    requires k < |pq| && pq[k] != end && forall j :: 0 <= j < |pq| ==> AtMost(dist[pq[k]], dist[pq[j]])
    requires pq[k] in g.adj && pq[k] in dist
    requires RelaxStep(g, pol, pq[k], dist, prev, via, dist', prev', via')
    ensures SearchInv(g, pol, start, end, dist', prev', via', pq[..k] + pq[k + 1..], rank[pq[k] := count], count + 1)
  {
    var u := pq[k];
    StepLayout(g, start, end, dist, dist', pq, rank, count, k);
    StepOrigin(g, pol, start, end, dist, prev, via, pq, rank, count, k, dist', prev', via');
    StepLinks(g, pol, start, dist, prev, via, u, dist', prev', via');
    if NonNegative(g, pol) {
      forall q | q in pq ensures q in dist && AtMost(dist[u], dist[q]) {
        var j :| 0 <= j < |pq| && pq[j] == q;
      }
      assert SettleStep(g, pol, start, dist, prev, via, pq, rank, count, u, dist', prev', via');
      StepSettled(g, pol, start, dist, prev, via, pq, pq[..k] + pq[k + 1..], rank, count, u, dist', prev', via');
    }
  }

  /** When every node not yet settled is at least as far as t, every route
      that leaves from a node within distance c reaches t at a cost no lower
      than dist[t] - c, provided the settled nodes' edges are all relaxed. */
  lemma {:induction false} LowerBound(g: Graph, pol: Policy, dist: map<Node, Dist>, rank: map<Node, nat>,
                                      t: Node, p: seq<Node>, es: seq<Edge>, c: int)
    requires NonNegative(g, pol)
    requires forall n :: n in g.adj ==> n in dist
    requires Along(g, p, es) && p[|p| - 1] == t && t in dist && p[0] in dist
    requires AtMost(dist[p[0]], Finite(c))
    requires Tight(g, pol, dist, rank)
    requires forall n :: n in g.adj && n !in rank ==> AtMost(dist[t], dist[n])
    requires t !in rank
    ensures AtMost(dist[t], Finite(c + Cost(es, pol)))
    decreases |es|
  {
    if p[0] !in rank {
      CostNonNegative(g, pol, p, es);
    } else {
      var e := es[0];
      var j :| 0 <= j < |g.adj[p[0]]| && g.adj[p[0]][j] == e;
      assert p[1] in dist;
      AlongTail(g, p, es);
      LowerBound(g, pol, dist, rank, t, p[1..], es[1..], c + EdgeWeight(e, pol));
    }
  }

  /** The state in which the main loop ends: either nothing is pending, or
      `end` was just selected as the nearest pending node. */
  ghost predicate Finished(g: Graph, pol: Policy, start: Node, end: Node, dist: map<Node, Dist>,
                           prev: map<Node, Node>, via: map<Node, nat>, pending: seq<Node>,
                           rank: map<Node, nat>, count: nat)
  {
    SearchInv(g, pol, start, end, dist, prev, via, pending, rank, count) &&
    (pending == [] || (end in pending && end in dist && forall q :: q in pending ==> AtMost(dist[end], dist[q])))
  }

  /** With non-negative costs a reachable `end` gets a predecessor. */
  lemma Reached(g: Graph, pol: Policy, start: Node, end: Node, dist: map<Node, Dist>,
                prev: map<Node, Node>, via: map<Node, nat>, pending: seq<Node>, rank: map<Node, nat>, count: nat)
    requires NonNegative(g, pol) && NoEmptyIds(g)
    requires Finished(g, pol, start, end, dist, prev, via, pending, rank, count)
    requires Reachable(g, start, end) && start != end
    ensures Truthy(prev, end)
  {
    var p :| WalkFromTo(g, p, start, end);
    var es := WalkHasEdges(g, p);
    assert HasEdge(g, p[|p| - 2], p[|p| - 1]);
    assert HasEdge(g, p[0], p[1]);
    assert end in pending;
    LowerBound(g, pol, dist, rank, end, p, es, 0);
    assert PrevEdge(g, start, dist, prev, via, end);
  }

  /** With non-negative costs the predecessor path to `end` is a cheapest route. */
  lemma Optimal(g: Graph, pol: Policy, start: Node, end: Node, dist: map<Node, Dist>,
                prev: map<Node, Node>, via: map<Node, nat>, pending: seq<Node>, rank: map<Node, nat>, count: nat,
                p: seq<Node>, es: seq<Edge>)
    requires NonNegative(g, pol)
    requires Finished(g, pol, start, end, dist, prev, via, pending, rank, count)
    requires |p| >= 1 && p[0] == start && p[|p| - 1] == end && Along(g, p, es)
    requires end in dist && dist[end] == Finite(Cost(es, pol))
    ensures Cheapest(g, pol, start, end, p)
  {
    forall q, fs | |q| >= 1 && q[0] == start && q[|q| - 1] == end && Along(g, q, fs)
      ensures Cost(es, pol) <= Cost(fs, pol)
    {
      LowerBound(g, pol, dist, rank, end, q, fs, 0);
    }
  }

  /** Before the first iteration: every key at Infinity, start at 0, all
      keys pending, nothing settled. */
  lemma Init(g: Graph, pol: Policy, start: Node, end: Node, dist: map<Node, Dist>)
    requires WellFormed(g)
    requires dist == (map n | n in g.keys :: Infinity)[start := Finite(0)]
    ensures SearchInv(g, pol, start, end, dist, map[], map[], g.keys, map[], 0)
  {
    if NonNegative(g, pol) {
      assert Settled(g, pol, start, dist, map[], map[], g.keys, map[], 0);
    }
  }

  /** When the main loop has ended, every predecessor link is a graph edge
      between reached nodes whose source is start or has a predecessor of its
      own; with negative costs the links may still cycle without reaching
      start. With non-negative costs the links follow the settling order and
      account for distances, and when no id is empty a reachable end distinct
      from start has a truthy predecessor. */
  lemma Ready(g: Graph, pol: Policy, start: Node, end: Node, dist: map<Node, Dist>,
              prev: map<Node, Node>, via: map<Node, nat>, pending: seq<Node>, rank: map<Node, nat>, count: nat)
    requires Finished(g, pol, start, end, dist, prev, via, pending, rank, count)
    ensures forall v :: v in prev ==> PrevEdge(g, start, dist, prev, via, v)
    ensures forall v :: v in prev ==> prev[v] == start || prev[v] in prev
    ensures start == end ==> prev == map[]
    ensures NonNegative(g, pol) ==> Ranked(prev, rank, |g.keys|) && Accounted(g, pol, start, dist, prev, via)
    ensures NonNegative(g, pol) && NoEmptyIds(g) && Reachable(g, start, end) && start != end ==> Truthy(prev, end)
  {
    forall v | v in prev ensures prev[v] == start || prev[v] in prev {
      assert PrevEdge(g, start, dist, prev, via, v);
    }
    if NonNegative(g, pol) && NoEmptyIds(g) && Reachable(g, start, end) && start != end {
      Reached(g, pol, start, end, dist, prev, via, pending, rank, count);
    }
  }

  /** `dijkstra(graph, start, end, alpha, beta, gamma, preferScenic)`:
      select the nearest pending node, stop if it is `end`, relax its edges;
      then walk back from `end`. The returned path is empty when end is
      unreachable and, when no id is empty, a walk from start to end (or
      empty); with non-negative costs the walk back ends, and when in
      addition no id is empty the path exists whenever end is reachable and
      is a cheapest route. */
  method Dijkstra(g: Graph, start: Node, end: Node, pol: Policy) returns (r: Route)
    requires WellFormed(g)
    ensures start == end ==> r == Path([start])
    ensures r.Path? && r.nodes != [] && NoEmptyIds(g) ==> WalkFromTo(g, r.nodes, start, end)
    ensures !Reachable(g, start, end) ==> r == Path([])
    ensures NonNegative(g, pol) ==> r.Path?
    ensures r.Diverges? ==> HasCycle(g)
    ensures NonNegative(g, pol) && NoEmptyIds(g) && Reachable(g, start, end) ==> r.Path? && r.nodes != []
    ensures NonNegative(g, pol) && NoEmptyIds(g) && r.Path? && r.nodes != [] ==> Cheapest(g, pol, start, end, r.nodes)
  {
    var dist: map<Node, Dist> := map n | n in g.keys :: Infinity;
    dist := dist[start := Finite(0)];
    var prev: map<Node, Node> := map[];
    var pq := g.keys;
    ghost var via: map<Node, nat> := map[];
    ghost var rank: map<Node, nat> := map[];
    ghost var count: nat := 0;
    ghost var pending := pq;
    Init(g, pol, start, end, dist);
    while |pq| > 0
      invariant SearchInv(g, pol, start, end, dist, prev, via, pq, rank, count)
      invariant pending == pq
    {
      var k := SelectMin(pq, dist);
      var u := pq[k];
      pq := pq[..k] + pq[k + 1..];
      if u == end {
        break;
      }
      ghost var (dist0, prev0, via0) := (dist, prev, via);
      dist, prev, via := RelaxEdges(g, pol, u, dist, prev, via);
      Step(g, pol, start, end, dist0, prev0, via0, pending, rank, count, k, dist, prev, via);
      rank := rank[u := count];
      count := count + 1;
      pending := pq;
    }
    Ready(g, pol, start, end, dist, prev, via, pending, rank, count);
    if NonNegative(g, pol) {
      forall p, es | |p| >= 1 && p[0] == start && p[|p| - 1] == end && Along(g, p, es) &&
                     end in dist && dist[end] == Finite(Cost(es, pol))
        ensures Cheapest(g, pol, start, end, p)
      {
        Optimal(g, pol, start, end, dist, prev, via, pending, rank, count, p, es);
      }
    }
    r := Reconstruct(g, pol, start, end, prev, dist, via, rank);
    if r.Diverges? {
      LoopsCycle(g, prev, end);
    }
    if NonNegative(g, pol) && NoEmptyIds(g) && r.Path? && r.nodes != [] {
      var es :| Along(g, r.nodes, es) && dist[end] == Finite(Cost(es, pol));
    }
  }
}
