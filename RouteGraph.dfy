/** The routing graph of the citizen route planner: string-keyed nodes, directed
    edges carrying distance, pollution (aqi) and scenic (tourist) scores, the
    scoring policy that turns an edge into a cost, and the notions of walk,
    reachability and cheapest route used to specify the search. */
module RouteGraph {

  type Node = string

  /** One outgoing edge `{ to, distance, aqi, tourist }`. */
  datatype Edge = Edge(to: Node, distance: int, aqi: int, tourist: int)

  /** The coefficients passed to the search: alpha weighs pollution, beta
      distance, gamma the scenic bonus, which only counts when preferScenic. */
  datatype Policy = Policy(alpha: int, beta: int, gamma: int, preferScenic: bool)

  /** A graph object: `keys` is the key order of the object (the order in which
      the search visits candidates), `adj` maps every key to its edge list. */
  datatype Graph = Graph(keys: seq<Node>, adj: map<Node, seq<Edge>>)

  /** What every object literal satisfies: keys are distinct and are exactly
      the nodes that have an edge list. */
  ghost predicate WellFormed(g: Graph) {
    (forall i, j :: 0 <= i < j < |g.keys| ==> g.keys[i] != g.keys[j]) &&
    (forall n :: n in g.adj <==> n in g.keys)
  }

  /** The empty string is falsy, so a predecessor named "" would end the
      path reconstruction early; every claim about returned paths assumes
      no node is named that way. */
  predicate NoEmptyIds(g: Graph) {
    "" !in g.adj
  }

  /** Edge cost: alpha*aqi + beta*distance, minus gamma*tourist when the
      scenic preference is on. Outside scenic mode the cost is the weighted
      sum of pollution and distance alone; in scenic mode a non-negative
      bonus can only lower it. */
  function EdgeWeight(e: Edge, p: Policy): (w: int)
    ensures !p.preferScenic ==> w == p.alpha * e.aqi + p.beta * e.distance
    ensures p.preferScenic && p.gamma * e.tourist >= 0 ==> w <= p.alpha * e.aqi + p.beta * e.distance
  {
    p.alpha * e.aqi + p.beta * e.distance + (if p.preferScenic then -p.gamma * e.tourist else 0)
  }

  /** Every edge of the graph has a non-negative cost under the policy. */
  ghost predicate NonNegative(g: Graph, p: Policy) {
    forall n, e :: n in g.adj && e in g.adj[n] ==> EdgeWeight(e, p) >= 0
  }

  /** There is an edge from u to v and both are graph keys. */
  ghost predicate HasEdge(g: Graph, u: Node, v: Node) {
    u in g.adj && v in g.adj && exists e :: e in g.adj[u] && e.to == v
  }

  /** A non-empty node sequence whose consecutive pairs are edges. */
  ghost predicate IsWalk(g: Graph, p: seq<Node>) {
    |p| >= 1 && forall i :: 0 <= i < |p| - 1 ==> HasEdge(g, p[i], p[i + 1])
  }

  /** `p` is a walk from s to t. */
  ghost predicate WalkFromTo(g: Graph, p: seq<Node>, s: Node, t: Node) {
    IsWalk(g, p) && p[0] == s && p[|p| - 1] == t
  }

  ghost predicate Reachable(g: Graph, s: Node, t: Node) {
    exists p :: WalkFromTo(g, p, s, t)
  }

  /** `c` is a walk of at least one edge that comes back to the node it
      started from. */
  ghost predicate IsCycle(g: Graph, c: seq<Node>) {
    IsWalk(g, c) && |c| >= 2 && c[0] == c[|c| - 1]
  }

  ghost predicate HasCycle(g: Graph) {
    exists c :: IsCycle(g, c)
  }

  /** `es` is a choice of edges along the node sequence `p`: es[i] is an edge
      of p[i] leading to p[i+1]. With parallel edges a node sequence has
      several such choices, each with its own cost. */
  ghost predicate Along(g: Graph, p: seq<Node>, es: seq<Edge>) {
    |p| == |es| + 1 &&
    forall i :: 0 <= i < |es| ==> p[i] in g.adj && es[i] in g.adj[p[i]] && es[i].to == p[i + 1]
  }

  /** Total cost of a sequence of edges. */
  ghost function Cost(es: seq<Edge>, pol: Policy): int {
    if es == [] then 0 else EdgeWeight(es[0], pol) + Cost(es[1..], pol)
  }

  /** `p` goes from s to t along edges whose total cost no route from s to t
      undercuts. */
  ghost predicate Cheapest(g: Graph, pol: Policy, s: Node, t: Node, p: seq<Node>) {
    |p| >= 1 && p[0] == s && p[|p| - 1] == t &&
    exists es :: Along(g, p, es) &&
      forall q, fs :: |q| >= 1 && q[0] == s && q[|q| - 1] == t && Along(g, q, fs) ==> Cost(es, pol) <= Cost(fs, pol)
  }

  /** The tourist score enters the cost only in scenic mode, and there it is
      subtracted, scaled by gamma. */
  lemma ScenicBonus(e: Edge, p: Policy)
    ensures EdgeWeight(e, p) == p.alpha * e.aqi + p.beta * e.distance - (if p.preferScenic then p.gamma * e.tourist else 0)
    ensures !p.preferScenic ==> forall t :: EdgeWeight(e.(tourist := t), p) == EdgeWeight(e, p)
  {
  }

  lemma {:induction false} CostAppend(es: seq<Edge>, fs: seq<Edge>, pol: Policy)
    ensures Cost(es + fs, pol) == Cost(es, pol) + Cost(fs, pol)
  {
    if es != [] {
      assert (es + fs)[1..] == es[1..] + fs;
      CostAppend(es[1..], fs, pol);
    } else {
      assert es + fs == fs;
    }
  }

  /** Dropping the first node of a route drops its first edge. */
  lemma AlongTail(g: Graph, p: seq<Node>, es: seq<Edge>)
    requires Along(g, p, es) && es != []
    ensures Along(g, p[1..], es[1..])
  {
    forall i | 0 <= i < |es[1..]|
      ensures p[1..][i] in g.adj && es[1..][i] in g.adj[p[1..][i]] && es[1..][i].to == p[1..][i + 1]
    {
      assert p[1..][i] == p[i + 1] && es[1..][i] == es[i + 1];
    }
  }

  /** Under non-negative edge costs every route costs at least nothing. */
  lemma {:induction false} CostNonNegative(g: Graph, pol: Policy, p: seq<Node>, es: seq<Edge>)
    requires NonNegative(g, pol) && Along(g, p, es)
    ensures Cost(es, pol) >= 0
  {
    if es != [] {
      AlongTail(g, p, es);
      CostNonNegative(g, pol, p[1..], es[1..]);
    }
  }

  /** Every walk has a choice of edges along it. */
  lemma {:induction false} WalkHasEdges(g: Graph, p: seq<Node>) returns (es: seq<Edge>)
    requires IsWalk(g, p)
    ensures Along(g, p, es)
  {
    es := [];
    var k := 1;
    while k < |p|
      invariant 1 <= k <= |p|
      invariant Along(g, p[..k], es)
    {
      assert HasEdge(g, p[k - 1], p[k]);
      var e :| e in g.adj[p[k - 1]] && e.to == p[k];
      es := es + [e];
      k := k + 1;
    }
    assert p[..|p|] == p;
  }

  /** A choice of edges along a node sequence makes it a walk. */
  lemma AlongIsWalk(g: Graph, p: seq<Node>, es: seq<Edge>)
    requires Along(g, p, es) && (forall i :: 1 <= i < |p| ==> p[i] in g.adj)
    ensures IsWalk(g, p)
  {
    forall i | 0 <= i < |p| - 1 ensures HasEdge(g, p[i], p[i + 1]) {
      assert es[i] in g.adj[p[i]] && es[i].to == p[i + 1];
    }
  }

  /** Prefixing a walk with an edge into its first node gives a walk. */
  lemma WalkCons(g: Graph, u: Node, p: seq<Node>)
    requires IsWalk(g, p) && HasEdge(g, u, p[0])
    ensures IsWalk(g, [u] + p) && ([u] + p)[|p|] == p[|p| - 1]
  {
    var q := [u] + p;
    forall i | 0 <= i < |q| - 1 ensures HasEdge(g, q[i], q[i + 1]) {
      if i > 0 {
        assert q[i] == p[i - 1] && q[i + 1] == p[i];
      }
    }
  }

  /** Prefixing a route with an edge into its first node adds that edge's
      cost. */
  lemma AlongCons(g: Graph, pol: Policy, u: Node, e: Edge, p: seq<Node>, es: seq<Edge>)
    requires Along(g, p, es) && u in g.adj && e in g.adj[u] && e.to == p[0]
    ensures Along(g, [u] + p, [e] + es) && Cost([e] + es, pol) == EdgeWeight(e, pol) + Cost(es, pol)
  {
    var q, fs := [u] + p, [e] + es;
    forall i | 0 <= i < |fs| ensures q[i] in g.adj && fs[i] in g.adj[q[i]] && fs[i].to == q[i + 1] {
      if i > 0 {
        assert q[i] == p[i - 1] && fs[i] == es[i - 1] && q[i + 1] == p[i];
      }
    }
    assert fs[1..] == es;
  }

  /** Extending a walk from s to u by an edge u -> v gives a walk to v. */
  lemma ReachableStep(g: Graph, s: Node, u: Node, v: Node)
    requires Reachable(g, s, u) && HasEdge(g, u, v)
    ensures Reachable(g, s, v)
  {
    var p :| WalkFromTo(g, p, s, u);
    var q := p + [v];
    forall i | 0 <= i < |q| - 1 ensures HasEdge(g, q[i], q[i + 1]) {
      if i < |p| - 1 {
        assert q[i] == p[i] && q[i + 1] == p[i + 1];
      }
    }
    assert WalkFromTo(g, q, s, v);
  }

  lemma ReachableSelf(g: Graph, s: Node)
    ensures Reachable(g, s, s)
  {
    assert WalkFromTo(g, [s], s, s);
  }

  /** A stretch of a walk is a walk. */
  lemma WalkSlice(g: Graph, p: seq<Node>, i: nat, j: nat)
    requires IsWalk(g, p) && i < j <= |p|
    ensures IsWalk(g, p[i..j])
  {
    var c := p[i..j];
    forall k | 0 <= k < |c| - 1 ensures HasEdge(g, c[k], c[k + 1]) {
      assert c[k] == p[i + k] && c[k + 1] == p[i + k + 1];
    }
  }

  /** A walk that visits some node twice contains a cycle. */
  lemma RepeatCycle(g: Graph, p: seq<Node>, i: nat, j: nat)
    requires IsWalk(g, p) && i < j < |p| && p[i] == p[j]
    ensures HasCycle(g)
  {
    var c := p[i..j + 1];
    WalkSlice(g, p, i, j + 1);
    assert c[0] == p[i];
    assert c[|c| - 1] == p[j];
    assert IsCycle(g, c);
  }

  /** A sequence of distinct members of s is no longer than s is large. */
  lemma {:induction false} DistinctFits(p: seq<Node>, s: set<Node>)
    requires forall i, j :: 0 <= i < j < |p| ==> p[i] != p[j]
    requires forall i :: 0 <= i < |p| ==> p[i] in s
    ensures |p| <= |s|
  {
    if p != [] {
      var rest, s' := p[1..], s - {p[0]};
      forall i | 0 <= i < |rest| ensures rest[i] in s' {
        assert rest[i] == p[i + 1];
      }
      forall i, j | 0 <= i < j < |rest| ensures rest[i] != rest[j] {
        assert rest[i] == p[i + 1] && rest[j] == p[j + 1];
      }
      DistinctFits(rest, s');
    }
  }

  /** A sequence has at most as many distinct members as it has entries. */
  lemma {:induction false} MembersFit(q: seq<Node>)
    ensures |set n | n in q| <= |q|
  {
    if q != [] {
      MembersFit(q[1..]);
      assert (set n | n in q) == {q[0]} + (set n | n in q[1..]);
    }
  }

  /** Pigeonhole: a sequence of more graph nodes than the graph has keys
      repeats a node. */
  lemma Pigeonhole(g: Graph, p: seq<Node>) returns (i: nat, j: nat)
    requires WellFormed(g) && |p| > |g.keys|
    requires forall k :: 0 <= k < |p| ==> p[k] in g.adj
    ensures i < j < |p| && p[i] == p[j]
  {
    if forall a, b :: 0 <= a < b < |p| ==> p[a] != p[b] {
      MembersFit(g.keys);
      DistinctFits(p, set n | n in g.keys);
    }
    i, j :| i < j < |p| && p[i] == p[j];
  }
}
