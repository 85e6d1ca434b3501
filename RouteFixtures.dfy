/** The two route graphs shipped with the planner (the server's in app.js and
    the browser's in citizen.js): the same four junctions A, B, C, D with the
    same links, but different pollution scores on A->B, B->C and B->D. With
    all three coefficients 1 the search picks A, B, D on the first and A, C, D
    on the second, in both scenic modes. */
module RouteFixtures {
  import opened RouteGraph
  import opened RouteSearch

  /** The graph object of app.js. */
  function AppGraph(): (g: Graph)
    ensures WellFormed(g) && NoEmptyIds(g) && Diamond(g)
  {
    Graph(["A", "B", "C", "D"],
          map["A" := [Edge("B", 2, 120, 5), Edge("C", 3, 200, 0)],
              "B" := [Edge("C", 2, 100, 10), Edge("D", 4, 150, 2)],
              "C" := [Edge("D", 2, 80, 7)],
              "D" := []])
  }

  /** The graph object of citizen.js. */
  function CitizenGraph(): (g: Graph)
    ensures WellFormed(g) && NoEmptyIds(g) && Diamond(g)
  {
    Graph(["A", "B", "C", "D"],
          map["A" := [Edge("B", 2, 180, 5), Edge("C", 3, 200, 0)],
              "B" := [Edge("C", 2, 150, 10), Edge("D", 4, 120, 2)],
              "C" := [Edge("D", 2, 80, 7)],
              "D" := []])
  }

  /** The shape both fixtures share: A links to B then C, B to C then D, C to
      D, and D is a dead end. */
  ghost predicate Diamond(g: Graph) {
    g.adj.Keys == {"A", "B", "C", "D"} &&
    |g.adj["A"]| == 2 && g.adj["A"][0].to == "B" && g.adj["A"][1].to == "C" &&
    |g.adj["B"]| == 2 && g.adj["B"][0].to == "C" && g.adj["B"][1].to == "D" &&
    |g.adj["C"]| == 1 && g.adj["C"][0].to == "D" &&
    g.adj["D"] == []
  }

  /** The coefficients both callers pass: alpha = beta = gamma = 1. */
  function UnitPolicy(preferScenic: bool): Policy {
    Policy(1, 1, 1, preferScenic)
  }

  /** D is a dead end: no route leaves it. */
  lemma DeadEnd(g: Graph, p: seq<Node>, es: seq<Edge>)
    requires Diamond(g) && Along(g, p, es)
    ensures forall i :: 0 <= i < |es| ==> p[i] != "D"
  {
    forall i | 0 <= i < |es| ensures p[i] != "D" {
      assert es[i] in g.adj[p[i]];
    }
  }

  /** In a diamond the only routes from A to D are A-B-D, A-C-D and A-B-C-D,
      each along its single choice of edges. */
  lemma {:induction false} DiamondRoutes(g: Graph, p: seq<Node>, es: seq<Edge>)
    requires Diamond(g) && Along(g, p, es) && |p| >= 1 && p[0] == "A" && p[|p| - 1] == "D"
    ensures (p == ["A", "B", "D"] && es == [g.adj["A"][0], g.adj["B"][1]]) ||
            (p == ["A", "C", "D"] && es == [g.adj["A"][1], g.adj["C"][0]]) ||
            (p == ["A", "B", "C", "D"] && es == [g.adj["A"][0], g.adj["B"][0], g.adj["C"][0]])
  {
    DeadEnd(g, p, es);
    assert |es| >= 1;
    assert es[0] in g.adj["A"];
    if p[1] == "B" {
      assert es[1] in g.adj["B"];
      if p[2] == "D" {
        assert p == ["A", "B", "D"];
      } else {
        assert |es| >= 3 && es[2] in g.adj["C"];
        assert es[2] == g.adj["C"][0] && p[3] == "D";
        assert p == ["A", "B", "C", "D"];
      }
    } else {
      assert p[1] == "C" && |es| >= 2;
      assert es[1] in g.adj["C"];
      assert es[1] == g.adj["C"][0] && p[2] == "D" && |es| == 2;
      assert p == ["A", "C", "D"];
    }
  }

  /** The place of each junction in the diamond: every link leads to a later
      junction. */
  function Junction(n: Node): nat {
    if n == "A" then 0 else if n == "B" then 1 else if n == "C" then 2 else 3
  }

  /** Each link of a diamond leads to a later junction. */
  lemma LinkRises(g: Graph, u: Node, v: Node)
    requires Diamond(g) && HasEdge(g, u, v)
    ensures Junction(u) < Junction(v)
  {
    var e :| e in g.adj[u] && e.to == v;
    if u == "A" {
      assert e == g.adj["A"][0] || e == g.adj["A"][1];
    } else if u == "B" {
      assert e == g.adj["B"][0] || e == g.adj["B"][1];
    } else {
      assert u == "C";
      assert e == g.adj["C"][0];
    }
  }

  /** Every walk of a diamond ends at a later junction than it starts. */
  lemma {:induction false} WalkRises(g: Graph, c: seq<Node>)
    requires Diamond(g) && IsWalk(g, c) && |c| >= 2
    ensures Junction(c[0]) < Junction(c[|c| - 1])
  {
    LinkRises(g, c[0], c[1]);
    if |c| > 2 {
      var t := c[1..];
      forall i | 0 <= i < |t| - 1 ensures HasEdge(g, t[i], t[i + 1]) {
        assert t[i] == c[i + 1] && t[i + 1] == c[i + 2];
      }
      WalkRises(g, t);
    }
  }

  /** A diamond has no cycle. */
  lemma DiamondAcyclic(g: Graph)
    requires Diamond(g)
    ensures !HasCycle(g)
  {
    forall c ensures !IsCycle(g, c) {
      if IsWalk(g, c) && |c| >= 2 {
        WalkRises(g, c);
      }
    }
  }

  /** `dijkstra(graph, start, end, alpha, beta, gamma, preferScenic)` on
      either fixture graph ends with a path for every choice of coefficients,
      including those that make scenic costs negative: the predecessor links
      cannot go round a loop in a graph without cycles. */
  method FixtureSearchEnds(g: Graph, start: Node, end: Node, pol: Policy) returns (r: Route)
    requires g == AppGraph() || g == CitizenGraph()
    ensures r.Path? && (r.nodes != [] ==> WalkFromTo(g, r.nodes, start, end))
  {
    DiamondAcyclic(g);
    r := Dijkstra(g, start, end, pol);
  }

  /** D is reachable from A in a diamond. */
  lemma DiamondReach(g: Graph)
    requires Diamond(g)
    ensures Reachable(g, "A", "D")
  {
    assert g.adj["A"][0] in g.adj["A"] && g.adj["B"][1] in g.adj["B"];
    assert HasEdge(g, "A", "B") && HasEdge(g, "B", "D");
    assert WalkFromTo(g, ["A", "B", "D"], "A", "D");
  }

  /** Every edge of either fixture costs at least nothing under unit
      coefficients. */
  lemma FixtureCosts(g: Graph, preferScenic: bool)
    requires g == AppGraph() || g == CitizenGraph()
    ensures NonNegative(g, UnitPolicy(preferScenic))
  {
    forall n, e | n in g.adj && e in g.adj[n] ensures EdgeWeight(e, UnitPolicy(preferScenic)) >= 0 {
      assert n == "A" || n == "B" || n == "C" || n == "D";
    }
  }

  /** The cost of a two-edge route. */
  lemma CostTwo(e1: Edge, e2: Edge, pol: Policy)
    ensures Cost([e1, e2], pol) == EdgeWeight(e1, pol) + EdgeWeight(e2, pol)
  {
    assert [e1, e2][1..] == [e2];
    assert [e2][1..] == [];
    assert Cost([e2], pol) == EdgeWeight(e2, pol) + Cost([], pol);
  }

  /** The cost of a three-edge route. */
  lemma CostThree(e1: Edge, e2: Edge, e3: Edge, pol: Policy)
    ensures Cost([e1, e2, e3], pol) == EdgeWeight(e1, pol) + EdgeWeight(e2, pol) + EdgeWeight(e3, pol)
  {
    assert [e1, e2, e3][1..] == [e2, e3];
    CostTwo(e2, e3, pol);
  }

  /** The only cheapest route of the app.js graph from A to D is A-B-D: it
      costs 276 (269 scenic), A-C-D 285 (278), A-B-C-D 306 (284). */
  lemma AppCheapest(preferScenic: bool, p: seq<Node>)
    requires Cheapest(AppGraph(), UnitPolicy(preferScenic), "A", "D", p)
    ensures p == ["A", "B", "D"]
  {
    var g, pol := AppGraph(), UnitPolicy(preferScenic);
    var es :| Along(g, p, es) &&
      forall q, fs :: |q| >= 1 && q[0] == "A" && q[|q| - 1] == "D" && Along(g, q, fs) ==> Cost(es, pol) <= Cost(fs, pol);
    var best := [g.adj["A"][0], g.adj["B"][1]];
    assert Along(g, ["A", "B", "D"], best);
    CostTwo(g.adj["A"][0], g.adj["B"][1], pol);
    CostTwo(g.adj["A"][1], g.adj["C"][0], pol);
    CostThree(g.adj["A"][0], g.adj["B"][0], g.adj["C"][0], pol);
    DiamondRoutes(g, p, es);
    assert Cost(es, pol) <= Cost(best, pol);
  }

  /** The only cheapest route of the citizen.js graph from A to D is A-C-D:
      it costs 285 (278 scenic), A-B-D 306 (299), A-B-C-D 416 (394). */
  lemma CitizenCheapest(preferScenic: bool, p: seq<Node>)
    requires Cheapest(CitizenGraph(), UnitPolicy(preferScenic), "A", "D", p)
    ensures p == ["A", "C", "D"]
  {
    var g, pol := CitizenGraph(), UnitPolicy(preferScenic);
    var es :| Along(g, p, es) &&
      forall q, fs :: |q| >= 1 && q[0] == "A" && q[|q| - 1] == "D" && Along(g, q, fs) ==> Cost(es, pol) <= Cost(fs, pol);
    var best := [g.adj["A"][1], g.adj["C"][0]];
    assert Along(g, ["A", "C", "D"], best);
    CostTwo(g.adj["A"][0], g.adj["B"][1], pol);
    CostTwo(g.adj["A"][1], g.adj["C"][0], pol);
    CostThree(g.adj["A"][0], g.adj["B"][0], g.adj["C"][0], pol);
    DiamondRoutes(g, p, es);
    assert Cost(es, pol) <= Cost(best, pol);
  }

  /** `dijkstra(graph, 'A', 'D', 1, 1, 1, preferScenic)` on the app.js graph. */
  method AppRoute(preferScenic: bool) returns (r: Route)
    ensures r == Path(["A", "B", "D"])
  {
    FixtureCosts(AppGraph(), preferScenic);
    DiamondReach(AppGraph());
    r := Dijkstra(AppGraph(), "A", "D", UnitPolicy(preferScenic));
    AppCheapest(preferScenic, r.nodes);
  }

  /** `dijkstra(graph, 'A', 'D', 1, 1, 1, preferScenic)` on the citizen.js graph. */
  method CitizenRoute(preferScenic: bool) returns (r: Route)
    ensures r == Path(["A", "C", "D"])
  {
    FixtureCosts(CitizenGraph(), preferScenic);
    DiamondReach(CitizenGraph());
    r := Dijkstra(CitizenGraph(), "A", "D", UnitPolicy(preferScenic));
    CitizenCheapest(preferScenic, r.nodes);
  }
}
