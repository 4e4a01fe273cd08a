/**
 * A three-station network passed to the store and both searches, with the
 * results fixed by their contracts: A-B (time 5, cost 2), B-C (time 3,
 * cost 4) and A-C (time 10, cost 1), and a station D that no record mentions.
 */
module SampleNetwork {
  import opened MetroGraph
  import opened LeastStops
  import opened WeightedSearch

  /** A hop over connections that each weigh at least `m` weighs at least `m`. */
  lemma HopAtLeast(g: Graph, u: Station, v: Station, criteria: string, m: int)
    requires forall x, i :: x in g && 0 <= i < |g[x]| ==> Weight(g[x][i], criteria) >= m
    requires Adjacent(g, u, v)
    ensures Hop(g, u, v, criteria) >= m
  {
    HopAttained(g, u, v, criteria);
    var i :| 0 <= i < |Neighbors(g, u)| && Neighbors(g, u)[i].to == v
             && Weight(Neighbors(g, u)[i], criteria) == Hop(g, u, v, criteria);
    AdjacentFromKey(g, u, v);
    assert Neighbors(g, u)[i] == g[u][i];
  }

  /** A walk over connections that each weigh at least `m` weighs at least `m` per hop. */
  lemma {:induction false} WalkWeightAtLeast(g: Graph, w: seq<Station>, a: Station, b: Station, criteria: string, m: int)
    requires forall u, i :: u in g && 0 <= i < |g[u]| ==> Weight(g[u][i], criteria) >= m
    requires Walk(g, w, a, b)
    ensures WalkWeight(g, w, criteria) >= m * (|w| - 1)
    decreases |w|
  {
    if |w| > 1 {
      var prefix := w[..|w| - 1];
      WalkPrefix(g, w, a, b);
      WalkWeightAtLeast(g, prefix, a, w[|w| - 2], criteria, m);
      HopAtLeast(g, w[|w| - 2], b, criteria, m);
      var k := |prefix| - 1;
      assert |w| - 1 == k + 1;
      assert m * (k + 1) == m * k + m;
    }
  }

  /** The adjacency map the three records leave in an empty store. */
  function Network(): Graph
  {
    var g1 := Connect(map[], "A", "B", 5, 1.0, 2, "L1");
    var g2 := Connect(g1, "B", "C", 3, 1.0, 4, "L1");
    Connect(g2, "A", "C", 10, 1.0, 1, "L2")
  }

  /** The network written out: every station lists its connections in insertion order. */
  lemma NetworkLists()
    ensures Network().Keys == {"A", "B", "C"}
    ensures Network()["A"] == [Edge("B", 5, 1.0, 2, "L1"), Edge("C", 10, 1.0, 1, "L2")]
    ensures Network()["B"] == [Edge("A", 5, 1.0, 2, "L1"), Edge("C", 3, 1.0, 4, "L1")]
    ensures Network()["C"] == [Edge("B", 3, 1.0, 4, "L1"), Edge("A", 10, 1.0, 1, "L2")]
  {
    assert "A" != "B" && "B" != "C" && "A" != "C" by {
      assert "A"[0] != "B"[0] && "B"[0] != "C"[0] && "A"[0] != "C"[0];
    }
    var g1 := Connect(map[], "A", "B", 5, 1.0, 2, "L1");
    var g2 := Connect(g1, "B", "C", 3, 1.0, 4, "L1");
    ConnectAppendsPair(map[], "A", "B", 5, 1.0, 2, "L1");
    ConnectAppendsPair(g1, "B", "C", 3, 1.0, 4, "L1");
    ConnectAppendsPair(g2, "A", "C", 10, 1.0, 1, "L2");
    assert Neighbors(g1, "C") == [];
  }

  /** The hops of the network: between any two distinct stations of A, B and C. */
  lemma NetworkHops(u: Station, v: Station)
    ensures Adjacent(Network(), u, v) <==> u in {"A", "B", "C"} && v in {"A", "B", "C"} && u != v
  {
    var g := Network();
    NetworkLists();
    if u in {"A", "B", "C"} && v in {"A", "B", "C"} && u != v {
      if u == "A" && v == "B" { assert Neighbors(g, u)[0].to == v; }
      if u == "A" && v == "C" { assert Neighbors(g, u)[1].to == v; }
      if u == "B" && v == "A" { assert Neighbors(g, u)[0].to == v; }
      if u == "B" && v == "C" { assert Neighbors(g, u)[1].to == v; }
      if u == "C" && v == "B" { assert Neighbors(g, u)[0].to == v; }
      if u == "C" && v == "A" { assert Neighbors(g, u)[1].to == v; }
    }
  }

  /** Any walk from A to C with at most three stations is `[A, C]` or `[A, B, C]`. */
  lemma ShortWalks(w: seq<Station>)
    requires Walk(Network(), w, "A", "C") && |w| <= 3
    ensures w == ["A", "C"] || w == ["A", "B", "C"]
  {
    assert "A" != "C" by { assert "A"[0] != "C"[0]; }
    if |w| == 3 {
      NetworkHops(w[0], w[1]);
      NetworkHops(w[1], w[2]);
      assert w == ["A", w[1], "C"];
    } else {
      assert w == ["A", "C"];
    }
  }

  /** The two walks from A to C of at most two hops, and `C` has an adjacency entry. */
  lemma NetworkWalks()
    ensures Walk(Network(), ["A", "C"], "A", "C") && Walk(Network(), ["A", "B", "C"], "A", "C")
    ensures "C" in Network()
  {
    NetworkLists();
    NetworkHops("A", "C");
    NetworkHops("A", "B");
    NetworkHops("B", "C");
  }

  /** The cheapest connection of each hop the sample walks take. */
  lemma NetworkHopWeights()
    ensures Hop(Network(), "A", "C", "time") == 10 && Hop(Network(), "A", "B", "time") == 5
    ensures Hop(Network(), "B", "C", "time") == 3 && Hop(Network(), "A", "C", "cost") == 1
  {
    NetworkLists();
    assert "A" != "B" && "B" != "C" && "A" != "C" by {
      assert "A"[0] != "B"[0] && "B"[0] != "C"[0] && "A"[0] != "C"[0];
    }
  }

  /** The weights of those walks: 10 and 8 minutes, and the direct one costs 1. */
  lemma NetworkWalkWeights()
    ensures WalkWeight(Network(), ["A", "C"], "time") == 10 && WalkWeight(Network(), ["A", "B", "C"], "time") == 8
    ensures WalkWeight(Network(), ["A", "C"], "cost") == 1
  {
    NetworkHopWeights();
    assert ["A", "B", "C"][..2] == ["A", "B"];
    assert ["A", "C"][..1] == ["A"];
    assert ["A", "B"][..1] == ["A"];
  }

  /** Every connection of the network takes at least 3 minutes and costs at least 1. */
  lemma NetworkWeights()
    ensures forall u, i :: u in Network() && 0 <= i < |Network()[u]| ==> Weight(Network()[u][i], "time") >= 3
    ensures forall u, i :: u in Network() && 0 <= i < |Network()[u]| ==> Weight(Network()[u][i], "cost") >= 1
  {
    NetworkLists();
  }

  /** No walk of the network leaves A for D, which no record mentions. */
  lemma NoWalkToD(w: seq<Station>)
    ensures !Walk(Network(), w, "A", "D")
  {
    if Walk(Network(), w, "A", "D") {
      assert "A" != "D" by { assert "A"[0] != "D"[0]; }
      WalkPrefix(Network(), w, "A", "D");
      NetworkHops(w[|w| - 2], "D");
    }
  }

  /** The store after the three records of the sample, inserted in order. */
  method SampleStore() returns (store: GraphStore)
    ensures store.adj == Network()
  {
    store := new GraphStore();
    store.AddConnection("A", "B", 5, 1.0, 2, "L1");
    store.AddConnection("B", "C", 3, 1.0, 4, "L1");
    store.AddConnection("A", "C", 10, 1.0, 1, "L2");
  }

  /** Fewest stops from A to C: the direct connection, one hop against two. */
  method FewestStopsAC() returns (path: seq<Station>)
    ensures path == ["A", "C"]
  {
    var store := SampleStore();
    NetworkWalks();
    path := BfsLeastStops(store.adj, "A", "C");
    ShortWalks(path);
  }

  /** Least time from A to C: through B, 8 minutes against 10. */
  method FastestAC() returns (path: seq<Station>)
    ensures path == ["A", "B", "C"]
  {
    var store := SampleStore();
    NetworkWalks();
    NetworkWalkWeights();
    NetworkWeights();
    ghost var cost;
    path, cost := Dijkstra(store.adj, "A", "C", "time");
    WalkWeightAtLeast(store.adj, path, "A", "C", "time", 3);
    ShortWalks(path);
  }

  /** Least cost from A to C: the direct connection, 1 against 6. */
  method CheapestAC() returns (path: seq<Station>)
    ensures path == ["A", "C"]
  {
    var store := SampleStore();
    NetworkWalks();
    NetworkWalkWeights();
    NetworkWeights();
    ghost var cost;
    path, cost := Dijkstra(store.adj, "A", "C", "cost");
    WalkWeightAtLeast(store.adj, path, "A", "C", "cost", 1);
    ShortWalks(path);
  }

  /** D has no connections: every search from A to D returns the empty route. */
  method RoutesToD() returns (fewest: seq<Station>, fastest: seq<Station>, cheapest: seq<Station>)
    ensures fewest == [] && fastest == [] && cheapest == []
  {
    var store := SampleStore();
    NetworkWeights();
    forall w ensures !Walk(store.adj, w, "A", "D") {
      NoWalkToD(w);
    }
    fewest := BfsLeastStops(store.adj, "A", "D");
    ghost var cost;
    fastest, cost := Dijkstra(store.adj, "A", "D", "time");
    cheapest, cost := Dijkstra(store.adj, "A", "D", "cost");
  }
}
