/**
 * The graph store of MetroFlow: stations, connections, the adjacency map,
 * the paired insertion that keeps it undirected, and the notions of walk
 * and walk weight used to state what the two searches promise.
 */
module MetroGraph {
  import opened Wrappers

  /** A station is an opaque, case- and whitespace-sensitive name. */
  type Station = string

  /**
   * One directed connection in a station's adjacency list.
   * `distance` is carried but never read by any search.
   */
  datatype Edge = Edge(to: Station, time: int, distance: real, cost: int, line: string)

  /** Station name to its ordered list of outgoing connections. */
  type Graph = map<Station, seq<Edge>>

  /** The adjacency list of `u`; a station with no entry has no connections. */
  function Neighbors(g: Graph, u: Station): seq<Edge>
  {
    if u in g then g[u] else []
  }

  /** Some connection leads from `u` to `v`. */
  ghost predicate Adjacent(g: Graph, u: Station, v: Station)
  {
    exists i :: 0 <= i < |Neighbors(g, u)| && Neighbors(g, u)[i].to == v
  }

  /** `w` is a walk from `a` to `b`: non-empty, and every hop follows a connection. */
  ghost predicate Walk(g: Graph, w: seq<Station>, a: Station, b: Station)
  {
    && |w| > 0
    && w[0] == a
    && w[|w| - 1] == b
    && forall i :: 0 <= i < |w| - 1 ==> Adjacent(g, w[i], w[i + 1])
  }

  ghost predicate Reachable(g: Graph, a: Station, b: Station)
  {
    exists w :: Walk(g, w, a, b)
  }

  /**
   * The weight the weighted search reads off a connection: its time when the
   * criteria string is exactly "time", and its cost for every other string.
   */
  function Weight(e: Edge, criteria: string): int
  {
    if criteria == "time" then e.time else e.cost
  }

  /** Every connection weighs at least zero under `criteria`. */
  ghost predicate NonNegative(g: Graph, criteria: string)
  {
    forall u, i :: u in g && 0 <= i < |g[u]| ==> Weight(g[u][i], criteria) >= 0
  }

  /** The cheapest weight among the connections in `es` that lead to `v`, if any. */
  function MinHop(es: seq<Edge>, v: Station, criteria: string): (r: Option<int>)
    ensures r.None? <==> forall i :: 0 <= i < |es| ==> es[i].to != v
    ensures r.Some? ==> forall i :: 0 <= i < |es| && es[i].to == v ==> r.value <= Weight(es[i], criteria)
    ensures r.Some? ==> exists i :: 0 <= i < |es| && es[i].to == v && Weight(es[i], criteria) == r.value
  {
    if es == [] then None
    else
      var rest := MinHop(es[1..], v, criteria);
      assert forall i :: 1 <= i < |es| ==> es[i] == es[1..][i - 1];
      if es[0].to != v then rest
      else if rest.None? || Weight(es[0], criteria) <= rest.value then Some(Weight(es[0], criteria))
      else rest
  }

  /** The weight of the hop `u` to `v` when the cheapest connection is taken (0 if there is none). */
  function Hop(g: Graph, u: Station, v: Station, criteria: string): int
  {
    match MinHop(Neighbors(g, u), v, criteria)
    case Some(x) => x
    case None => 0
  }

  /** The summed weight of a walk, taking the cheapest connection on every hop. */
  function WalkWeight(g: Graph, w: seq<Station>, criteria: string): int
    decreases |w|
  {
    if |w| <= 1 then 0
    else WalkWeight(g, w[..|w| - 1], criteria) + Hop(g, w[|w| - 2], w[|w| - 1], criteria)
  }

  lemma HopNonNegative(g: Graph, u: Station, v: Station, criteria: string)
    requires NonNegative(g, criteria)
    ensures Hop(g, u, v, criteria) >= 0
  {
    var r := MinHop(Neighbors(g, u), v, criteria);
    if r.Some? {
      var i :| 0 <= i < |Neighbors(g, u)| && Neighbors(g, u)[i].to == v && Weight(Neighbors(g, u)[i], criteria) == r.value;
      assert Neighbors(g, u)[i] == g[u][i];
    }
  }

  /** The hop weight is no more than the weight of any connection from `u` to `v`. */
  lemma HopAtMost(g: Graph, u: Station, i: int, criteria: string)
    requires 0 <= i < |Neighbors(g, u)|
    ensures Hop(g, u, Neighbors(g, u)[i].to, criteria) <= Weight(Neighbors(g, u)[i], criteria)
  {
  }

  /** On an existing hop, some connection weighs exactly the hop weight. */
  lemma HopAttained(g: Graph, u: Station, v: Station, criteria: string)
    requires Adjacent(g, u, v)
    ensures exists i :: 0 <= i < |Neighbors(g, u)| && Neighbors(g, u)[i].to == v
                        && Weight(Neighbors(g, u)[i], criteria) == Hop(g, u, v, criteria)
  {
  }

  /** Adding stations to a set drawn from `stations` leaves fewer of them outside it. */
  lemma UnseenShrinks(stations: set<Station>, visited0: set<Station>, visited: set<Station>)
    requires visited0 < visited <= stations
    ensures |stations - visited| < |stations - visited0|
  {
    assert visited == visited0 + (visited - visited0);
    assert stations - visited0 == (stations - visited) + (visited - visited0);
  }

  /** The connections out of any station weigh at least zero under `criteria`. */
  lemma NeighborsNonNegative(g: Graph, criteria: string, u: Station)
    requires NonNegative(g, criteria)
    ensures forall i :: 0 <= i < |Neighbors(g, u)| ==> Weight(Neighbors(g, u)[i], criteria) >= 0
  {
    if u in g {
      assert forall i :: 0 <= i < |Neighbors(g, u)| ==> Neighbors(g, u)[i] == g[u][i];
    }
  }

  /** Walk weights are never negative when connection weights are not. */
  lemma {:induction false} WalkWeightNonNegative(g: Graph, w: seq<Station>, criteria: string)
    requires NonNegative(g, criteria)
    ensures WalkWeight(g, w, criteria) >= 0
    decreases |w|
  {
    if |w| > 1 {
      WalkWeightNonNegative(g, w[..|w| - 1], criteria);
      HopNonNegative(g, w[|w| - 2], w[|w| - 1], criteria);
    }
  }

  /** Dropping the last station of a walk leaves a walk to the station before it. */
  lemma WalkPrefix(g: Graph, w: seq<Station>, a: Station, b: Station)
    requires Walk(g, w, a, b) && |w| > 1
    ensures Walk(g, w[..|w| - 1], a, w[|w| - 2])
    ensures Adjacent(g, w[|w| - 2], b)
  {
  }

  /** A station a walk leaves from has an adjacency list, so it is a key of the graph. */
  lemma AdjacentFromKey(g: Graph, u: Station, v: Station)
    requires Adjacent(g, u, v)
    ensures u in g
  {
  }

  /** Every station except possibly the last one of a walk is a key of the graph. */
  lemma WalkInnerKeys(g: Graph, w: seq<Station>, a: Station, b: Station)
    requires Walk(g, w, a, b)
    ensures forall i :: 0 <= i < |w| - 1 ==> w[i] in g
  {
    forall i | 0 <= i < |w| - 1 ensures w[i] in g {
      AdjacentFromKey(g, w[i], w[i + 1]);
    }
  }

  /**
   * A set that holds `a` and is closed under connections holds every station
   * reachable from `a`.
   */
  lemma {:induction false} ClosedSetHoldsWalk(g: Graph, xs: set<Station>, w: seq<Station>, a: Station, b: Station)
    requires a in xs
    requires forall u, v :: u in xs && Adjacent(g, u, v) ==> v in xs
    requires Walk(g, w, a, b)
    ensures b in xs
    decreases |w|
  {
    if |w| > 1 {
      WalkPrefix(g, w, a, b);
      ClosedSetHoldsWalk(g, xs, w[..|w| - 1], a, w[|w| - 2]);
    }
  }

  /** For any criteria other than "time", hop weights are cost weights. */
  lemma {:induction false} MinHopFallback(es: seq<Edge>, v: Station, criteria: string)
    requires criteria != "time"
    ensures MinHop(es, v, criteria) == MinHop(es, v, "cost")
  {
    if es != [] {
      MinHopFallback(es[1..], v, criteria);
    }
  }

  /**
   * An unrecognised criteria string silently selects the cost field: walk
   * weights under it are the walk weights under "cost".
   */
  lemma {:induction false} CriteriaFallback(g: Graph, w: seq<Station>, criteria: string)
    requires criteria != "time"
    ensures WalkWeight(g, w, criteria) == WalkWeight(g, w, "cost")
    decreases |w|
  {
    if |w| > 1 {
      CriteriaFallback(g, w[..|w| - 1], criteria);
      MinHopFallback(Neighbors(g, w[|w| - 2]), w[|w| - 1], criteria);
    }
  }

  // ---------------------------------------------------------------------
  // The store: paired insertion of a connection and its mirror.
  // ---------------------------------------------------------------------

  /** The graph after one record: the forward connection, then its mirror. */
  function Connect(g: Graph, from: Station, to: Station, time: int, distance: real, cost: int, line: string): Graph
  {
    var g1 := g[from := Neighbors(g, from) + [Edge(to, time, distance, cost, line)]];
    g1[to := Neighbors(g1, to) + [Edge(from, time, distance, cost, line)]]
  }

  /**
   * What one record does to the adjacency lists: `from` gains the forward
   * connection, `to` gains the mirrored one with the same weights and line,
   * and every other station keeps its list.
   */
  lemma ConnectAppendsPair(g: Graph, from: Station, to: Station, time: int, distance: real, cost: int, line: string)
    ensures var r := Connect(g, from, to, time, distance, cost, line);
      && r.Keys == g.Keys + {from, to}
      && (from != to ==>
            && Neighbors(r, from) == Neighbors(g, from) + [Edge(to, time, distance, cost, line)]
            && Neighbors(r, to) == Neighbors(g, to) + [Edge(from, time, distance, cost, line)])
      && (from == to ==>
            Neighbors(r, from) == Neighbors(g, from) + [Edge(to, time, distance, cost, line), Edge(from, time, distance, cost, line)])
      && forall s :: s != from && s != to ==> Neighbors(r, s) == Neighbors(g, s) && (s in r <==> s in g)
  {
  }

  /** The connection `e` leaving `u` has its mirror in the list of `e.to`. */
  ghost predicate HasMirror(g: Graph, u: Station, e: Edge)
  {
    exists j :: 0 <= j < |Neighbors(g, e.to)| && Neighbors(g, e.to)[j] == e.(to := u)
  }

  /** Every connection is matched by a reverse one with identical weights and line. */
  ghost predicate Mirrored(g: Graph)
  {
    forall u, i :: u in g && 0 <= i < |g[u]| ==> HasMirror(g, u, g[u][i])
  }

  /** Every connection leads to a station that is a key of the graph. */
  ghost predicate Closed(g: Graph)
  {
    forall u, i :: u in g && 0 <= i < |g[u]| ==> g[u][i].to in g
  }

  lemma MirroredIsClosed(g: Graph)
    requires Mirrored(g)
    ensures Closed(g)
  {
    forall u, i | u in g && 0 <= i < |g[u]| ensures g[u][i].to in g {
      assert HasMirror(g, u, g[u][i]);
    }
  }

  /** In a mirrored graph every hop can be taken backwards. */
  lemma MirroredSymmetric(g: Graph, u: Station, v: Station)
    requires Mirrored(g) && Adjacent(g, u, v)
    ensures Adjacent(g, v, u)
  {
    var i :| 0 <= i < |Neighbors(g, u)| && Neighbors(g, u)[i].to == v;
    assert HasMirror(g, u, g[u][i]);
    var j :| 0 <= j < |Neighbors(g, v)| && Neighbors(g, v)[j] == g[u][i].(to := u);
    assert Neighbors(g, v)[j].to == u;
  }

  /** A list that only grows at its end keeps every mirror it already had. */
  lemma MirrorKept(g: Graph, r: Graph, u: Station, e: Edge)
    requires HasMirror(g, u, e)
    requires |Neighbors(r, e.to)| >= |Neighbors(g, e.to)|
    requires Neighbors(r, e.to)[..|Neighbors(g, e.to)|] == Neighbors(g, e.to)
    ensures HasMirror(r, u, e)
  {
    var j :| 0 <= j < |Neighbors(g, e.to)| && Neighbors(g, e.to)[j] == e.(to := u);
    assert Neighbors(r, e.to)[..|Neighbors(g, e.to)|][j] == Neighbors(r, e.to)[j];
  }

  /** The paired insertion only appends: every list keeps its old prefix. */
  lemma ConnectGrows(g: Graph, from: Station, to: Station, time: int, distance: real, cost: int, line: string, s: Station)
    ensures var r := Connect(g, from, to, time, distance, cost, line);
      |Neighbors(r, s)| >= |Neighbors(g, s)| && Neighbors(r, s)[..|Neighbors(g, s)|] == Neighbors(g, s)
  {
    ConnectAppendsPair(g, from, to, time, distance, cost, line);
  }

  /** One connection of the new graph has its mirror. */
  lemma ConnectMirrorAt(g: Graph, from: Station, to: Station, time: int, distance: real, cost: int, line: string, u: Station, i: int)
    requires Mirrored(g)
    requires var r := Connect(g, from, to, time, distance, cost, line); u in r && 0 <= i < |r[u]|
    ensures var r := Connect(g, from, to, time, distance, cost, line); HasMirror(r, u, r[u][i])
  {
    var r := Connect(g, from, to, time, distance, cost, line);
    var fwd := Edge(to, time, distance, cost, line);
    var bwd := Edge(from, time, distance, cost, line);
    ConnectAppendsPair(g, from, to, time, distance, cost, line);
    ConnectGrows(g, from, to, time, distance, cost, line, u);
    var e := r[u][i];
    assert e == Neighbors(r, u)[i];
    if i < |Neighbors(g, u)| {
      assert Neighbors(r, u)[..|Neighbors(g, u)|][i] == e;
      assert e == g[u][i];
      assert HasMirror(g, u, g[u][i]);
      ConnectGrows(g, from, to, time, distance, cost, line, e.to);
      MirrorKept(g, r, u, e);
    } else if from == to {
      assert Neighbors(r, from)[|Neighbors(g, from)| + 1] == bwd;
      assert Neighbors(r, from)[|Neighbors(g, from)|] == fwd;
      assert e == fwd || e == bwd;
      assert e.(to := u) == bwd;
    } else if u == from {
      assert e == fwd;
      assert Neighbors(r, to)[|Neighbors(g, to)|] == bwd == e.(to := u);
    } else {
      assert u == to;
      assert e == bwd;
      assert Neighbors(r, from)[|Neighbors(g, from)|] == fwd == e.(to := u);
    }
  }

  /** The paired insertion keeps the graph mirrored. */
  lemma ConnectPreservesMirrored(g: Graph, from: Station, to: Station, time: int, distance: real, cost: int, line: string)
    requires Mirrored(g)
    ensures Mirrored(Connect(g, from, to, time, distance, cost, line))
  {
    var r := Connect(g, from, to, time, distance, cost, line);
    forall u, i | u in r && 0 <= i < |r[u]| ensures HasMirror(r, u, r[u][i]) {
      ConnectMirrorAt(g, from, to, time, distance, cost, line, u, i);
    }
  }

  /** One six-field record of the edge list (`from, to, time, distance, cost, line`). */
  datatype Record = Record(from: Station, to: Station, time: int, distance: real, cost: int, line: string)

  /** The graph that results from inserting the records in order into an empty store. */
  function Build(rs: seq<Record>): Graph
    decreases |rs|
  {
    if rs == [] then map[]
    else
      var r := rs[|rs| - 1];
      Connect(Build(rs[..|rs| - 1]), r.from, r.to, r.time, r.distance, r.cost, r.line)
  }

  /** Any graph built from records is mirrored, hence closed. */
  lemma {:induction false} BuildMirrored(rs: seq<Record>)
    ensures Mirrored(Build(rs))
    decreases |rs|
  {
    if rs != [] {
      var r := rs[|rs| - 1];
      BuildMirrored(rs[..|rs| - 1]);
      ConnectPreservesMirrored(Build(rs[..|rs| - 1]), r.from, r.to, r.time, r.distance, r.cost, r.line);
    }
  }

  /** In a closed graph the end of a walk of at least one hop is a key of the graph. */
  lemma ClosedWalkEndIsKey(g: Graph, w: seq<Station>, a: Station, b: Station)
    requires Closed(g) && Walk(g, w, a, b) && |w| > 1
    ensures b in g
  {
    WalkPrefix(g, w, a, b);
    var u := w[|w| - 2];
    var i :| 0 <= i < |Neighbors(g, u)| && Neighbors(g, u)[i].to == b;
  }

  /** The connections one record appends lead from `from` to `to` or back. */
  lemma ConnectNewTargets(g: Graph, from: Station, to: Station, time: int, distance: real, cost: int, line: string, u: Station)
    ensures var r := Connect(g, from, to, time, distance, cost, line);
      forall j :: |Neighbors(g, u)| <= j < |Neighbors(r, u)| ==>
        (u == from && Neighbors(r, u)[j].to == to) || (u == to && Neighbors(r, u)[j].to == from)
  {
    ConnectAppendsPair(g, from, to, time, distance, cost, line);
  }

  /** After one record both of its stations reach each other in one hop. */
  lemma ConnectJoins(g: Graph, from: Station, to: Station, time: int, distance: real, cost: int, line: string)
    ensures var r := Connect(g, from, to, time, distance, cost, line);
      Adjacent(r, from, to) && Adjacent(r, to, from)
  {
    var r := Connect(g, from, to, time, distance, cost, line);
    ConnectAppendsPair(g, from, to, time, distance, cost, line);
    assert Neighbors(r, from)[|Neighbors(g, from)|].to == to;
    if from != to {
      assert Neighbors(r, to)[|Neighbors(g, to)|].to == from;
    }
  }

  /**
   * A record followed by its own reverse adds no hop: the graph after both
   * has exactly the hops of the graph after the first.
   */
  lemma ReverseRecordAddsNoHop(g: Graph, a: Station, b: Station, time: int, distance: real, cost: int, line: string,
                               u: Station, v: Station)
    ensures var g1 := Connect(g, a, b, time, distance, cost, line);
      Adjacent(Connect(g1, b, a, time, distance, cost, line), u, v) <==> Adjacent(g1, u, v)
  {
    var g1 := Connect(g, a, b, time, distance, cost, line);
    var g2 := Connect(g1, b, a, time, distance, cost, line);
    ConnectGrows(g1, b, a, time, distance, cost, line, u);
    var n := |Neighbors(g1, u)|;
    if Adjacent(g1, u, v) {
      var i :| 0 <= i < n && Neighbors(g1, u)[i].to == v;
      assert Neighbors(g2, u)[..n][i] == Neighbors(g2, u)[i];
    }
    if Adjacent(g2, u, v) {
      var i :| 0 <= i < |Neighbors(g2, u)| && Neighbors(g2, u)[i].to == v;
      if i < n {
        assert Neighbors(g2, u)[..n][i] == Neighbors(g2, u)[i];
      } else {
        ConnectNewTargets(g1, b, a, time, distance, cost, line, u);
        ConnectJoins(g, a, b, time, distance, cost, line);
      }
    }
  }

  /** Hence a record followed by its reverse leaves reachability as the first record left it. */
  lemma ReverseRecordKeepsReachable(g: Graph, a: Station, b: Station, time: int, distance: real, cost: int, line: string,
                                    x: Station, y: Station)
    ensures var g1 := Connect(g, a, b, time, distance, cost, line);
      Reachable(Connect(g1, b, a, time, distance, cost, line), x, y) <==> Reachable(g1, x, y)
  {
    var g1 := Connect(g, a, b, time, distance, cost, line);
    var g2 := Connect(g1, b, a, time, distance, cost, line);
    if Reachable(g2, x, y) {
      var w :| Walk(g2, w, x, y);
      forall k | 0 <= k < |w| - 1 ensures Adjacent(g1, w[k], w[k + 1]) {
        ReverseRecordAddsNoHop(g, a, b, time, distance, cost, line, w[k], w[k + 1]);
      }
      assert Walk(g1, w, x, y);
    }
    if Reachable(g1, x, y) {
      var w :| Walk(g1, w, x, y);
      forall k | 0 <= k < |w| - 1 ensures Adjacent(g2, w[k], w[k + 1]) {
        ReverseRecordAddsNoHop(g, a, b, time, distance, cost, line, w[k], w[k + 1]);
      }
      assert Walk(g2, w, x, y);
    }
  }

  /**
   * In a graph built from records every station reachable from `a` other
   * than `a` itself has an adjacency entry, so it is given an initial cost.
   */
  lemma BuiltReachableIsKey(rs: seq<Record>, a: Station, b: Station)
    requires Reachable(Build(rs), a, b)
    ensures b in Build(rs) || b == a
  {
    var g := Build(rs);
    BuildMirrored(rs);
    MirroredIsClosed(g);
    var w :| Walk(g, w, a, b);
    if |w| > 1 {
      ClosedWalkEndIsKey(g, w, a, b);
    }
  }

  /** The adjacency store owned by the program; searches read a snapshot of `adj`. */
  class GraphStore {
    var adj: Graph

    constructor ()
      ensures adj == map[]
      ensures Mirrored(adj)
    {
      adj := map[];
    }

    /** Appends `from -> to` and its mirror `to -> from` (demo.cpp:54-55). */
    method AddConnection(from: Station, to: Station, time: int, distance: real, cost: int, line: string)
      modifies this
      ensures adj == Connect(old(adj), from, to, time, distance, cost, line)
      ensures Mirrored(old(adj)) ==> Mirrored(adj)
    {
      ghost var before := adj;
      adj := adj[from := Neighbors(adj, from) + [Edge(to, time, distance, cost, line)]];
      adj := adj[to := Neighbors(adj, to) + [Edge(from, time, distance, cost, line)]];
      if Mirrored(before) {
        ConnectPreservesMirrored(before, from, to, time, distance, cost, line);
      }
    }
  }
}
