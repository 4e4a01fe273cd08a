/** `bfsLeastStops` (demo.cpp:71-104): the route with the fewest hops. */
module LeastStops {
  import opened MetroGraph
  import opened PathReconstruction

  /** The destinations of the connections in `es`. */
  function Targets(es: seq<Edge>): set<Station>
  {
    set i | 0 <= i < |es| :: es[i].to
  }

  /** Scanning one more connection adds its destination. */
  lemma TargetsSnoc(es: seq<Edge>, i: nat)
    requires i < |es|
    ensures Targets(es[..i + 1]) == Targets(es[..i]) + {es[i].to}
  {
    forall x ensures x in Targets(es[..i + 1]) <==> x in Targets(es[..i]) + {es[i].to} {
      if x in Targets(es[..i + 1]) {
        var k :| 0 <= k < i + 1 && es[..i + 1][k].to == x;
        if k < i { assert es[..i][k].to == x; }
      }
      if x in Targets(es[..i]) {
        var k :| 0 <= k < i && es[..i][k].to == x;
        assert es[..i + 1][k].to == x;
      }
      if x == es[i].to {
        assert es[..i + 1][i].to == x;
      }
    }
  }

  /** Every station named in `g`: its keys and the destinations of its connections. */
  function Stations(g: Graph): set<Station>
  {
    g.Keys + set u, i | u in g && 0 <= i < |g[u]| :: g[u][i].to
  }

  /**
   * The inner loop of the search (demo.cpp:82-88): every destination of `es`
   * not yet visited is marked visited, gets `curr` as its predecessor and is
   * queued at the back. Visited stations and their predecessors are
   * left alone, so a station is marked and given a predecessor at most once.
   */
  method VisitNeighbors(es: seq<Edge>, curr: Station, visited: set<Station>, parent: map<Station, Station>, queue: seq<Station>)
    returns (visited': set<Station>, parent': map<Station, Station>, queue': seq<Station>)
    ensures visited' == visited + Targets(es)
    ensures parent'.Keys == parent.Keys + (visited' - visited)
    ensures forall v :: v in visited' - visited ==> parent'[v] == curr
    ensures forall v :: v in parent && v !in visited' - visited ==> parent'[v] == parent[v]
    ensures |queue'| >= |queue| && queue'[..|queue|] == queue
    ensures forall i :: |queue| <= i < |queue'| ==> queue'[i] in visited' - visited
    ensures forall v :: v in visited' - visited ==> v in queue'[|queue|..]
    ensures visited' == visited ==> queue' == queue
  {
    visited', parent', queue' := visited, parent, queue;
    for i := 0 to |es|
      invariant visited' == visited + Targets(es[..i])
      invariant parent'.Keys == parent.Keys + (visited' - visited)
      invariant forall v :: v in visited' - visited ==> parent'[v] == curr
      invariant forall v :: v in parent && v !in visited' - visited ==> parent'[v] == parent[v]
      invariant |queue'| >= |queue| && queue'[..|queue|] == queue
      invariant forall k :: |queue| <= k < |queue'| ==> queue'[k] in visited' - visited
      invariant forall v :: v in visited' - visited ==> v in queue'[|queue|..]
      invariant visited' == visited ==> queue' == queue
    {
      var edge := es[i];
      TargetsSnoc(es, i);
      if edge.to !in visited' {
        visited' := visited' + {edge.to};
        parent' := parent'[edge.to := curr];
        ghost var before := queue';
        queue' := queue' + [edge.to];
        assert queue'[|queue|..] == before[|queue|..] + [edge.to];
      }
    }
    assert es[..|es|] == es;
  }

  /**
   * The frontier argument: when every visited station that is not yet
   * expanded sits in the queue, the queue head has the smallest level, expanded
   * stations have all their neighbours visited, and visited levels are lower
   * bounds on walk lengths, then any walk from `start` to a station that is not
   * expanded has at least as many hops as the level of the queue head.
   */
  lemma {:induction false} Frontier(g: Graph, start: Station, visited: set<Station>, done: set<Station>,
                                    queue: seq<Station>, dist: map<Station, nat>, w: seq<Station>, x: Station)
    requires start in visited && visited <= dist.Keys && done <= visited
    requires forall v :: v in visited && v !in done ==> v in queue
    requires |queue| > 0 && queue[0] in dist
    requires forall i :: 0 <= i < |queue| ==> queue[i] in dist && dist[queue[0]] <= dist[queue[i]]
    requires forall p, v :: p in done && Adjacent(g, p, v) ==> v in visited
    requires forall v, w' :: v in visited && Walk(g, w', start, v) ==> dist[v] <= |w'| - 1
    requires Walk(g, w, start, x) && x !in done
    ensures dist[queue[0]] <= |w| - 1
    decreases |w|
  {
    if |w| == 1 {
      assert Walk(g, [start], start, start);
    } else {
      WalkPrefix(g, w, start, x);
      var y := w[|w| - 2];
      if y in done {
        assert x in visited;
      } else {
        Frontier(g, start, visited, done, queue, dist, w[..|w| - 1], y);
      }
    }
  }

  /** A chain of predecessors from `start` climbs one level per station. */
  lemma {:induction false} ChainLevels(parent: map<Station, Station>, dist: map<Station, nat>, path: seq<Station>, start: Station)
    requires path != [] && path[0] == start && Chain(parent, path)
    requires start in dist && dist[start] == 0
    requires forall v :: v in parent ==> v in dist && parent[v] in dist && dist[v] == dist[parent[v]] + 1
    ensures path[|path| - 1] in dist && dist[path[|path| - 1]] == |path| - 1
    decreases |path|
  {
    if |path| > 1 {
      var prefix := path[..|path| - 1];
      assert Chain(parent, prefix);
      ChainLevels(parent, dist, prefix, start);
    }
  }

  /**
   * The search tree built so far: every visited station other than `start`
   * has a visited predecessor one level lower that connects to it, and the
   * level of a visited station is no more than the hop count of any walk to it.
   */
  ghost predicate Tree(g: Graph, start: Station, visited: set<Station>, parent: map<Station, Station>, dist: map<Station, nat>)
  {
    && start in visited && dist.Keys == visited && dist[start] == 0
    && parent.Keys == visited - {start}
    && (forall v {:trigger parent[v]} :: v in parent ==> parent[v] in visited && Adjacent(g, parent[v], v) && dist[v] == dist[parent[v]] + 1)
    && (forall v, w :: v in visited && Walk(g, w, start, v) ==> dist[v] <= |w| - 1)
  }

  /** The state of the search loop that the proof keeps (demo.cpp:78-89). */
  ghost predicate BfsInv(g: Graph, start: Station, stations: set<Station>, visited: set<Station>, done: set<Station>,
                         queue: seq<Station>, parent: map<Station, Station>, dist: map<Station, nat>)
  {
    && Tree(g, start, visited, parent, dist)
    && visited <= stations
    && done <= visited
    && (forall v :: v in visited && v !in done ==> v in queue)
    && (forall i :: 0 <= i < |queue| ==> queue[i] in visited)
    && (forall i, j :: 0 <= i <= j < |queue| ==> dist[queue[i]] <= dist[queue[j]])
    && (forall i :: 0 <= i < |queue| ==> dist[queue[i]] <= dist[queue[0]] + 1)
    && (forall p, v :: p in done && Adjacent(g, p, v) ==> v in visited)
  }

  /** Stations found from `curr` are at least one hop further than `curr` on every walk. */
  lemma FoundAreFar(g: Graph, start: Station, stations: set<Station>, visited0: set<Station>, done: set<Station>,
                    queue0: seq<Station>, parent0: map<Station, Station>, dist0: map<Station, nat>, v: Station, w: seq<Station>)
    requires BfsInv(g, start, stations, visited0, done, queue0, parent0, dist0)
    requires queue0 != [] && v !in visited0 && Walk(g, w, start, v)
    ensures dist0[queue0[0]] + 1 <= |w| - 1
  {
    WalkPrefix(g, w, start, v);
    var y := w[|w| - 2];
    assert y !in done;
    Frontier(g, start, visited0, done, queue0, dist0, w[..|w| - 1], y);
  }

  /** The queue after one expansion is still ordered by level, spanning at most two levels. */
  lemma QueueOrdered(queue0: seq<Station>, queue: seq<Station>, found: set<Station>, dist0: map<Station, nat>, dist: map<Station, nat>)
    requires queue0 != [] && queue0[0] in dist0
    requires forall i :: 0 <= i < |queue0| ==> queue0[i] in dist0
    requires forall i, j :: 0 <= i <= j < |queue0| ==> dist0[queue0[i]] <= dist0[queue0[j]]
    requires forall i :: 0 <= i < |queue0| ==> dist0[queue0[i]] <= dist0[queue0[0]] + 1
    requires |queue| >= |queue0| - 1 && queue[..|queue0| - 1] == queue0[1..]
    requires forall i :: |queue0| - 1 <= i < |queue| ==> queue[i] in found
    requires forall v :: v in dist0 ==> v in dist && dist[v] == dist0[v]
    requires forall v :: v in found ==> v in dist && dist[v] == dist0[queue0[0]] + 1
    ensures forall i :: 0 <= i < |queue| ==> queue[i] in dist
    ensures forall i, j :: 0 <= i <= j < |queue| ==> dist[queue[i]] <= dist[queue[j]]
    ensures forall i :: 0 <= i < |queue| ==> dist[queue[i]] <= dist[queue[0]] + 1
  {
    var n := |queue0| - 1;
    assert forall i :: 0 <= i < n ==> queue[i] == queue0[i + 1] by {
      forall i | 0 <= i < n ensures queue[i] == queue0[i + 1] {
        assert queue[..n][i] == queue0[1..][i];
      }
    }
  }

  /** The search tree grows by the stations found from `curr`, each one level below it. */
  lemma TreeGrows(g: Graph, start: Station, visited0: set<Station>, parent0: map<Station, Station>, dist0: map<Station, nat>,
                  curr: Station, visited: set<Station>, parent: map<Station, Station>, dist: map<Station, nat>)
    requires Tree(g, start, visited0, parent0, dist0)
    requires curr in visited0 && visited0 <= visited
    requires parent.Keys == parent0.Keys + (visited - visited0)
    requires forall v :: v in visited - visited0 ==> parent[v] == curr && Adjacent(g, curr, v)
    requires forall v :: v in parent0 && v !in visited - visited0 ==> parent[v] == parent0[v]
    requires dist.Keys == visited
    requires forall v :: v in visited0 ==> dist[v] == dist0[v]
    requires forall v :: v in visited - visited0 ==> dist[v] == dist0[curr] + 1
    requires forall v, w :: v in visited - visited0 && Walk(g, w, start, v) ==> dist0[curr] + 1 <= |w| - 1
    ensures Tree(g, start, visited, parent, dist)
  {
    forall v | v in parent ensures parent[v] in visited && Adjacent(g, parent[v], v) && dist[v] == dist[parent[v]] + 1 {
      if v !in visited - visited0 {
        assert v in parent0 && parent[v] == parent0[v];
      }
    }
    forall v, w | v in visited && Walk(g, w, start, v) ensures dist[v] <= |w| - 1 {
      if v in visited0 {
        assert dist[v] == dist0[v];
      }
    }
  }

  /** Every visited station not yet expanded is still queued after `queue0[0]` is expanded. */
  lemma PendingQueued(visited0: set<Station>, visited: set<Station>, done: set<Station>, queue0: seq<Station>, queue: seq<Station>)
    requires queue0 != []
    requires forall v :: v in visited0 && v !in done ==> v in queue0
    requires |queue| >= |queue0| - 1 && queue[..|queue0| - 1] == queue0[1..]
    requires forall v :: v in visited - visited0 ==> v in queue[|queue0| - 1..]
    ensures forall v :: v in visited && v !in done + {queue0[0]} ==> v in queue
  {
    var n := |queue0| - 1;
    forall v | v in visited && v !in done + {queue0[0]} ensures v in queue {
      if v in visited0 {
        var k :| 0 <= k < |queue0| && queue0[k] == v;
        assert queue0[1..][k - 1] == v;
        assert queue[..n][k - 1] == v;
      } else {
        assert v in visited - visited0;
        var k :| 0 <= k < |queue[n..]| && queue[n..][k] == v;
        assert queue[n + k] == v;
      }
    }
  }

  /** One expansion of `curr` keeps the loop state. */
  lemma BfsStep(g: Graph, start: Station, stations: set<Station>, visited0: set<Station>, done: set<Station>,
                queue0: seq<Station>, parent0: map<Station, Station>, dist0: map<Station, nat>,
                visited: set<Station>, parent: map<Station, Station>, queue: seq<Station>, dist: map<Station, nat>)
    requires BfsInv(g, start, stations, visited0, done, queue0, parent0, dist0)
    requires stations == Stations(g) + {start}
    requires queue0 != []
    requires var es := Neighbors(g, queue0[0]);
      && visited == visited0 + Targets(es)
      && parent.Keys == parent0.Keys + (visited - visited0)
      && (forall v :: v in visited - visited0 ==> parent[v] == queue0[0])
      && (forall v :: v in parent0 && v !in visited - visited0 ==> parent[v] == parent0[v])
      && |queue| >= |queue0| - 1 && queue[..|queue0| - 1] == queue0[1..]
      && (forall i :: |queue0| - 1 <= i < |queue| ==> queue[i] in visited - visited0)
      && (forall v :: v in visited - visited0 ==> v in queue[|queue0| - 1..])
    requires dist.Keys == visited
    requires forall v :: v in visited0 ==> dist[v] == dist0[v]
    requires forall v :: v in visited - visited0 ==> dist[v] == dist0[queue0[0]] + 1
    ensures BfsInv(g, start, stations, visited, done + {queue0[0]}, queue, parent, dist)
  {
    var curr := queue0[0];
    var es := Neighbors(g, curr);
    var found := visited - visited0;
    forall v, w | v in found && Walk(g, w, start, v) ensures dist0[curr] + 1 <= |w| - 1 {
      FoundAreFar(g, start, stations, visited0, done, queue0, parent0, dist0, v, w);
    }
    forall v | v in found ensures Adjacent(g, curr, v) && v in stations {
      var k :| 0 <= k < |es| && es[k].to == v;
      assert curr in g && g[curr][k].to == v;
    }
    forall p, v | p in done + {curr} && Adjacent(g, p, v) ensures v in visited {
      if p == curr {
        var k :| 0 <= k < |es| && es[k].to == v;
      }
    }
    TreeGrows(g, start, visited0, parent0, dist0, curr, visited, parent, dist);
    PendingQueued(visited0, visited, done, queue0, queue);
    QueueOrdered(queue0, queue, found, dist0, dist);
  }

  /**
   * One round of the outer loop (demo.cpp:79-88) after the head `queue0[0]`
   * turned out not to be the destination: it is popped and its connections
   * are scanned. The loop state is kept with the head now expanded; either a
   * new station was seen or nothing was found and the queue got shorter.
   */
  method Expand(g: Graph, start: Station, ghost stations: set<Station>, visited0: set<Station>, ghost done: set<Station>,
                queue0: seq<Station>, parent0: map<Station, Station>, ghost dist0: map<Station, nat>)
    returns (visited: set<Station>, parent: map<Station, Station>, queue: seq<Station>, ghost dist: map<Station, nat>)
    requires BfsInv(g, start, stations, visited0, done, queue0, parent0, dist0)
    requires stations == Stations(g) + {start}
    requires queue0 != []
    ensures BfsInv(g, start, stations, visited, done + {queue0[0]}, queue, parent, dist)
    ensures visited0 < visited || (visited == visited0 && |queue| < |queue0|)
    ensures visited == visited0 + Targets(Neighbors(g, queue0[0]))
    ensures |queue| >= |queue0| - 1 && queue[..|queue0| - 1] == queue0[1..]
    ensures forall v :: v in visited - visited0 ==> parent[v] == queue0[0]
    ensures forall v :: v in parent0 ==> v in parent && parent[v] == parent0[v]
  {
    var curr := queue0[0];
    visited, parent, queue := VisitNeighbors(Neighbors(g, curr), curr, visited0, parent0, queue0[1..]);
    dist := dist0 + map v | v in visited - visited0 :: dist0[curr] + 1;
    BfsStep(g, start, stations, visited0, done, queue0, parent0, dist0, visited, parent, queue, dist);
  }

  /** The search starts with only `start` seen, at level 0, and queued. */
  lemma InitialState(g: Graph, start: Station)
    ensures BfsInv(g, start, Stations(g) + {start}, {start}, {}, [start], map[], map[start := 0])
  {
    assert Walk(g, [start], start, start);
  }

  /** Once the queue is empty every station reachable from `start` has been visited. */
  lemma Exhausted(g: Graph, start: Station, stations: set<Station>, visited: set<Station>, done: set<Station>,
                  parent: map<Station, Station>, dist: map<Station, nat>, end: Station)
    requires BfsInv(g, start, stations, visited, done, [], parent, dist)
    ensures Reachable(g, start, end) ==> end in visited
  {
    if Reachable(g, start, end) {
      var w :| Walk(g, w, start, end);
      assert forall v :: v in visited ==> v in done;
      ClosedSetHoldsWalk(g, visited, w, start, end);
    }
  }

  /** Levels rank the predecessor links, so the parent walk terminates. */
  lemma TreeRanked(g: Graph, start: Station, visited: set<Station>, parent: map<Station, Station>, dist: map<Station, nat>)
    requires Tree(g, start, visited, parent, dist)
    ensures ParentsRanked(parent, start, dist)
  {
  }

  /** What the parent walk yields from the final search state. */
  lemma Conclude(g: Graph, start: Station, end: Station, visited: set<Station>,
                 parent: map<Station, Station>, dist: map<Station, nat>, path: seq<Station>)
    requires Tree(g, start, visited, parent, dist)
    requires Reachable(g, start, end) ==> end in visited
    requires start == end ==> path == [start]
    requires path != [] ==> path[0] == start && path[|path| - 1] == end && Chain(parent, path)
    requires end != start && end !in parent ==> path == []
    requires ParentsClosed(parent, start) && (end == start || end in parent) ==> path != []
    ensures path == [] || Walk(g, path, start, end)
    ensures path != [] <==> Reachable(g, start, end)
    ensures path != [] ==> forall w :: Walk(g, w, start, end) ==> |path| <= |w|
  {
    assert ParentsClosed(parent, start);
    if path != [] {
      ChainIsWalk(g, parent, path, start, end);
      ChainLevels(parent, dist, path, start);
      assert end in visited;
    }
  }

  /**
   * Breadth-first search from `start`, stopping once `end` leaves the queue,
   * followed by the parent walk. The result is empty exactly when `end` is
   * unreachable; otherwise it is a walk from `start` to `end` with no more
   * stations than any other such walk, and it is `[start]` when `start == end`.
   */
  method BfsLeastStops(g: Graph, start: Station, end: Station) returns (path: seq<Station>)
    ensures path == [] || Walk(g, path, start, end)
    ensures start == end ==> path == [start]
    ensures path != [] <==> Reachable(g, start, end)
    ensures path != [] ==> forall w :: Walk(g, w, start, end) ==> |path| <= |w|
  {
    var parent: map<Station, Station> := map[];
    var visited: set<Station> := {start};
    var queue: seq<Station> := [start];
    ghost var done: set<Station> := {};
    ghost var dist: map<Station, nat> := map[start := 0];
    ghost var stations := Stations(g) + {start};
    InitialState(g, start);
    while queue != []
      invariant BfsInv(g, start, stations, visited, done, queue, parent, dist)
      decreases |stations - visited|, |queue|
    {
      var curr := queue[0];
      if curr == end {
        break;
      }
      ghost var visited0 := visited;
      visited, parent, queue, dist := Expand(g, start, stations, visited, done, queue, parent, dist);
      done := done + {curr};
      if visited0 < visited {
        UnseenShrinks(stations, visited0, visited);
      }
    }
    if queue == [] {
      Exhausted(g, start, stations, visited, done, parent, dist, end);
    }
    TreeRanked(g, start, visited, parent, dist);
    path := Reconstruct(parent, start, end, dist);
    Conclude(g, start, end, visited, parent, dist, path);
  }
}
