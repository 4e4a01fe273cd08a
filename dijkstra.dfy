/** `dijkstra` (demo.cpp:106-148): the route of least total time or cost. */
module WeightedSearch {
  import opened Wrappers
  import opened MetroGraph
  import opened PathReconstruction

  /** A tentative cost: `numeric_limits<int>::max()` is `Infinity`, anything else is finite. */
  datatype Dist = Infinity | Finite(value: int)

  /**
   * `cost[v]` on an `unordered_map<string, int>`: a station the map does not
   * hold reads as 0, the value `operator[]` default-constructs.
   */
  function Lookup(cost: map<Station, Dist>, v: Station): Dist
  {
    if v in cost then cost[v] else Finite(0)
  }

  /** The strict test `c < d` of the relaxation, with every finite `c` below `Infinity`. */
  predicate Below(c: int, d: Dist)
  {
    d.Infinity? || c < d.value
  }

  /** No connection of `es` would lower a cost when leaving with cost `base`. */
  predicate Relaxed(es: seq<Edge>, base: int, criteria: string, cost: map<Station, Dist>)
  {
    forall i :: 0 <= i < |es| ==> !Below(base + Weight(es[i], criteria), Lookup(cost, es[i].to))
  }

  /** A priority-queue entry: the cost it was pushed with and the station. */
  type Entry = (int, Station)

  /** `top` is an entry of `pq` whose cost no other entry undercuts, as `pq.top()` returns. */
  predicate IsMin(pq: multiset<Entry>, top: Entry)
  {
    top in pq && forall p :: p in pq ==> top.0 <= p.0
  }

  /** A non-empty queue has a least entry. */
  lemma {:induction false} MinExists(pq: multiset<Entry>)
    requires pq != multiset{}
    ensures exists top :: IsMin(pq, top)
    decreases |pq|
  {
    var x :| x in pq;
    var rest := pq - multiset{x};
    assert pq == rest + multiset{x};
    if rest == multiset{} {
      assert IsMin(pq, x);
    } else {
      MinExists(rest);
      var m :| IsMin(rest, m);
      if m.0 <= x.0 {
        assert IsMin(pq, m);
      } else {
        assert IsMin(pq, x);
      }
    }
  }

  /** Lowered costs are finite, strictly lower, pushed, and come from `curr` through connection `via[v]`. */
  ghost predicate Lowered(es: seq<Edge>, n: nat, curr: Station, base: int, criteria: string, cost: map<Station, Dist>,
                          cost': map<Station, Dist>, parent': map<Station, Station>, pq': multiset<Entry>, via: map<Station, nat>)
    requires n <= |es|
  {
    && cost'.Keys == cost.Keys && curr in cost && cost'[curr] == cost[curr]
    && (forall v :: v in cost && cost'[v] != cost[v] ==>
         && cost'[v].Finite? && Below(cost'[v].value, cost[v])
         && v in parent' && parent'[v] == curr && (cost'[v].value, v) in pq'
         && v in via && via[v] < n && es[via[v]].to == v && cost'[v].value == base + Weight(es[via[v]], criteria))
  }

  /** A predecessor appears or changes only where the cost was lowered. */
  ghost predicate ParentsKept(cost: map<Station, Dist>, parent: map<Station, Station>,
                              cost': map<Station, Dist>, parent': map<Station, Station>)
  {
    && (forall v :: v in parent' ==> v in parent || (v in cost && v in cost' && cost'[v] != cost[v]))
    && (forall v :: v in parent && (v !in cost || v !in cost' || cost'[v] == cost[v]) ==> v in parent' && parent'[v] == parent[v])
  }

  /** New queue entries name a station with a finite cost no higher than the entry's, and no lower than `base`. */
  ghost predicate Pushed(curr: Station, base: int, cost: map<Station, Dist>, pq: multiset<Entry>,
                         cost': map<Station, Dist>, pq': multiset<Entry>)
  {
    forall p :: p in pq' - pq ==> p.1 in cost' && cost'[p.1].Finite? && cost'[p.1].value <= p.0 && base <= p.0
  }

  /**
   * Every new queue entry belongs to a station whose cost was lowered, and
   * records what one connection of `es` offers it from `base`.
   */
  ghost predicate PushedFrom(es: seq<Edge>, base: int, criteria: string, cost: map<Station, Dist>, pq: multiset<Entry>,
                             cost': map<Station, Dist>, pq': multiset<Entry>)
  {
    forall p :: p in pq' - pq ==>
      && p.1 in cost && p.1 in cost' && cost'[p.1] != cost[p.1]
      && exists i :: 0 <= i < |es| && es[i].to == p.1 && p.0 == base + Weight(es[i], criteria)
  }

  /** A connection that does not improve its destination extends the relaxed prefix by one. */
  lemma SkipRelaxed(es: seq<Edge>, n: nat, base: int, criteria: string, cost': map<Station, Dist>)
    requires n < |es|
    requires Relaxed(es[..n], base, criteria, cost')
    requires !Below(base + Weight(es[n], criteria), Lookup(cost', es[n].to))
    ensures Relaxed(es[..n + 1], base, criteria, cost')
  {
    assert es[..n + 1] == es[..n] + [es[n]];
  }

  /** Lowering the cost of `es[n].to` to `c` through `es[n]` keeps the lowered-cost facts. */
  lemma TakeLowered(es: seq<Edge>, n: nat, curr: Station, base: int, criteria: string, cost: map<Station, Dist>,
                    cost': map<Station, Dist>, parent': map<Station, Station>, pq': multiset<Entry>, via: map<Station, nat>,
                    cost'': map<Station, Dist>, parent'': map<Station, Station>, pq'': multiset<Entry>, via': map<Station, nat>)
    requires n < |es| && Weight(es[n], criteria) >= 0
    requires Lowered(es, n, curr, base, criteria, cost, cost', parent', pq', via)
    requires es[n].to in cost && es[n].to != curr
    requires Below(base + Weight(es[n], criteria), cost'[es[n].to])
    requires cost'' == cost'[es[n].to := Finite(base + Weight(es[n], criteria))]
    requires parent'' == parent'[es[n].to := curr]
    requires pq'' == pq' + multiset{(base + Weight(es[n], criteria), es[n].to)}
    requires via' == via[es[n].to := n]
    ensures Lowered(es, n + 1, curr, base, criteria, cost, cost'', parent'', pq'', via')
  {
  }

  /** A predecessor set together with a strictly lowered cost keeps predecessors in step with costs. */
  lemma TakeParents(cost: map<Station, Dist>, parent: map<Station, Station>, cost': map<Station, Dist>, parent': map<Station, Station>,
                    v: Station, d: Dist, curr: Station)
    requires ParentsKept(cost, parent, cost', parent')
    requires v in cost && d != cost[v]
    ensures ParentsKept(cost, parent, cost'[v := d], parent'[v := curr])
  {
  }

  /** Pushing an entry that records the new cost keeps the property of pushed entries. */
  lemma TakePushed(curr: Station, base: int, cost: map<Station, Dist>, pq: multiset<Entry>,
                   cost': map<Station, Dist>, pq': multiset<Entry>, v: Station, c: int)
    requires Pushed(curr, base, cost, pq, cost', pq') && pq <= pq'
    requires base <= c && v in cost' && Below(c, cost'[v])
    ensures Pushed(curr, base, cost, pq, cost'[v := Finite(c)], pq' + multiset{(c, v)})
  {
    var cost'', pq'' := cost'[v := Finite(c)], pq' + multiset{(c, v)};
    forall p | p in pq'' - pq ensures p.1 in cost'' && cost''[p.1].Finite? && cost''[p.1].value <= p.0 && base <= p.0 {
      if p != (c, v) {
        assert p in pq' - pq;
        if p.1 == v {
          assert cost'[v].value <= p.0;
        }
      }
    }
  }

  /** Pushing the entry for a cost lowered through `es[n]` keeps every new entry accounted for. */
  lemma TakePushedFrom(es: seq<Edge>, n: nat, base: int, criteria: string, cost: map<Station, Dist>, pq: multiset<Entry>,
                       cost': map<Station, Dist>, pq': multiset<Entry>, c: int)
    requires n < |es| && c == base + Weight(es[n], criteria)
    requires PushedFrom(es, base, criteria, cost, pq, cost', pq') && pq <= pq'
    requires es[n].to in cost && es[n].to in cost' && Finite(c) != cost[es[n].to]
    ensures PushedFrom(es, base, criteria, cost, pq, cost'[es[n].to := Finite(c)], pq' + multiset{(c, es[n].to)})
  {
    var v := es[n].to;
    var cost'', pq'' := cost'[v := Finite(c)], pq' + multiset{(c, v)};
    forall p | p in pq'' - pq
      ensures && p.1 in cost && p.1 in cost'' && cost''[p.1] != cost[p.1]
              && exists i :: 0 <= i < |es| && es[i].to == p.1 && p.0 == base + Weight(es[i], criteria)
    {
      if p == (c, v) {
        assert es[n].to == p.1 && p.0 == base + Weight(es[n], criteria);
      } else {
        assert p in pq' - pq;
      }
    }
  }

  /** Lowering one cost to exactly what `es[n]` offers extends the relaxed prefix by one. */
  lemma TakeRelaxed(es: seq<Edge>, n: nat, base: int, criteria: string, cost': map<Station, Dist>, c: int)
    requires n < |es| && c == base + Weight(es[n], criteria)
    requires Relaxed(es[..n], base, criteria, cost')
    requires es[n].to in cost' && Below(c, cost'[es[n].to])
    ensures Relaxed(es[..n + 1], base, criteria, cost'[es[n].to := Finite(c)])
  {
    var v := es[n].to;
    var cost'' := cost'[v := Finite(c)];
    var prefix := es[..n + 1];
    forall i | 0 <= i < n + 1 ensures !Below(base + Weight(prefix[i], criteria), Lookup(cost'', prefix[i].to)) {
      if i < n {
        assert prefix[i] == es[..n][i];
        assert !Below(base + Weight(es[..n][i], criteria), Lookup(cost', es[..n][i].to));
      }
    }
  }

  /**
   * The inner loop of the search (demo.cpp:125-132): each connection of
   * `curr` whose destination it reaches more cheaply than recorded lowers that
   * cost, makes `curr` the predecessor and pushes the new cost. Costs only go
   * down, a predecessor changes only with a strict improvement, and every
   * connection is relaxed afterwards; when all of them were relaxed already
   * nothing changes, which is why a popped entry that is out of date is
   * harmless.
   */
  method RelaxEdges(es: seq<Edge>, curr: Station, criteria: string,
                    cost: map<Station, Dist>, parent: map<Station, Station>, pq: multiset<Entry>)
    returns (cost': map<Station, Dist>, parent': map<Station, Station>, pq': multiset<Entry>, ghost via: map<Station, nat>)
    requires curr in cost && cost[curr].Finite? && cost[curr].value >= 0
    requires forall i :: 0 <= i < |es| ==> Weight(es[i], criteria) >= 0
    ensures Lowered(es, |es|, curr, cost[curr].value, criteria, cost, cost', parent', pq', via)
    ensures ParentsKept(cost, parent, cost', parent')
    ensures pq <= pq' && Pushed(curr, cost[curr].value, cost, pq, cost', pq')
    ensures PushedFrom(es, cost[curr].value, criteria, cost, pq, cost', pq')
    ensures Relaxed(es, cost[curr].value, criteria, cost')
    ensures Relaxed(es, cost[curr].value, criteria, cost) ==> cost' == cost && parent' == parent && pq' == pq
  {
    cost', parent', pq', via := cost, parent, pq, map[];
    var base := cost[curr].value;
    for i := 0 to |es|
      invariant Lowered(es, i, curr, base, criteria, cost, cost', parent', pq', via)
      invariant ParentsKept(cost, parent, cost', parent')
      invariant pq <= pq' && Pushed(curr, base, cost, pq, cost', pq')
      invariant PushedFrom(es, base, criteria, cost, pq, cost', pq')
      invariant Relaxed(es[..i], base, criteria, cost')
      invariant Relaxed(es, base, criteria, cost) ==> cost' == cost && parent' == parent && pq' == pq
    {
      var edge := es[i];
      var c := base + Weight(edge, criteria);
      if Below(c, Lookup(cost', edge.to)) {
        assert edge.to in cost && edge.to != curr;
        assert Relaxed(es, base, criteria, cost) ==> !Below(c, Lookup(cost, edge.to));
        assert Finite(c) != cost[edge.to];
        ghost var cost0, parent0, pq0, via0 := cost', parent', pq', via;
        cost' := cost'[edge.to := Finite(c)];
        parent' := parent'[edge.to := curr];
        pq' := pq' + multiset{(c, edge.to)};
        via := via[edge.to := i];
        TakeLowered(es, i, curr, base, criteria, cost, cost0, parent0, pq0, via0, cost', parent', pq', via);
        TakeParents(cost, parent, cost0, parent0, edge.to, Finite(c), curr);
        TakePushed(curr, base, cost, pq, cost0, pq0, edge.to, c);
        TakePushedFrom(es, i, base, criteria, cost, pq, cost0, pq0, c);
        TakeRelaxed(es, i, base, criteria, cost0, c);
      } else {
        SkipRelaxed(es, i, base, criteria, cost');
      }
    }
    assert es[..|es|] == es;
  }

  /**
   * `cost[entry.first] = numeric_limits<int>::max()` for every station that
   * has an adjacency entry (demo.cpp:112-115).
   */
  method InitCosts(g: Graph) returns (cost: map<Station, Dist>)
    ensures cost.Keys == g.Keys
    ensures forall v :: v in cost ==> cost[v] == Infinity
  {
    cost := map[];
    var left := g.Keys;
    while left != {}
      invariant left <= g.Keys && cost.Keys == g.Keys - left
      invariant forall v :: v in cost ==> cost[v] == Infinity
      decreases |left|
    {
      var v :| v in left;
      cost := cost[v := Infinity];
      left := left - {v};
    }
  }

  /** Every station keeps a cost, the source costs 0, and finite costs are at least zero. */
  ghost predicate CostsSound(g: Graph, start: Station, cost: map<Station, Dist>)
  {
    && cost.Keys == g.Keys + {start}
    && cost[start] == Finite(0)
    && (forall v :: v in cost && cost[v].Finite? ==> cost[v].value >= 0)
  }

  /** Settled stations have costs, and they are finite. */
  ghost predicate SettledFinite(cost: map<Station, Dist>, settled: set<Station>)
  {
    settled <= cost.Keys && forall v :: v in settled ==> cost[v].Finite?
  }

  /** Settled stations have finite costs no more than the weight of any walk to them. */
  ghost predicate SettledOptimal(g: Graph, criteria: string, start: Station, cost: map<Station, Dist>, settled: set<Station>)
  {
    && SettledFinite(cost, settled)
    && (forall v, w :: v in settled && Walk(g, w, start, v) ==> cost[v].value <= WalkWeight(g, w, criteria))
  }

  /**
   * A station other than the source with a finite cost has a predecessor;
   * every predecessor is settled, connects to the station, and its cost plus
   * the hop is no more than the station's cost.
   */
  ghost predicate ParentsSound(g: Graph, criteria: string, start: Station, cost: map<Station, Dist>,
                               parent: map<Station, Station>, settled: set<Station>)
    requires SettledFinite(cost, settled)
  {
    && (forall v :: v in cost && v != start && cost[v].Finite? ==> v in parent)
    && (forall v {:trigger parent[v]} :: v in parent ==>
         && v in cost && v != start && cost[v].Finite? && parent[v] in settled && Adjacent(g, parent[v], v)
         && cost[parent[v]].value + Hop(g, parent[v], v, criteria) <= cost[v].value)
  }

  /** `rank` numbers the settled stations by first pop; a settled station was popped after its predecessor. */
  ghost predicate RanksSound(parent: map<Station, Station>, settled: set<Station>, rank: map<Station, nat>)
  {
    && rank.Keys == settled
    && (forall v :: v in settled ==> rank[v] < |settled|)
    && (forall v {:trigger parent[v]} :: v in parent && v in settled ==> parent[v] in rank && rank[parent[v]] < rank[v])
  }

  /** The search state apart from the queue; `settled` holds the stations popped so far. */
  ghost predicate Found(g: Graph, criteria: string, start: Station, cost: map<Station, Dist>, parent: map<Station, Station>,
                        settled: set<Station>, rank: map<Station, nat>)
  {
    && CostsSound(g, start, cost)
    && SettledOptimal(g, criteria, start, cost, settled)
    && ParentsSound(g, criteria, start, cost, parent, settled)
    && RanksSound(parent, settled, rank)
  }

  /** Queue entries record a finite cost no lower than the station's current one. */
  ghost predicate QueueSound(cost: map<Station, Dist>, pq: multiset<Entry>)
  {
    forall p :: p in pq ==> p.1 in cost && cost[p.1].Finite? && cost[p.1].value <= p.0
  }

  /** Every unsettled station with a finite cost is queued with exactly that cost. */
  ghost predicate QueueComplete(cost: map<Station, Dist>, pq: multiset<Entry>, settled: set<Station>)
  {
    forall v :: v in cost && v !in settled && cost[v].Finite? ==> (cost[v].value, v) in pq
  }

  /** Settled costs are no more than any queued cost. */
  ghost predicate SettledFirst(cost: map<Station, Dist>, pq: multiset<Entry>, settled: set<Station>)
    requires SettledFinite(cost, settled)
  {
    forall v, p :: v in settled && p in pq ==> cost[v].value <= p.0
  }

  /** The connections of every settled station other than `except` are relaxed. */
  ghost predicate SettledRelaxed(g: Graph, criteria: string, cost: map<Station, Dist>, settled: set<Station>, except: Option<Station>)
    requires SettledFinite(cost, settled)
  {
    forall u :: u in settled && except != Some(u) ==> Relaxed(Neighbors(g, u), cost[u].value, criteria, cost)
  }

  /** The state the outer loop keeps (demo.cpp:118-133). */
  ghost predicate SearchInv(g: Graph, criteria: string, start: Station, cost: map<Station, Dist>, parent: map<Station, Station>,
                            pq: multiset<Entry>, settled: set<Station>, rank: map<Station, nat>)
  {
    && Found(g, criteria, start, cost, parent, settled, rank)
    && QueueSound(cost, pq)
    && QueueComplete(cost, pq, settled)
    && SettledFirst(cost, pq, settled)
    && SettledRelaxed(g, criteria, cost, settled, None)
  }

  /** The search starts with every station at `Infinity` except the source at 0, which is queued. */
  lemma InitialState(g: Graph, criteria: string, start: Station, cost: map<Station, Dist>)
    requires cost.Keys == g.Keys + {start} && cost[start] == Finite(0)
    requires forall v :: v in cost && v != start ==> cost[v] == Infinity
    ensures SearchInv(g, criteria, start, cost, map[], multiset{(0, start)}, {}, map[])
  {
  }

  /**
   * The frontier argument: a walk from the source to a station that has a
   * cost but is not settled weighs at least as much as some queued entry.
   */
  lemma {:induction false} Frontier(g: Graph, criteria: string, start: Station, cost: map<Station, Dist>,
                                    pq: multiset<Entry>, settled: set<Station>, w: seq<Station>, x: Station)
    requires NonNegative(g, criteria)
    requires CostsSound(g, start, cost) && SettledOptimal(g, criteria, start, cost, settled)
    requires QueueComplete(cost, pq, settled) && SettledRelaxed(g, criteria, cost, settled, None)
    requires x in cost && Walk(g, w, start, x)
    ensures x in settled || exists p :: p in pq && p.0 <= WalkWeight(g, w, criteria)
    decreases |w|
  {
    if x !in settled {
      if |w| == 1 {
        assert (cost[start].value, start) in pq;
      } else {
        WalkPrefix(g, w, start, x);
        var y := w[|w| - 2];
        var prefix := w[..|w| - 1];
        AdjacentFromKey(g, y, x);
        HopNonNegative(g, y, x, criteria);
        if y in settled {
          HopAttained(g, y, x, criteria);
          var i :| 0 <= i < |Neighbors(g, y)| && Neighbors(g, y)[i].to == x
                   && Weight(Neighbors(g, y)[i], criteria) == Hop(g, y, x, criteria);
          assert Relaxed(Neighbors(g, y), cost[y].value, criteria, cost);
          assert !Below(cost[y].value + Hop(g, y, x, criteria), Lookup(cost, x));
          assert cost[y].value <= WalkWeight(g, prefix, criteria);
          assert (cost[x].value, x) in pq;
        } else {
          Frontier(g, criteria, start, cost, pq, settled, prefix, y);
        }
      }
    }
  }

  /**
   * Popping the least entry settles its station (demo.cpp:119-121): if it
   * was not settled before, the popped cost is its cost and no walk to it
   * weighs less.
   */
  lemma PoppedOptimal(g: Graph, criteria: string, start: Station, cost: map<Station, Dist>,
                      pq0: multiset<Entry>, settled0: set<Station>, top: Entry)
    requires NonNegative(g, criteria)
    requires CostsSound(g, start, cost) && SettledOptimal(g, criteria, start, cost, settled0)
    requires QueueSound(cost, pq0) && QueueComplete(cost, pq0, settled0) && SettledRelaxed(g, criteria, cost, settled0, None)
    requires IsMin(pq0, top)
    ensures SettledOptimal(g, criteria, start, cost, settled0 + {top.1})
    ensures top.1 !in settled0 ==> cost[top.1] == Finite(top.0)
  {
    var curr := top.1;
    if curr !in settled0 {
      assert (cost[curr].value, curr) in pq0;
      forall w | Walk(g, w, start, curr) ensures cost[curr].value <= WalkWeight(g, w, criteria) {
        Frontier(g, criteria, start, cost, pq0, settled0, w, curr);
      }
    }
  }

  /** Predecessors stay settled when one more station is settled. */
  lemma PoppedParents(g: Graph, criteria: string, start: Station, cost: map<Station, Dist>, parent: map<Station, Station>,
                      settled0: set<Station>, settled: set<Station>)
    requires SettledFinite(cost, settled0) && SettledFinite(cost, settled) && settled0 <= settled
    requires ParentsSound(g, criteria, start, cost, parent, settled0)
    ensures ParentsSound(g, criteria, start, cost, parent, settled)
  {
  }

  /** Settling a station for the first time ranks it after every station settled before. */
  lemma PoppedRanks(parent: map<Station, Station>, settled0: set<Station>, rank0: map<Station, nat>,
                    curr: Station, settled: set<Station>, rank: map<Station, nat>)
    requires RanksSound(parent, settled0, rank0)
    requires forall v {:trigger parent[v]} :: v in parent ==> parent[v] in settled0
    requires settled == settled0 + {curr}
    requires rank == if curr in settled0 then rank0 else rank0[curr := |settled0|]
    ensures RanksSound(parent, settled, rank)
  {
    if curr !in settled0 {
      assert |settled| == |settled0| + 1;
    } else {
      assert settled == settled0;
    }
  }

  /** After the pop the queue facts keep, and the popped station's connections are relaxed if it was settled before. */
  lemma PoppedQueue(g: Graph, criteria: string, start: Station, cost: map<Station, Dist>,
                    pq0: multiset<Entry>, settled0: set<Station>, top: Entry, pq: multiset<Entry>, settled: set<Station>)
    requires SettledFinite(cost, settled0) && SettledFinite(cost, settled)
    requires QueueSound(cost, pq0) && QueueComplete(cost, pq0, settled0) && SettledFirst(cost, pq0, settled0)
    requires SettledRelaxed(g, criteria, cost, settled0, None)
    requires IsMin(pq0, top) && pq == pq0 - multiset{top}
    requires settled == settled0 + {top.1}
    requires top.1 !in settled0 ==> cost[top.1] == Finite(top.0)
    ensures QueueSound(cost, pq) && QueueComplete(cost, pq, settled) && SettledFirst(cost, pq, settled)
    ensures SettledRelaxed(g, criteria, cost, settled, Some(top.1))
    ensures top.1 in settled0 ==> Relaxed(Neighbors(g, top.1), cost[top.1].value, criteria, cost)
    ensures PoppedFirst(g, criteria, cost, settled, top.1)
  {
    PoppedComplete(cost, pq0, settled0, top, pq, settled);
    PoppedSettledFirst(cost, pq0, settled0, top, pq, settled);
  }

  /** Every unsettled station with a finite cost is still queued after the pop. */
  lemma PoppedComplete(cost: map<Station, Dist>, pq0: multiset<Entry>, settled0: set<Station>,
                       top: Entry, pq: multiset<Entry>, settled: set<Station>)
    requires QueueComplete(cost, pq0, settled0)
    requires pq == pq0 - multiset{top} && settled == settled0 + {top.1}
    ensures QueueComplete(cost, pq, settled)
  {
    forall v | v in cost && v !in settled && cost[v].Finite? ensures (cost[v].value, v) in pq {
      assert (cost[v].value, v) in pq0 && (cost[v].value, v) != top;
    }
  }

  /** After the pop settled costs stay below queued ones, and a newly settled station has the highest settled cost. */
  lemma PoppedSettledFirst(cost: map<Station, Dist>, pq0: multiset<Entry>, settled0: set<Station>,
                           top: Entry, pq: multiset<Entry>, settled: set<Station>)
    requires SettledFinite(cost, settled0) && SettledFinite(cost, settled)
    requires SettledFirst(cost, pq0, settled0)
    requires IsMin(pq0, top) && pq == pq0 - multiset{top}
    requires settled == settled0 + {top.1}
    requires top.1 !in settled0 ==> cost[top.1] == Finite(top.0)
    ensures SettledFirst(cost, pq, settled)
    ensures top.1 !in settled0 ==> forall v :: v in settled ==> cost[v].value <= cost[top.1].value
  {
    var curr := top.1;
    forall v, p | v in settled && p in pq ensures cost[v].value <= p.0 {
      assert p in pq0;
      if v == curr && curr !in settled0 {
        assert top.0 <= p.0;
      }
    }
    if curr !in settled0 {
      forall v | v in settled ensures cost[v].value <= cost[curr].value {
        if v != curr {
          assert cost[v].value <= top.0;
        }
      }
    }
  }

  /**
   * Relaxing from the popped station `curr` cannot lower a settled cost:
   * either its connections are relaxed already, or its cost is the highest
   * settled one.
   */
  ghost predicate PoppedFirst(g: Graph, criteria: string, cost: map<Station, Dist>, settled: set<Station>, curr: Station)
    requires SettledFinite(cost, settled) && curr in settled
  {
    || Relaxed(Neighbors(g, curr), cost[curr].value, criteria, cost)
    || forall v :: v in settled ==> cost[v].value <= cost[curr].value
  }

  /** The state between the pop of `curr` and the scan of its connections. */
  ghost predicate PopState(g: Graph, criteria: string, start: Station, cost: map<Station, Dist>, parent: map<Station, Station>,
                           pq: multiset<Entry>, settled: set<Station>, rank: map<Station, nat>, curr: Station)
  {
    && Found(g, criteria, start, cost, parent, settled, rank)
    && curr in settled
    && QueueSound(cost, pq)
    && QueueComplete(cost, pq, settled)
    && SettledFirst(cost, pq, settled)
    && SettledRelaxed(g, criteria, cost, settled, Some(curr))
    && PoppedFirst(g, criteria, cost, settled, curr)
  }

  /** Popping the least entry (demo.cpp:119-121) settles its station and leads to the state before the scan. */
  lemma Popped(g: Graph, criteria: string, start: Station, cost: map<Station, Dist>, parent: map<Station, Station>,
               pq0: multiset<Entry>, settled0: set<Station>, rank0: map<Station, nat>,
               top: Entry, pq: multiset<Entry>, settled: set<Station>, rank: map<Station, nat>)
    requires NonNegative(g, criteria)
    requires SearchInv(g, criteria, start, cost, parent, pq0, settled0, rank0)
    requires IsMin(pq0, top) && pq == pq0 - multiset{top}
    requires settled == settled0 + {top.1}
    requires rank == if top.1 in settled0 then rank0 else rank0[top.1 := |settled0|]
    ensures PopState(g, criteria, start, cost, parent, pq, settled, rank, top.1)
    ensures top.1 in settled0 ==> Relaxed(Neighbors(g, top.1), cost[top.1].value, criteria, cost)
  {
    PoppedOptimal(g, criteria, start, cost, pq0, settled0, top);
    PoppedParents(g, criteria, start, cost, parent, settled0, settled);
    PoppedRanks(parent, settled0, rank0, top.1, settled, rank);
    PoppedQueue(g, criteria, start, cost, pq0, settled0, top, pq, settled);
  }

  /**
   * One pop (demo.cpp:119-121): take a least entry off the queue and settle
   * its station, numbering it if it is settled for the first time.
   */
  method Pop(g: Graph, criteria: string, start: Station, cost: map<Station, Dist>, parent: map<Station, Station>,
             pq0: multiset<Entry>, ghost settled0: set<Station>, ghost rank0: map<Station, nat>)
    returns (curr: Station, pq: multiset<Entry>, ghost settled: set<Station>, ghost rank: map<Station, nat>)
    requires NonNegative(g, criteria)
    requires SearchInv(g, criteria, start, cost, parent, pq0, settled0, rank0)
    requires pq0 != multiset{}
    ensures PopState(g, criteria, start, cost, parent, pq, settled, rank, curr)
    ensures settled == settled0 + {curr} && |pq| < |pq0|
    ensures curr in settled0 ==> Relaxed(Neighbors(g, curr), cost[curr].value, criteria, cost)
    ensures exists top :: IsMin(pq0, top) && top.1 == curr && pq == pq0 - multiset{top}
  {
    MinExists(pq0);
    var top :| IsMin(pq0, top);
    curr := top.1;
    pq := pq0 - multiset{top};
    settled := settled0 + {curr};
    rank := if curr in settled0 then rank0 else rank0[curr := |settled0|];
    Popped(g, criteria, start, cost, parent, pq0, settled0, rank0, top, pq, settled, rank);
  }

  /** Relaxing from the popped station changes no settled cost. */
  lemma SettledKept(g: Graph, criteria: string, settled: set<Station>, curr: Station, es: seq<Edge>,
                    cost: map<Station, Dist>, parent: map<Station, Station>, pq: multiset<Entry>,
                    cost': map<Station, Dist>, parent': map<Station, Station>, pq': multiset<Entry>, via: map<Station, nat>)
    requires curr in settled && SettledFinite(cost, settled) && es == Neighbors(g, curr)
    requires forall i :: 0 <= i < |es| ==> Weight(es[i], criteria) >= 0
    requires PoppedFirst(g, criteria, cost, settled, curr)
    requires Lowered(es, |es|, curr, cost[curr].value, criteria, cost, cost', parent', pq', via)
    requires Relaxed(es, cost[curr].value, criteria, cost) ==> cost' == cost && parent' == parent && pq' == pq
    ensures forall v :: v in settled ==> cost'[v] == cost[v]
  {
  }

  /** Lowering costs keeps every relaxed connection relaxed. */
  lemma RelaxedMonotone(es: seq<Edge>, base: int, criteria: string, cost: map<Station, Dist>, cost': map<Station, Dist>)
    requires cost'.Keys == cost.Keys
    requires forall v :: v in cost && cost'[v] != cost[v] ==> cost'[v].Finite? && Below(cost'[v].value, cost[v])
    requires Relaxed(es, base, criteria, cost)
    ensures Relaxed(es, base, criteria, cost')
  {
    forall i | 0 <= i < |es| ensures !Below(base + Weight(es[i], criteria), Lookup(cost', es[i].to)) {
      assert !Below(base + Weight(es[i], criteria), Lookup(cost, es[i].to));
    }
  }

  /** Costs, settled costs and ranks survive relaxing the popped station's connections. */
  lemma RelaxCosts(g: Graph, criteria: string, start: Station, curr: Station, es: seq<Edge>, cost: map<Station, Dist>,
                   parent: map<Station, Station>, settled: set<Station>, rank: map<Station, nat>,
                   cost': map<Station, Dist>, parent': map<Station, Station>, pq': multiset<Entry>, via: map<Station, nat>)
    requires CostsSound(g, start, cost) && SettledOptimal(g, criteria, start, cost, settled) && RanksSound(parent, settled, rank)
    requires curr in settled && es == Neighbors(g, curr)
    requires forall i :: 0 <= i < |es| ==> Weight(es[i], criteria) >= 0
    requires Lowered(es, |es|, curr, cost[curr].value, criteria, cost, cost', parent', pq', via)
    requires ParentsKept(cost, parent, cost', parent')
    requires forall v :: v in settled ==> cost'[v] == cost[v]
    ensures CostsSound(g, start, cost') && SettledOptimal(g, criteria, start, cost', settled) && RanksSound(parent', settled, rank)
  {
    forall v {:trigger parent'[v]} | v in parent' && v in settled ensures parent'[v] in rank && rank[parent'[v]] < rank[v] {
      assert parent'[v] == parent[v];
    }
  }

  /** Predecessors stay sound after relaxing the popped station's connections. */
  lemma RelaxParents(g: Graph, criteria: string, start: Station, curr: Station, es: seq<Edge>, cost: map<Station, Dist>,
                     parent: map<Station, Station>, settled: set<Station>,
                     cost': map<Station, Dist>, parent': map<Station, Station>, pq': multiset<Entry>, via: map<Station, nat>)
    requires CostsSound(g, start, cost) && SettledFinite(cost, settled)
    requires ParentsSound(g, criteria, start, cost, parent, settled)
    requires curr in settled && es == Neighbors(g, curr)
    requires forall i :: 0 <= i < |es| ==> Weight(es[i], criteria) >= 0
    requires Lowered(es, |es|, curr, cost[curr].value, criteria, cost, cost', parent', pq', via)
    requires ParentsKept(cost, parent, cost', parent')
    requires forall v :: v in settled ==> cost'[v] == cost[v]
    requires SettledFinite(cost', settled)
    ensures ParentsSound(g, criteria, start, cost', parent', settled)
  {
    forall v | v in parent' ensures
        && v in cost' && v != start && cost'[v].Finite? && parent'[v] in settled && Adjacent(g, parent'[v], v)
        && cost'[parent'[v]].value + Hop(g, parent'[v], v, criteria) <= cost'[v].value
    {
      if v in cost && cost'[v] != cost[v] {
        HopAtMost(g, curr, via[v], criteria);
      } else {
        assert parent'[v] == parent[v];
      }
    }
  }

  /** The queue facts survive relaxing the popped station's connections. */
  lemma RelaxQueue(g: Graph, criteria: string, curr: Station, es: seq<Edge>, cost: map<Station, Dist>,
                   parent: map<Station, Station>, pq: multiset<Entry>, settled: set<Station>,
                   cost': map<Station, Dist>, parent': map<Station, Station>, pq': multiset<Entry>, via: map<Station, nat>)
    requires curr in settled && SettledFinite(cost, settled) && es == Neighbors(g, curr)
    requires QueueSound(cost, pq) && QueueComplete(cost, pq, settled) && SettledFirst(cost, pq, settled)
    requires PoppedFirst(g, criteria, cost, settled, curr)
    requires Lowered(es, |es|, curr, cost[curr].value, criteria, cost, cost', parent', pq', via)
    requires pq <= pq' && Pushed(curr, cost[curr].value, cost, pq, cost', pq')
    requires Relaxed(es, cost[curr].value, criteria, cost) ==> cost' == cost && parent' == parent && pq' == pq
    requires forall v :: v in settled ==> cost'[v] == cost[v]
    ensures QueueSound(cost', pq') && QueueComplete(cost', pq', settled) && SettledFirst(cost', pq', settled)
  {
    forall p | p in pq' ensures p.1 in cost' && cost'[p.1].Finite? && cost'[p.1].value <= p.0 {
      if p !in pq' - pq {
        assert p in pq;
      }
    }
    forall v | v in cost' && v !in settled && cost'[v].Finite? ensures (cost'[v].value, v) in pq' {
      if cost'[v] == cost[v] {
        assert (cost[v].value, v) in pq;
      }
    }
    forall v, p | v in settled && p in pq' ensures cost'[v].value <= p.0 {
      if p !in pq' - pq {
        assert p in pq;
      }
    }
  }

  /** Every settled station's connections are relaxed once the popped one's are. */
  lemma RelaxSettled(g: Graph, criteria: string, curr: Station, cost: map<Station, Dist>, settled: set<Station>,
                     cost': map<Station, Dist>)
    requires SettledFinite(cost, settled)
    requires SettledRelaxed(g, criteria, cost, settled, Some(curr))
    requires cost'.Keys == cost.Keys
    requires forall v :: v in cost && cost'[v] != cost[v] ==> cost'[v].Finite? && Below(cost'[v].value, cost[v])
    requires forall v :: v in settled ==> cost'[v] == cost[v]
    requires curr in settled && Relaxed(Neighbors(g, curr), cost[curr].value, criteria, cost')
    ensures SettledRelaxed(g, criteria, cost', settled, None)
  {
    forall u | u in settled ensures Relaxed(Neighbors(g, u), cost'[u].value, criteria, cost') {
      if u != curr {
        RelaxedMonotone(Neighbors(g, u), cost[u].value, criteria, cost, cost');
      }
    }
  }

  /**
   * One round of the outer loop after the popped station `curr` turned out
   * not to be the destination (demo.cpp:125-132): its connections are
   * relaxed, which keeps the loop state; when they were relaxed already the
   * queue is left as it was.
   */
  method Expand(g: Graph, criteria: string, start: Station, curr: Station,
                cost: map<Station, Dist>, parent: map<Station, Station>, pq: multiset<Entry>,
                ghost settled: set<Station>, ghost rank: map<Station, nat>)
    returns (cost': map<Station, Dist>, parent': map<Station, Station>, pq': multiset<Entry>)
    requires NonNegative(g, criteria)
    requires PopState(g, criteria, start, cost, parent, pq, settled, rank, curr)
    ensures SearchInv(g, criteria, start, cost', parent', pq', settled, rank)
    ensures cost'.Keys == cost.Keys
    ensures Relaxed(Neighbors(g, curr), cost[curr].value, criteria, cost) ==> cost' == cost && parent' == parent && pq' == pq
  {
    var es := Neighbors(g, curr);
    NeighborsNonNegative(g, criteria, curr);
    ghost var via;
    cost', parent', pq', via := RelaxEdges(es, curr, criteria, cost, parent, pq);
    SettledKept(g, criteria, settled, curr, es, cost, parent, pq, cost', parent', pq', via);
    RelaxCosts(g, criteria, start, curr, es, cost, parent, settled, rank, cost', parent', pq', via);
    RelaxParents(g, criteria, start, curr, es, cost, parent, settled, cost', parent', pq', via);
    RelaxQueue(g, criteria, curr, es, cost, parent, pq, settled, cost', parent', pq', via);
    RelaxSettled(g, criteria, curr, cost, settled, cost');
  }

  /** Once the queue is empty every station with a cost that is reachable from the source is settled. */
  lemma Exhausted(g: Graph, criteria: string, start: Station, cost: map<Station, Dist>, parent: map<Station, Station>,
                  settled: set<Station>, rank: map<Station, nat>)
    requires NonNegative(g, criteria)
    requires SearchInv(g, criteria, start, cost, parent, multiset{}, settled, rank)
    ensures forall x :: x in cost && Reachable(g, start, x) ==> x in settled
  {
    forall x | x in cost && Reachable(g, start, x) ensures x in settled {
      var w :| Walk(g, w, start, x);
      Frontier(g, criteria, start, cost, multiset{}, settled, w, x);
    }
  }

  /** Ranks for the parent walk: settled stations by pop order, the others after all of them. */
  function Ranks(parent: map<Station, Station>, settled: set<Station>, rank: map<Station, nat>): map<Station, nat>
  {
    map v | v in rank.Keys + parent.Keys :: if v in rank then rank[v] else |settled|
  }

  /** The predecessor links of the search are ranked and closed, so the parent walk ends at the source. */
  lemma FoundRanked(g: Graph, criteria: string, start: Station, cost: map<Station, Dist>, parent: map<Station, Station>,
                    settled: set<Station>, rank: map<Station, nat>)
    requires Found(g, criteria, start, cost, parent, settled, rank)
    ensures ParentsRanked(parent, start, Ranks(parent, settled, rank))
    ensures ParentsClosed(parent, start)
  {
  }

  /** A chain of predecessors from the source weighs no more than the cost of its last station. */
  lemma {:induction false} ChainWeight(g: Graph, criteria: string, start: Station, cost: map<Station, Dist>,
                                       parent: map<Station, Station>, settled: set<Station>, path: seq<Station>)
    requires CostsSound(g, start, cost) && SettledFinite(cost, settled) && ParentsSound(g, criteria, start, cost, parent, settled)
    requires path != [] && path[0] == start && Chain(parent, path)
    ensures path[|path| - 1] in cost && cost[path[|path| - 1]].Finite?
    ensures WalkWeight(g, path, criteria) <= cost[path[|path| - 1]].value
    decreases |path|
  {
    if |path| > 1 {
      var prefix := path[..|path| - 1];
      assert Chain(parent, prefix);
      ChainWeight(g, criteria, start, cost, parent, settled, prefix);
      var v := path[|path| - 1];
      assert parent[v] == path[|path| - 2];
    }
  }

  /** What the parent walk yields from the final search state. */
  lemma Conclude(g: Graph, criteria: string, start: Station, end: Station, cost: map<Station, Dist>,
                 parent: map<Station, Station>, settled: set<Station>, rank: map<Station, nat>, path: seq<Station>)
    requires NonNegative(g, criteria)
    requires Found(g, criteria, start, cost, parent, settled, rank)
    requires end in cost && Reachable(g, start, end) ==> end in settled
    requires start == end ==> path == [start]
    requires path != [] ==> path[0] == start && path[|path| - 1] == end && Chain(parent, path)
    requires end != start && end !in parent ==> path == []
    requires ParentsClosed(parent, start) && (end == start || end in parent) ==> path != []
    ensures path == [] || Walk(g, path, start, end)
    ensures path != [] <==> Reachable(g, start, end) && (end in g || end == start)
    ensures path != [] ==> forall w :: Walk(g, w, start, end) ==> WalkWeight(g, path, criteria) <= WalkWeight(g, w, criteria)
    ensures path != [] ==> end in cost && cost[end].Finite? && WalkWeight(g, path, criteria) == cost[end].value
  {
    FoundRanked(g, criteria, start, cost, parent, settled, rank);
    if path != [] {
      ChainIsWalk(g, parent, path, start, end);
      assert end in settled;
      ChainOptimal(g, criteria, start, end, cost, parent, settled, path);
    }
  }

  /** A chain of predecessors from the source to a settled station weighs exactly its cost, and no walk weighs less. */
  lemma ChainOptimal(g: Graph, criteria: string, start: Station, end: Station, cost: map<Station, Dist>,
                     parent: map<Station, Station>, settled: set<Station>, path: seq<Station>)
    requires CostsSound(g, start, cost) && SettledOptimal(g, criteria, start, cost, settled)
    requires ParentsSound(g, criteria, start, cost, parent, settled)
    requires path != [] && path[0] == start && path[|path| - 1] == end && Chain(parent, path)
    requires Walk(g, path, start, end) && end in settled
    ensures forall w :: Walk(g, w, start, end) ==> WalkWeight(g, path, criteria) <= WalkWeight(g, w, criteria)
    ensures end in cost && cost[end].Finite? && WalkWeight(g, path, criteria) == cost[end].value
  {
    ChainWeight(g, criteria, start, cost, parent, settled, path);
  }

  /**
   * What the search leaves for the parent walk: the tree facts hold, `end`
   * is settled if it has a cost and is reachable, and the predecessor links
   * are ranked.
   */
  ghost predicate Done(g: Graph, criteria: string, start: Station, end: Station, cost: map<Station, Dist>,
                       parent: map<Station, Station>, settled: set<Station>, rank: map<Station, nat>)
  {
    && Found(g, criteria, start, cost, parent, settled, rank)
    && (end in cost && Reachable(g, start, end) ==> end in settled)
    && ParentsRanked(parent, start, Ranks(parent, settled, rank))
  }

  /** The loop stops on popping `end`: it is settled. */
  lemma FinishReached(g: Graph, criteria: string, start: Station, end: Station, cost: map<Station, Dist>,
                      parent: map<Station, Station>, pq: multiset<Entry>, settled: set<Station>, rank: map<Station, nat>)
    requires PopState(g, criteria, start, cost, parent, pq, settled, rank, end)
    ensures Done(g, criteria, start, end, cost, parent, settled, rank)
  {
    FoundRanked(g, criteria, start, cost, parent, settled, rank);
  }

  /** The loop stops with an empty queue: every reachable station with a cost is settled. */
  lemma FinishExhausted(g: Graph, criteria: string, start: Station, end: Station, cost: map<Station, Dist>,
                        parent: map<Station, Station>, settled: set<Station>, rank: map<Station, nat>)
    requires NonNegative(g, criteria)
    requires SearchInv(g, criteria, start, cost, parent, multiset{}, settled, rank)
    ensures Done(g, criteria, start, end, cost, parent, settled, rank)
  {
    Exhausted(g, criteria, start, cost, parent, settled, rank);
    FoundRanked(g, criteria, start, cost, parent, settled, rank);
  }

  /**
   * One turn of the search loop (demo.cpp:118-132): pop a least entry, stop
   * if it is for `end`, otherwise relax the popped station's connections.
   * Either the search is over or the loop state is restored, with a new
   * station settled or a shorter queue.
   */
  method Step(g: Graph, criteria: string, start: Station, end: Station, cost0: map<Station, Dist>,
              parent0: map<Station, Station>, pq0: multiset<Entry>, ghost settled0: set<Station>, ghost rank0: map<Station, nat>)
    returns (reached: bool, cost: map<Station, Dist>, parent: map<Station, Station>, pq: multiset<Entry>,
             ghost settled: set<Station>, ghost rank: map<Station, nat>)
    requires NonNegative(g, criteria)
    requires SearchInv(g, criteria, start, cost0, parent0, pq0, settled0, rank0)
    requires pq0 != multiset{}
    ensures cost.Keys == cost0.Keys
    ensures reached ==> Done(g, criteria, start, end, cost, parent, settled, rank)
    ensures !reached ==> SearchInv(g, criteria, start, cost, parent, pq, settled, rank)
    ensures !reached ==> settled0 < settled <= cost0.Keys || (settled == settled0 && |pq| < |pq0|)
  {
    var curr;
    curr, pq, settled, rank := Pop(g, criteria, start, cost0, parent0, pq0, settled0, rank0);
    if curr == end {
      FinishReached(g, criteria, start, end, cost0, parent0, pq, settled, rank);
      return true, cost0, parent0, pq, settled, rank;
    }
    reached := false;
    cost, parent, pq := Expand(g, criteria, start, curr, cost0, parent0, pq, settled, rank);
  }

  /**
   * The search loop of `dijkstra` (demo.cpp:107-133): costs start at
   * `Infinity` except the source at 0, and entries are popped least cost
   * first, stopping once an entry for `end` is popped. On return the
   * predecessor links are sound and ranked, and `end` is settled whenever it
   * has a cost and is reachable.
   */
  method Search(g: Graph, start: Station, end: Station, criteria: string)
    returns (parent: map<Station, Station>, ghost cost: map<Station, Dist>, ghost settled: set<Station>, ghost rank: map<Station, nat>)
    requires NonNegative(g, criteria)
    ensures Done(g, criteria, start, end, cost, parent, settled, rank)
  {
    var costs := InitCosts(g);
    costs := costs[start := Finite(0)];
    parent := map[];
    var pq: multiset<Entry> := multiset{(0, start)};
    settled, rank := {}, map[];
    ghost var stations := costs.Keys;
    InitialState(g, criteria, start, costs);
    while pq != multiset{}
      invariant SearchInv(g, criteria, start, costs, parent, pq, settled, rank)
      invariant stations == costs.Keys
      decreases |stations - settled|, |pq|
    {
      ghost var settled0 := settled;
      var reached;
      reached, costs, parent, pq, settled, rank := Step(g, criteria, start, end, costs, parent, pq, settled, rank);
      if reached {
        cost := costs;
        return;
      }
      if settled0 < settled {
        UnseenShrinks(stations, settled0, settled);
      }
    }
    FinishExhausted(g, criteria, start, end, costs, parent, settled, rank);
    cost := costs;
  }

  /**
   * `dijkstra` (demo.cpp:106-148): the search, then the parent walk. The
   * result is empty exactly when `end` cannot be reached or has no adjacency
   * entry of its own (and is not the source); otherwise it is a walk from
   * `start` to `end` weighing no more than any other such walk, and exactly
   * the final cost of `end`; it is `[start]` when `start == end`.
   */
  method Dijkstra(g: Graph, start: Station, end: Station, criteria: string)
    returns (path: seq<Station>, ghost cost: map<Station, Dist>)
    requires NonNegative(g, criteria)
    ensures path == [] || Walk(g, path, start, end)
    ensures start == end ==> path == [start]
    ensures path != [] <==> Reachable(g, start, end) && (end in g || end == start)
    ensures path != [] ==> forall w :: Walk(g, w, start, end) ==> WalkWeight(g, path, criteria) <= WalkWeight(g, w, criteria)
    ensures path != [] ==> end in cost && cost[end].Finite? && WalkWeight(g, path, criteria) == cost[end].value
    ensures CostsSound(g, start, cost)
  {
    var parent;
    ghost var settled, rank;
    parent, cost, settled, rank := Search(g, start, end, criteria);
    path := Reconstruct(parent, start, end, Ranks(parent, settled, rank));
    Conclude(g, criteria, start, end, cost, parent, settled, rank, path);
  }
}
