# MetroFlow route search, modelled in Dafny

MetroFlow stores a metro network as an undirected multigraph and answers route queries over it.
- A station is a name.
- Each station maps to its ordered list of connections.
- A connection has a destination, a travel time, a distance, a fare cost and a line name.

Every record of the edge list adds a connection and its mirror. A query names a source and a destination, both trimmed of surrounding whitespace, and one of two searches answers it:
- a breadth-first search for the route with the fewest stops;
- a Dijkstra search for the route of least total time (criteria `"time"`) or least total cost (any other criteria string).

Both searches finish with the same walk: they follow predecessor links back from the destination and reverse the result.

The model is split into these modules:

- `Wrappers` (`wrappers.dfy`): the `Option` type.
- `MetroGraph` (`metro_graph.dfy`): the graph and its walks.
  - Stations, connections, the adjacency map, walks and reachability.
  - The weight a search reads off a connection.
  - Walk weights, taking the cheapest connection on each hop.
  - The paired insertion (`Connect`), as a function and as the method `GraphStore.AddConnection` of a class that owns the adjacency map.
  - The mirror invariant that the paired insertion keeps.
- `InputText` (`trim.dfy`): `trim`, together with the two `find_*_not_of` scans it uses.
- `PathReconstruction` (`reconstruct.dfy`): the parent walk that both searches share, written as a `while` loop.
- `LeastStops` (`bfs.dfy`): `bfsLeastStops`, written as a method with a FIFO queue held in a `seq`.
  - Its invariant is a breadth-first tree: every visited station records its level, a predecessor one level closer, and a level no larger than the length of any walk to it.
  - Its queue is ordered by level.
- `SampleNetwork` (`scenario.dfy`): the sample network described below, passed to the store and both searches, with the results fixed by their contracts.
- `WeightedSearch` (`dijkstra.dfy`): `dijkstra`, written as a method with the priority queue held in a `multiset` of `(cost, station)` entries.
  - Its invariant is Dijkstra's: every settled station has a cost no more than the weight of any walk to it.
  - Every predecessor is settled and lies on a connection that accounts for the cost.
  - Every unsettled station with a finite cost is queued.

What is proved:

- **Trimming.** `Trim` returns the unique blank-free-ended middle of its input, and it is idempotent.
- **Storing connections.** Storing one connection appends exactly the forward and mirrored edges. Any store built from records is mirrored, so every hop can be reversed and every destination is a key.
- **Fewest stops.** The breadth-first search returns a walk from the source to the destination exactly when one exists, and no walk has fewer stations.
- **Least weight.** When weights are non-negative, the Dijkstra search returns a walk exactly when one exists and the destination has an adjacency entry (or is the source). No walk weighs less, and the route weighs exactly the final cost of the destination.
- **Repeated records.** A record followed by its own reverse adds no hop and changes no reachability. In a graph built from records, every station reachable from the source, other than the source itself, has an adjacency entry, so the Dijkstra clause about adjacency entries always holds there.
- **A sample network.** The records A-B (time 5, cost 2), B-C (time 3, cost 4) and A-C (time 10, cost 1), stored through `GraphStore`, give these routes from A to C:
  - fewest stops `[A, C]`;
  - least time `[A, B, C]`;
  - least cost `[A, C]`.

  Every search from A to a station D that no record mentions returns the empty route.
- **Stale queue entries.** The Dijkstra loop has no stale-entry check, and the proof shows it needs none. Popping an entry for a station that is already settled finds all of that station's connections relaxed, so the scan changes no cost, no predecessor and no queue entry.

## Model

| member | source | states |
|---|---|---|
| InputText.FindFirstNotOf | demo.cpp:65-66 | the first non-blank index at or after `from`, with everything before it blank, or none exactly when the rest is all blank |
| InputText.FindLastNotOf | demo.cpp:67 | the last non-blank index below `n`, with everything after it blank, or none exactly when the prefix is all blank |
| InputText.Trim | demo.cpp:64-69 | empty exactly when the input is all blanks; otherwise no blank at either end; always the input with a blank prefix and a blank suffix cut off |
| InputText.TrimUnique | demo.cpp:64-69 | any split of the input into blank prefix, middle with non-blank ends, and blank suffix makes the middle the result |
| InputText.TrimIdempotent | demo.cpp:64-69 | trimming twice gives the same result as trimming once |
| MetroGraph.Neighbors | demo.cpp:82 | the adjacency list of a station; a station with no entry reads as having no connections, as `graph[curr]` default-constructs an empty list |
| MetroGraph.Weight | demo.cpp:126 | the connection's time when the criteria string is exactly `"time"`, its cost for every other string |
| MetroGraph.MinHop | demo.cpp:125-127 | the least weight among the connections to `v`, attained by one of them, or none exactly when no connection leads to `v` |
| MetroGraph.MinHopFallback | demo.cpp:126 | under any criteria other than `"time"` the hop weights are the `"cost"` hop weights |
| MetroGraph.CriteriaFallback | demo.cpp:126 | under any criteria other than `"time"` every walk weighs what it weighs under `"cost"` |
| MetroGraph.WalkWeightNonNegative | demo.cpp:126-128 | with non-negative connection weights every walk weight is non-negative |
| MetroGraph.ClosedSetHoldsWalk | demo.cpp:82-88 | a set holding the source and closed under connections holds every station reachable from it |
| MetroGraph.Connect | demo.cpp:54-55 | one record: the forward connection appended to `from`'s list, then the mirrored one to `to`'s |
| MetroGraph.Build | demo.cpp:38-60 | the records inserted in order into an empty store |
| MetroGraph.ConnectAppendsPair | demo.cpp:54-55 | one record appends the forward connection to `from`, the mirrored one to `to` (both to one list when `from == to`), adds both as keys and leaves every other list alone |
| MetroGraph.ConnectPreservesMirrored | demo.cpp:54-55 | the paired insertion keeps every connection matched by a reverse one with the same weights and line |
| MetroGraph.BuildMirrored | demo.cpp:38-60 | inserting any sequence of records into an empty store gives a mirrored graph |
| MetroGraph.ConnectNewTargets | demo.cpp:54-55 | the connections one record appends lead from `from` to `to` or back |
| MetroGraph.ConnectJoins | demo.cpp:54-55 | after one record each of its two stations reaches the other in one hop |
| MetroGraph.ReverseRecordAddsNoHop | demo.cpp:54-55 | a record followed by its own reverse gives exactly the hops the first record alone gives |
| MetroGraph.ReverseRecordKeepsReachable | demo.cpp:54-55 | a record followed by its own reverse leaves reachability as the first record alone left it |
| MetroGraph.MirroredIsClosed | demo.cpp:54-55 | in a mirrored graph every connection leads to a station that has an adjacency entry |
| MetroGraph.MirroredSymmetric | demo.cpp:54-55 | in a mirrored graph every hop can be taken backwards |
| MetroGraph.ClosedWalkEndIsKey | demo.cpp:112-115 | in a closed graph the end of a walk with at least one hop is a key, so it gets an initial cost |
| MetroGraph.BuiltReachableIsKey | demo.cpp:112-115 | in a graph built from records every station reachable from the source, other than the source, has an adjacency entry and so gets an initial cost |
| MetroGraph.GraphStore.constructor | demo.cpp:26 | the store starts empty, which is trivially mirrored |
| MetroGraph.GraphStore.AddConnection | demo.cpp:54-55 | the new adjacency map is the paired insertion applied to the old one, and it stays mirrored if it was |
| PathReconstruction.Reverse | demo.cpp:99 | same length, element `k` is element `len - 1 - k` of the input |
| PathReconstruction.Reconstruct | demo.cpp:91-103 | `[start]` when `start == end`; a non-empty result runs from `start` to `end` along predecessor links, with `start` only at its front; empty when `end` is not the source and has no predecessor; non-empty when predecessors are closed and `end` has one; in general non-empty exactly when the predecessor links from `end` lead back to `start` (`LinksBack`) |
| PathReconstruction.BackChain | demo.cpp:97-100 | the links collected from `end` back to `start`, with `start` appended and reversed, run from `start` to `end` along predecessor links, with `start` only at the front |
| PathReconstruction.ChainIsWalk | demo.cpp:93-96 | a chain of predecessor links that each follow a connection is a walk |
| LeastStops.VisitNeighbors | demo.cpp:82-88 | the visited set gains exactly the unvisited destinations; each of them gets `curr` as predecessor and is appended to the queue; nothing else changes |
| LeastStops.InitialState | demo.cpp:72-76 | the start state (only `start` visited and queued at level 0, no predecessors) satisfies the loop invariant |
| LeastStops.Frontier | demo.cpp:78-89 | a walk to a station that is not yet expanded is at least as long as the level of the queue head |
| LeastStops.ChainLevels | demo.cpp:84-86 | a chain of predecessor links from the source ends at a station whose level is the chain's length minus one |
| LeastStops.QueueOrdered | demo.cpp:79-86 | after one expansion the queue is still ordered by level and spans at most two levels |
| LeastStops.BfsStep | demo.cpp:79-88 | one expansion of the queue head keeps the breadth-first tree, the queue order and the closure of expanded stations |
| LeastStops.Expand | demo.cpp:79-88 | one expansion restores the loop invariant and either visits a new station or shortens the queue; the head is removed and the rest of the queue kept in order, the unvisited destinations of its connections are marked visited with the head as predecessor, and earlier predecessors are kept |
| LeastStops.Exhausted | demo.cpp:78 | once the queue is empty every reachable station has been visited |
| LeastStops.Conclude | demo.cpp:91-103 | from the final tree the parent walk is empty exactly when `end` is unreachable, otherwise a walk with the fewest stations |
| LeastStops.BfsLeastStops | demo.cpp:71-104 | the result is empty exactly when `end` cannot be reached; otherwise it is a walk from `start` to `end` with no more stations than any other walk; it is `[start]` when `start == end` |
| WeightedSearch.MinExists | demo.cpp:119 | a non-empty priority queue has an entry whose cost no other entry undercuts |
| WeightedSearch.Lookup | demo.cpp:127 | `cost[v]` on the cost map: a station the map does not hold reads as 0, the value `operator[]` default-constructs |
| WeightedSearch.Below | demo.cpp:127 | the strict test `cost[curr] + weight < cost[edge.to]`, with every finite sum below the `numeric_limits<int>::max()` sentinel |
| WeightedSearch.RelaxEdges | demo.cpp:125-132 | every connection of `curr` is relaxed afterwards; every lowered cost is finite, strictly lower, reached through a connection of `curr`, recorded with `curr` as predecessor and pushed; every entry added to the queue is for a station whose cost dropped and records what one connection of `curr` offers it; the queue only grows, and costs and predecessors of other stations are kept; when all connections were relaxed already, cost, parent and queue are unchanged |
| WeightedSearch.InitCosts | demo.cpp:112-114 | exactly the stations with an adjacency entry get a cost, all of them `Infinity` |
| WeightedSearch.InitialState | demo.cpp:112-116 | the start state (every station at `Infinity` except the source at 0, the source queued, nothing settled) satisfies the loop invariant |
| WeightedSearch.RelaxedMonotone | demo.cpp:127 | lowering costs keeps relaxed connections relaxed |
| WeightedSearch.Frontier | demo.cpp:118-133 | a walk from the source to an unsettled station with a cost weighs at least as much as some queued entry |
| WeightedSearch.PoppedOptimal | demo.cpp:119-121 | the station of a least entry, if new, costs exactly the popped cost and no walk to it weighs less |
| WeightedSearch.PoppedQueue | demo.cpp:119 | after the pop the queue stays sound and complete; settled costs stay below queued ones; a station popped again has all its connections relaxed |
| WeightedSearch.Popped | demo.cpp:119-121 | after taking a least entry off the queue and settling its station, the state before the scan holds, and a station settled before has all its connections relaxed |
| WeightedSearch.Pop | demo.cpp:119-121 | removes one least entry from the queue and returns its station, which is then settled; a station popped a second time finds its connections relaxed |
| WeightedSearch.Expand | demo.cpp:125-132 | the scan of the popped station restores the loop invariant and leaves cost, predecessors and queue unchanged when all its connections were already relaxed, so a stale entry is harmless |
| WeightedSearch.Step | demo.cpp:118-132 | one turn either stops at `end` with the search complete, or restores the invariant with a new station settled or a shorter queue |
| WeightedSearch.Exhausted | demo.cpp:118 | once the queue is empty every reachable station with a cost is settled |
| WeightedSearch.ChainWeight | demo.cpp:135-147 | a chain of predecessor links from the source weighs no more than its last station's cost |
| WeightedSearch.ChainOptimal | demo.cpp:135-147 | a chain of predecessor links from the source to a settled station weighs exactly that station's cost, and no walk to it weighs less |
| WeightedSearch.Conclude | demo.cpp:135-147 | from the final state the parent walk is empty exactly when `end` is unreachable or has no adjacency entry (and is not the source), otherwise a walk of least weight whose weight is the final cost of `end` |
| WeightedSearch.FinishReached | demo.cpp:123 | popping `end` leaves it settled, with ranked predecessor links |
| WeightedSearch.Search | demo.cpp:107-133 | on return the predecessor links are sound and ranked, and `end` is settled whenever it has a cost and is reachable |
| WeightedSearch.Dijkstra | demo.cpp:106-148 | the result is empty exactly when `end` cannot be reached or has no adjacency entry (and is not the source); otherwise it is a walk from `start` to `end` weighing no more than any other walk, and its weight is the final cost of `end`; the final costs cover every station, give the source 0 and are never negative; it is `[start]` when `start == end` |
| SampleNetwork.WalkWeightAtLeast | demo.cpp:126 | a walk over connections that each weigh at least `m` weighs at least `m` per hop |
| SampleNetwork.NetworkLists | demo.cpp:54-55 | the records A-B, B-C, A-C leave A, B and C as keys, each listing its two connections in insertion order |
| SampleNetwork.SampleStore | demo.cpp:54-55 | the store after inserting the three sample records holds that network |
| SampleNetwork.FewestStopsAC | demo.cpp:71-104 | fewest stops from A to C is the direct `[A, C]` |
| SampleNetwork.FastestAC | demo.cpp:106-148 | least time from A to C is `[A, B, C]` (8 against 10) |
| SampleNetwork.CheapestAC | demo.cpp:106-148 | least cost from A to C is `[A, C]` (1 against 6) |
| SampleNetwork.RoutesToD | demo.cpp:71-148 | a station no record mentions is reached by no search: all three routes from A to D are empty |

## Left out

- Reading the edge list (`loadMetroData`, demo.cpp:28-62) is file I/O and is not modelled. This covers the header skip, the comma splitting, `stoi`/`stod` and the skipping of malformed lines. A parsed record is the `Record` datatype, and the store built from a sequence of records is `Build`.
- `main` is not part of this model. It covers the prompts, the console input and output, and the choice of search from the user's answer.
- The `int` fields and sums are unbounded integers. The 32-bit width and the overflow of `cost[curr] + weight` are not modelled. The sentinel `numeric_limits<int>::max()` is the separate value `Infinity`, which every finite sum is below.
- The `distance` field is carried in every connection but never read, as in the source, and is a `real`. Floating-point behaviour is not modelled.
- The priority queue is a multiset, and a pop takes any entry of least cost. The tie-breaking order of `std::priority_queue` and its heap layout are not modelled. Every result proved holds for every such choice.
- The hash-map iteration order of `unordered_map` is not modelled. `InitCosts` takes the stations in an arbitrary order, and the result does not depend on it.
- Indexing `unordered_map` with `operator[]` inserts a default entry for a missing key. In `graph[curr]`, `visited[edge.to]` and `cost[edge.to]` that entry is read as the default and not kept: no connections, not visited, cost 0. Keeping it changes no result.
- WeightedSearch.Dijkstra: requires every connection weight to be non-negative under the chosen criteria. With negative weights the source gives no guarantee, and nothing is proved about it.
- WeightedSearch.Dijkstra: the weight of a walk given as a station sequence takes the cheapest connection on each hop. Parallel connections between the same two stations are therefore compared by their best one.
- LeastStops.BfsLeastStops: the search stops as soon as `end` is dequeued. The model does the same. The proof covers the stopped state and the exhausted state alike, and it does not describe which stations were left unvisited.

## Notes on the source

- The Dijkstra loop has no check for stale queue entries: an entry pushed for a station whose cost has dropped since is popped and scanned again. The model follows the code. `WeightedSearch.Pop` shows that such a station has all its connections relaxed, and `WeightedSearch.Expand` shows that its scan then leaves cost, predecessors and queue unchanged.
- A criteria string other than `"time"` selects the `cost` field, including misspellings such as `"Time"`. The model follows the code, and this is stated by `MetroGraph.CriteriaFallback`.
