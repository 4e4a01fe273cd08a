/**
 * The parent walk both searches end with (demo.cpp:91-103 and 135-147):
 * follow predecessor links back from the destination until the source or a
 * station without a predecessor, then reverse, or give up with an empty path.
 */
module PathReconstruction {
  import opened MetroGraph

  /** `std::reverse`: the same elements in the opposite order. */
  function Reverse<T>(s: seq<T>): (r: seq<T>)
    ensures |r| == |s|
    ensures forall k :: 0 <= k < |s| ==> r[k] == s[|s| - 1 - k]
  {
    if s == [] then [] else [s[|s| - 1]] + Reverse(s[..|s| - 1])
  }

  /**
   * The walk back terminates: `rank` strictly decreases along every link the
   * loop can follow (from a station other than `start` to one that again has a
   * predecessor and is not `start`).
   */
  ghost predicate ParentsRanked(parent: map<Station, Station>, start: Station, rank: map<Station, nat>)
  {
    forall v {:trigger parent[v]} :: v in parent && v != start ==>
      && v in rank
      && (parent[v] in parent && parent[v] != start ==> parent[v] in rank && rank[parent[v]] < rank[v])
  }

  /** Every predecessor is the source or has a predecessor itself. */
  ghost predicate ParentsClosed(parent: map<Station, Station>, start: Station)
  {
    forall v {:trigger parent[v]} :: v in parent ==> parent[v] == start || parent[v] in parent
  }

  /**
   * Following predecessor links from `v` arrives at `start` before running
   * into a station without a predecessor.
   */
  ghost predicate LinksBack(parent: map<Station, Station>, start: Station, rank: map<Station, nat>, v: Station)
    requires ParentsRanked(parent, start, rank)
    decreases if v != start && v in parent then rank[v] + 1 else 0
  {
    v == start || (v in parent && LinksBack(parent, start, rank, parent[v]))
  }

  /** Each station of `path` after the first has the station before it as predecessor. */
  ghost predicate Chain(parent: map<Station, Station>, path: seq<Station>)
  {
    forall i :: 0 < i < |path| ==> path[i] in parent && parent[path[i]] == path[i - 1]
  }

  /**
   * Rebuilds the route from `start` to `end` out of the predecessor map;
   * `start` occurs only at its front.
   * A non-empty result runs from `start` to `end` along predecessor links; the
   * source alone is returned when `start == end`; a destination other than the
   * source without a predecessor gives the empty path; and when predecessors
   * are closed the walk always reaches `start`. The result is non-empty
   * exactly when the links from `end` lead back to `start`.
   */
  method Reconstruct(parent: map<Station, Station>, start: Station, end: Station, ghost rank: map<Station, nat>)
    returns (path: seq<Station>)
    requires ParentsRanked(parent, start, rank)
    ensures start == end ==> path == [start]
    ensures path != [] ==> path[0] == start && path[|path| - 1] == end && Chain(parent, path)
    ensures forall i :: 0 < i < |path| ==> path[i] != start
    ensures end != start && end !in parent ==> path == []
    ensures ParentsClosed(parent, start) && (end == start || end in parent) ==> path != []
    ensures path != [] <==> LinksBack(parent, start, rank, end)
  {
    var rev: seq<Station> := [];
    var current := end;
    while current != start && current in parent
      invariant rev == [] ==> current == end
      invariant rev != [] ==> rev[0] == end && rev[|rev| - 1] in parent && current == parent[rev[|rev| - 1]]
      invariant forall i :: 0 <= i < |rev| ==> rev[i] in parent && rev[i] != start
      invariant forall i :: 0 <= i < |rev| - 1 ==> rev[i + 1] == parent[rev[i]]
      invariant ParentsClosed(parent, start) && (end == start || end in parent) ==> current == start || current in parent
      invariant LinksBack(parent, start, rank, end) == LinksBack(parent, start, rank, current)
      decreases if current != start && current in parent && current in rank then rank[current] + 1 else 0
    {
      rev := rev + [current];
      current := parent[current];
    }
    if current == start {
      path := Reverse(rev + [start]);
      BackChain(parent, start, end, rev);
    } else {
      path := [];
    }
  }

  /** The links collected from `end` back to `start`, reversed, form a chain from `start` to `end`. */
  lemma BackChain(parent: map<Station, Station>, start: Station, end: Station, rev: seq<Station>)
    requires rev == [] ==> end == start
    requires rev != [] ==> rev[0] == end && rev[|rev| - 1] in parent && start == parent[rev[|rev| - 1]]
    requires forall i :: 0 <= i < |rev| ==> rev[i] in parent && rev[i] != start
    requires forall i :: 0 <= i < |rev| - 1 ==> rev[i + 1] == parent[rev[i]]
    ensures var path := Reverse(rev + [start]);
      && path[0] == start && path[|path| - 1] == end && Chain(parent, path)
      && forall i :: 0 < i < |path| ==> path[i] != start
  {
    var full := rev + [start];
    var path := Reverse(full);
    forall i | 0 < i < |path| ensures path[i] in parent && parent[path[i]] == path[i - 1] {
      var k := |full| - 1 - i;
      assert path[i] == full[k] == rev[k];
      assert path[i - 1] == full[k + 1];
    }
    forall i | 0 < i < |path| ensures path[i] != start {
      assert path[i] == rev[|full| - 1 - i];
    }
  }

  /** A chain whose every link follows a connection is a walk of the graph. */
  lemma ChainIsWalk(g: Graph, parent: map<Station, Station>, path: seq<Station>, start: Station, end: Station)
    requires path != [] && path[0] == start && path[|path| - 1] == end && Chain(parent, path)
    requires forall v :: v in parent ==> Adjacent(g, parent[v], v)
    ensures Walk(g, path, start, end)
  {
    forall i | 0 <= i < |path| - 1 ensures Adjacent(g, path[i], path[i + 1]) {
      assert parent[path[i + 1]] == path[i];
    }
  }
}
