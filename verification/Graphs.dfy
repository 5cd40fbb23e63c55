/** Directed graphs as the tools hold them, their walks and their cycles. */
module Graphs {
  import opened Lists

  type Id = string

  /** An ordered mapping from ids to successor lists; `keys` is its iteration order. */
  datatype Graph = Graph(keys: seq<Id>, edges: map<Id, seq<Id>>) {
    ghost predicate Valid() {
      && (forall v :: v in edges <==> v in keys)
      && (forall i, j | 0 <= i < j < |keys| :: keys[i] != keys[j])
    }

    /** An edge of the graph proper: a listed successor that is a vertex itself. */
    ghost predicate Edge(u: Id, v: Id) {
      u in edges && v in edges[u] && v in edges
    }
  }

  function Members(walk: seq<Id>): set<Id> {
    set v | v in walk
  }

  ghost predicate Walk(g: Graph, walk: seq<Id>) {
    forall i | 0 <= i < |walk| - 1 :: g.Edge(walk[i], walk[i + 1])
  }

  /** A walk along at least one edge that ends where it starts. */
  ghost predicate ClosedWalk(g: Graph, walk: seq<Id>) {
    |walk| >= 2 && Walk(g, walk) && walk[0] == walk[|walk| - 1]
  }

  /** A closed walk that meets no vertex twice but its first. */
  ghost predicate SimpleCycle(g: Graph, cycle: seq<Id>) {
    ClosedWalk(g, cycle) && Distinct(cycle[1..])
  }

  ghost predicate Acyclic(g: Graph) {
    forall walk :: !ClosedWalk(g, walk)
  }

  function IndexOf(path: seq<Id>, v: Id): (k: nat)
    requires v in path
    ensures k < |path| && path[k] == v
    ensures forall i | 0 <= i < k :: path[i] != v
  {
    if path[0] == v then 0 else 1 + IndexOf(path[1..], v)
  }
}
