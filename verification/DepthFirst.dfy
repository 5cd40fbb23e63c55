/** The depth-first walk as a recursion: what the cycle search of the board is measured against. */
module DepthFirst {
  import opened Lists
  import opened Graphs

  /** The vertices met and the closed paths of the back edges, in the order in which they are read. */
  type Outcome = (set<Id>, seq<seq<Id>>)

  /** The path ends at a vertex of the graph, and its successors from `j` on are to be read. */
  predicate Reading(g: Graph, path: seq<Id>, j: nat) {
    path != [] && path[|path| - 1] in g.edges && j <= |g.edges[path[|path| - 1]]|
  }

  /** From the vertex at the end of the path: a successor on the path closes a cycle, one not met before
      is visited with all that it leads to, and any other is passed over. */
  ghost function Successors(g: Graph, path: seq<Id>, j: nat, met: set<Id>): (r: Outcome)
    requires Reading(g, path, j)
    ensures met <= r.0
    decreases g.edges.Keys - met, |g.edges[path[|path| - 1]]| - j
  {
    var u := path[|path| - 1];
    if j == |g.edges[u]| then (met, [])
    else
      var v := g.edges[u][j];
      if v !in g.edges then Successors(g, path, j + 1, met)
      else if v in path then
        var rest := Successors(g, path, j + 1, met);
        (rest.0, [path[IndexOf(path, v)..] + [v]] + rest.1)
      else if v in met then Successors(g, path, j + 1, met)
      else
        var below := Successors(g, path + [v], 0, met + {v});
        var rest := Successors(g, path, j + 1, below.0);
        (rest.0, below.1 + rest.1)
  }

  /** The first `n` vertices in turn, each a root unless it has been met. */
  ghost function Roots(g: Graph, n: nat): Outcome
    requires g.Valid() && n <= |g.keys|
  {
    if n == 0 then ({}, [])
    else
      var before, root := Roots(g, n - 1), g.keys[n - 1];
      if root in before.0 then before
      else
        var tree := Successors(g, [root], 0, before.0 + {root});
        (tree.0, before.1 + tree.1)
  }

  ghost function BackEdgeCycles(g: Graph): seq<seq<Id>>
    requires g.Valid()
  {
    Roots(g, |g.keys|).1
  }

  ghost predicate HasMembers(cycles: seq<seq<Id>>, members: set<Id>) {
    exists i :: 0 <= i < |cycles| && Members(cycles[i]) == members
  }

  /** The first list for each set of vertices, in order. */
  ghost function FirstOfEach(cycles: seq<seq<Id>>): seq<seq<Id>> {
    if cycles == [] then []
    else
      var front, last := FirstOfEach(cycles[..|cycles| - 1]), cycles[|cycles| - 1];
      if HasMembers(front, Members(last)) then front else front + [last]
  }

  // ---------------------------------------------------------------- what comes back

  lemma FirstsAppend(cycles: seq<seq<Id>>, last: seq<Id>)
    ensures FirstOfEach(cycles + [last])
         == if HasMembers(FirstOfEach(cycles), Members(last)) then FirstOfEach(cycles) else FirstOfEach(cycles) + [last]
  {
    assert (cycles + [last])[..|cycles|] == cycles;
  }

  /** Every cycle is told, by itself or by an earlier one with its vertices, and nothing else is. */
  lemma {:induction false} FirstsHave(cycles: seq<seq<Id>>)
    ensures forall c | c in FirstOfEach(cycles) :: c in cycles
    ensures forall c | c in cycles :: HasMembers(FirstOfEach(cycles), Members(c))
  {
    if cycles != [] {
      var before, last := cycles[..|cycles| - 1], cycles[|cycles| - 1];
      FirstsHave(before);
      assert cycles == before + [last];
      var front, all := FirstOfEach(before), FirstOfEach(cycles);
      forall c | c in cycles ensures HasMembers(all, Members(c)) {
        if c in before {
          MoreMembers(front, all, Members(c));
        } else if !HasMembers(front, Members(last)) {
          assert all[|front|] == last;
        }
      }
    }
  }

  lemma MoreMembers(front: seq<seq<Id>>, all: seq<seq<Id>>, members: set<Id>)
    requires front <= all && HasMembers(front, members)
    ensures HasMembers(all, members)
  {
    var i :| 0 <= i < |front| && Members(front[i]) == members;
    assert all[i] == front[i];
  }

  // ---------------------------------------------------------------- the forest of the walk

  /** A way through the forest of the walk that ends at `w`. */
  ghost predicate Route(g: Graph, p: seq<Id>, w: Id) {
    p != [] && p[|p| - 1] == w && w in g.edges && Walk(g, p) && Distinct(p)
  }

  /** The list that the successor `v` closes on the way `p`. */
  function Closed(p: seq<Id>, v: Id): seq<Id>
    requires v in p
  {
    p[IndexOf(p, v)..] + [v]
  }

  /** The successors of the vertex at the end. */
  function Next(g: Graph, p: seq<Id>): seq<Id>
    requires Reading(g, p, 0)
  {
    g.edges[p[|p| - 1]]
  }

  /** From slot `j` on, each successor that stands on the way has its list among the told ones. */
  ghost predicate ToldFrom(g: Graph, p: seq<Id>, j: nat, told: seq<seq<Id>>) {
    && Reading(g, p, 0)
    && forall k | j <= k < |Next(g, p)| && Next(g, p)[k] in p :: Closed(p, Next(g, p)[k]) in told
  }

  ghost predicate FromBackEdge(g: Graph, p: seq<Id>, c: seq<Id>) {
    && Reading(g, p, 0)
    && exists k :: 0 <= k < |Next(g, p)| && Next(g, p)[k] in p && c == Closed(p, Next(g, p)[k])
  }

  lemma ToldMore(g: Graph, p: seq<Id>, j: nat, told: seq<seq<Id>>, more: seq<seq<Id>>)
    requires Reading(g, p, 0) && ToldFrom(g, p, j, told) && forall c | c in told :: c in more
    ensures ToldFrom(g, p, j, more)
  {
    hide Closed;
  }

  /** What the routes of a part of the walk show: each ends where it should, tells all its back edges,
      and nothing is told but by them and by the vertex at the end of `path`. */
  ghost predicate Shows(g: Graph, path: seq<Id>, routes: map<Id, seq<Id>>, told: seq<seq<Id>>) {
    && (forall w | w in routes :: path < routes[w] && Route(g, routes[w], w) && ToldFrom(g, routes[w], 0, told))
    && (forall c | c in told :: FromBackEdge(g, path, c) || exists w :: w in routes && Route(g, routes[w], w) && FromBackEdge(g, routes[w], c))
  }

  /** The way `p` is the one to its last vertex. */
  ghost predicate LeadsTo(routes: map<Id, seq<Id>>, p: seq<Id>) {
    p != [] && p[|p| - 1] in routes && routes[p[|p| - 1]] == p
  }

  /** Beyond `path` every way branches off the ways to the vertices it passes. */
  ghost predicate Forest(path: seq<Id>, routes: map<Id, seq<Id>>) {
    forall w, n | w in routes && |path| < n <= |routes[w]| :: LeadsTo(routes, routes[w][..n])
  }

  lemma BranchesJoin(path: seq<Id>, v: Id, a: map<Id, seq<Id>>, b: map<Id, seq<Id>>)
    requires Forest(path + [v], a) && Forest(path, b) && v !in a && v !in b && a.Keys !! b.Keys
    requires forall w | w in a :: path + [v] < a[w]
    ensures Forest(path, a + b + map[v := path + [v]])
  {
    var routes := a + b + map[v := path + [v]];
    forall w, n | w in routes && |path| < n <= |routes[w]| ensures LeadsTo(routes, routes[w][..n]) {
      if w in b {
        assert LeadsTo(b, b[w][..n]);
      } else if n == |path| + 1 {
        assert routes[w][..n] == path + [v];
      } else {
        assert LeadsTo(a, a[w][..n]);
      }
    }
  }

  lemma TreesJoin(before: map<Id, seq<Id>>, root: Id, tree: map<Id, seq<Id>>)
    requires Forest([], before) && Forest([root], tree) && root !in before && root !in tree && before.Keys !! tree.Keys
    requires forall w | w in tree :: [root] < tree[w]
    ensures Forest([], before + tree + map[root := [root]])
  {
    var routes := before + tree + map[root := [root]];
    forall w, n | w in routes && 0 < n <= |routes[w]| ensures LeadsTo(routes, routes[w][..n]) {
      if w in before {
        assert LeadsTo(before, before[w][..n]);
      } else if n == 1 {
        assert routes[w][..n] == [root];
      } else {
        assert LeadsTo(tree, tree[w][..n]);
      }
    }
  }

  lemma Extended(g: Graph, path: seq<Id>, v: Id)
    requires path != [] && Route(g, path, path[|path| - 1]) && v in g.edges && v in g.edges[path[|path| - 1]] && v !in path
    ensures Route(g, path + [v], v)
  {
    var longer := path + [v];
    forall i | 0 <= i < |longer| - 1 ensures g.Edge(longer[i], longer[i + 1]) {
      if i < |path| - 1 {
        assert g.Edge(path[i], path[i + 1]);
      }
    }
  }

  lemma {:induction false} RoutesOf(g: Graph, path: seq<Id>, j: nat, met: set<Id>) returns (routes: map<Id, seq<Id>>)
    requires Reading(g, path, j) && Route(g, path, path[|path| - 1]) && Members(path) <= met
    ensures routes.Keys == Successors(g, path, j, met).0 - met
    ensures Shows(g, path, routes, Successors(g, path, j, met).1)
    ensures ToldFrom(g, path, j, Successors(g, path, j, met).1)
    ensures Forest(path, routes) && forall w | w in routes :: path < routes[w]
    decreases g.edges.Keys - met, |g.edges[path[|path| - 1]]| - j
  {
    hide Shows, ToldFrom, Route, FromBackEdge, Forest;
    var u := path[|path| - 1];
    if j == |g.edges[u]| {
      routes := map[];
      NothingShown(g, path, j);
      NothingGrown(path);
    } else {
      var v := g.edges[u][j];
      if v in g.edges && v !in path && v !in met {
        Extended(g, path, v);
        var below := Successors(g, path + [v], 0, met + {v});
        var rest := Successors(g, path, j + 1, below.0);
        var a := RoutesOf(g, path + [v], 0, met + {v});
        var b := RoutesOf(g, path, j + 1, below.0);
        routes := a + b + map[v := path + [v]];
        BothShow(g, path, v, a, b, below.1, rest.1);
        BranchesJoin(path, v, a, b);
        assert path < path + [v];
        SkipSlot(g, path, j, rest.1);
        ToldMore(g, path, j, rest.1, below.1 + rest.1);
      } else {
        routes := RoutesOf(g, path, j + 1, met);
        var rest := Successors(g, path, j + 1, met);
        if v in g.edges && v in path {
          OneMoreTold(g, path, j, routes, rest.1);
        } else {
          assert v !in path by {
            if v in path {
              PathIsInside(g, path, v);
            }
          }
          SkipSlot(g, path, j, rest.1);
        }
      }
    }
  }

  lemma PathIsInside(g: Graph, path: seq<Id>, v: Id)
    requires path != [] && Route(g, path, path[|path| - 1]) && v in path
    ensures v in g.edges
  {
    var i :| 0 <= i < |path| && path[i] == v;
    if i < |path| - 1 {
      assert g.Edge(path[i], path[i + 1]);
    }
  }

  lemma NothingGrown(path: seq<Id>)
    ensures Forest(path, map[])
  {
  }

  lemma NothingShown(g: Graph, path: seq<Id>, j: nat)
    requires Reading(g, path, j) && j == |g.edges[path[|path| - 1]]|
    ensures Shows(g, path, map[], []) && ToldFrom(g, path, j, [])
  {
  }

  lemma SkipSlot(g: Graph, path: seq<Id>, j: nat, told: seq<seq<Id>>)
    requires Reading(g, path, j) && j < |g.edges[path[|path| - 1]]| && g.edges[path[|path| - 1]][j] !in path
    requires ToldFrom(g, path, j + 1, told)
    ensures ToldFrom(g, path, j, told)
  {
  }

  lemma OneMoreTold(g: Graph, path: seq<Id>, j: nat, routes: map<Id, seq<Id>>, told: seq<seq<Id>>)
    requires Reading(g, path, j) && j < |g.edges[path[|path| - 1]]| && g.edges[path[|path| - 1]][j] in path
    requires ToldFrom(g, path, j + 1, told) && Shows(g, path, routes, told)
    ensures var all := [Closed(path, g.edges[path[|path| - 1]][j])] + told; ToldFrom(g, path, j, all) && Shows(g, path, routes, all)
  {
    hide Closed, Route;
    var all := [Closed(path, g.edges[path[|path| - 1]][j])] + told;
    assert all[0] in all && forall c | c in told :: c in all;
    forall w | w in routes ensures ToldFrom(g, routes[w], 0, all) {
      ToldMore(g, routes[w], 0, told, all);
    }
    assert Next(g, path)[j] == g.edges[path[|path| - 1]][j];
    assert FromBackEdge(g, path, all[0]);
  }

  lemma BothShow(g: Graph, path: seq<Id>, v: Id, a: map<Id, seq<Id>>, b: map<Id, seq<Id>>, below: seq<seq<Id>>, rest: seq<seq<Id>>)
    requires Reading(g, path, 0) && Reading(g, path + [v], 0) && Route(g, path + [v], v) && v !in a && v !in b && a.Keys !! b.Keys
    requires Shows(g, path + [v], a, below) && ToldFrom(g, path + [v], 0, below) && Shows(g, path, b, rest)
    ensures Shows(g, path, a + b + map[v := path + [v]], below + rest)
  {
    hide Route, ToldFrom, FromBackEdge;
    var all, routes := below + rest, a + b + map[v := path + [v]];
    forall w | w in routes ensures path < routes[w] && Route(g, routes[w], w) && ToldFrom(g, routes[w], 0, all) {
      RouteReads(g, routes[w], w);
      if w == v {
        ToldMore(g, path + [v], 0, below, all);
      } else if w in a {
        assert path < path + [v];
        ToldMore(g, routes[w], 0, below, all);
      } else {
        ToldMore(g, routes[w], 0, rest, all);
      }
    }
    forall c | c in all
      ensures FromBackEdge(g, path, c) || exists w :: w in routes && Route(g, routes[w], w) && FromBackEdge(g, routes[w], c)
    {
      if c in below {
        if FromBackEdge(g, path + [v], c) {
          assert routes[v] == path + [v];
        } else {
          var w :| w in a && Route(g, a[w], w) && FromBackEdge(g, a[w], c);
          assert routes[w] == a[w];
        }
      } else if !FromBackEdge(g, path, c) {
        var w :| w in b && Route(g, b[w], w) && FromBackEdge(g, b[w], c);
        assert routes[w] == b[w];
      }
    }
  }

  lemma RouteReads(g: Graph, p: seq<Id>, w: Id)
    requires Route(g, p, w)
    ensures Reading(g, p, 0)
  {
  }

  /** The ways through the whole forest, and what is told on them. */
  ghost predicate ShowsAll(g: Graph, routes: map<Id, seq<Id>>, told: seq<seq<Id>>) {
    && (forall w | w in routes :: Route(g, routes[w], w) && ToldFrom(g, routes[w], 0, told))
    && (forall c | c in told :: exists w :: w in routes && FromBackEdge(g, routes[w], c))
  }

  lemma OneMoreTree(g: Graph, before: map<Id, seq<Id>>, root: Id, tree: map<Id, seq<Id>>, told: seq<seq<Id>>, more: seq<seq<Id>>)
    requires ShowsAll(g, before, told) && Shows(g, [root], tree, more) && Route(g, [root], root) && ToldFrom(g, [root], 0, more)
    requires root !in before && root !in tree && before.Keys !! tree.Keys
    ensures ShowsAll(g, before + tree + map[root := [root]], told + more)
  {
    hide Route, ToldFrom, FromBackEdge;
    var routes, all := before + tree + map[root := [root]], told + more;
    forall w | w in routes ensures Route(g, routes[w], w) && ToldFrom(g, routes[w], 0, all) {
      var told' := if w in before then told else more;
      assert Route(g, routes[w], w) && ToldFrom(g, routes[w], 0, told');
      RouteReads(g, routes[w], w);
      ToldMore(g, routes[w], 0, told', all);
    }
    forall c | c in all ensures exists w :: w in routes && FromBackEdge(g, routes[w], c) {
      if c in told {
        var w :| w in before && FromBackEdge(g, before[w], c);
        assert routes[w] == before[w];
      } else if FromBackEdge(g, [root], c) {
        assert routes[root] == [root];
      } else {
        var w :| w in tree && Route(g, tree[w], w) && FromBackEdge(g, tree[w], c);
        assert routes[w] == tree[w];
      }
    }
  }

  lemma {:induction false} RoutesOfRoots(g: Graph, n: nat) returns (routes: map<Id, seq<Id>>)
    requires g.Valid() && n <= |g.keys|
    ensures routes.Keys == Roots(g, n).0 && forall i | 0 <= i < n :: g.keys[i] in routes
    ensures ShowsAll(g, routes, Roots(g, n).1) && Forest([], routes)
  {
    hide ShowsAll, Shows, Route, ToldFrom, Forest;
    if n == 0 {
      routes := map[];
      NoRoutes(g);
      NothingGrown([]);
    } else {
      var before := RoutesOfRoots(g, n - 1);
      var root := g.keys[n - 1];
      routes := before;
      if root !in before {
        RootRoute(g, root);
        var tree := RoutesOf(g, [root], 0, before.Keys + {root});
        OneMoreTree(g, before, root, tree, Roots(g, n - 1).1, Successors(g, [root], 0, before.Keys + {root}).1);
        TreesJoin(before, root, tree);
        routes := before + tree + map[root := [root]];
      }
    }
  }

  lemma NoRoutes(g: Graph)
    ensures ShowsAll(g, map[], [])
  {
  }

  lemma RootRoute(g: Graph, root: Id)
    requires root in g.edges
    ensures Route(g, [root], root) && Reading(g, [root], 0)
  {
  }

  lemma RouteEnds(g: Graph, p: seq<Id>, w: Id)
    requires Route(g, p, w)
    ensures w in g.edges && Reading(g, p, 0) && Next(g, p) == g.edges[w]
  {
  }

  lemma RoutesOfVertices(g: Graph, routes: map<Id, seq<Id>>, told: seq<seq<Id>>)
    requires g.Valid() && ShowsAll(g, routes, told) && forall i | 0 <= i < |g.keys| :: g.keys[i] in routes
    ensures routes.Keys == g.edges.Keys
  {
    hide Route, ToldFrom, FromBackEdge;
    forall w | w in routes ensures w in g.edges {
      RouteEnds(g, routes[w], w);
    }
  }

  lemma ToldOnRoute(g: Graph, p: seq<Id>, w: Id, k: nat, told: seq<seq<Id>>)
    requires Route(g, p, w) && ToldFrom(g, p, 0, told) && k < |g.edges[w]| && g.edges[w][k] in p
    ensures Closed(p, g.edges[w][k]) in told
  {
    assert Next(g, p)[k] == g.edges[w][k];
  }

  /** What the walk tells: its forest has one way to every vertex, such that each successor that stands
      on the way to its vertex closes a cycle whose vertices are those of a told list, and every told
      list is closed by such a successor. */
  lemma BackEdgesAreTold(g: Graph) returns (routes: map<Id, seq<Id>>)
    requires g.Valid()
    ensures routes.Keys == g.edges.Keys && Forest([], routes) && forall w | w in routes :: Route(g, routes[w], w)
    ensures forall w, k: nat | w in g.edges && k < |g.edges[w]| && g.edges[w][k] in routes[w] ::
      HasMembers(FirstOfEach(BackEdgeCycles(g)), Members(Closed(routes[w], g.edges[w][k])))
    ensures forall c | c in FirstOfEach(BackEdgeCycles(g)) :: exists w :: w in routes && FromBackEdge(g, routes[w], c)
  {
    hide Route, FromBackEdge, HasMembers, FirstOfEach, Closed, ToldFrom, Forest;
    routes := RoutesOfRoots(g, |g.keys|);
    var told := BackEdgeCycles(g);
    RoutesOfVertices(g, routes, told);
    FirstsHave(told);
    forall w, k: nat | w in g.edges && k < |g.edges[w]| && g.edges[w][k] in routes[w]
      ensures HasMembers(FirstOfEach(told), Members(Closed(routes[w], g.edges[w][k])))
    {
      ToldOnRoute(g, routes[w], w, k, told);
    }
  }
}
