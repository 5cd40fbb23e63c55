/** Dependency cycles of the delivery board: an iterative three-colour depth-first walk whose
    stack holds resumable successor iterators, a path kept beside the stack, and cycles
    de-duplicated by their vertex sets. It tells what the recursive walk of `DepthFirst` tells. */
module BoardCycles {
  import opened Lists
  import opened Graphs
  import opened DepthFirst

  datatype Color = White | Gray | Black

  /** A stack entry: a vertex and how far its successor iterator has been advanced. */
  datatype Frame = Frame(node: Id, next: nat)

  /** Both ends of the edge lie on one of the cycles. */
  ghost predicate Covered(cycles: seq<seq<Id>>, u: Id, v: Id) {
    exists i | 0 <= i < |cycles| :: u in cycles[i] && v in cycles[i]
  }

  ghost predicate Reported(g: Graph, cycles: seq<seq<Id>>) {
    && (forall i | 0 <= i < |cycles| :: SimpleCycle(g, cycles[i]))
    && (forall i, j | 0 <= i < j < |cycles| :: Members(cycles[i]) != Members(cycles[j]))
  }

  // ---------------------------------------------------------------- what the walk keeps

  /** Position in the order in which vertices were finished; past its end when not finished. */
  ghost function Rank(finished: seq<Id>, v: Id): (r: nat)
    ensures r <= |finished|
    ensures v in finished <==> r < |finished|
    ensures v in finished ==> finished[r] == v
  {
    if finished == [] || finished[0] == v then 0 else 1 + Rank(finished[1..], v)
  }

  lemma {:induction false} RankAppend(finished: seq<Id>, u: Id, v: Id)
    ensures v in finished ==> Rank(finished + [u], v) == Rank(finished, v)
    ensures v !in finished ==> Rank(finished + [u], v) == if u == v then |finished| else |finished| + 1
  {
    if finished != [] && finished[0] != v {
      RankAppend(finished[1..], u, v);
      assert (finished + [u])[1..] == finished[1..] + [u];
    }
  }

  /** The edge lies on a reported cycle, or leads to a vertex finished before its source. */
  ghost predicate Settled(g: Graph, cycles: seq<seq<Id>>, finished: seq<Id>, u: Id, v: Id) {
    v !in g.edges || Covered(cycles, u, v) || (v in finished && Rank(finished, v) < Rank(finished, u))
  }

  /** Stack, path and the gray vertices agree, and each entry leads to the one above it. */
  ghost predicate StackInv(g: Graph, color: map<Id, Color>, stack: seq<Frame>, path: seq<Id>) {
    && (forall v :: v in color <==> v in g.edges)
    && |stack| == |path|
    && (forall i | 0 <= i < |stack| ::
          stack[i].node == path[i] && path[i] in g.edges && stack[i].next <= |g.edges[path[i]]|)
    && Distinct(path)
    && (forall v | v in color :: color[v] == Gray <==> v in path)
    && (forall i | 0 <= i < |stack| - 1 ::
          0 < stack[i].next && g.edges[path[i]][stack[i].next - 1] == path[i + 1])
  }

  /** The successor slots of a stack entry that are settled: all it has read, but for the one
      whose vertex sits above it. */
  ghost function Read(stack: seq<Frame>, i: nat): int
    requires i < |stack|
  {
    if i == |stack| - 1 then stack[i].next else stack[i].next - 1
  }

  ghost predicate EdgesInv(g: Graph, color: map<Id, Color>, stack: seq<Frame>,
                           cycles: seq<seq<Id>>, finished: seq<Id>)
  {
    && Distinct(finished)
    && (forall v | v in color :: color[v] == Black <==> v in finished)
    && (forall v | v in finished :: v in g.edges && v in color)
    && (forall u, j | u in finished && 0 <= j < |g.edges[u]| :: Settled(g, cycles, finished, u, g.edges[u][j]))
    && (forall i, j | 0 <= i < |stack| && 0 <= j < Read(stack, i) && stack[i].node in g.edges && j < |g.edges[stack[i].node]| ::
          Settled(g, cycles, finished, stack[i].node, g.edges[stack[i].node][j]))
  }

  ghost predicate SeenInv(seen: set<set<Id>>, cycles: seq<seq<Id>>) {
    && (forall i | 0 <= i < |cycles| :: Members(cycles[i]) in seen)
    && (forall m | m in seen :: exists i | 0 <= i < |cycles| :: Members(cycles[i]) == m)
  }

  /** Every slot that has been read was read once, and no other was read. */
  ghost predicate ExaminedInv(g: Graph, stack: seq<Frame>, path: seq<Id>, finished: seq<Id>, examined: multiset<(Id, nat)>)
    requires |stack| == |path|
  {
    && (forall u, j: nat | u in finished && u in g.edges ::
          examined[(u, j)] == if j < |g.edges[u]| then 1 else 0)
    && (forall i, j: nat | 0 <= i < |path| :: examined[(path[i], j)] == if j < stack[i].next then 1 else 0)
    && (forall u, j: nat | u !in finished && u !in path :: examined[(u, j)] == 0)
  }

  // ---------------------------------------------------------------- one step at a time

  lemma CoveredStays(cycles: seq<seq<Id>>, cycle: seq<Id>, u: Id, v: Id)
    requires Covered(cycles, u, v)
    ensures Covered(cycles + [cycle], u, v)
  {
    var i :| 0 <= i < |cycles| && u in cycles[i] && v in cycles[i];
    assert (cycles + [cycle])[i] == cycles[i];
  }

  lemma PathIsAWalk(g: Graph, color: map<Id, Color>, stack: seq<Frame>, path: seq<Id>)
    requires StackInv(g, color, stack, path)
    ensures Walk(g, path)
  {
    forall i | 0 <= i < |path| - 1 ensures g.Edge(path[i], path[i + 1]) {
      assert g.edges[path[i]][stack[i].next - 1] == path[i + 1];
    }
  }

  lemma GrayClosesACycle(g: Graph, path: seq<Id>, v: Id)
    requires path != [] && Distinct(path) && Walk(g, path) && v in path
    requires g.Edge(path[|path| - 1], v)
    ensures SimpleCycle(g, path[IndexOf(path, v)..] + [v])
    ensures path[|path| - 1] in path[IndexOf(path, v)..] + [v]
  {
    var k := IndexOf(path, v);
    var cycle := path[k..] + [v];
    forall i | 0 <= i < |cycle| - 1 ensures g.Edge(cycle[i], cycle[i + 1]) {
      assert cycle[i] == path[k + i];
      if i < |cycle| - 2 {
        assert cycle[i + 1] == path[k + i + 1];
      }
    }
    assert cycle[1..] == path[k + 1..] + [v];
    assert cycle[|cycle| - 2] == path[|path| - 1];
  }

  /** Reading one more slot of the top entry, when its edge is settled. */
  lemma ReadSlot(g: Graph, color: map<Id, Color>, stack: seq<Frame>, path: seq<Id>,
                 cycles: seq<seq<Id>>, cycles': seq<seq<Id>>, finished: seq<Id>)
    requires StackInv(g, color, stack, path) && EdgesInv(g, color, stack, cycles, finished) && stack != []
    requires stack[|stack| - 1].next < |g.edges[path[|path| - 1]]|
    requires cycles <= cycles'
    requires Settled(g, cycles', finished, path[|path| - 1], g.edges[path[|path| - 1]][stack[|stack| - 1].next])
    ensures EdgesInv(g, color, stack[|stack| - 1 := Frame(path[|path| - 1], stack[|stack| - 1].next + 1)], cycles', finished)
  {
    forall u, v | Settled(g, cycles, finished, u, v) ensures Settled(g, cycles', finished, u, v) {
      if Covered(cycles, u, v) {
        var i :| 0 <= i < |cycles| && u in cycles[i] && v in cycles[i];
        assert cycles'[i] == cycles[i];
      }
    }
    var stack' := stack[|stack| - 1 := Frame(path[|path| - 1], stack[|stack| - 1].next + 1)];
    forall i, j | 0 <= i < |stack'| && 0 <= j < Read(stack', i) && stack'[i].node in g.edges && j < |g.edges[stack'[i].node]|
      ensures Settled(g, cycles', finished, stack'[i].node, g.edges[stack'[i].node][j])
    {
      assert stack'[i].node == stack[i].node;
      assert (i == |stack| - 1 && j == stack[i].next) || j < Read(stack, i);
    }
  }

  /** Finishing the top entry once all its slots are read. */
  lemma PopEdges(g: Graph, color: map<Id, Color>, stack: seq<Frame>, path: seq<Id>,
                 cycles: seq<seq<Id>>, finished: seq<Id>)
    requires StackInv(g, color, stack, path) && EdgesInv(g, color, stack, cycles, finished) && stack != []
    requires stack[|stack| - 1].next == |g.edges[path[|path| - 1]]|
    ensures EdgesInv(g, color[path[|path| - 1] := Black], stack[..|stack| - 1], cycles, finished + [path[|path| - 1]])
  {
    var top := |stack| - 1;
    var u := path[top];
    var finished' := finished + [u];
    assert color[u] == Gray && u !in finished;
    forall a, v | Settled(g, cycles, finished, a, v) ensures Settled(g, cycles, finished', a, v) {
      RankAppend(finished, u, a);
      RankAppend(finished, u, v);
    }
    var rest := stack[..top];
    forall i, j | 0 <= i < |rest| && 0 <= j < Read(rest, i) && rest[i].node in g.edges && j < |g.edges[rest[i].node]|
      ensures Settled(g, cycles, finished', rest[i].node, g.edges[rest[i].node][j])
    {
      if j < Read(stack, i) {
      } else {
        assert i == top - 1 && g.edges[path[i]][j] == u;
        RankAppend(finished, u, u);
        RankAppend(finished, u, path[i]);
        assert path[i] != u && color[path[i]] == Gray;
      }
    }
  }

  /** Vertices all finished and edges all settled leave no cycle uncovered: along uncovered
      edges the finishing order only falls. */
  lemma {:induction false} RanksFall(g: Graph, cycles: seq<seq<Id>>, finished: seq<Id>, walk: seq<Id>)
    requires walk != [] && Walk(g, walk)
    requires forall u, j | u in g.edges && 0 <= j < |g.edges[u]| :: Settled(g, cycles, finished, u, g.edges[u][j])
    requires forall i | 0 <= i < |walk| - 1 :: !Covered(cycles, walk[i], walk[i + 1])
    ensures Rank(finished, walk[|walk| - 1]) <= Rank(finished, walk[0])
    ensures |walk| > 1 ==> Rank(finished, walk[|walk| - 1]) < Rank(finished, walk[0])
  {
    if |walk| > 1 {
      var rest := walk[1..];
      forall i | 0 <= i < |rest| - 1
        ensures g.Edge(rest[i], rest[i + 1]) && !Covered(cycles, rest[i], rest[i + 1])
      {
        assert rest[i] == walk[i + 1] && rest[i + 1] == walk[i + 1 + 1];
      }
      RanksFall(g, cycles, finished, rest);
      assert g.Edge(walk[0], walk[1]);
      var j :| 0 <= j < |g.edges[walk[0]]| && g.edges[walk[0]][j] == walk[1];
      assert !Covered(cycles, walk[0], walk[0 + 1]);
    }
  }

  lemma EveryCycleIsTouched(g: Graph, cycles: seq<seq<Id>>, finished: seq<Id>, walk: seq<Id>)
    requires ClosedWalk(g, walk)
    requires forall u, j | u in g.edges && 0 <= j < |g.edges[u]| :: Settled(g, cycles, finished, u, g.edges[u][j])
    ensures exists i | 0 <= i < |walk| - 1 :: Covered(cycles, walk[i], walk[i + 1])
  {
    if forall i | 0 <= i < |walk| - 1 :: !Covered(cycles, walk[i], walk[i + 1]) {
      RanksFall(g, cycles, finished, walk);
    }
  }

  // ---------------------------------------------------------------- the walk

  ghost function Whites(color: map<Id, Color>): set<Id> {
    set v | v in color && color[v] == White
  }

  /** All that the source keeps in local variables, with the finishing order and the slots read. */
  datatype State = State(color: map<Id, Color>, stack: seq<Frame>, path: seq<Id>, seen: set<set<Id>>,
                         cycles: seq<seq<Id>>, finished: seq<Id>, examined: multiset<(Id, nat)>)

  ghost predicate Inv(g: Graph, s: State) {
    && StackInv(g, s.color, s.stack, s.path)
    && EdgesInv(g, s.color, s.stack, s.cycles, s.finished)
    && SeenInv(s.seen, s.cycles) && Reported(g, s.cycles)
    && ExaminedInv(g, s.stack, s.path, s.finished, s.examined)
  }

  /** Vertices that have been met stay met. */
  ghost predicate Kept(color: map<Id, Color>, color': map<Id, Color>) {
    color'.Keys == color.Keys && Whites(color') <= Whites(color)
  }

  /** The source's reading of one slot, short of what it does with the successor. */
  function Advance(s: State): State
    requires s.stack != []
  {
    var top := s.stack[|s.stack| - 1];
    s.(stack := s.stack[|s.stack| - 1 := Frame(top.node, top.next + 1)],
       examined := s.examined + multiset{(top.node, top.next)})
  }

  ghost predicate HasNext(g: Graph, s: State) {
    && s.stack != [] && s.stack[|s.stack| - 1].node in g.edges
    && s.stack[|s.stack| - 1].next < |g.edges[s.stack[|s.stack| - 1].node]|
  }

  ghost function Successor(g: Graph, s: State): Id
    requires HasNext(g, s)
  {
    g.edges[s.stack[|s.stack| - 1].node][s.stack[|s.stack| - 1].next]
  }

  lemma AdvanceExamined(g: Graph, s: State)
    requires StackInv(g, s.color, s.stack, s.path) && EdgesInv(g, s.color, s.stack, s.cycles, s.finished)
    requires ExaminedInv(g, s.stack, s.path, s.finished, s.examined) && HasNext(g, s)
    ensures ExaminedInv(g, Advance(s).stack, s.path, s.finished, Advance(s).examined)
  {
    assert s.color[s.path[|s.path| - 1]] == Gray;
  }

  lemma AdvanceStack(g: Graph, s: State)
    requires StackInv(g, s.color, s.stack, s.path) && HasNext(g, s)
    ensures StackInv(g, s.color, Advance(s).stack, s.path)
    ensures |s.stack| == |s.path| && s.path[|s.path| - 1] == s.stack[|s.stack| - 1].node
  {
  }

  /** A successor outside the graph, or black: nothing but the iterator moves. */
  lemma StepOver(g: Graph, s: State)
    requires Inv(g, s) && HasNext(g, s)
    requires Successor(g, s) !in s.color || s.color[Successor(g, s)] == Black
    ensures Inv(g, Advance(s))
  {
    hide SimpleCycle, Covered, SeenInv, Reported, ExaminedInv, Settled, EdgesInv;
    AdvanceStack(g, s);
    AdvanceExamined(g, s);
    SettledNow(g, s.color, s.path, s.cycles, s.finished, s.stack, Successor(g, s));
    ReadSlot(g, s.color, s.stack, s.path, s.cycles, s.cycles, s.finished);
  }

  lemma SettledNow(g: Graph, color: map<Id, Color>, path: seq<Id>, cycles: seq<seq<Id>>, finished: seq<Id>,
                   stack: seq<Frame>, v: Id)
    requires StackInv(g, color, stack, path) && EdgesInv(g, color, stack, cycles, finished) && path != []
    requires v !in color || color[v] == Black
    ensures Settled(g, cycles, finished, path[|path| - 1], v)
  {
    assert color[path[|path| - 1]] == Gray;
  }

  lemma BackEdge(g: Graph, s: State)
    requires StackInv(g, s.color, s.stack, s.path) && HasNext(g, s) && Successor(g, s) in s.path
    ensures s.path != []
    ensures var cycle := s.path[IndexOf(s.path, Successor(g, s))..] + [Successor(g, s)];
            SimpleCycle(g, cycle) && s.path[|s.path| - 1] in cycle
  {
    PathIsAWalk(g, s.color, s.stack, s.path);
    assert g.Edge(s.path[|s.path| - 1], Successor(g, s));
    GrayClosesACycle(g, s.path, Successor(g, s));
  }

  /** A gray successor: the cycle is reported unless its vertex set was. */
  lemma StepBack(g: Graph, s: State, cycle: seq<Id>, seen': set<set<Id>>, cycles': seq<seq<Id>>)
    requires Inv(g, s) && HasNext(g, s)
    requires Successor(g, s) in s.path && cycle == s.path[IndexOf(s.path, Successor(g, s))..] + [Successor(g, s)]
    requires if Members(cycle) in s.seen then seen' == s.seen && cycles' == s.cycles
             else seen' == s.seen + {Members(cycle)} && cycles' == s.cycles + [cycle]
    ensures Inv(g, Advance(s).(seen := seen', cycles := cycles'))
  {
    hide SimpleCycle, Covered, StackInv, EdgesInv, SeenInv, Reported, ExaminedInv;
    AdvanceStack(g, s);
    BackEdge(g, s);
    ReportOne(g, s.seen, s.cycles, cycle, seen', cycles', s.path[|s.path| - 1], Successor(g, s));
    AdvanceExamined(g, s);
    ReadSlot(g, s.color, s.stack, s.path, s.cycles, cycles', s.finished);
  }

  lemma ReportOne(g: Graph, seen: set<set<Id>>, cycles: seq<seq<Id>>, cycle: seq<Id>,
                  seen': set<set<Id>>, cycles': seq<seq<Id>>, u: Id, v: Id)
    requires SeenInv(seen, cycles) && Reported(g, cycles) && SimpleCycle(g, cycle) && u in cycle && v in cycle
    requires if Members(cycle) in seen then seen' == seen && cycles' == cycles
             else seen' == seen + {Members(cycle)} && cycles' == cycles + [cycle]
    ensures SeenInv(seen', cycles') && Reported(g, cycles') && Covered(cycles', u, v) && cycles <= cycles'
  {
    assert u in Members(cycle) && v in Members(cycle);
    if Members(cycle) in seen {
      var i :| 0 <= i < |cycles| && Members(cycles[i]) == Members(cycle);
      assert u in cycles[i] && v in cycles[i];
    } else {
      assert cycles'[|cycles|] == cycle;
      forall m | m in seen' ensures exists i | 0 <= i < |cycles'| :: Members(cycles'[i]) == m {
        if m in seen {
          var i :| 0 <= i < |cycles| && Members(cycles[i]) == m;
          assert cycles'[i] == cycles[i];
        }
      }
    }
  }

  function Pushed(s: State, v: Id): State {
    s.(color := s.color[v := Gray], stack := s.stack + [Frame(v, 0)], path := s.path + [v])
  }

  /** A white successor turns gray and goes on top. */
  lemma StepDown(g: Graph, s: State)
    requires Inv(g, s) && HasNext(g, s)
    requires Successor(g, s) in s.color && s.color[Successor(g, s)] == White
    ensures Inv(g, Pushed(Advance(s), Successor(g, s)))
    ensures Whites(Pushed(Advance(s), Successor(g, s)).color) == Whites(s.color) - {Successor(g, s)}
  {
    hide SimpleCycle, Covered, SeenInv, Reported, ExaminedInv, Settled;
    var v := Successor(g, s);
    AdvanceStack(g, s);
    AdvanceExamined(g, s);
    PushStack(g, s.color, Advance(s).stack, s.path, v);
    PushEdges(g, s.color, s.stack, s.path, s.cycles, s.finished, v);
    PushExamined(g, s.color, Advance(s), v);
  }

  lemma PushStack(g: Graph, color: map<Id, Color>, stack: seq<Frame>, path: seq<Id>, v: Id)
    requires StackInv(g, color, stack, path) && v in color && color[v] == White
    requires stack != [] ==> 0 < stack[|stack| - 1].next && g.edges[path[|path| - 1]][stack[|stack| - 1].next - 1] == v
    ensures StackInv(g, color[v := Gray], stack + [Frame(v, 0)], path + [v])
  {
  }

  lemma PushEdges(g: Graph, color: map<Id, Color>, stack: seq<Frame>, path: seq<Id>,
                  cycles: seq<seq<Id>>, finished: seq<Id>, v: Id)
    requires StackInv(g, color, stack, path) && EdgesInv(g, color, stack, cycles, finished) && stack != []
    requires v in color && color[v] == White
    ensures EdgesInv(g, color[v := Gray],
                     stack[|stack| - 1 := Frame(path[|path| - 1], stack[|stack| - 1].next + 1)] + [Frame(v, 0)], cycles, finished)
  {
    var stack' := stack[|stack| - 1 := Frame(path[|path| - 1], stack[|stack| - 1].next + 1)] + [Frame(v, 0)];
    forall i, j | 0 <= i < |stack'| && 0 <= j < Read(stack', i) && stack'[i].node in g.edges && j < |g.edges[stack'[i].node]|
      ensures Settled(g, cycles, finished, stack'[i].node, g.edges[stack'[i].node][j])
    {
      assert i < |stack| && stack'[i].node == stack[i].node && Read(stack', i) == Read(stack, i);
    }
  }

  lemma PushExamined(g: Graph, color: map<Id, Color>, s: State, v: Id)
    requires |s.stack| == |s.path| && ExaminedInv(g, s.stack, s.path, s.finished, s.examined)
    requires v !in s.finished && v !in s.path
    ensures ExaminedInv(g, Pushed(s, v).stack, Pushed(s, v).path, s.finished, s.examined)
  {
  }

  function Popped(s: State): State
    requires s.stack != [] && s.path != []
  {
    var node := s.stack[|s.stack| - 1].node;
    s.(color := s.color[node := Black], stack := s.stack[..|s.stack| - 1], path := s.path[..|s.path| - 1],
       finished := s.finished + [node])
  }

  /** An exhausted iterator: the vertex turns black. */
  lemma StepUp(g: Graph, s: State)
    requires Inv(g, s) && s.stack != []
    requires s.stack[|s.stack| - 1].next == |g.edges[s.stack[|s.stack| - 1].node]|
    ensures Inv(g, Popped(s)) && Whites(Popped(s).color) == Whites(s.color)
    ensures s.stack[|s.stack| - 1].node in s.color
  {
    assert s.color[s.path[|s.path| - 1]] == Gray;
    PopEdges(g, s.color, s.stack, s.path, s.cycles, s.finished);
    PopStack(g, s.color, s.stack, s.path);
    PopExamined(g, s);
  }

  lemma PopStack(g: Graph, color: map<Id, Color>, stack: seq<Frame>, path: seq<Id>)
    requires StackInv(g, color, stack, path) && stack != []
    ensures StackInv(g, color[path[|path| - 1] := Black], stack[..|stack| - 1], path[..|path| - 1])
  {
    assert path == path[..|path| - 1] + [path[|path| - 1]];
  }

  lemma PopExamined(g: Graph, s: State)
    requires StackInv(g, s.color, s.stack, s.path) && s.stack != []
    requires ExaminedInv(g, s.stack, s.path, s.finished, s.examined)
    requires s.stack[|s.stack| - 1].next == |g.edges[s.path[|s.path| - 1]]|
    ensures ExaminedInv(g, s.stack[..|s.stack| - 1], s.path[..|s.path| - 1], s.finished + [s.path[|s.path| - 1]], s.examined)
  {
    assert s.path == s.path[..|s.path| - 1] + [s.path[|s.path| - 1]];
  }

  lemma InvBasics(g: Graph, s: State)
    requires Inv(g, s)
    ensures forall v :: v in s.color <==> v in g.edges
    ensures forall v | v in s.color :: s.color[v] == Gray <==> v in s.path
    ensures |s.stack| == |s.path|
    ensures s.stack != [] ==>
      var top := s.stack[|s.stack| - 1]; top.node in g.edges && top.next <= |g.edges[top.node]|
  {
  }

  // ---------------------------------------------------------------- on the course of the recursive walk

  ghost function Met(color: map<Id, Color>): set<Id> {
    set v | v in color && color[v] != White
  }

  ghost predicate Frames(g: Graph, stack: seq<Frame>, path: seq<Id>) {
    |stack| == |path| && forall i | 0 <= i < |path| :: path[i] in g.edges && stack[i].next <= |g.edges[path[i]]|
  }

  /** What the recursive walk still does when the stack stands as it does, from the top down. */
  ghost function Remaining(g: Graph, stack: seq<Frame>, path: seq<Id>, met: set<Id>): Outcome
    requires Frames(g, stack, path)
    decreases |stack|
  {
    if stack == [] then (met, [])
    else
      var top := Successors(g, path, stack[|stack| - 1].next, met);
      var rest := Remaining(g, stack[..|stack| - 1], path[..|path| - 1], top.0);
      (rest.0, top.1 + rest.1)
  }

  /** The back edges read so far, and what remains, are those of the recursive walk. */
  ghost predicate OnCourse(g: Graph, color: map<Id, Color>, stack: seq<Frame>, path: seq<Id>, cycles: seq<seq<Id>>,
                           read: seq<seq<Id>>, goal: Outcome)
  {
    && Frames(g, stack, path) && cycles == FirstOfEach(read)
    && goal == (Remaining(g, stack, path, Met(color)).0, read + Remaining(g, stack, path, Met(color)).1)
  }

  /** The slot read next, and the stack behind it. */
  ghost predicate ReadsSlot(g: Graph, stack: seq<Frame>, path: seq<Id>, stack': seq<Frame>, v: Id) {
    && Frames(g, stack, path) && stack != [] && stack[|stack| - 1].node == path[|path| - 1]
    && stack[|stack| - 1].next < |g.edges[path[|path| - 1]]| && g.edges[path[|path| - 1]][stack[|stack| - 1].next] == v
    && stack' == stack[|stack| - 1 := Frame(path[|path| - 1], stack[|stack| - 1].next + 1)]
  }

  lemma RemainingUnfolds(g: Graph, stack: seq<Frame>, path: seq<Id>, stack': seq<Frame>, v: Id, met: set<Id>)
    requires ReadsSlot(g, stack, path, stack', v)
    ensures Frames(g, stack', path)
    ensures v !in g.edges || (v !in path && v in met) ==> Remaining(g, stack, path, met) == Remaining(g, stack', path, met)
    ensures v in g.edges && v in path ==>
      Remaining(g, stack, path, met) == (Remaining(g, stack', path, met).0, [Closed(path, v)] + Remaining(g, stack', path, met).1)
  {
    hide Successors;
    var top := |stack| - 1;
    var u, j := path[top], stack[top].next;
    assert stack'[..top] == stack[..top];
    SlotUnfolds(g, path, j, met);
    if v in g.edges && v in path {
      var rest := Successors(g, path, j + 1, met);
      Regroup([Closed(path, v)], rest.1, Remaining(g, stack[..top], path[..top], rest.0).1);
    }
  }

  lemma Regroup<T>(a: seq<T>, b: seq<T>, c: seq<T>)
    ensures a + (b + c) == a + b + c
  {
  }

  lemma SlotUnfolds(g: Graph, path: seq<Id>, j: nat, met: set<Id>)
    requires Reading(g, path, j) && j < |g.edges[path[|path| - 1]]|
    ensures var v, rest := g.edges[path[|path| - 1]][j], Successors(g, path, j + 1, met);
      && (v !in g.edges || (v !in path && v in met) ==> Successors(g, path, j, met) == rest)
      && (v in g.edges && v in path ==> Successors(g, path, j, met) == (rest.0, [Closed(path, v)] + rest.1))
  {
  }

  lemma PushUnfolds(g: Graph, stack: seq<Frame>, path: seq<Id>, stack': seq<Frame>, v: Id, met: set<Id>)
    requires ReadsSlot(g, stack, path, stack', v) && v in g.edges && v !in path && v !in met
    ensures Frames(g, stack' + [Frame(v, 0)], path + [v])
    ensures Remaining(g, stack, path, met) == Remaining(g, stack' + [Frame(v, 0)], path + [v], met + {v})
  {
    hide Successors;
    var top := |stack| - 1;
    var longer, way := stack' + [Frame(v, 0)], path + [v];
    assert longer[..|longer| - 1] == stack' && way[..|way| - 1] == path && stack'[..top] == stack[..top];
    TreeUnfolds(g, path, stack[top].next, met);
    var below := Successors(g, way, 0, met + {v});
    var rest := Successors(g, path, stack[top].next + 1, below.0);
    Regroup(below.1, rest.1, Remaining(g, stack[..top], path[..top], rest.0).1);
  }

  lemma TreeUnfolds(g: Graph, path: seq<Id>, j: nat, met: set<Id>)
    requires Reading(g, path, j) && j < |g.edges[path[|path| - 1]]|
    ensures var v := g.edges[path[|path| - 1]][j];
      v in g.edges && v !in path && v !in met ==>
        var below := Successors(g, path + [v], 0, met + {v});
        var rest := Successors(g, path, j + 1, below.0);
        Successors(g, path, j, met) == (rest.0, below.1 + rest.1)
  {
  }

  lemma PopUnfolds(g: Graph, stack: seq<Frame>, path: seq<Id>, met: set<Id>)
    requires Frames(g, stack, path) && stack != [] && stack[|stack| - 1].next == |g.edges[path[|path| - 1]]|
    ensures Frames(g, stack[..|stack| - 1], path[..|path| - 1])
    ensures Remaining(g, stack, path, met) == Remaining(g, stack[..|stack| - 1], path[..|path| - 1], met)
  {
    var rest := Remaining(g, stack[..|stack| - 1], path[..|path| - 1], met);
    assert Successors(g, path, stack[|stack| - 1].next, met) == (met, []);
    assert [] + rest.1 == rest.1;
  }

  /** A slot passed over: outside the graph, or finished. */
  lemma CourseOver(g: Graph, s: State, read: seq<seq<Id>>, goal: Outcome)
    requires Inv(g, s) && HasNext(g, s) && (Successor(g, s) !in s.color || s.color[Successor(g, s)] == Black)
    requires OnCourse(g, s.color, s.stack, s.path, s.cycles, read, goal)
    ensures OnCourse(g, s.color, Advance(s).stack, s.path, s.cycles, read, goal)
  {
    hide Remaining, EdgesInv, SeenInv, ExaminedInv, Reported;
    AdvanceStack(g, s);
    RemainingUnfolds(g, s.stack, s.path, Advance(s).stack, Successor(g, s), Met(s.color));
  }

  /** A slot that leads back on the path. */
  lemma CourseBack(g: Graph, s: State, cycles': seq<seq<Id>>, read: seq<seq<Id>>, goal: Outcome)
    requires Inv(g, s) && HasNext(g, s) && Successor(g, s) in s.path
    requires OnCourse(g, s.color, s.stack, s.path, s.cycles, read, goal)
    requires cycles' == if Members(Closed(s.path, Successor(g, s))) in s.seen then s.cycles else s.cycles + [Closed(s.path, Successor(g, s))]
    ensures OnCourse(g, s.color, Advance(s).stack, s.path, cycles', read + [Closed(s.path, Successor(g, s))], goal)
  {
    hide Remaining, EdgesInv, ExaminedInv, Reported, FirstOfEach, Closed;
    AdvanceStack(g, s);
    var v := Successor(g, s);
    var c := Closed(s.path, v);
    RemainingUnfolds(g, s.stack, s.path, Advance(s).stack, v, Met(s.color));
    Regroup(read, [c], Remaining(g, Advance(s).stack, s.path, Met(s.color)).1);
    FirstsAppend(read, c);
    SeenIsTold(s.seen, s.cycles, Members(c));
  }

  lemma SeenIsTold(seen: set<set<Id>>, cycles: seq<seq<Id>>, members: set<Id>)
    requires SeenInv(seen, cycles)
    ensures members in seen <==> HasMembers(cycles, members)
  {
  }

  /** A slot that leads to a vertex not met before. */
  lemma CourseDown(g: Graph, s: State, read: seq<seq<Id>>, goal: Outcome)
    requires Inv(g, s) && HasNext(g, s) && Successor(g, s) in s.color && s.color[Successor(g, s)] == White
    requires OnCourse(g, s.color, s.stack, s.path, s.cycles, read, goal)
    ensures var t := Pushed(Advance(s), Successor(g, s)); OnCourse(g, t.color, t.stack, t.path, s.cycles, read, goal)
  {
    hide Remaining, EdgesInv, SeenInv, ExaminedInv, Reported, FirstOfEach;
    AdvanceStack(g, s);
    var v := Successor(g, s);
    PushUnfolds(g, s.stack, s.path, Advance(s).stack, v, Met(s.color));
    assert Met(s.color[v := Gray]) == Met(s.color) + {v};
  }

  /** A vertex all of whose slots are read. */
  lemma CourseUp(g: Graph, s: State, read: seq<seq<Id>>, goal: Outcome)
    requires Inv(g, s) && s.stack != [] && s.stack[|s.stack| - 1].next == |g.edges[s.stack[|s.stack| - 1].node]|
    requires OnCourse(g, s.color, s.stack, s.path, s.cycles, read, goal)
    ensures |s.path| == |s.stack|
    ensures OnCourse(g, Popped(s).color, Popped(s).stack, Popped(s).path, s.cycles, read, goal)
  {
    hide Remaining, EdgesInv, SeenInv, ExaminedInv, Reported, FirstOfEach;
    PopUnfolds(g, s.stack, s.path, Met(s.color));
    assert s.color[s.path[|s.path| - 1]] == Gray;
    assert Met(Popped(s).color) == Met(s.color);
  }

  lemma CourseStarts(g: Graph, color: map<Id, Color>, root: Id, cycles: seq<seq<Id>>, read: seq<seq<Id>>)
    requires root in g.edges && root in color && cycles == FirstOfEach(read)
    ensures Reading(g, [root], 0)
    ensures var tree := Successors(g, [root], 0, Met(color) + {root});
      OnCourse(g, color[root := Gray], [Frame(root, 0)], [root], cycles, read, (tree.0, read + tree.1))
  {
    hide Successors;
    assert Met(color[root := Gray]) == Met(color) + {root};
    var stack, tree := [Frame(root, 0)], Successors(g, [root], 0, Met(color) + {root});
    assert stack[..0] == [] && [root][..0] == [];
    assert tree.1 + [] == tree.1;
    assert Remaining(g, stack[..0], [root][..0], tree.0) == (tree.0, []);
    assert Remaining(g, stack, [root], Met(color) + {root}) == tree;
  }

  // ---------------------------------------------------------------- the search

  /** The successors of the top entry, from where its iterator stands, up to the first white one. */
  method ReadSuccessors(g: Graph, color0: map<Id, Color>, stack0: seq<Frame>, path0: seq<Id>, seen0: set<set<Id>>,
                        cycles0: seq<seq<Id>>, ghost finished: seq<Id>, ghost examined0: multiset<(Id, nat)>,
                        ghost read0: seq<seq<Id>>, ghost goal: Outcome)
    returns (color: map<Id, Color>, stack: seq<Frame>, path: seq<Id>, seen: set<set<Id>>,
             cycles: seq<seq<Id>>, ghost examined: multiset<(Id, nat)>, ghost read: seq<seq<Id>>, pushed: bool)
    requires Inv(g, State(color0, stack0, path0, seen0, cycles0, finished, examined0)) && stack0 != []
    requires OnCourse(g, color0, stack0, path0, cycles0, read0, goal)
    ensures Inv(g, State(color, stack, path, seen, cycles, finished, examined))
    ensures OnCourse(g, color, stack, path, cycles, read, goal)
    ensures color.Keys == color0.Keys
    ensures if pushed then Whites(color) < Whites(color0)
            else && color == color0 && |stack| == |stack0|
                 && stack[|stack| - 1].next == |g.edges[stack[|stack| - 1].node]|
  {
    hide Inv, OnCourse;
    InvBasics(g, State(color0, stack0, path0, seen0, cycles0, finished, examined0));
    color, stack, path, seen, cycles, examined, read := color0, stack0, path0, seen0, cycles0, examined0, read0;
    var node := stack[|stack| - 1].node;
    while stack[|stack| - 1].next < |g.edges[node]|
      invariant |stack| == |stack0| && stack[|stack| - 1].next <= |g.edges[node]| && node == stack[|stack| - 1].node && node in g.edges
      invariant color == color0 && path == path0
      invariant Inv(g, State(color, stack, path, seen, cycles, finished, examined))
      invariant OnCourse(g, color, stack, path, cycles, read, goal)
      decreases |g.edges[node]| - stack[|stack| - 1].next
    {
      ghost var s := State(color, stack, path, seen, cycles, finished, examined);
      var top := stack[|stack| - 1];
      var successor := g.edges[node][top.next];
      stack := stack[|stack| - 1 := Frame(node, top.next + 1)];
      examined := examined + multiset{(node, top.next)};
      if successor !in color {
        StepOver(g, s);
        CourseOver(g, s, read, goal);
      } else if color[successor] == Gray {
        var cycle := path[IndexOf(path, successor)..] + [successor];
        var members := Members(cycle);
        if members !in seen {
          seen := seen + {members};
          cycles := cycles + [cycle];
        }
        StepBack(g, s, cycle, seen, cycles);
        CourseBack(g, s, cycles, read, goal);
        read := read + [cycle];
      } else if color[successor] == White {
        StepDown(g, s);
        CourseDown(g, s, read, goal);
        color := color[successor := Gray];
        stack := stack + [Frame(successor, 0)];
        path := path + [successor];
        assert successor in Whites(color0);
        pushed := true;
        return;
      } else {
        StepOver(g, s);
        CourseOver(g, s, read, goal);
      }
    }
    pushed := false;
  }

  /** One root: the walk over everything white that can be reached from it. */
  method Explore(g: Graph, root: Id, color0: map<Id, Color>, cycles0: seq<seq<Id>>, seen0: set<set<Id>>,
                 ghost finished0: seq<Id>, ghost examined0: multiset<(Id, nat)>, ghost read0: seq<seq<Id>>)
    returns (color: map<Id, Color>, cycles: seq<seq<Id>>, seen: set<set<Id>>,
             ghost finished: seq<Id>, ghost examined: multiset<(Id, nat)>, ghost read: seq<seq<Id>>)
    requires root in color0 && color0[root] == White && root in g.edges && cycles0 == FirstOfEach(read0)
    requires Inv(g, State(color0, [], [], seen0, cycles0, finished0, examined0))
    ensures Inv(g, State(color, [], [], seen, cycles, finished, examined))
    ensures Kept(color0, color) && root !in Whites(color)
    ensures var tree := Successors(g, [root], 0, Met(color0) + {root});
      Met(color) == tree.0 && read == read0 + tree.1 && cycles == FirstOfEach(read)
  {
    hide Inv, OnCourse, Successors, FirstOfEach;
    cycles, seen, finished, examined, read := cycles0, seen0, finished0, examined0, read0;
    ghost var tree := Successors(g, [root], 0, Met(color0) + {root});
    ghost var goal := (tree.0, read0 + tree.1);
    CourseStarts(g, color0, root, cycles0, read0);
    color := color0[root := Gray];
    var stack := [Frame(root, 0)];
    var path := [root];
    StartRoot(g, State(color0, [], [], seen0, cycles0, finished0, examined0), root);
    assert [] + stack == stack && [] + path == path;
    while stack != []
      invariant Inv(g, State(color, stack, path, seen, cycles, finished, examined))
      invariant Kept(color0, color) && root !in Whites(color)
      invariant OnCourse(g, color, stack, path, cycles, read, goal)
      decreases Whites(color), |stack|
    {
      var pushed;
      color, stack, path, seen, cycles, examined, read, pushed :=
        ReadSuccessors(g, color, stack, path, seen, cycles, finished, examined, read, goal);
      if !pushed {
        var node := stack[|stack| - 1].node;
        CourseUp(g, State(color, stack, path, seen, cycles, finished, examined), read, goal);
        InvBasics(g, State(color, stack, path, seen, cycles, finished, examined));
        StepUp(g, State(color, stack, path, seen, cycles, finished, examined));
        color := color[node := Black];
        finished := finished + [node];
        stack := stack[..|stack| - 1];
        path := path[..|path| - 1];
      }
    }
    InvBasics(g, State(color, stack, path, seen, cycles, finished, examined));
    assert path == [];
    CourseEnds(g, color, cycles, read, goal);
  }

  lemma CourseEnds(g: Graph, color: map<Id, Color>, cycles: seq<seq<Id>>, read: seq<seq<Id>>, goal: Outcome)
    requires OnCourse(g, color, [], [], cycles, read, goal)
    ensures goal == (Met(color), read) && cycles == FirstOfEach(read)
  {
    assert read + [] == read;
  }

  lemma StartRoot(g: Graph, s: State, root: Id)
    requires Inv(g, s) && s.stack == [] && root in s.color && s.color[root] == White
    ensures Inv(g, Pushed(s, root)) && Kept(s.color, Pushed(s, root).color)
  {
    PushStack(g, s.color, s.stack, s.path, root);
    PushExamined(g, s.color, s, root);
  }

  /** Every cycle the depth-first walk meets: of the cycles that back edges close in the recursive walk
      the first for each set of vertices, in order. So each reported list is a simple closed path,
      no two have the same vertices, and every closed walk of the graph runs along an edge both of
      whose ends lie on one reported cycle; and every successor slot is read exactly once. */
  method FindCycles(g: Graph) returns (cycles: seq<seq<Id>>, ghost examined: multiset<(Id, nat)>)
    requires g.Valid()
    ensures cycles == FirstOfEach(BackEdgeCycles(g))
    ensures Reported(g, cycles)
    ensures forall walk | ClosedWalk(g, walk) :: exists i | 0 <= i < |walk| - 1 :: Covered(cycles, walk[i], walk[i + 1])
    ensures cycles == [] <==> Acyclic(g)
    ensures forall u, j: nat :: examined[(u, j)] == if u in g.edges && j < |g.edges[u]| then 1 else 0
  {
    var color: map<Id, Color> := map v | v in g.edges :: White;
    var seen: set<set<Id>> := {};
    ghost var finished: seq<Id> := [];
    ghost var read: seq<seq<Id>> := [];
    cycles, examined := [], multiset{};
    hide Inv, Successors, Roots, FirstOfEach, Reported, ClosedWalk, Covered, Acyclic, Met;
    StartAll(g);
    NothingMet(g);
    for r := 0 to |g.keys|
      invariant Inv(g, State(color, [], [], seen, cycles, finished, examined))
      invariant forall i | 0 <= i < r :: g.keys[i] !in Whites(color)
      invariant (Met(color), read) == Roots(g, r) && cycles == FirstOfEach(read)
    {
      var root := g.keys[r];
      RootIsAVertex(g, State(color, [], [], seen, cycles, finished, examined), r);
      RootsStep(g, r);
      MetIs(color, root);
      if color[root] != White {
        continue;
      }
      color, cycles, seen, finished, examined, read := Explore(g, root, color, cycles, seen, finished, examined, read);
    }
    NoWhitesLeft(g, State(color, [], [], seen, cycles, finished, examined));
    WalkDone(g, State(color, [], [], seen, cycles, finished, examined));
  }

  lemma NothingMet(g: Graph)
    requires g.Valid()
    ensures var color: map<Id, Color> := map v | v in g.edges :: White; (Met(color), []) == Roots(g, 0) && [] == FirstOfEach([])
  {
    var color: map<Id, Color> := map v | v in g.edges :: White;
    assert Met(color) == {};
  }

  lemma RootsStep(g: Graph, n: nat)
    requires g.Valid() && n < |g.keys|
    ensures Reading(g, [g.keys[n]], 0)
    ensures var before, root := Roots(g, n), g.keys[n];
      Roots(g, n + 1) == if root in before.0 then before
                         else (var tree := Successors(g, [root], 0, before.0 + {root}); (tree.0, before.1 + tree.1))
  {
    hide Successors;
  }

  lemma MetIs(color: map<Id, Color>, v: Id)
    ensures v in Met(color) <==> v in color && color[v] != White
  {
  }

  lemma StartAll(g: Graph)
    ensures Inv(g, State(map v | v in g.edges :: White, [], [], {}, [], [], multiset{}))
  {
  }

  lemma RootIsAVertex(g: Graph, s: State, r: nat)
    requires g.Valid() && Inv(g, s) && s.stack == [] && r < |g.keys|
    ensures g.keys[r] in s.color && (s.color[g.keys[r]] != White <==> g.keys[r] !in Whites(s.color))
  {
  }

  lemma NoWhitesLeft(g: Graph, s: State)
    requires g.Valid() && Inv(g, s) && forall i | 0 <= i < |g.keys| :: g.keys[i] !in Whites(s.color)
    ensures Whites(s.color) == {}
  {
  }

  lemma WalkDone(g: Graph, s: State)
    requires Inv(g, s) && s.stack == [] && Whites(s.color) == {}
    ensures Reported(g, s.cycles)
    ensures forall walk | ClosedWalk(g, walk) :: exists i | 0 <= i < |walk| - 1 :: Covered(s.cycles, walk[i], walk[i + 1])
    ensures s.cycles == [] <==> Acyclic(g)
    ensures forall u, j: nat :: s.examined[(u, j)] == if u in g.edges && j < |g.edges[u]| then 1 else 0
  {
    forall u | u in g.edges ensures u in s.finished {
      assert u in s.color && u !in Whites(s.color) && u !in s.path;
    }
    forall walk | ClosedWalk(g, walk)
      ensures exists i | 0 <= i < |walk| - 1 :: Covered(s.cycles, walk[i], walk[i + 1])
    {
      EveryCycleIsTouched(g, s.cycles, s.finished, walk);
    }
    if s.cycles != [] {
      assert ClosedWalk(g, s.cycles[0]);
    }
  }
}
