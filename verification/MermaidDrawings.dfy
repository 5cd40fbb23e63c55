/** Which drawings the Mermaid checker accepts. */
module MermaidDrawings {
  import opened Options
  import opened MermaidLabels
  import opened Mermaid

  datatype Node = Node(id: string, text: string)

  datatype Statement =
    | Single(node: Node)
    | Arrow(source: string, target: string, arrowText: Option<string>)
    | Block(id: string, text: string, nodes: seq<Node>)
    | StyleClass(name: string, styles: string)
    | Members(members: seq<string>, name: string)
    | Paint(index: nat, styles: string)

  // ---------------------------------------------------------------- writing a drawing

  function NodeLine(node: Node, indent: nat): Line {
    Drawn(indent, NodeDef(node.id, node.text))
  }

  function NodeLines(nodes: seq<Node>): seq<Line> {
    seq(|nodes|, i requires 0 <= i < |nodes| => NodeLine(nodes[i], 4))
  }

  /** The lines of a statement; a block stands between its title and `end`. */
  function StatementLines(s: Statement): seq<Line> {
    match s
    case Single(node) => [NodeLine(node, 2)]
    case Arrow(source, target, text) => [Drawn(2, Edge(source, target, text))]
    case Block(id, text, nodes) => OpenLines(id, text, nodes) + [Drawn(2, End)]
    case StyleClass(name, styles) => [Drawn(2, ClassDef(name, styles))]
    case Members(members, name) => [Drawn(2, Class(members, name))]
    case Paint(index, styles) => [Drawn(2, LinkStyle(index, styles))]
  }

  function OpenLines(id: string, text: string, nodes: seq<Node>): seq<Line> {
    [Drawn(2, Subgraph(id, text))] + NodeLines(nodes)
  }

  function Body(drawing: seq<Statement>): seq<Line> {
    if drawing == [] then [] else Body(drawing[..|drawing| - 1]) + StatementLines(drawing[|drawing| - 1])
  }

  function Print(drawing: seq<Statement>): seq<Line> {
    [Header] + Body(drawing)
  }

  // ---------------------------------------------------------------- what makes a drawing good

  function NodesOf(s: Statement): seq<Node> {
    match s
    case Single(node) => [node]
    case Block(_, _, nodes) => nodes
    case _ => []
  }

  function AllNodes(drawing: seq<Statement>): seq<Node> {
    if drawing == [] then [] else AllNodes(drawing[..|drawing| - 1]) + NodesOf(drawing[|drawing| - 1])
  }

  function IdSet(nodes: seq<Node>): set<string> {
    set n | n in nodes :: n.id
  }

  function ClassNames(drawing: seq<Statement>): set<string> {
    set s | s in drawing && s.StyleClass? :: s.name
  }

  function Arrows(drawing: seq<Statement>): nat {
    if drawing == [] then 0 else Arrows(drawing[..|drawing| - 1]) + if drawing[|drawing| - 1].Arrow? then 1 else 0
  }

  function CollectedFrom(drawing: seq<Statement>): Collected {
    Collected(IdSet(AllNodes(drawing)), ClassNames(drawing), Arrows(drawing))
  }

  predicate GoodNode(node: Node) {
    node.id !in KEYWORDS && LabelIsEscaped(node.text)
  }

  predicate GoodStatement(c: Collected, styles: Styles, s: Statement) {
    match s
    case Single(node) => GoodNode(node)
    case Arrow(source, target, text) => source in c.nodes && target in c.nodes && (text.Some? ==> LabelIsEscaped(text.value))
    case Block(id, text, nodes) =>
      id !in KEYWORDS && LabelIsEscaped(text) && id !in c.nodes && forall n | n in nodes :: GoodNode(n)
    case StyleClass(name, decls) => name !in KEYWORDS && styles.node(decls)
    case Members(members, name) => (forall m | m in members :: m in c.nodes) && name in c.classes
    case Paint(index, decls) => index < c.links && styles.link(decls)
  }

  ghost predicate EachOnce(nodes: seq<Node>) {
    forall i, j | 0 <= i < j < |nodes| :: nodes[i].id != nodes[j].id
  }

  /** Every id is defined once, every reference is to what the drawing holds, every word is allowed. */
  ghost predicate Good(drawing: seq<Statement>, styles: Styles) {
    EachOnce(AllNodes(drawing)) && forall s | s in drawing :: GoodStatement(CollectedFrom(drawing), styles, s)
  }

  // ---------------------------------------------------------------- blank lines and comments

  function Drop(lines: seq<Line>): seq<Line> {
    if lines == [] then []
    else Drop(lines[..|lines| - 1]) + if Skipped(lines[|lines| - 1]) then [] else [lines[|lines| - 1]]
  }

  predicate NoDirectives(lines: seq<Line>) {
    Comment(true) !in lines
  }

  lemma StateStep(lines: seq<Line>, line: Line)
    ensures StateAfter(lines + [line]) == Next(StateAfter(lines), line)
  {
    assert (lines + [line])[..|lines|] == lines;
  }

  lemma CollectStep(lines: seq<Line>, line: Line)
    ensures CollectedIn(lines + [line]) == Collect(CollectedIn(lines), line)
  {
    assert (lines + [line])[..|lines|] == lines;
  }

  /** Nothing is wrong up to here. */
  ghost predicate Clean(c: Collected, styles: Styles, lines: seq<Line>) {
    ProblemsOf(c, styles, lines) == []
  }

  lemma CleanStep(c: Collected, styles: Styles, lines: seq<Line>, line: Line)
    ensures Clean(c, styles, lines + [line]) <==> Clean(c, styles, lines) && LineProblems(c, styles, StateAfter(lines), line) == []
  {
    hide LineProblems, StateAfter;
    assert (lines + [line])[..|lines|] == lines;
    var whys := LineProblems(c, styles, StateAfter(lines), line);
    assert |At(|lines| + 1, whys)| == |whys|;
  }

  /** Blank lines and comments change nothing, directive blocks aside. */
  lemma {:induction false} DropChangesNothing(c: Collected, styles: Styles, lines: seq<Line>)
    ensures StateAfter(Drop(lines)) == StateAfter(lines) && CollectedIn(Drop(lines)) == CollectedIn(lines)
    ensures Clean(c, styles, lines) <==> Clean(c, styles, Drop(lines)) && NoDirectives(lines)
  {
    hide Clean, StateAfter, CollectedIn, DrawnProblems;
    if lines == [] {
      assert Drop(lines) == lines;
      NothingIsClean(c, styles);
    } else {
      var front, line := lines[..|lines| - 1], lines[|lines| - 1];
      assert lines == front + [line];
      DropChangesNothing(c, styles, front);
      StateStep(front, line);
      CollectStep(front, line);
      CleanStep(c, styles, front, line);
      if Skipped(line) {
        assert Drop(lines) == Drop(front);
      } else {
        StateStep(Drop(front), line);
        CollectStep(Drop(front), line);
        CleanStep(c, styles, Drop(front), line);
      }
    }
  }

  lemma NothingIsClean(c: Collected, styles: Styles)
    ensures Clean(c, styles, [])
  {
  }

  // ---------------------------------------------------------------- a good drawing is accepted

  lemma IdSetStep(nodes: seq<Node>, node: Node)
    ensures IdSet(nodes + [node]) == IdSet(nodes) + {node.id}
  {
    assert forall n :: n in nodes + [node] <==> n in nodes || n == node;
  }

  lemma NodeIsFine(c: Collected, styles: Styles, state: State, node: Node)
    requires GoodNode(node) && node.id !in state.defined && state.header
    ensures LineProblems(c, styles, state, NodeLine(node, if state.inSubgraph then 4 else 2)) == []
  {
  }

  /** Good nodes inside an open block. */
  lemma {:induction false} NodesKeepClean(c: Collected, styles: Styles, lines: seq<Line>, nodes: seq<Node>, defined: set<string>)
    requires Clean(c, styles, lines) && StateAfter(lines) == State(defined, true, true)
    requires (forall n | n in nodes :: GoodNode(n) && n.id !in defined) && EachOnce(nodes)
    ensures Clean(c, styles, lines + NodeLines(nodes))
    ensures StateAfter(lines + NodeLines(nodes)) == State(defined + IdSet(nodes), true, true)
  {
    hide Clean, StateAfter, LineProblems, GoodNode;
    if nodes == [] {
      assert lines + NodeLines(nodes) == lines;
    } else {
      var front, node := nodes[..|nodes| - 1], nodes[|nodes| - 1];
      assert nodes == front + [node];
      assert node in nodes && node.id !in IdSet(front);
      NodesKeepClean(c, styles, lines, front, defined);
      IdSetStep(front, node);
      var before := lines + NodeLines(front);
      assert lines + NodeLines(nodes) == before + [NodeLine(node, 4)];
      NodeIsFine(c, styles, StateAfter(before), node);
      CleanStep(c, styles, before, NodeLine(node, 4));
      StateStep(before, NodeLine(node, 4));
    }
  }

  lemma {:induction false} MembersAreFine(c: Collected, members: seq<string>)
    ensures MemberProblems(c, members) == [] <==> forall m | m in members :: m in c.nodes
  {
    if members != [] {
      var last := |members| - 1;
      MembersAreFine(c, members[..last]);
      assert members == members[..last] + [members[last]];
    }
  }

  predicate NoKeywords(c: Collected) {
    forall id | id in c.nodes :: id !in KEYWORDS
  }

  /** A line of its own: not a node, not the border of a block. */
  lemma FormIsFine(c: Collected, styles: Styles, s: Statement)
    requires NoKeywords(c) && !s.Single? && !s.Block?
    ensures FormProblems(c, styles, StatementLines(s)[0].shape) == [] <==> GoodStatement(c, styles, s)
  {
    match s
    case Arrow(source, target, text) => FormOfArrow(c, styles, source, target, text);
    case Members(members, name) => MembersAreFine(c, members);
    case _ =>
  }

  lemma FormOfArrow(c: Collected, styles: Styles, source: string, target: string, text: Option<string>)
    requires NoKeywords(c)
    ensures FormProblems(c, styles, Edge(source, target, text)) == [] <==> GoodStatement(c, styles, Arrow(source, target, text))
  {
    hide LabelIsEscaped;
    assert EndpointProblems(c, source) == [] <==> source in c.nodes;
    assert EndpointProblems(c, target) == [] <==> target in c.nodes;
    var ends := EndpointProblems(c, source) + EndpointProblems(c, target);
    assert ends == [] <==> EndpointProblems(c, source) == [] && EndpointProblems(c, target) == [];
    var more := if text.Some? then LabelProblems(text.value) else [];
    assert ends + more == [] <==> ends == [] && more == [];
  }

  /** A good statement adds no problem, and its nodes to what is defined. */
  lemma StatementKeepsClean(c: Collected, styles: Styles, lines: seq<Line>, s: Statement, defined: set<string>)
    requires Clean(c, styles, lines) && StateAfter(lines) == State(defined, true, false)
    requires NoKeywords(c) && GoodStatement(c, styles, s)
    requires (forall n | n in NodesOf(s) :: n.id !in defined) && EachOnce(NodesOf(s))
    ensures Clean(c, styles, lines + StatementLines(s))
    ensures StateAfter(lines + StatementLines(s)) == State(defined + IdSet(NodesOf(s)), true, false)
  {
    hide Clean, StateAfter, GoodNode, FormProblems, LabelIsEscaped;
    if s.Single? {
      assert s.node in NodesOf(s);
      assert IdSet([s.node]) == {s.node.id};
      NodeIsFine(c, styles, StateAfter(lines), s.node);
      CleanStep(c, styles, lines, NodeLine(s.node, 2));
      StateStep(lines, NodeLine(s.node, 2));
    } else if s.Block? {
      BlockKeepsClean(c, styles, lines, s, defined);
    } else {
      var line := StatementLines(s)[0];
      FormIsFine(c, styles, s);
      assert IdSet([]) == {};
      CleanStep(c, styles, lines, line);
      StateStep(lines, line);
    }
  }

  lemma BlockKeepsClean(c: Collected, styles: Styles, lines: seq<Line>, s: Statement, defined: set<string>)
    requires Clean(c, styles, lines) && StateAfter(lines) == State(defined, true, false)
    requires s.Block? && GoodStatement(c, styles, s)
    requires (forall n | n in s.nodes :: n.id !in defined) && EachOnce(s.nodes)
    ensures Clean(c, styles, lines + StatementLines(s))
    ensures StateAfter(lines + StatementLines(s)) == State(defined + IdSet(s.nodes), true, false)
  {
    hide Clean, StateAfter, GoodNode, LabelIsEscaped;
    var title := Drawn(2, Subgraph(s.id, s.text));
    CleanStep(c, styles, lines, title);
    StateStep(lines, title);
    NodesKeepClean(c, styles, lines + [title], s.nodes, defined);
    var before := lines + [title] + NodeLines(s.nodes);
    CleanStep(c, styles, before, Drawn(2, End));
    StateStep(before, Drawn(2, End));
    assert lines + StatementLines(s) == before + [Drawn(2, End)];
  }

  // ---------------------------------------------------------------- what pass one collects

  lemma {:induction false} NodesAreCollected(lines: seq<Line>, nodes: seq<Node>)
    ensures CollectedIn(lines + NodeLines(nodes)) == CollectedIn(lines).(nodes := CollectedIn(lines).nodes + IdSet(nodes))
  {
    hide CollectedIn;
    if nodes == [] {
      assert lines + NodeLines(nodes) == lines;
    } else {
      var front, node := nodes[..|nodes| - 1], nodes[|nodes| - 1];
      assert nodes == front + [node];
      NodesAreCollected(lines, front);
      IdSetStep(front, node);
      assert lines + NodeLines(nodes) == lines + NodeLines(front) + [NodeLine(node, 4)];
      CollectStep(lines + NodeLines(front), NodeLine(node, 4));
    }
  }

  lemma StatementIsCollected(lines: seq<Line>, s: Statement)
    ensures CollectedIn(lines + StatementLines(s)) ==
      var c := CollectedIn(lines);
      Collected(c.nodes + IdSet(NodesOf(s)), c.classes + (if s.StyleClass? then {s.name} else {}), c.links + if s.Arrow? then 1 else 0)
  {
    hide CollectedIn;
    assert IdSet([]) == {};
    match s
    case Single(node) =>
      assert IdSet([node]) == {node.id};
      CollectStep(lines, NodeLine(node, 2));
    case Block(id, text, nodes) =>
      var title := Drawn(2, Subgraph(id, text));
      CollectStep(lines, title);
      NodesAreCollected(lines + [title], nodes);
      CollectStep(lines + [title] + NodeLines(nodes), Drawn(2, End));
      assert lines + StatementLines(s) == lines + [title] + NodeLines(nodes) + [Drawn(2, End)];
    case _ =>
      CollectStep(lines, StatementLines(s)[0]);
  }

  lemma IdSetOfBoth(a: seq<Node>, b: seq<Node>)
    ensures IdSet(a + b) == IdSet(a) + IdSet(b)
  {
    assert forall n :: n in a + b <==> n in a || n in b;
  }

  /** Pass one collects what the drawing defines. */
  lemma {:induction false} PrintedIsCollected(drawing: seq<Statement>)
    ensures CollectedIn(Print(drawing)) == CollectedFrom(drawing)
  {
    hide CollectedIn, StatementLines, NodesOf;
    CollectStep([], Header);
    assert [] + [Header] == [Header];
    CollectedInNothing();
    if drawing == [] {
      assert Print(drawing) == [Header] && IdSet([]) == {};
    } else {
      var front, s := drawing[..|drawing| - 1], drawing[|drawing| - 1];
      assert drawing == front + [s];
      PrintedIsCollected(front);
      StatementIsCollected(Print(front), s);
      IdSetOfBoth(AllNodes(front), NodesOf(s));
      assert Print(drawing) == Print(front) + StatementLines(s);
      assert ClassNames(drawing) == ClassNames(front) + if s.StyleClass? then {s.name} else {};
    }
  }

  lemma CollectedInNothing()
    ensures CollectedIn([]) == Collected({}, {}, 0) && StateAfter([]) == State({}, false, false)
  {
  }

  lemma EachOnceParts(a: seq<Node>, b: seq<Node>)
    requires EachOnce(a + b)
    ensures EachOnce(a) && EachOnce(b) && forall n | n in b :: n.id !in IdSet(a)
  {
    forall i, j | 0 <= i < j < |a| ensures a[i].id != a[j].id {
      assert (a + b)[i] == a[i] && (a + b)[j] == a[j];
    }
    forall i, j | 0 <= i < j < |b| ensures b[i].id != b[j].id {
      assert (a + b)[|a| + i] == b[i] && (a + b)[|a| + j] == b[j];
    }
    forall i, j | 0 <= i < |a| && 0 <= j < |b| ensures a[i].id != b[j].id {
      assert (a + b)[i] == a[i] && (a + b)[|a| + j] == b[j];
    }
  }

  lemma {:induction false} PrintedIsClean(c: Collected, styles: Styles, drawing: seq<Statement>)
    requires NoKeywords(c) && EachOnce(AllNodes(drawing)) && forall s | s in drawing :: GoodStatement(c, styles, s)
    ensures Clean(c, styles, Print(drawing)) && StateAfter(Print(drawing)) == State(IdSet(AllNodes(drawing)), true, false)
  {
    hide Clean, StateAfter, GoodStatement, StatementLines, NodesOf, EachOnce, DrawnProblems;
    if drawing == [] {
      NothingIsClean(c, styles);
      CollectedInNothing();
      assert [] + [Header] == Print(drawing) && IdSet([]) == {};
      CleanStep(c, styles, [], Header);
      StateStep([], Header);
    } else {
      var front, s := drawing[..|drawing| - 1], drawing[|drawing| - 1];
      assert drawing == front + [s];
      assert s in drawing;
      EachOnceParts(AllNodes(front), NodesOf(s));
      PrintedIsClean(c, styles, front);
      StatementKeepsClean(c, styles, Print(front), s, IdSet(AllNodes(front)));
      IdSetOfBoth(AllNodes(front), NodesOf(s));
      assert Print(drawing) == Print(front) + StatementLines(s);
    }
  }

  lemma {:induction false} NodesAreGood(c: Collected, styles: Styles, drawing: seq<Statement>)
    requires forall s | s in drawing :: GoodStatement(c, styles, s)
    ensures forall id | id in IdSet(AllNodes(drawing)) :: id !in KEYWORDS
  {
    if drawing != [] {
      var front, s := drawing[..|drawing| - 1], drawing[|drawing| - 1];
      assert drawing == front + [s];
      NodesAreGood(c, styles, front);
      assert s in drawing;
      IdSetOfBoth(AllNodes(front), NodesOf(s));
    }
  }

  /** Every good drawing is accepted, however many blank lines and comments stand between its lines. */
  lemma GoodDrawingsAreAccepted(styles: Styles, lines: seq<Line>, drawing: seq<Statement>)
    requires Good(drawing, styles) && Drop(lines) == Print(drawing) && NoDirectives(lines)
    ensures AllProblems(styles, lines, true) == []
  {
    hide GoodStatement, EachOnce, NoKeywords, StateAfter, CollectedIn, ProblemsOf;
    var c := CollectedFrom(drawing);
    NodesAreGood(c, styles, drawing);
    assert NoKeywords(c) by { NoKeywordsIs(c); }
    PrintedIsCollected(drawing);
    PrintedIsClean(c, styles, drawing);
    DropChangesNothing(c, styles, lines);
  }

  lemma NoKeywordsIs(c: Collected)
    requires forall id | id in c.nodes :: id !in KEYWORDS
    ensures NoKeywords(c)
  {
  }

  // ---------------------------------------------------------------- what is accepted is a good drawing

  /** The statements read so far, and the block that is still open. */
  datatype Parsed = Parsed(closed: seq<Statement>, open: Option<Statement>) {
    function Nodes(): seq<Node> {
      AllNodes(closed) + if open.Some? then NodesOf(open.value) else []
    }

    function Lines(): seq<Line> {
      Print(closed) + if open.Some? && open.value.Block? then OpenLines(open.value.id, open.value.text, open.value.nodes) else []
    }
  }

  function ParseLine(p: Parsed, line: Line): Parsed {
    match ShapeOf(line)
    case NodeDef(id, text) =>
      if p.open.Some? && p.open.value.Block? then
        p.(open := Some(p.open.value.(nodes := p.open.value.nodes + [Node(id, text)])))
      else p.(closed := p.closed + [Single(Node(id, text))])
    case End => if p.open.Some? then Parsed(p.closed + [p.open.value], None) else p
    case Subgraph(id, text) => p.(open := Some(Block(id, text, [])))
    case Edge(source, target, text) => p.(closed := p.closed + [Arrow(source, target, text)])
    case ClassDef(name, styles) => p.(closed := p.closed + [StyleClass(name, styles)])
    case Class(members, name) => p.(closed := p.closed + [Members(members, name)])
    case LinkStyle(index, styles) => p.(closed := p.closed + [Paint(index, styles)])
    case Other => p
  }

  /** The parse says what the state says, and every statement of it is good. */
  ghost predicate Tracks(c: Collected, styles: Styles, state: State, p: Parsed, seen: seq<Line>) {
    && seen == p.Lines() && state.header
    && (state.inSubgraph <==> p.open.Some?)
    && (p.open.Some? ==> p.open.value.Block? && GoodStatement(c, styles, p.open.value))
    && (forall s | s in p.closed :: GoodStatement(c, styles, s))
    && state.defined == IdSet(p.Nodes()) && EachOnce(p.Nodes())
  }

  lemma BodyStep(drawing: seq<Statement>, s: Statement)
    ensures Print(drawing + [s]) == Print(drawing) + StatementLines(s)
    ensures AllNodes(drawing + [s]) == AllNodes(drawing) + NodesOf(s)
  {
    hide StatementLines, NodesOf;
    assert (drawing + [s])[..|drawing|] == drawing;
  }

  lemma OnceMore(nodes: seq<Node>, node: Node)
    requires EachOnce(nodes) && node.id !in IdSet(nodes)
    ensures EachOnce(nodes + [node]) && IdSet(nodes + [node]) == IdSet(nodes) + {node.id}
  {
    IdSetStep(nodes, node);
  }

  lemma NodeRaisesNothing(c: Collected, styles: Styles, state: State, line: Line)
    requires state.header && ShapeOf(line).NodeDef? && LineProblems(c, styles, state, line) == []
    ensures var node := Node(line.shape.id, line.shape.text);
      line == NodeLine(node, if state.inSubgraph then 4 else 2) && GoodNode(node) && node.id !in state.defined
  {
    hide LabelIsEscaped;
  }

  lemma NodeInsideIsTracked(c: Collected, styles: Styles, state: State, p: Parsed, seen: seq<Line>, line: Line)
    requires Tracks(c, styles, state, p, seen) && ShapeOf(line).NodeDef? && LineProblems(c, styles, state, line) == []
    requires state.inSubgraph
    ensures Tracks(c, styles, Next(state, line), ParseLine(p, line), seen + [line])
  {
    hide LabelIsEscaped, EachOnce, IdSet, LineProblems, GoodNode;
    NodeRaisesNothing(c, styles, state, line);
    var node := Node(line.shape.id, line.shape.text);
    OnceMore(p.Nodes(), node);
    var more := p.open.value.nodes + [node];
    assert AllNodes(p.closed) + more == p.Nodes() + [node];
    assert NodeLines(more) == NodeLines(p.open.value.nodes) + [line];
    assert Print(p.closed) + OpenLines(p.open.value.id, p.open.value.text, more) == seen + [line];
  }

  lemma NodeOutsideIsTracked(c: Collected, styles: Styles, state: State, p: Parsed, seen: seq<Line>, line: Line)
    requires Tracks(c, styles, state, p, seen) && ShapeOf(line).NodeDef? && LineProblems(c, styles, state, line) == []
    requires !state.inSubgraph
    ensures Tracks(c, styles, Next(state, line), ParseLine(p, line), seen + [line])
  {
    hide LabelIsEscaped, EachOnce, IdSet, LineProblems, GoodNode;
    NodeRaisesNothing(c, styles, state, line);
    var node := Node(line.shape.id, line.shape.text);
    OnceMore(p.Nodes(), node);
    BodyStep(p.closed, Single(node));
    assert p.Nodes() == AllNodes(p.closed);
    assert ParseLine(p, line).Nodes() == p.Nodes() + [node];
    assert p.Lines() == Print(p.closed);
    assert ParseLine(p, line).Lines() == seen + [line];
    assert GoodStatement(c, styles, Single(node));
  }

  lemma EndIsTracked(c: Collected, styles: Styles, state: State, p: Parsed, seen: seq<Line>, line: Line)
    requires Tracks(c, styles, state, p, seen) && ShapeOf(line).End? && LineProblems(c, styles, state, line) == []
    ensures Tracks(c, styles, Next(state, line), ParseLine(p, line), seen + [line])
  {
    hide EachOnce, IdSet, GoodStatement, NodesOf;
    assert p.open.Some?;
    BodyStep(p.closed, p.open.value);
    assert ParseLine(p, line).Nodes() == p.Nodes();
    assert ParseLine(p, line).Lines() == seen + [line];
  }

  /** A form that raises nothing makes a good statement. */
  lemma FormIsGood(c: Collected, styles: Styles, s: Statement)
    requires !s.Single? && !s.Block? && FormProblems(c, styles, StatementLines(s)[0].shape) == []
    ensures GoodStatement(c, styles, s)
  {
    hide LabelIsEscaped;
    match s
    case Arrow(source, target, text) =>
      assert EndpointProblems(c, source) == [] && EndpointProblems(c, target) == [];
    case Members(members, name) =>
      MembersAreFine(c, members);
    case _ =>
  }

  lemma FormIsTracked(c: Collected, styles: Styles, state: State, p: Parsed, seen: seq<Line>, line: Line, s: Statement)
    requires Tracks(c, styles, state, p, seen) && !state.inSubgraph && LineProblems(c, styles, state, line) == []
    requires !s.Single? && !s.Block? && [line] == StatementLines(s)
    ensures Tracks(c, styles, Next(state, line), ParseLine(p, line), seen + [line])
  {
    hide EachOnce, IdSet, GoodStatement, FormProblems;
    assert FormProblems(c, styles, line.shape) == [] by { FormRaisesNothing(c, styles, state, line); }
    FormIsGood(c, styles, s);
    BodyStep(p.closed, s);
    assert AllNodes(p.closed) + [] == AllNodes(p.closed);
    assert ParseLine(p, line) == p.(closed := p.closed + [s]);
  }

  lemma FormRaisesNothing(c: Collected, styles: Styles, state: State, line: Line)
    requires !state.inSubgraph && state.header && line.Drawn? && !line.shape.NodeDef? && LineProblems(c, styles, state, line) == []
    ensures FormProblems(c, styles, line.shape) == [] && line.indent == 2
  {
    hide FormProblems;
  }

  lemma TitleIsTracked(c: Collected, styles: Styles, state: State, p: Parsed, seen: seq<Line>, line: Line)
    requires Tracks(c, styles, state, p, seen) && !state.inSubgraph && line.Drawn? && line.shape.Subgraph?
    requires LineProblems(c, styles, state, line) == []
    ensures Tracks(c, styles, Next(state, line), ParseLine(p, line), seen + [line])
  {
    hide EachOnce, IdSet, LabelIsEscaped;
    FormRaisesNothing(c, styles, state, line);
    var s := Block(line.shape.id, line.shape.text, []);
    assert NodeLines([]) == [] && AllNodes(p.closed) + [] == AllNodes(p.closed);
    assert GoodStatement(c, styles, s);
    assert ParseLine(p, line).Lines() == seen + [line];
  }

  /** One line that raises nothing keeps the parse in step. */
  lemma LineIsTracked(c: Collected, styles: Styles, state: State, p: Parsed, seen: seq<Line>, line: Line)
    requires Tracks(c, styles, state, p, seen) && !Skipped(line) && LineProblems(c, styles, state, line) == []
    ensures Tracks(c, styles, Next(state, line), ParseLine(p, line), seen + [line])
  {
    hide Tracks, LabelIsEscaped, MemberProblems;
    assert state.header by { TracksHeader(c, styles, state, p, seen); }
    match ShapeOf(line)
    case NodeDef(_, _) =>
      if state.inSubgraph {
        NodeInsideIsTracked(c, styles, state, p, seen, line);
      } else {
        NodeOutsideIsTracked(c, styles, state, p, seen, line);
      }
    case End => EndIsTracked(c, styles, state, p, seen, line);
    case Subgraph(_, _) => TitleIsTracked(c, styles, state, p, seen, line);
    case Edge(source, target, text) =>
      FormRaisesNothing(c, styles, state, line);
      FormIsTracked(c, styles, state, p, seen, line, Arrow(source, target, text));
    case ClassDef(name, decls) =>
      FormRaisesNothing(c, styles, state, line);
      FormIsTracked(c, styles, state, p, seen, line, StyleClass(name, decls));
    case Class(members, name) =>
      FormRaisesNothing(c, styles, state, line);
      FormIsTracked(c, styles, state, p, seen, line, Members(members, name));
    case LinkStyle(index, decls) =>
      FormRaisesNothing(c, styles, state, line);
      FormIsTracked(c, styles, state, p, seen, line, Paint(index, decls));
    case Other =>
  }

  lemma TracksHeader(c: Collected, styles: Styles, state: State, p: Parsed, seen: seq<Line>)
    requires Tracks(c, styles, state, p, seen)
    ensures state.header
  {
  }

  /** Lines without a problem are nothing yet, or track the parse of a drawing. */
  lemma {:induction false} CleanLinesParse(c: Collected, styles: Styles, lines: seq<Line>) returns (p: Parsed)
    requires Clean(c, styles, lines)
    ensures if StateAfter(lines).header then Tracks(c, styles, StateAfter(lines), p, Drop(lines))
            else StateAfter(lines) == State({}, false, false) && Drop(lines) == []
  {
    hide Clean, StateAfter, Tracks, DrawnProblems, ParseLine;
    p := Parsed([], None);
    if lines == [] {
      CollectedInNothing();
    } else {
      var front, line := lines[..|lines| - 1], lines[|lines| - 1];
      assert lines == front + [line];
      CleanStep(c, styles, front, line);
      StateStep(front, line);
      p := CleanLinesParse(c, styles, front);
      if Skipped(line) {
        assert Drop(lines) == Drop(front) && StateAfter(lines) == StateAfter(front);
      } else {
        if StateAfter(front).header {
          LineIsTracked(c, styles, StateAfter(front), p, Drop(front), line);
          p := ParseLine(p, line);
          assert Drop(lines) == Drop(front) + [line];
          assert Tracks(c, styles, StateAfter(lines), p, Drop(lines));
        } else {
          p := Parsed([], None);
          HeaderIsTracked(c, styles);
          assert line.Header? && Drop(lines) == [Header];
          assert StateAfter(lines) == State({}, true, false);
          assert Tracks(c, styles, StateAfter(lines), p, Drop(lines));
        }
      }
    }
  }

  lemma HeaderIsTracked(c: Collected, styles: Styles)
    ensures Tracks(c, styles, State({}, true, false), Parsed([], None), [Header])
  {
    assert Parsed([], None).Lines() == [Header] && IdSet([]) == {};
  }

  /** What is accepted is a good drawing: the lines that are not skipped are a drawing's own, the ids
      collected in pass one are those it defines, each once, every reference in it resolves, and its
      blocks are closed and hold nodes only. */
  lemma AcceptedLinesAreADrawing(styles: Styles, lines: seq<Line>, terminated: bool) returns (drawing: seq<Statement>)
    requires AllProblems(styles, lines, terminated) == []
    ensures terminated && NoDirectives(lines)
    ensures Drop(lines) == Print(drawing) && Good(drawing, styles) && CollectedIn(lines) == CollectedFrom(drawing)
  {
    hide StateAfter, CollectedIn, ProblemsOf, GoodStatement, EachOnce;
    var c := CollectedIn(lines);
    var p := CleanLinesParse(c, styles, lines);
    DropChangesNothing(c, styles, lines);
    drawing := p.closed;
    assert |At(0, EndProblems(StateAfter(lines)))| == |EndProblems(StateAfter(lines))|;
    assert p.Lines() == Print(drawing);
    PrintedIsCollected(drawing);
    assert p.Nodes() == AllNodes(drawing);
  }
}
