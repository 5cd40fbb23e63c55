/** The two-pass checker of Mermaid flowcharts. Lines come already told apart by the licensed forms;
    what the checker then asks of them, and of the drawing they make, is modelled here. */
module Mermaid {
  import opened Options
  import opened MermaidLabels

  datatype Shape =
    | NodeDef(id: string, text: string)
    | Edge(source: string, target: string, edgeLabel: Option<string>)
    | Subgraph(id: string, text: string)
    | End
    | ClassDef(name: string, styles: string)
    | Class(members: seq<string>, name: string)
    | LinkStyle(index: nat, styles: string)
    | Other

  /** A line is blank, a comment (perhaps a directive block), the header exactly as it must stand, or
      a form behind so many spaces; another spelling of the header is `Other`. */
  datatype Line = Blank | Comment(directive: bool) | Header | Drawn(indent: nat, shape: Shape)

  /** The style declarations that a node class and a link may have. */
  datatype Styles = Styles(node: string -> bool, link: string -> bool)

  datatype Why =
    | HeaderExpected | DirectiveBlock | KeywordId(id: string) | BadLabel | DefinedTwice(id: string) | Indented
    | OnlyNodesInside | UnknownEndpoint(id: string) | Collides(id: string) | BadStyle
    | UnknownMember(id: string) | UnknownClass(name: string) | UnknownLink(index: nat) | NotLicensed
    | NoHeader | NeverClosed | NoFinalNewline

  /** The last two are about the artifact, and stand at line 0. */
  datatype Problem = Problem(line: nat, why: Why)

  const KEYWORDS: seq<string> := [
    "class", "classDef", "click", "default", "direction", "end", "flowchart", "graph", "linkStyle", "style", "subgraph"]

  // ---------------------------------------------------------------- pass one

  datatype Collected = Collected(nodes: set<string>, classes: set<string>, links: nat)

  function Collect(c: Collected, line: Line): Collected {
    match line
    case Drawn(_, NodeDef(id, _)) => c.(nodes := c.nodes + {id})
    case Drawn(_, Edge(_, _, _)) => c.(links := c.links + 1)
    case Drawn(_, ClassDef(name, _)) => c.(classes := c.classes + {name})
    case _ => c
  }

  function CollectedIn(lines: seq<Line>): Collected {
    if lines == [] then Collected({}, {}, 0) else Collect(CollectedIn(lines[..|lines| - 1]), lines[|lines| - 1])
  }

  method CollectPass(lines: seq<Line>) returns (nodes: set<string>, classes: set<string>, links: nat)
    ensures Collected(nodes, classes, links) == CollectedIn(lines)
  {
    nodes, classes, links := {}, {}, 0;
    for i := 0 to |lines|
      invariant Collected(nodes, classes, links) == CollectedIn(lines[..i])
    {
      assert lines[..i + 1][..i] == lines[..i];
      match lines[i] {
        case Drawn(_, NodeDef(id, _)) => nodes := nodes + {id};
        case Drawn(_, Edge(_, _, _)) => links := links + 1;
        case Drawn(_, ClassDef(name, _)) => classes := classes + {name};
        case _ =>
      }
    }
    assert lines[..|lines|] == lines;
  }

  // ---------------------------------------------------------------- pass two, line by line

  datatype State = State(defined: set<string>, header: bool, inSubgraph: bool)

  function ShapeOf(line: Line): Shape {
    if line.Drawn? then line.shape else Other
  }

  function IndentOf(line: Line): nat {
    if line.Drawn? then line.indent else 0
  }

  predicate Skipped(line: Line) {
    line.Blank? || line.Comment?
  }

  function Next(state: State, line: Line): State {
    if Skipped(line) then state
    else if !state.header && line.Header? then state.(header := true)
    else
      match ShapeOf(line)
      case NodeDef(id, _) => state.(header := true, defined := state.defined + {id})
      case End => state.(header := true, inSubgraph := false)
      case Subgraph(_, _) => state.(header := true, inSubgraph := true)
      case _ => state.(header := true)
  }

  function If(bad: bool, why: Why): seq<Why> {
    if bad then [why] else []
  }

  function IdProblems(id: string): seq<Why> {
    If(id in KEYWORDS, KeywordId(id))
  }

  function LabelProblems(text: string): seq<Why> {
    If(!LabelIsEscaped(text), BadLabel)
  }

  function EndpointProblems(c: Collected, id: string): seq<Why> {
    IdProblems(id) + If(id !in c.nodes, UnknownEndpoint(id))
  }

  function MemberProblems(c: Collected, members: seq<string>): seq<Why> {
    if members == [] then []
    else
      var last := |members| - 1;
      MemberProblems(c, members[..last]) + If(members[last] !in c.nodes, UnknownMember(members[last]))
  }

  /** What is asked of a form by itself, outside a subgraph. */
  function FormProblems(c: Collected, styles: Styles, shape: Shape): seq<Why> {
    match shape
    case Edge(source, target, text) =>
      EndpointProblems(c, source) + EndpointProblems(c, target) + if text.Some? then LabelProblems(text.value) else []
    case Subgraph(id, text) => IdProblems(id) + LabelProblems(text) + If(id in c.nodes, Collides(id))
    case ClassDef(name, decls) => IdProblems(name) + If(!styles.node(decls), BadStyle)
    case Class(members, name) => MemberProblems(c, members) + If(name !in c.classes, UnknownClass(name))
    case LinkStyle(index, decls) => If(index >= c.links, UnknownLink(index)) + If(!styles.link(decls), BadStyle)
    case _ => [NotLicensed]
  }

  function DrawnProblems(c: Collected, styles: Styles, state: State, indent: nat, shape: Shape): seq<Why> {
    match shape
    case NodeDef(id, text) =>
      IdProblems(id) + LabelProblems(text) + If(id in state.defined, DefinedTwice(id))
      + If(indent != (if state.inSubgraph then 4 else 2), Indented)
    case _ =>
      if state.inSubgraph then
        if shape.End? then If(indent != 2, Indented) else [OnlyNodesInside]
      else If(indent != 2, Indented) + FormProblems(c, styles, shape)
  }

  function LineProblems(c: Collected, styles: Styles, state: State, line: Line): seq<Why> {
    if line.Blank? then []
    else if line.Comment? then If(line.directive, DirectiveBlock)
    else if !state.header && line.Header? then []
    else If(!state.header, HeaderExpected) + DrawnProblems(c, styles, state, IndentOf(line), ShapeOf(line))
  }

  // ---------------------------------------------------------------- the whole check

  function StateAfter(lines: seq<Line>): State {
    if lines == [] then State({}, false, false) else Next(StateAfter(lines[..|lines| - 1]), lines[|lines| - 1])
  }

  function At(line: nat, whys: seq<Why>): seq<Problem> {
    seq(|whys|, i requires 0 <= i < |whys| => Problem(line, whys[i]))
  }

  /** The problems of the lines, which are counted from 1. */
  function ProblemsOf(c: Collected, styles: Styles, lines: seq<Line>): seq<Problem> {
    if lines == [] then []
    else
      var last := |lines| - 1;
      ProblemsOf(c, styles, lines[..last]) + At(|lines|, LineProblems(c, styles, StateAfter(lines[..last]), lines[last]))
  }

  function EndProblems(state: State): seq<Why> {
    If(!state.header, NoHeader) + If(state.inSubgraph, NeverClosed)
  }

  function AllProblems(styles: Styles, lines: seq<Line>, terminated: bool): seq<Problem> {
    if !terminated then [Problem(0, NoFinalNewline)]
    else ProblemsOf(CollectedIn(lines), styles, lines) + At(0, EndProblems(StateAfter(lines)))
  }

  method MermaidProblems(styles: Styles, lines: seq<Line>, terminated: bool) returns (problems: seq<Problem>)
    ensures problems == AllProblems(styles, lines, terminated)
  {
    hide LineProblems, Next, CollectedIn, If;
    if !terminated {
      return [Problem(0, NoFinalNewline)];
    }
    var nodes, classes, links := CollectPass(lines);
    ghost var c := CollectedIn(lines);
    problems := [];
    var defined: set<string> := {};
    var headerSeen, inSubgraph := false, false;
    for i := 0 to |lines|
      invariant problems == ProblemsOf(c, styles, lines[..i])
      invariant State(defined, headerSeen, inSubgraph) == StateAfter(lines[..i])
    {
      assert lines[..i + 1][..i] == lines[..i];
      var whys: seq<Why>;
      whys, defined, headerSeen, inSubgraph := CheckLine(styles, nodes, classes, links, lines[i], defined, headerSeen, inSubgraph);
      problems := problems + At(i + 1, whys);
    }
    assert lines[..|lines|] == lines;
    var whys: seq<Why> := [];
    if !headerSeen {
      whys := whys + [NoHeader];
    }
    if inSubgraph {
      whys := whys + [NeverClosed];
    }
    assert whys == EndProblems(StateAfter(lines)) by { EndIs(StateAfter(lines)); }
    problems := problems + At(0, whys);
  }

  lemma EndIs(state: State)
    ensures EndProblems(state) == (if state.header then [] else [NoHeader]) + if state.inSubgraph then [NeverClosed] else []
  {
  }

  /** The turn of pass two at one line. */
  method CheckLine(styles: Styles, nodes: set<string>, classes: set<string>, links: nat, line: Line,
                   defined0: set<string>, headerSeen0: bool, inSubgraph0: bool)
    returns (whys: seq<Why>, defined: set<string>, headerSeen: bool, inSubgraph: bool)
    ensures whys == LineProblems(Collected(nodes, classes, links), styles, State(defined0, headerSeen0, inSubgraph0), line)
    ensures State(defined, headerSeen, inSubgraph) == Next(State(defined0, headerSeen0, inSubgraph0), line)
  {
    hide FormProblems, LabelIsEscaped, IdProblems, LabelProblems;
    whys, defined, headerSeen, inSubgraph := [], defined0, headerSeen0, inSubgraph0;
    if line.Blank? {
      return;
    }
    if line.Comment? {
      if line.directive {
        whys := whys + [DirectiveBlock];
      }
      return;
    }
    if !headerSeen {
      headerSeen := true;
      if line.Header? {
        return;
      }
      whys := whys + [HeaderExpected];
    }
    var indent, expectedIndent := IndentOf(line), if inSubgraph then 4 else 2;
    match ShapeOf(line) {
      case NodeDef(id, text) =>
        var more := IdProblems(id) + LabelProblems(text);
        if id in defined {
          more := more + [DefinedTwice(id)];
        }
        defined := defined + {id};
        if indent != expectedIndent {
          more := more + [Indented];
        }
        whys := whys + more;
      case shape =>
        if inSubgraph {
          if shape.End? {
            inSubgraph := false;
            if indent != 2 {
              whys := whys + [Indented];
            }
          } else {
            whys := whys + [OnlyNodesInside];
          }
          return;
        }
        var more: seq<Why> := [];
        if indent != 2 {
          more := [Indented];
        }
        var asked := CheckForm(styles, nodes, classes, links, shape);
        inSubgraph := shape.Subgraph?;
        whys := whys + (more + asked);
    }
  }

  method CheckForm(styles: Styles, nodes: set<string>, classes: set<string>, links: nat, shape: Shape) returns (whys: seq<Why>)
    ensures whys == FormProblems(Collected(nodes, classes, links), styles, shape)
  {
    whys := [];
    match shape {
      case Edge(source, target, text) =>
        var endpoints := [source, target];
        for i := 0 to 2
          invariant whys == if i == 0 then [] else if i == 1 then EndpointProblems(Collected(nodes, classes, links), source)
            else EndpointProblems(Collected(nodes, classes, links), source) + EndpointProblems(Collected(nodes, classes, links), target)
        {
          whys := whys + IdProblems(endpoints[i]);
          if endpoints[i] !in nodes {
            whys := whys + [UnknownEndpoint(endpoints[i])];
          }
        }
        if text.Some? {
          whys := whys + LabelProblems(text.value);
        }
      case Subgraph(id, text) =>
        whys := IdProblems(id) + LabelProblems(text);
        if id in nodes {
          whys := whys + [Collides(id)];
        }
      case ClassDef(name, decls) =>
        whys := IdProblems(name);
        if !styles.node(decls) {
          whys := whys + [BadStyle];
        }
      case Class(members, name) =>
        for i := 0 to |members|
          invariant whys == MemberProblems(Collected(nodes, classes, links), members[..i])
        {
          assert members[..i + 1][..i] == members[..i];
          if members[i] !in nodes {
            whys := whys + [UnknownMember(members[i])];
          }
        }
        assert members[..|members|] == members;
        if name !in classes {
          whys := whys + [UnknownClass(name)];
        }
      case LinkStyle(index, decls) =>
        if index >= links {
          whys := whys + [UnknownLink(index)];
        }
        if !styles.link(decls) {
          whys := whys + [BadStyle];
        }
      case _ =>
        whys := [NotLicensed];
    }
  }
}
