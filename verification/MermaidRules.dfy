/** Which problems the checker reports, one by one, told from the lines themselves. */
module MermaidRules {
  import opened Options
  import opened MermaidLabels
  import opened Mermaid

  // ---------------------------------------------------------------- what stands where

  ghost predicate Draws(lines: seq<Line>, shape: Shape) {
    exists i :: 0 <= i < |lines| && lines[i].Drawn? && lines[i].shape == shape
  }

  /** The drawing, or this part of it, defines a node with the id. */
  ghost predicate DefinesNode(lines: seq<Line>, id: string) {
    exists text :: Draws(lines, NodeDef(id, text))
  }

  ghost predicate DefinesClass(lines: seq<Line>, name: string) {
    exists styles :: Draws(lines, ClassDef(name, styles))
  }

  function Links(lines: seq<Line>): nat {
    if lines == [] then 0
    else Links(lines[..|lines| - 1]) + if lines[|lines| - 1].Drawn? && lines[|lines| - 1].shape.Edge? then 1 else 0
  }

  /** A block has been opened behind which no `end` stands. */
  ghost predicate BlockIsOpen(lines: seq<Line>) {
    exists k :: 0 <= k < |lines| && lines[k].Drawn? && lines[k].shape.Subgraph?
                && forall j | k < j < |lines| :: !(lines[j].Drawn? && lines[j].shape.End?)
  }

  /** Something but blank lines and comments stands there. */
  ghost predicate Begun(lines: seq<Line>) {
    exists k :: 0 <= k < |lines| && !lines[k].Blank? && !lines[k].Comment?
  }

  predicate IsKeyword(id: string) {
    || id == "class" || id == "classDef" || id == "click" || id == "default" || id == "direction" || id == "end"
    || id == "flowchart" || id == "graph" || id == "linkStyle" || id == "style" || id == "subgraph"
  }

  // ---------------------------------------------------------------- the rules

  /** What is wrong with a node definition. */
  ghost predicate NodeRule(before: seq<Line>, indent: nat, id: string, text: string, why: Why) {
    match why
    case KeywordId(word) => word == id && IsKeyword(id)
    case BadLabel => !LabelIsEscaped(text)
    case DefinedTwice(twice) => twice == id && DefinesNode(before, id)
    case Indented => indent != if BlockIsOpen(before) then 4 else 2
    case _ => false
  }

  /** What is wrong with a form outside a block, its indentation aside. */
  ghost predicate FormRule(lines: seq<Line>, styles: Styles, shape: Shape, why: Why) {
    match shape
    case Edge(source, target, text) =>
      (match why
       case KeywordId(id) => (id == source || id == target) && IsKeyword(id)
       case UnknownEndpoint(id) => (id == source || id == target) && !DefinesNode(lines, id)
       case BadLabel => text.Some? && !LabelIsEscaped(text.value)
       case _ => false)
    case Subgraph(id, text) =>
      (match why
       case KeywordId(word) => word == id && IsKeyword(id)
       case BadLabel => !LabelIsEscaped(text)
       case Collides(other) => other == id && DefinesNode(lines, id)
       case _ => false)
    case ClassDef(name, decls) =>
      (match why
       case KeywordId(word) => word == name && IsKeyword(name)
       case BadStyle => !styles.node(decls)
       case _ => false)
    case Class(members, name) =>
      (match why
       case UnknownMember(id) => id in members && !DefinesNode(lines, id)
       case UnknownClass(other) => other == name && !DefinesClass(lines, name)
       case _ => false)
    case LinkStyle(index, decls) =>
      (match why
       case UnknownLink(n) => n == index && index >= Links(lines)
       case BadStyle => !styles.link(decls)
       case _ => false)
    case _ => why == NotLicensed
  }

  ghost predicate DrawnRule(lines: seq<Line>, styles: Styles, before: seq<Line>, indent: nat, shape: Shape, why: Why) {
    if shape.NodeDef? then NodeRule(before, indent, shape.id, shape.text, why)
    else if BlockIsOpen(before) then
      if shape.End? then why == Indented && indent != 2 else why == OnlyNodesInside
    else (why == Indented && indent != 2) || FormRule(lines, styles, shape, why)
  }

  /** The line is wrong for this reason; `before` are the lines in front of it. */
  ghost predicate LineRule(lines: seq<Line>, styles: Styles, before: seq<Line>, line: Line, why: Why) {
    match line
    case Blank => false
    case Comment(directive) => directive && why == DirectiveBlock
    case Header => Begun(before) && DrawnRule(lines, styles, before, 0, Other, why)
    case Drawn(indent, shape) =>
      (why == HeaderExpected && !Begun(before)) || DrawnRule(lines, styles, before, indent, shape, why)
  }

  /** The artifact has this problem. */
  ghost predicate Rule(styles: Styles, lines: seq<Line>, terminated: bool, p: Problem) {
    if !terminated then p == Problem(0, NoFinalNewline)
    else if p.line == 0 then (p.why == NoHeader && !Begun(lines)) || (p.why == NeverClosed && BlockIsOpen(lines))
    else p.line <= |lines| && LineRule(lines, styles, lines[..p.line - 1], lines[p.line - 1], p.why)
  }

  // ---------------------------------------------------------------- what the passes know

  lemma DrawsMore(lines: seq<Line>, shape: Shape)
    requires lines != []
    ensures var front, last := lines[..|lines| - 1], lines[|lines| - 1];
      Draws(lines, shape) <==> Draws(front, shape) || (last.Drawn? && last.shape == shape)
  {
    var front := lines[..|lines| - 1];
    if i :| 0 <= i < |front| && front[i].Drawn? && front[i].shape == shape {
      assert lines[i] == front[i];
    }
  }

  lemma {:induction false} CollectedKnows(lines: seq<Line>)
    ensures forall id :: id in CollectedIn(lines).nodes <==> DefinesNode(lines, id)
    ensures forall name :: name in CollectedIn(lines).classes <==> DefinesClass(lines, name)
    ensures CollectedIn(lines).links == Links(lines)
  {
    hide Draws;
    if lines == [] {
      NothingDrawn();
    } else {
      CollectedKnows(lines[..|lines| - 1]);
      forall shape ensures Draws(lines, shape) <==>
        Draws(lines[..|lines| - 1], shape) || (lines[|lines| - 1].Drawn? && lines[|lines| - 1].shape == shape)
      {
        DrawsMore(lines, shape);
      }
    }
  }

  lemma NothingDrawn()
    ensures forall shape :: !Draws([], shape)
  {
  }

  lemma OpenMore(lines: seq<Line>)
    requires lines != []
    ensures var front, last := lines[..|lines| - 1], lines[|lines| - 1];
      BlockIsOpen(lines) <==> (last.Drawn? && last.shape.Subgraph?) || (BlockIsOpen(front) && !(last.Drawn? && last.shape.End?))
  {
    var n := |lines| - 1;
    var front := lines[..n];
    if k :| 0 <= k < |front| && front[k].Drawn? && front[k].shape.Subgraph?
            && forall j | k < j < |front| :: !(front[j].Drawn? && front[j].shape.End?)
    {
      assert lines[k] == front[k];
    }
    if k :| 0 <= k < n && lines[k].Drawn? && lines[k].shape.Subgraph?
            && forall j | k < j < |lines| :: !(lines[j].Drawn? && lines[j].shape.End?)
    {
      assert front[k] == lines[k] && forall j | k < j < n :: front[j] == lines[j];
    }
  }

  lemma BegunMore(lines: seq<Line>)
    requires lines != []
    ensures Begun(lines) <==> Begun(lines[..|lines| - 1]) || !Skipped(lines[|lines| - 1])
  {
    var front := lines[..|lines| - 1];
    if k :| 0 <= k < |front| && !front[k].Blank? && !front[k].Comment? {
      assert lines[k] == front[k];
    }
  }

  lemma {:induction false} StateKnows(lines: seq<Line>)
    ensures StateAfter(lines).header <==> Begun(lines)
    ensures StateAfter(lines).inSubgraph <==> BlockIsOpen(lines)
    ensures forall id :: id in StateAfter(lines).defined <==> DefinesNode(lines, id)
  {
    hide Draws, BlockIsOpen, Begun;
    if lines == [] {
      NothingDrawn();
      NothingBegun();
    } else {
      StateKnows(lines[..|lines| - 1]);
      OpenMore(lines);
      BegunMore(lines);
      forall shape ensures Draws(lines, shape) <==>
        Draws(lines[..|lines| - 1], shape) || (lines[|lines| - 1].Drawn? && lines[|lines| - 1].shape == shape)
      {
        DrawsMore(lines, shape);
      }
    }
  }

  lemma NothingBegun()
    ensures !Begun([]) && !BlockIsOpen([])
  {
  }

  // ---------------------------------------------------------------- rule by rule

  lemma KeywordsAre(id: string)
    ensures id in KEYWORDS <==> IsKeyword(id)
  {
    assert KEYWORDS[0] == "class" && KEYWORDS[1] == "classDef" && KEYWORDS[2] == "click" && KEYWORDS[3] == "default";
    assert KEYWORDS[4] == "direction" && KEYWORDS[5] == "end" && KEYWORDS[6] == "flowchart" && KEYWORDS[7] == "graph";
    assert KEYWORDS[8] == "linkStyle" && KEYWORDS[9] == "style" && KEYWORDS[10] == "subgraph";
  }

  lemma {:induction false} MembersTold(c: Collected, members: seq<string>, why: Why)
    ensures why in MemberProblems(c, members) <==> why.UnknownMember? && why.id in members && why.id !in c.nodes
  {
    if members != [] {
      var last := |members| - 1;
      MembersTold(c, members[..last], why);
      assert members == members[..last] + [members[last]];
    }
  }

  lemma WordsTold(id: string, text: string, why: Why)
    ensures why in IdProblems(id) <==> why == KeywordId(id) && IsKeyword(id)
    ensures why in LabelProblems(text) <==> why == BadLabel && !LabelIsEscaped(text)
  {
    hide KEYWORDS, IsKeyword, LabelIsEscaped;
    KeywordsAre(id);
  }

  lemma EndpointTold(c: Collected, id: string, why: Why)
    ensures why in EndpointProblems(c, id) <==> (why == KeywordId(id) && IsKeyword(id)) || (why == UnknownEndpoint(id) && id !in c.nodes)
  {
    hide IdProblems, IsKeyword;
    WordsTold(id, "", why);
  }

  lemma EdgeTold(lines: seq<Line>, styles: Styles, shape: Shape, why: Why)
    requires shape.Edge?
    ensures why in FormProblems(CollectedIn(lines), styles, shape) <==> FormRule(lines, styles, shape, why)
  {
    hide EndpointProblems, LabelProblems, IsKeyword, LabelIsEscaped, DefinesNode, CollectedIn;
    var c := CollectedIn(lines);
    CollectedKnows(lines);
    EndpointTold(c, shape.source, why);
    EndpointTold(c, shape.target, why);
    WordsTold("", if shape.edgeLabel.Some? then shape.edgeLabel.value else "", why);
  }

  lemma TitleTold(lines: seq<Line>, styles: Styles, shape: Shape, why: Why)
    requires shape.Subgraph? || shape.ClassDef?
    ensures why in FormProblems(CollectedIn(lines), styles, shape) <==> FormRule(lines, styles, shape, why)
  {
    hide IdProblems, LabelProblems, IsKeyword, LabelIsEscaped, DefinesNode, CollectedIn;
    CollectedKnows(lines);
    WordsTold(if shape.Subgraph? then shape.id else shape.name, if shape.Subgraph? then shape.text else "", why);
  }

  lemma ReferenceTold(lines: seq<Line>, styles: Styles, shape: Shape, why: Why)
    requires shape.Class? || shape.LinkStyle?
    ensures why in FormProblems(CollectedIn(lines), styles, shape) <==> FormRule(lines, styles, shape, why)
  {
    hide MemberProblems, DefinesNode, DefinesClass, CollectedIn;
    CollectedKnows(lines);
    if shape.Class? {
      MembersTold(CollectedIn(lines), shape.members, why);
    }
  }

  lemma FormTold(lines: seq<Line>, styles: Styles, shape: Shape, why: Why)
    requires !shape.NodeDef?
    ensures why in FormProblems(CollectedIn(lines), styles, shape) <==> FormRule(lines, styles, shape, why)
  {
    if shape.Edge? {
      EdgeTold(lines, styles, shape, why);
    } else if shape.Subgraph? || shape.ClassDef? {
      TitleTold(lines, styles, shape, why);
    } else if shape.Class? || shape.LinkStyle? {
      ReferenceTold(lines, styles, shape, why);
    }
  }

  lemma DrawnTold(lines: seq<Line>, styles: Styles, before: seq<Line>, indent: nat, shape: Shape, why: Why)
    ensures why in DrawnProblems(CollectedIn(lines), styles, StateAfter(before), indent, shape)
       <==> DrawnRule(lines, styles, before, indent, shape, why)
  {
    hide KEYWORDS, IsKeyword, LabelIsEscaped, DefinesNode, BlockIsOpen, CollectedIn, StateAfter, FormProblems, FormRule;
    StateKnows(before);
    if shape.NodeDef? {
      KeywordsAre(shape.id);
    } else {
      FormTold(lines, styles, shape, why);
    }
  }

  lemma LineTold(lines: seq<Line>, styles: Styles, before: seq<Line>, line: Line, why: Why)
    ensures why in LineProblems(CollectedIn(lines), styles, StateAfter(before), line) <==> LineRule(lines, styles, before, line, why)
  {
    hide DrawnProblems, DrawnRule, Begun, CollectedIn, StateAfter;
    StateKnows(before);
    DrawnTold(lines, styles, before, IndentOf(line), ShapeOf(line), why);
  }

  lemma AtHas(line: nat, whys: seq<Why>, p: Problem)
    ensures p in At(line, whys) <==> p.line == line && p.why in whys
  {
    if p.line == line && p.why in whys {
      var i :| 0 <= i < |whys| && whys[i] == p.why;
      assert At(line, whys)[i] == p;
    }
  }

  lemma {:induction false} ProblemsTold(all: seq<Line>, styles: Styles, lines: seq<Line>, p: Problem)
    ensures p in ProblemsOf(CollectedIn(all), styles, lines) <==>
      0 < p.line <= |lines| && LineRule(all, styles, lines[..p.line - 1], lines[p.line - 1], p.why)
  {
    hide LineProblems, LineRule, CollectedIn, StateAfter, At;
    if lines != [] {
      var last := |lines| - 1;
      var front := lines[..last];
      ProblemsTold(all, styles, front, p);
      AtHas(|lines|, LineProblems(CollectedIn(all), styles, StateAfter(front), lines[last]), p);
      LineTold(all, styles, front, lines[last], p.why);
      if 0 < p.line <= last {
        assert front[..p.line - 1] == lines[..p.line - 1] && front[p.line - 1] == lines[p.line - 1];
      }
    }
  }

  /** A problem is reported exactly when its rule is broken. */
  lemma ProblemsAre(styles: Styles, lines: seq<Line>, terminated: bool, p: Problem)
    ensures p in AllProblems(styles, lines, terminated) <==> Rule(styles, lines, terminated, p)
  {
    hide ProblemsOf, LineRule, Begun, BlockIsOpen, CollectedIn, StateAfter, At;
    if terminated {
      ProblemsTold(lines, styles, lines, p);
      StateKnows(lines);
      AtHas(0, EndProblems(StateAfter(lines)), p);
    }
  }
}
