/** The steps that the README's quickstart marks: files to write and commands to run. */
module QuickstartSteps {
  import opened Options
  import opened Text
  import opened Directives
  import opened Fences
  import DocsExamples

  const NAMESPACE: string := "gebra-quickstart"
  const FILE: string := "file"
  const CONSOLE: string := "console"

  /** What the two kinds of block must be like, apart from their directives: the name of a file that
      may be written, and a block that is one command with its transcript. */
  datatype Demands = Demands(path: string -> bool, console: seq<string> -> bool)

  /** Lines are counted from 1, as a reader does. */
  datatype Step =
    | FileStep(path: string, file: seq<string>, line: nat)
    | ConsoleStep(id: string, block: seq<string>, exit: string, guarded: bool, line: nat)

  function Get(attrs: map<string, string>, key: string, default: string): string {
    if key in attrs then attrs[key] else default
  }

  predicate Digits(s: string) {
    s != "" && forall c | c in s :: '0' <= c <= '9'
  }

  /** The step that an item declares on its own. */
  function StepOf(demands: Demands, item: Item): Option<Step>
    requires item.Taken?
  {
    match ParseAttrs(item.tag.attrs)
    case None => None
    case Some(attrs) =>
      if item.tag.kind == FILE then
        var path := Get(attrs, "path", "");
        if attrs.Keys <= {"path"} && path != "" && demands.path(path) then Some(FileStep(path, item.body, item.open + 1)) else None
      else if item.tag.kind == CONSOLE then
        var id, exit, python := Get(attrs, "id", ""), Get(attrs, "exit", "0"), Get(attrs, "python", "yes");
        if attrs.Keys <= {"id", "exit", "python"} && python in ["yes", "no"] && IsId(id) && Digits(exit) && demands.console(item.body)
          then Some(ConsoleStep(id, item.body, exit, python == "yes", item.open + 1))
        else None
      else None
  }

  /** The identifiers of the commands. */
  function Ids(steps: seq<Step>): (r: set<string>) {
    set step | step in steps && step.ConsoleStep? :: step.id
  }

  /** The steps of a page, or `None` if one of its items declares none or repeats an identifier. */
  function StepsOf(demands: Demands, items: seq<Item>): Option<seq<Step>> {
    if items == [] then Some([])
    else
      var last := |items| - 1;
      match StepsOf(demands, items[..last])
      case None => None
      case Some(steps) =>
        if items[last].Passed? then Some(steps)
        else match StepOf(demands, items[last])
             case None => None
             case Some(step) => if step.ConsoleStep? && step.id in Ids(steps) then None else Some(steps + [step])
  }

  lemma {:induction false} NoStepsFrom(demands: Demands, items: seq<Item>, rest: seq<Item>)
    requires StepsOf(demands, items).None?
    ensures StepsOf(demands, items + rest).None?
    decreases |rest|
  {
    if rest == [] {
      assert items + rest == items;
    } else {
      var last := |rest| - 1;
      NoStepsFrom(demands, items, rest[..last]);
      assert (items + rest)[..|items| + last] == items + rest[..last];
    }
  }

  /** One item decides whether there are steps at all. */
  lemma Decides(demands: Demands, done: seq<Item>, item: Item, rest: Option<seq<Item>>)
    requires StepsOf(demands, done + [item]).None?
    ensures var all := Joined(done, Prepend(item, rest)); all.Some? ==> StepsOf(demands, all.value).None?
  {
    if rest.Some? {
      NoStepsFrom(demands, done + [item], rest.value);
      assert done + ([item] + rest.value) == done + [item] + rest.value;
    }
  }

  lemma OneStepMore(demands: Demands, done: seq<Item>, item: Item, steps: seq<Step>)
    requires StepsOf(demands, done) == Some(steps)
    ensures StepsOf(demands, done + [item]) ==
      if item.Passed? then Some(steps)
      else match StepOf(demands, item)
           case None => None
           case Some(step) => if step.ConsoleStep? && step.id in Ids(steps) then None else Some(steps + [step])
  {
    hide StepOf, Ids;
    assert (done + [item])[..|done|] == done;
  }

  lemma MoreIds(steps: seq<Step>, step: Step)
    ensures Ids(steps + [step]) == if step.ConsoleStep? then Ids(steps) + {step.id} else Ids(steps)
  {
    assert forall s :: s in steps + [step] <==> s in steps || s == step;
  }

  /** Exactly the pages whose directives all declare a step, no command twice, are accepted. */
  method ParseMarkdown(lines: seq<string>, demands: Demands) returns (found: Option<seq<Step>>)
    ensures var items := Items(NAMESPACE, lines, 0);
            found == if items.None? then None else StepsOf(demands, items.value)
  {
    hide TagOf, TurnOf, FenceOf, ParseAttrs, IsId, Items, Suffix, CloseIn, ReadAt, StepsOf, Ids, Get, Digits;
    var steps: seq<Step> := [];
    var seen: set<string> := {};
    ghost var done: seq<Item> := [];
    var index := 0;
    Begin(lines, demands);
    while index < |lines|
      invariant Items(NAMESPACE, lines, 0) == Joined(done, Items(NAMESPACE, Suffix(lines, index), index))
      invariant StepsOf(demands, done) == Some(steps) && seen == Ids(steps)
      decreases |lines| - index
    {
      ReadOn(NAMESPACE, lines, index);
      TurnAt(NAMESPACE, lines, index);
      var directive := TagOf(NAMESPACE, lines[index]);
      if directive.None? {
        var fence := FenceOf(lines[index]);
        if fence.Some? {
          var closing := ClosingFence(lines, index, fence.value);
          ghost var item := Passed(index, closing);
          OneStepMore(demands, done, item, steps);
          JoinedStep(done, item, Items(NAMESPACE, Suffix(lines, closing + 1), closing + 1));
          done := done + [item];
          index := closing + 1;
        } else {
          index := index + 1;
        }
        continue;
      }
      var tag := directive.value;
      var attrs := ParseAttrs(tag.attrs);
      var reading := ReadFence(lines, index);
      if reading.None? {
        return None;
      }
      var block := reading.value;
      ghost var item := Taken(tag, index, block.open, block.after - 1, block.body);
      ghost var rest := Items(NAMESPACE, Suffix(lines, block.after), block.after);
      OneStepMore(demands, done, item, steps);
      JoinedStep(done, item, rest);
      if StepsOf(demands, done + [item]).None? {
        Decides(demands, done, item, rest);
      }
      if tag.kind !in [FILE, CONSOLE] || attrs.None? {
        return None;
      }
      var step: Step;
      if tag.kind == FILE {
        var path := Get(attrs.value, "path", "");
        if !(attrs.value.Keys <= {"path"}) || path == "" || !demands.path(path) {
          return None;
        }
        step := FileStep(path, block.body, block.open + 1);
      } else {
        var id, exit, python := Get(attrs.value, "id", ""), Get(attrs.value, "exit", "0"), Get(attrs.value, "python", "yes");
        if !(attrs.value.Keys <= {"id", "exit", "python"}) || python !in ["yes", "no"] || !IsId(id) || id in seen || !Digits(exit) {
          return None;
        }
        seen := seen + {id};
        if !demands.console(block.body) {
          return None;
        }
        step := ConsoleStep(id, block.body, exit, python == "yes", block.open + 1);
      }
      MoreIds(steps, step);
      steps := steps + [step];
      done := done + [item];
      index := block.after;
    }
    NothingLeft(NAMESPACE, lines, index, done);
    found := Some(steps);
  }

  lemma Begin(lines: seq<string>, demands: Demands)
    ensures StepsOf(demands, []) == Some([]) && Ids([]) == {}
    ensures Items(NAMESPACE, lines, 0) == Joined([], Items(NAMESPACE, Suffix(lines, 0), 0))
  {
    assert lines[0..] == lines;
    var items := Items(NAMESPACE, lines, 0);
    assert items.Some? ==> [] + items.value == items.value;
  }

  // ---------------------------------------------------------------- what the steps of a page are

  function TakenItems(items: seq<Item>): (r: seq<Item>)
    ensures forall item | item in r :: item.Taken?
  {
    if items == [] then []
    else
      var last := |items| - 1;
      TakenItems(items[..last]) + if items[last].Taken? then [items[last]] else []
  }

  /** The commands have identifiers of their own. */
  ghost predicate OwnIds(steps: seq<Step>) {
    forall i, j | 0 <= i < j < |steps| && steps[i].ConsoleStep? && steps[j].ConsoleStep? :: steps[i].id != steps[j].id
  }

  ghost predicate Each(demands: Demands, taken: seq<Item>, steps: seq<Step>) {
    && |steps| == |taken|
    && forall i | 0 <= i < |steps| :: taken[i].Taken? && StepOf(demands, taken[i]) == Some(steps[i])
  }

  lemma OneMoreStep(steps: seq<Step>, step: Step)
    requires OwnIds(steps)
    ensures OwnIds(steps + [step]) <==> !(step.ConsoleStep? && step.id in Ids(steps))
  {
    var more := steps + [step];
    if step.ConsoleStep? && step.id in Ids(steps) {
      var other :| other in steps && other.ConsoleStep? && other.id == step.id;
      var i :| 0 <= i < |steps| && steps[i] == other;
      assert more[i] == other && more[|steps|] == step;
    } else {
      forall i, j | 0 <= i < j < |more| && more[i].ConsoleStep? && more[j].ConsoleStep? ensures more[i].id != more[j].id {
        if j == |steps| {
          assert steps[i] in steps;
        }
      }
    }
  }

  lemma EachStep(demands: Demands, taken: seq<Item>, item: Item, steps: seq<Step>, step: Step)
    requires item.Taken?
    ensures Each(demands, taken + [item], steps + [step]) <==> Each(demands, taken, steps) && StepOf(demands, item) == Some(step)
  {
    hide StepOf;
    var all, more := taken + [item], steps + [step];
    if Each(demands, all, more) {
      forall i | 0 <= i < |steps| ensures taken[i].Taken? && StepOf(demands, taken[i]) == Some(steps[i]) {
        assert all[i] == taken[i] && more[i] == steps[i];
      }
      assert all[|taken|] == item && more[|steps|] == step;
    }
  }

  /** A page has these steps exactly when its directives declare them, one each and in order, and no two
      commands share an identifier. */
  lemma {:induction false} StepsAreDeclared(demands: Demands, items: seq<Item>, steps: seq<Step>)
    ensures StepsOf(demands, items) == Some(steps) <==> Each(demands, TakenItems(items), steps) && OwnIds(steps)
  {
    hide StepOf, Ids, Each;
    if items == [] {
      NoSteps(demands, steps);
    } else {
      var front, item := items[..|items| - 1], items[|items| - 1];
      if item.Passed? {
        StepsAreDeclared(demands, front, steps);
        assert TakenItems(items) == TakenItems(front);
      } else {
        if StepsOf(demands, front).Some? {
          var before := StepsOf(demands, front).value;
          StepsAreDeclared(demands, front, before);
          if StepOf(demands, item).Some? {
            OneMoreStep(before, StepOf(demands, item).value);
            EachStep(demands, TakenItems(front), item, before, StepOf(demands, item).value);
          }
        }
        if steps != [] {
          var before, step := steps[..|steps| - 1], steps[|steps| - 1];
          assert steps == before + [step];
          StepsAreDeclared(demands, front, before);
          EachStep(demands, TakenItems(front), item, before, step);
          if OwnIds(before) {
            OneMoreStep(before, step);
          }
        } else {
          NoEach(demands, TakenItems(items));
        }
      }
    }
  }

  lemma NoSteps(demands: Demands, steps: seq<Step>)
    ensures Each(demands, [], steps) <==> steps == []
  {
  }

  lemma NoEach(demands: Demands, taken: seq<Item>)
    ensures Each(demands, taken, []) <==> taken == []
  {
  }

  // ---------------------------------------------------------------- the two harnesses on one page

  /** On a page that both harnesses accept they pass over and read the same fenced regions, and no
      line is a directive to both. */
  lemma BothHarnessesAgree(page: seq<string>, k: nat)
    requires Items(DocsExamples.NAMESPACE, page, 0).Some? && Items(NAMESPACE, page, 0).Some? && k < |page|
    ensures RegionsOf(Items(DocsExamples.NAMESPACE, page, 0).value) == RegionsOf(Items(NAMESPACE, page, 0).value)
    ensures !(TakenAt(Items(DocsExamples.NAMESPACE, page, 0).value, k) && TakenAt(Items(NAMESPACE, page, 0).value, k))
  {
    hide Items, Regions, RegionsOf, TagOf, TakenAt, Inside;
    HarnessesSeeOneView(DocsExamples.NAMESPACE, page, 0);
    HarnessesSeeOneView(NAMESPACE, page, 0);
    TagsOutsideAreTaken(DocsExamples.NAMESPACE, page, 0, k);
    TagsOutsideAreTaken(NAMESPACE, page, 0, k);
    if TagOf(DocsExamples.NAMESPACE, page[k]).Some? && TagOf(NAMESPACE, page[k]).Some? {
      NamespacesAreDisjoint(DocsExamples.NAMESPACE, NAMESPACE, page[k]);
    }
  }
}
