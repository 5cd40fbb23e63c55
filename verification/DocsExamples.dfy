/** The executable examples of the documentation: the blocks a page marks as examples and as their
    expected outputs. */
module DocsExamples {
  import opened Options
  import opened Text
  import opened Directives
  import opened Fences

  const NAMESPACE: string := "gebra"
  const EXAMPLE: string := "example"
  const OUTPUT: string := "output"

  /** Lines are counted from 1, as a reader does. */
  datatype Example = Example(id: string, line: nat, code: string, expected: string, outputLine: Option<nat>)

  function Body(lines: seq<string>): string {
    if lines == [] then "" else lines[0] + "\n" + Body(lines[1..])
  }

  // ---------------------------------------------------------------- what a page declares

  /** The item marks the block of this kind and identifier. */
  predicate Marks(item: Item, kind: string, id: string) {
    item.Taken? && item.tag.kind == kind && IdOf(item.tag) == Some(id)
  }

  predicate Declared(items: seq<Item>, kind: string, id: string) {
    exists item | item in items :: Marks(item, kind, id)
  }

  /** A directive is of a known kind with one good identifier; an example is new, and an output
      belongs to an example above it that has none yet. */
  predicate ItemIsGood(above: seq<Item>, item: Item) {
    item.Taken? ==>
      && item.tag.kind in [EXAMPLE, OUTPUT]
      && IdOf(item.tag).Some?
      && var id := IdOf(item.tag).value;
         if item.tag.kind == EXAMPLE then !Declared(above, EXAMPLE, id)
         else Declared(above, EXAMPLE, id) && !Declared(above, OUTPUT, id)
  }

  predicate AllGood(items: seq<Item>) {
    forall k | 0 <= k < |items| :: ItemIsGood(items[..k], items[k])
  }

  predicate IsExample(item: Item) {
    item.Taken? && item.tag.kind == EXAMPLE
  }

  function ExampleItems(items: seq<Item>): (r: seq<Item>)
    ensures forall item | item in r :: IsExample(item) && item in items
  {
    if items == [] then []
    else
      var last := |items| - 1;
      ExampleItems(items[..last]) + if IsExample(items[last]) then [items[last]] else []
  }

  function OutputItem(items: seq<Item>, id: string): (r: Option<Item>)
    ensures r.Some? ==> r.value in items && Marks(r.value, OUTPUT, id)
    ensures r.None? <==> !Declared(items, OUTPUT, id)
  {
    if items == [] then None
    else if Marks(items[0], OUTPUT, id) then Some(items[0])
    else OutputItem(items[1..], id)
  }

  function Show(items: seq<Item>, item: Item): Example
    requires item.Taken? && IdOf(item.tag).Some?
  {
    var id := IdOf(item.tag).value;
    match OutputItem(items, id)
    case None => Example(id, item.open + 1, Body(item.body), "", None)
    case Some(output) => Example(id, item.open + 1, Body(item.body), Body(output.body), Some(output.open + 1))
  }

  /** The examples of a page that marks nothing badly, in document order. */
  function ExamplesOf(items: seq<Item>): seq<Example>
    requires AllGood(items)
  {
    GoodExamplesHaveIds(items);
    var examples := ExampleItems(items);
    seq(|examples|, i requires 0 <= i < |examples| => Show(items, examples[i]))
  }

  lemma GoodExamplesHaveIds(items: seq<Item>)
    requires AllGood(items)
    ensures forall item | item in items && item.Taken? :: IdOf(item.tag).Some?
    ensures forall i | 0 <= i < |ExampleItems(items)| :: ExampleItems(items)[i].Taken? && IdOf(ExampleItems(items)[i].tag).Some?
  {
    forall item | item in items && item.Taken? ensures IdOf(item.tag).Some? {
      var k :| 0 <= k < |items| && items[k] == item;
      assert ItemIsGood(items[..k], items[k]);
    }
    forall i | 0 <= i < |ExampleItems(items)| ensures ExampleItems(items)[i].Taken? && IdOf(ExampleItems(items)[i].tag).Some? {
      assert ExampleItems(items)[i] in items;
    }
  }

  // ---------------------------------------------------------------- reading a page

  datatype Listing = Listing(body: string, line: nat)

  /** The dictionary holds the blocks of this kind. */
  ghost predicate Holds(table: map<string, Listing>, items: seq<Item>, kind: string) {
    && (forall id :: id in table ==> Declared(items, kind, id))
    && (forall item, id | item in items && Marks(item, kind, id) :: id in table && table[id] == Listing(Body(item.body), item.open + 1))
  }

  lemma HoldsIff(table: map<string, Listing>, items: seq<Item>, kind: string, id: string)
    requires Holds(table, items, kind)
    ensures id in table <==> Declared(items, kind, id)
  {
  }

  lemma HoldsMore(table: map<string, Listing>, items: seq<Item>, kind: string, item: Item, id: string)
    requires Holds(table, items, kind) && Marks(item, kind, id) && !Declared(items, kind, id)
    ensures Holds(table[id := Listing(Body(item.body), item.open + 1)], items + [item], kind)
  {
    var more := items + [item];
    assert forall i :: i in more <==> i in items || i == item;
    forall other | other in table[id := Listing(Body(item.body), item.open + 1)] ensures Declared(more, kind, other) {
      if other == id {
        assert item in more;
      } else {
        var prior :| prior in items && Marks(prior, kind, other);
        assert prior in more;
      }
    }
  }

  lemma HoldsStill(table: map<string, Listing>, items: seq<Item>, kind: string, item: Item)
    requires Holds(table, items, kind) && (item.Taken? ==> item.tag.kind != kind)
    ensures Holds(table, items + [item], kind)
  {
    var more := items + [item];
    assert forall i :: i in more <==> i in items || i == item;
    forall other | other in table ensures Declared(more, kind, other) {
      var prior :| prior in items && Marks(prior, kind, other);
      assert prior in more;
    }
  }

  lemma GoodSoFar(items: seq<Item>, item: Item, rest: seq<Item>)
    requires AllGood(items)
    ensures ItemIsGood(items, item) ==> AllGood(items + [item])
    ensures !ItemIsGood(items, item) ==> !AllGood(items + [item] + rest)
  {
    var more, whole := items + [item], items + [item] + rest;
    assert whole[|items|] == item && whole[..|items|] == items;
    if ItemIsGood(items, item) {
      forall k | 0 <= k < |more| ensures ItemIsGood(more[..k], more[k]) {
        assert k < |items| ==> more[..k] == items[..k];
      }
    }
  }

  lemma NotGoodSoFar(done: seq<Item>, item: Item, rest: Option<seq<Item>>)
    requires AllGood(done) && !ItemIsGood(done, item)
    ensures Joined(done, Prepend(item, rest)).Some? ==> !AllGood(Joined(done, Prepend(item, rest)).value)
  {
    if rest.Some? {
      GoodSoFar(done, item, rest.value);
      assert done + ([item] + rest.value) == done + [item] + rest.value;
    }
  }

  ghost predicate IdsAre(order: seq<string>, done: seq<Item>) {
    && |order| == |ExampleItems(done)|
    && forall i | 0 <= i < |order| :: ExampleItems(done)[i].Taken? && IdOf(ExampleItems(done)[i].tag) == Some(order[i])
  }

  /** What the reader's variables hold of the items read so far. */
  ghost predicate Holding(codes: map<string, Listing>, outputs: map<string, Listing>, order: seq<string>, done: seq<Item>) {
    AllGood(done) && Holds(codes, done, EXAMPLE) && Holds(outputs, done, OUTPUT) && IdsAre(order, done)
  }

  lemma Begin(lines: seq<string>)
    ensures Holding(map[], map[], [], [])
    ensures Items(NAMESPACE, lines, 0) == Joined([], Items(NAMESPACE, Suffix(lines, 0), 0))
  {
    assert lines[0..] == lines;
    var items := Items(NAMESPACE, lines, 0);
    assert items.Some? ==> [] + items.value == items.value;
  }

  lemma ExampleItemsStep(items: seq<Item>, item: Item)
    ensures ExampleItems(items + [item]) == ExampleItems(items) + if IsExample(item) then [item] else []
  {
    assert (items + [item])[..|items|] == items;
  }

  lemma PassOn(codes: map<string, Listing>, outputs: map<string, Listing>, order: seq<string>, done: seq<Item>, item: Item)
    requires Holding(codes, outputs, order, done) && item.Passed?
    ensures Holding(codes, outputs, order, done + [item])
  {
    hide IdOf, Declared;
    HoldsStill(codes, done, EXAMPLE, item);
    HoldsStill(outputs, done, OUTPUT, item);
    GoodSoFar(done, item, []);
    ExampleItemsStep(done, item);
  }

  lemma ExampleOn(codes: map<string, Listing>, outputs: map<string, Listing>, order: seq<string>, done: seq<Item>, item: Item, id: string)
    requires Holding(codes, outputs, order, done) && Marks(item, EXAMPLE, id)
    ensures ItemIsGood(done, item) <==> id !in codes
    ensures id !in codes ==>
      Holding(codes[id := Listing(Body(item.body), item.open + 1)], outputs, order + [id], done + [item])
  {
    hide IdOf, Declared;
    HoldsIff(codes, done, EXAMPLE, id);
    if id !in codes {
      HoldsMore(codes, done, EXAMPLE, item, id);
      HoldsStill(outputs, done, OUTPUT, item);
      GoodSoFar(done, item, []);
      ExampleItemsStep(done, item);
    }
  }

  lemma OutputOn(codes: map<string, Listing>, outputs: map<string, Listing>, order: seq<string>, done: seq<Item>, item: Item, id: string)
    requires Holding(codes, outputs, order, done) && Marks(item, OUTPUT, id)
    ensures ItemIsGood(done, item) <==> id in codes && id !in outputs
    ensures id in codes && id !in outputs ==>
      Holding(codes, outputs[id := Listing(Body(item.body), item.open + 1)], order, done + [item])
  {
    hide IdOf, Declared;
    HoldsIff(codes, done, EXAMPLE, id);
    HoldsIff(outputs, done, OUTPUT, id);
    if id in codes && id !in outputs {
      HoldsMore(outputs, done, OUTPUT, item, id);
      HoldsStill(codes, done, EXAMPLE, item);
      GoodSoFar(done, item, []);
      ExampleItemsStep(done, item);
    }
  }

  function FromTables(codes: map<string, Listing>, outputs: map<string, Listing>, id: string): Example
    requires id in codes
  {
    Example(id, codes[id].line, codes[id].body,
            if id in outputs then outputs[id].body else "",
            if id in outputs then Some(outputs[id].line) else None)
  }

  lemma ShownItem(codes: map<string, Listing>, outputs: map<string, Listing>, items: seq<Item>, item: Item, id: string)
    requires Holds(codes, items, EXAMPLE) && Holds(outputs, items, OUTPUT)
    requires item in items && Marks(item, EXAMPLE, id)
    ensures id in codes && Show(items, item) == FromTables(codes, outputs, id)
  {
    hide IdOf, Body, Declared;
    HoldsIff(outputs, items, OUTPUT, id);
  }

  /** The two dictionaries give what a page shows of an example. */
  lemma ShownFromTables(codes: map<string, Listing>, outputs: map<string, Listing>, order: seq<string>, done: seq<Item>, i: nat)
    requires Holding(codes, outputs, order, done) && i < |order|
    ensures order[i] in codes && ExamplesOf(done)[i] == FromTables(codes, outputs, order[i])
  {
    hide IdOf, Body, Holds, Show, ItemIsGood, FromTables;
    var item := ExampleItems(done)[i];
    assert item in ExampleItems(done);
    ShownItem(codes, outputs, done, item, order[i]);
    GoodExamplesHaveIds(done);
  }

  /** Exactly the pages whose directives are all good and all followed by closed blocks are accepted. */
  method ParseMarkdown(lines: seq<string>) returns (examples: Option<seq<Example>>)
    ensures examples.Some? <==> Items(NAMESPACE, lines, 0).Some? && AllGood(Items(NAMESPACE, lines, 0).value)
    ensures examples.Some? ==> examples.value == ExamplesOf(Items(NAMESPACE, lines, 0).value)
  {
    hide TagOf, TurnOf, FenceOf, IdOf, Items, Suffix, CloseIn, ReadAt, ItemIsGood, AllGood, Holding, ExamplesOf;
    var codes: map<string, Listing>, outputs: map<string, Listing> := map[], map[];
    var order: seq<string> := [];
    ghost var done: seq<Item> := [];
    var index := 0;
    Begin(lines);
    while index < |lines|
      invariant Items(NAMESPACE, lines, 0) == Joined(done, Items(NAMESPACE, Suffix(lines, index), index))
      invariant Holding(codes, outputs, order, done)
      decreases |lines| - index
    {
      ReadOn(NAMESPACE, lines, index);
      TurnAt(NAMESPACE, lines, index);
      HoldingIsGood(codes, outputs, order, done);
      var directive := TagOf(NAMESPACE, lines[index]);
      if directive.None? {
        var fence := FenceOf(lines[index]);
        if fence.Some? {
          var closing := ClosingFence(lines, index, fence.value);
          ghost var item := Passed(index, closing);
          PassOn(codes, outputs, order, done, item);
          JoinedStep(done, item, Items(NAMESPACE, Suffix(lines, closing + 1), closing + 1));
          done := done + [item];
          index := closing + 1;
        } else {
          index := index + 1;
        }
        continue;
      }
      var tag := directive.value;
      ghost var expected := ReadAt(lines, index);
      ghost var item := if expected.None? then Passed(0, 0)
                        else Taken(tag, index, expected.value.open, expected.value.after - 1, expected.value.body);
      ghost var rest := if expected.None? then None
                        else Items(NAMESPACE, Suffix(lines, expected.value.after), expected.value.after);
      if tag.kind !in [EXAMPLE, OUTPUT] || IdOf(tag).None? {
        if expected.Some? {
          BadItem(done, item);
          NotGoodSoFar(done, item, rest);
        }
        return None;
      }
      var id := IdOf(tag).value;
      var reading := ReadFence(lines, index);
      if reading.None? {
        return None;
      }
      JoinedStep(done, item, rest);
      var listing := Listing(Body(reading.value.body), reading.value.open + 1);
      if tag.kind == EXAMPLE {
        ExampleOn(codes, outputs, order, done, item, id);
        if id in codes {
          NotGoodSoFar(done, item, rest);
          return None;
        }
        codes := codes[id := listing];
        order := order + [id];
      } else {
        OutputOn(codes, outputs, order, done, item, id);
        if id !in codes || id in outputs {
          NotGoodSoFar(done, item, rest);
          return None;
        }
        outputs := outputs[id := listing];
      }
      done := done + [item];
      index := reading.value.after;
    }
    HoldingIsGood(codes, outputs, order, done);
    NothingLeft(NAMESPACE, lines, index, done);
    var found: seq<Example> := [];
    for i := 0 to |order|
      invariant |found| == i && i <= |ExamplesOf(done)| == |order|
      invariant forall j | 0 <= j < i :: found[j] == ExamplesOf(done)[j]
    {
      ShownFromTables(codes, outputs, order, done, i);
      var id := order[i];
      var declared := id in outputs;
      found := found + [Example(id, codes[id].line, codes[id].body,
                                if declared then outputs[id].body else "",
                                if declared then Some(outputs[id].line) else None)];
    }
    assert found == ExamplesOf(done);
    examples := Some(found);
  }

  lemma HoldingIsGood(codes: map<string, Listing>, outputs: map<string, Listing>, order: seq<string>, done: seq<Item>)
    requires Holding(codes, outputs, order, done)
    ensures AllGood(done) && |ExamplesOf(done)| == |order|
  {
  }

  lemma BadItem(done: seq<Item>, item: Item)
    requires item.Taken? && (item.tag.kind !in [EXAMPLE, OUTPUT] || IdOf(item.tag).None?)
    ensures !ItemIsGood(done, item)
  {
  }

  // ---------------------------------------------------------------- nothing twice, nothing lost

  lemma MarkedAboveIsBad(items: seq<Item>, kind: string, id: string, i: nat, j: nat)
    requires i < j < |items| && kind in [EXAMPLE, OUTPUT]
    requires Marks(items[i], kind, id) && Marks(items[j], kind, id)
    ensures !ItemIsGood(items[..j], items[j])
  {
    hide IdOf;
    assert items[..j][i] in items[..j];
  }

  lemma MarkedOnce(items: seq<Item>, kind: string, id: string, i: nat, j: nat)
    requires AllGood(items) && i < |items| && j < |items| && kind in [EXAMPLE, OUTPUT]
    requires Marks(items[i], kind, id) && Marks(items[j], kind, id)
    ensures i == j
  {
    hide IdOf, ItemIsGood, Marks;
    if i < j {
      MarkedAboveIsBad(items, kind, id, i, j);
    } else if j < i {
      MarkedAboveIsBad(items, kind, id, j, i);
    }
  }

  lemma OutputIsTheItem(items: seq<Item>, item: Item, id: string)
    requires AllGood(items) && item in items && Marks(item, OUTPUT, id)
    ensures OutputItem(items, id) == Some(item)
  {
    hide IdOf, AllGood;
    assert Declared(items, OUTPUT, id);
    var other := OutputItem(items, id).value;
    var i :| 0 <= i < |items| && items[i] == item;
    var j :| 0 <= j < |items| && items[j] == other;
    MarkedOnce(items, OUTPUT, id, i, j);
  }

  lemma {:induction false} ExampleIsListed(items: seq<Item>, item: Item) returns (i: nat)
    requires item in items && IsExample(item)
    ensures i < |ExampleItems(items)| && ExampleItems(items)[i] == item
  {
    var last := |items| - 1;
    if items[last] == item {
      i := |ExampleItems(items[..last])|;
    } else {
      assert items == items[..last] + [items[last]];
      i := ExampleIsListed(items[..last], item);
    }
  }

  lemma ExampleAbove(items: seq<Item>, item: Item, id: string) returns (example: Item)
    requires AllGood(items) && item in items && Marks(item, OUTPUT, id)
    ensures example in items && Marks(example, EXAMPLE, id)
  {
    hide IdOf;
    var k :| 0 <= k < |items| && items[k] == item;
    assert ItemIsGood(items[..k], items[k]);
    example :| example in items[..k] && Marks(example, EXAMPLE, id);
  }

  lemma ShownWith(items: seq<Item>, example: Item, item: Item, id: string)
    requires Marks(example, EXAMPLE, id) && item.Taken? && OutputItem(items, id) == Some(item)
    ensures Show(items, example) == Example(id, example.open + 1, Body(example.body), Body(item.body), Some(item.open + 1))
  {
    hide IdOf, Body;
  }

  /** Every output block of an accepted page is the expected output of an example. */
  lemma EveryOutputIsExpected(items: seq<Item>, item: Item, id: string) returns (i: nat)
    requires AllGood(items) && item in items && Marks(item, OUTPUT, id)
    ensures i < |ExamplesOf(items)|
    ensures ExamplesOf(items)[i].id == id && ExamplesOf(items)[i].expected == Body(item.body)
    ensures ExamplesOf(items)[i].outputLine == Some(item.open + 1)
  {
    hide IdOf, Body, Show, ItemIsGood, Declared, OutputItem;
    OutputIsTheItem(items, item, id);
    var example := ExampleAbove(items, item, id);
    i := ExampleIsListed(items, example);
    GoodExamplesHaveIds(items);
    ShownWith(items, example, item, id);
    assert ExamplesOf(items)[i] == Show(items, example);
  }
}
