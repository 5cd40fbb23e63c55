/** What is written as marked examples is read back as those examples. */
module DocsRoundTrip {
  import opened Options
  import opened Text
  import opened Directives
  import opened Fences
  import opened DocsExamples

  /** An example as its author has it. */
  datatype Draft = Draft(id: string, code: seq<string>, output: Option<seq<string>>)

  predicate GoodFence(fence: Fence) {
    fence.length >= 3 && (fence.mark == '`' || fence.mark == '~')
  }

  function FenceLine(fence: Fence): string {
    seq(fence.length, i => fence.mark)
  }

  function Block(fence: Fence, info: string, body: seq<string>): seq<string> {
    [FenceLine(fence) + info] + body + [FenceLine(fence)]
  }

  function Marked(fence: Fence, kind: string, id: string, info: string, body: seq<string>): seq<string> {
    [WriteTag(NAMESPACE, kind, id)] + Block(fence, info, body)
  }

  function RenderOne(fence: Fence, d: Draft): seq<string> {
    Marked(fence, EXAMPLE, d.id, "python", d.code)
    + match d.output case None => [] case Some(lines) => Marked(fence, OUTPUT, d.id, "text", lines)
  }

  function Render(fence: Fence, drafts: seq<Draft>): seq<string> {
    if drafts == [] then [] else RenderOne(fence, drafts[0]) + Render(fence, drafts[1..])
  }

  /** No line of the body would be taken for the end of the block. */
  predicate Safe(fence: Fence, body: seq<string>) {
    forall line | line in body :: !Closes(line, fence)
  }

  // ---------------------------------------------------------------- one block

  lemma FenceLineIsRead(fence: Fence, info: string)
    requires GoodFence(fence) && (info == "" || info[0] != fence.mark)
    ensures FenceOf(FenceLine(fence) + info) == Some(fence)
  {
    var line := FenceLine(fence);
    assert forall c | c in line :: Is(fence.mark)(c);
    RunIs(line, info, Is(fence.mark));
  }

  lemma FenceLineCloses(fence: Fence)
    requires GoodFence(fence)
    ensures Closes(FenceLine(fence), fence)
  {
    var line := FenceLine(fence);
    assert LeftStrip(line) == line && RightStrip(line) == line;
  }

  lemma {:induction false} ClosesAfterBody(fence: Fence, body: seq<string>, rest: seq<string>)
    requires GoodFence(fence)
    ensures CloseIn(body + [FenceLine(fence)] + rest, fence) <= |body|
    ensures CloseIn(body + [FenceLine(fence)] + rest, fence) == |body| <==> Safe(fence, body)
  {
    hide Closes, FenceLine;
    var page := body + [FenceLine(fence)] + rest;
    if body == [] {
      assert page[0] == FenceLine(fence);
      FenceLineCloses(fence);
    } else {
      assert page[1..] == body[1..] + [FenceLine(fence)] + rest;
      ClosesAfterBody(fence, body[1..], rest);
      assert body == [body[0]] + body[1..];
    }
  }

  /** A body is read back from its block exactly when none of its lines closes the fence: a fence
      longer than any run of its own mark in the body is always enough. */
  lemma BlockReadsBack(fence: Fence, info: string, body: seq<string>, rest: seq<string>)
    requires GoodFence(fence) && (info == "" || info[0] != fence.mark)
    ensures BlockIn(Block(fence, info, body) + rest).Some?
    ensures BlockIn(Block(fence, info, body) + rest) == Some(Fences.Block(0, body)) <==> Safe(fence, body)
  {
    hide Closes, FenceLine, FenceOf, CloseIn;
    var page := Block(fence, info, body) + rest;
    FenceLineIsRead(fence, info);
    assert page[0] == FenceLine(fence) + info;
    OpensNoBlank(page);
    assert page[1..] == body + [FenceLine(fence)] + rest;
    ClosesAfterBody(fence, body, rest);
    var n := CloseIn(page[1..], fence);
    assert |page[1..1 + n]| == n;
    if n == |body| {
      assert page[1..1 + n] == body;
    }
  }

  lemma OpensNoBlank(page: seq<string>)
    requires page != [] && FenceOf(page[0]).Some?
    ensures Blanks(page) == 0
  {
    if Blank(page[0]) {
      BlankOpensNothing(page[0]);
    }
  }

  lemma ItemOfBlock(fence: Fence, kind: string, id: string, info: string, body: seq<string>, rest: seq<string>, at: nat)
    requires GoodFence(fence) && (info == "" || info[0] != fence.mark) && Safe(fence, body)
    requires kind in [EXAMPLE, OUTPUT] && IsId(id)
    ensures Items(NAMESPACE, Marked(fence, kind, id, info, body) + rest, at)
         == Prepend(Taken(Tag(kind, "id=" + id + " "), at, at + 1, at + |body| + 2, body), Items(NAMESPACE, rest, at + |body| + 3))
  {
    hide TagOf, WriteTag, BlockIn, Block, IsId, Safe, Suffix;
    WrittenTagIsRead(NAMESPACE, kind, id);
    var block := Block(fence, info, body);
    var page := Marked(fence, kind, id, info, body) + rest;
    assert page[0] == WriteTag(NAMESPACE, kind, id) && page[1..] == block + rest;
    BlockReadsBack(fence, info, body, rest);
    BlockLength(fence, info, body);
    SuffixIs(page[..|body| + 3], rest);
    assert page[..|body| + 3] + rest == page;
  }

  lemma SuffixIs(front: seq<string>, rest: seq<string>)
    ensures Suffix(front + rest, |front|) == rest
  {
  }

  lemma BlockLength(fence: Fence, info: string, body: seq<string>)
    ensures |Block(fence, info, body)| == |body| + 2
  {
  }

  // ---------------------------------------------------------------- a whole page

  function WrittenTag(kind: string, id: string): Tag {
    Tag(kind, "id=" + id + " ")
  }

  /** The items of one written example, and the line after it. */
  function ItemsOfOne(d: Draft, at: nat): (items: seq<Item>)
    ensures items != []
  {
    [Taken(WrittenTag(EXAMPLE, d.id), at, at + 1, at + |d.code| + 2, d.code)]
    + match d.output
      case None => []
      case Some(lines) =>
        [Taken(WrittenTag(OUTPUT, d.id), at + |d.code| + 3, at + |d.code| + 4, at + |d.code| + |lines| + 5, lines)]
  }

  function LinesOfOne(d: Draft): nat {
    |d.code| + 3 + match d.output case None => 0 case Some(lines) => |lines| + 3
  }

  function ItemsOfAll(drafts: seq<Draft>, at: nat): seq<Item> {
    if drafts == [] then [] else ItemsOfOne(drafts[0], at) + ItemsOfAll(drafts[1..], at + LinesOfOne(drafts[0]))
  }

  predicate SafeDraft(fence: Fence, d: Draft) {
    IsId(d.id) && Safe(fence, d.code) && (d.output.Some? ==> Safe(fence, d.output.value))
  }

  lemma ItemsOfDraft(fence: Fence, d: Draft, rest: seq<string>, at: nat)
    requires GoodFence(fence) && SafeDraft(fence, d) && Items(NAMESPACE, rest, at + LinesOfOne(d)).Some?
    ensures Items(NAMESPACE, RenderOne(fence, d) + rest, at) == Some(ItemsOfOne(d, at) + Items(NAMESPACE, rest, at + LinesOfOne(d)).value)
  {
    hide Items, Marked, IsId, Safe;
    var code := Marked(fence, EXAMPLE, d.id, "python", d.code);
    var tail := Items(NAMESPACE, rest, at + LinesOfOne(d)).value;
    var first := Taken(WrittenTag(EXAMPLE, d.id), at, at + 1, at + |d.code| + 2, d.code);
    match d.output
    case None =>
      assert code + [] + rest == code + rest;
      ItemOfBlock(fence, EXAMPLE, d.id, "python", d.code, rest, at);
      assert [first] + tail == ItemsOfOne(d, at) + tail;
    case Some(lines) =>
      var output := Marked(fence, OUTPUT, d.id, "text", lines);
      Regroup(code, output, rest);
      ItemOfBlock(fence, OUTPUT, d.id, "text", lines, rest, at + |d.code| + 3);
      ItemOfBlock(fence, EXAMPLE, d.id, "python", d.code, output + rest, at);
      var second := ItemsOfOne(d, at)[1];
      assert [first] + ([second] + tail) == ItemsOfOne(d, at) + tail;
  }

  lemma {:induction false} RenderedItems(fence: Fence, drafts: seq<Draft>, at: nat)
    requires GoodFence(fence) && forall d | d in drafts :: SafeDraft(fence, d)
    ensures Items(NAMESPACE, Render(fence, drafts), at) == Some(ItemsOfAll(drafts, at))
    decreases |drafts|
  {
    hide RenderOne, ItemsOfOne, SafeDraft;
    if drafts != [] {
      RenderedItems(fence, drafts[1..], at + LinesOfOne(drafts[0]));
      ItemsOfDraft(fence, drafts[0], Render(fence, drafts[1..]), at);
    }
  }

  ghost predicate DistinctIds(drafts: seq<Draft>) {
    forall i, j | 0 <= i < j < |drafts| :: drafts[i].id != drafts[j].id
  }

  /** The identifiers are free above. */
  ghost predicate Free(above: seq<Item>, drafts: seq<Draft>) {
    forall d | d in drafts :: !Declared(above, EXAMPLE, d.id) && !Declared(above, OUTPUT, d.id)
  }

  lemma DeclaredMore(above: seq<Item>, kind: string, written: string, mark: string, at: nat, open: nat, close: nat, body: seq<string>, id: string)
    requires IsId(written)
    ensures var item := Taken(WrittenTag(mark, written), at, open, close, body);
      && Marks(item, mark, written)
      && (Declared(above + [item], kind, id) <==> Declared(above, kind, id) || (kind == mark && id == written))
  {
    hide IdOf;
    WrittenIdIsRead(mark, written);
    var item := Taken(WrittenTag(mark, written), at, open, close, body);
    assert forall i :: i in above + [item] <==> i in above || i == item;
    assert item in above + [item];
  }

  lemma OneDraftIsGood(above: seq<Item>, d: Draft, at: nat)
    requires AllGood(above) && IsId(d.id) && Free(above, [d])
    ensures AllGood(above + ItemsOfOne(d, at))
    ensures forall kind, id | id != d.id :: Declared(above + ItemsOfOne(d, at), kind, id) <==> Declared(above, kind, id)
    ensures ExampleItems(above + ItemsOfOne(d, at)) == ExampleItems(above) + [ItemsOfOne(d, at)[0]]
  {
    hide IdOf, Declared, IsId, AllGood, ItemIsGood, WrittenTag, ExampleItems;
    assert d in [d];
    var first := ItemsOfOne(d, at)[0];
    OneItemIsGood(above, d.id, EXAMPLE, at, at + 1, at + |d.code| + 2, d.code);
    match d.output
    case None =>
      assert ItemsOfOne(d, at) == [first];
    case Some(lines) =>
      var second, open := ItemsOfOne(d, at)[1], at + |d.code| + 4;
      OneItemIsGood(above + [first], d.id, OUTPUT, open - 1, open, open + |lines| + 1, lines);
      assert above + ItemsOfOne(d, at) == above + [first] + [second];
      assert ExampleItems(above + [first]) + [] == ExampleItems(above + [first]);
  }

  lemma OneItemIsGood(above: seq<Item>, written: string, mark: string, at: nat, open: nat, close: nat, body: seq<string>)
    requires AllGood(above) && IsId(written) && mark in [EXAMPLE, OUTPUT]
    requires !Declared(above, mark, written) && (mark == OUTPUT ==> Declared(above, EXAMPLE, written))
    ensures var item := Taken(WrittenTag(mark, written), at, open, close, body);
      && AllGood(above + [item])
      && (forall kind, id :: Declared(above + [item], kind, id) <==> Declared(above, kind, id) || (kind == mark && id == written))
      && ExampleItems(above + [item]) == ExampleItems(above) + if mark == EXAMPLE then [item] else []
  {
    hide IdOf, Declared, IsId, AllGood, ExampleItems;
    var item := Taken(WrittenTag(mark, written), at, open, close, body);
    forall kind, id ensures Declared(above + [item], kind, id) <==> Declared(above, kind, id) || (kind == mark && id == written) {
      DeclaredMore(above, kind, written, mark, at, open, close, body, id);
    }
    DeclaredMore(above, mark, written, mark, at, open, close, body, written);
    GoodSoFar(above, item, []);
    ExampleItemsStep(above, item);
  }

  lemma FreeBelow(above: seq<Item>, drafts: seq<Draft>, at: nat)
    requires drafts != [] && DistinctIds(drafts) && Free(above, drafts) && AllGood(above) && IsId(drafts[0].id)
    ensures AllGood(above + ItemsOfOne(drafts[0], at)) && Free(above + ItemsOfOne(drafts[0], at), drafts[1..])
    ensures ExampleItems(above + ItemsOfOne(drafts[0], at)) == ExampleItems(above) + [ItemsOfOne(drafts[0], at)[0]]
  {
    hide IdOf, Declared, IsId, AllGood, ExampleItems, ItemsOfOne;
    assert drafts[0] in drafts;
    OneDraftIsGood(above, drafts[0], at);
    forall d | d in drafts[1..] ensures d.id != drafts[0].id && d in drafts {
      var j :| 0 <= j < |drafts[1..]| && drafts[1..][j] == d;
      assert drafts[j + 1] == d;
    }
  }

  function FirstItems(drafts: seq<Draft>, at: nat): seq<Item> {
    if drafts == [] then [] else [ItemsOfOne(drafts[0], at)[0]] + FirstItems(drafts[1..], at + LinesOfOne(drafts[0]))
  }

  lemma {:induction false} DraftsAreGood(above: seq<Item>, drafts: seq<Draft>, at: nat)
    requires AllGood(above) && (forall d | d in drafts :: IsId(d.id)) && DistinctIds(drafts) && Free(above, drafts)
    ensures AllGood(above + ItemsOfAll(drafts, at))
    ensures ExampleItems(above + ItemsOfAll(drafts, at)) == ExampleItems(above) + FirstItems(drafts, at)
    decreases |drafts|
  {
    hide IsId, AllGood, Free, ExampleItems, ItemsOfOne;
    if drafts == [] {
      assert above + [] == above;
    } else {
      var one := ItemsOfOne(drafts[0], at);
      var next := at + LinesOfOne(drafts[0]);
      assert drafts[0] in drafts;
      FreeBelow(above, drafts, at);
      DraftsAreGood(above + one, drafts[1..], next);
      Regroup(above, one, ItemsOfAll(drafts[1..], next));
      Regroup(ExampleItems(above), [one[0]], FirstItems(drafts[1..], next));
    }
  }

  /** The identifier, the code and the expected output of a draft. */
  ghost predicate Says(e: Example, d: Draft) {
    && e.id == d.id && e.code == Body(d.code)
    && e.expected == (if d.output.Some? then Body(d.output.value) else "")
    && (e.outputLine.Some? <==> d.output.Some?)
  }

  lemma {:induction false} ItemsOfDraftAt(drafts: seq<Draft>, at: nat, i: nat) returns (k: nat)
    requires i < |drafts|
    ensures |FirstItems(drafts, at)| == |drafts| && FirstItems(drafts, at)[i] == ItemsOfOne(drafts[i], k)[0]
    ensures forall item | item in ItemsOfOne(drafts[i], k) :: item in ItemsOfAll(drafts, at)
    decreases |drafts|
  {
    hide ItemsOfOne;
    var next := at + LinesOfOne(drafts[0]);
    if i == 0 {
      k := at;
      if |drafts| > 1 {
        var unused := ItemsOfDraftAt(drafts[1..], next, 0);
      }
    } else {
      k := ItemsOfDraftAt(drafts[1..], next, i - 1);
    }
  }

  lemma {:induction false} OutputsAreOfDrafts(drafts: seq<Draft>, at: nat, item: Item, id: string) returns (j: nat)
    requires (forall d | d in drafts :: IsId(d.id)) && item in ItemsOfAll(drafts, at) && Marks(item, OUTPUT, id)
    ensures j < |drafts| && drafts[j].id == id && drafts[j].output.Some?
    decreases |drafts|
  {
    hide IdOf, IsId;
    var d := drafts[0];
    assert d in drafts;
    if item in ItemsOfOne(d, at) {
      WrittenIdIsRead(OUTPUT, d.id);
      j := 0;
    } else {
      var rest := OutputsAreOfDrafts(drafts[1..], at + LinesOfOne(d), item, id);
      j := rest + 1;
    }
  }

  /** Examples rendered into a page, in fences that no line of theirs closes, are read back: the same
      identifiers, code and outputs, in the same order, and nothing else. */
  lemma RoundTrip(fence: Fence, drafts: seq<Draft>)
    requires GoodFence(fence) && DistinctIds(drafts) && forall d | d in drafts :: SafeDraft(fence, d)
    ensures Items(NAMESPACE, Render(fence, drafts), 0) == Some(ItemsOfAll(drafts, 0)) && AllGood(ItemsOfAll(drafts, 0))
    ensures |ExamplesOf(ItemsOfAll(drafts, 0))| == |drafts|
    ensures forall i | 0 <= i < |drafts| :: Says(ExamplesOf(ItemsOfAll(drafts, 0))[i], drafts[i])
  {
    hide Items, AllGood, Safe, IsId, Says, ItemsOfAll, FirstItems, ExampleItems;
    RenderedItems(fence, drafts, 0);
    NothingAbove(drafts);
    DraftsAreGood([], drafts, 0);
    var items := ItemsOfAll(drafts, 0);
    assert [] + items == items && [] + FirstItems(drafts, 0) == FirstItems(drafts, 0);
    FirstItemsLength(drafts, 0);
    GoodExamplesHaveIds(items);
    forall i | 0 <= i < |drafts| ensures Says(ExamplesOf(items)[i], drafts[i]) {
      DraftIsSaid(drafts, i);
    }
  }

  lemma {:induction false} FirstItemsLength(drafts: seq<Draft>, at: nat)
    ensures |FirstItems(drafts, at)| == |drafts|
    decreases |drafts|
  {
    if drafts != [] {
      FirstItemsLength(drafts[1..], at + LinesOfOne(drafts[0]));
    }
  }

  lemma NothingAbove(drafts: seq<Draft>)
    ensures AllGood([]) && Free([], drafts) && ExampleItems([]) == []
  {
  }

  lemma DraftIsSaid(drafts: seq<Draft>, i: nat)
    requires i < |drafts| && DistinctIds(drafts) && forall d | d in drafts :: IsId(d.id)
    requires AllGood(ItemsOfAll(drafts, 0)) && ExampleItems(ItemsOfAll(drafts, 0)) == FirstItems(drafts, 0)
    ensures |FirstItems(drafts, 0)| == |drafts| && Says(ExamplesOf(ItemsOfAll(drafts, 0))[i], drafts[i])
  {
    hide AllGood, IsId, IdOf, Body, ItemsOfAll, FirstItems, ExampleItems, Declared, OutputItem;
    var items, d := ItemsOfAll(drafts, 0), drafts[i];
    var k := ItemsOfDraftAt(drafts, 0, i);
    GoodExamplesHaveIds(items);
    assert d in drafts;
    WrittenIdIsRead(EXAMPLE, d.id);
    assert ExamplesOf(items)[i] == Show(items, ItemsOfOne(d, k)[0]);
    if d.output.Some? {
      var item := ItemsOfOne(d, k)[1];
      assert item in ItemsOfOne(d, k);
      WrittenIdIsRead(OUTPUT, d.id);
      OutputIsTheItem(items, item, d.id);
    } else {
      NoOutputOf(drafts, i);
    }
  }

  lemma SameIdSameDraft(drafts: seq<Draft>, i: nat, j: nat)
    requires DistinctIds(drafts) && i < |drafts| && j < |drafts| && drafts[i].id == drafts[j].id
    ensures i == j
  {
  }

  lemma NoOutputOf(drafts: seq<Draft>, i: nat)
    requires i < |drafts| && DistinctIds(drafts) && (forall d | d in drafts :: IsId(d.id)) && drafts[i].output.None?
    ensures OutputItem(ItemsOfAll(drafts, 0), drafts[i].id).None?
  {
    hide IsId, ItemsOfAll, IdOf, Declared, OutputItem, ItemIsGood, DistinctIds, Marks;
    var found := OutputItem(ItemsOfAll(drafts, 0), drafts[i].id);
    if found.Some? {
      var j := OutputsAreOfDrafts(drafts, 0, found.value, drafts[i].id);
      SameIdSameDraft(drafts, i, j);
    }
  }
}
