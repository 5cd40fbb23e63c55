/** Fenced blocks of a Markdown page, and the scan that both documentation harnesses make over it. */
module Fences {
  import opened Options
  import opened Text
  import opened Directives

  datatype Fence = Fence(mark: char, length: nat)

  function Is(mark: char): char -> bool {
    (c: char) => c == mark
  }

  /** The fence that a line opens: its longest front of backticks or of tildes, three at least. */
  function FenceOf(line: string): Option<Fence> {
    if line != "" && (line[0] == '`' || line[0] == '~') && Run(line, Is(line[0])) >= 3
      then Some(Fence(line[0], Run(line, Is(line[0]))))
    else None
  }

  /** A closing line is the mark and nothing else, at least as often as in the opening one. */
  predicate Closes(line: string, fence: Fence) {
    var stripped := RightStrip(LeftStrip(line));
    |stripped| >= fence.length && forall c | c in stripped :: c == fence.mark
  }

  /** How many lines stand before the closing one, all of them if there is none. */
  function CloseIn(page: seq<string>, fence: Fence): (n: nat)
    ensures n <= |page|
  {
    if page == [] || Closes(page[0], fence) then 0 else 1 + CloseIn(page[1..], fence)
  }

  function Blanks(page: seq<string>): (n: nat)
    ensures n <= |page|
  {
    if page == [] || !Blank(page[0]) then 0 else 1 + Blanks(page[1..])
  }

  datatype Block = Block(skip: nat, body: seq<string>)

  /** The closed block that these lines start with, blank lines aside. */
  function BlockIn(page: seq<string>): (r: Option<Block>)
    ensures r.Some? ==> r.value.skip + |r.value.body| + 2 <= |page|
  {
    var skip := Blanks(page);
    if skip == |page| then None
    else match FenceOf(page[skip])
         case None => None
         case Some(fence) =>
           var n := CloseIn(page[skip + 1..], fence);
           if skip + 1 + n < |page| then Some(Block(skip, page[skip + 1..skip + 1 + n])) else None
  }

  /** A directive with the block it takes, or a block that is passed over. Lines are counted from 0;
      `close` is one past the page where a block that is passed over does not close. */
  datatype Item =
    | Taken(tag: Tag, at: nat, open: nat, close: nat, body: seq<string>)
    | Passed(open: nat, close: nat)

  /** What the first line leads to: a directive without a block, nothing, a directive with its block,
      or a block of so many lines. */
  datatype Turn = Broken | Plain | Tagged(tag: Tag, skip: nat, body: seq<string>) | Fenced(n: nat)

  function TurnOf(namespace: string, page: seq<string>): (turn: Turn)
    requires page != []
    ensures turn.Tagged? ==> turn.skip + |turn.body| + 3 <= |page|
    ensures turn.Fenced? ==> turn.n < |page|
  {
    match TagOf(namespace, page[0])
    case Some(tag) =>
      (match BlockIn(page[1..])
       case None => Broken
       case Some(block) => Tagged(tag, block.skip, block.body))
    case None =>
      match FenceOf(page[0])
      case None => Plain
      case Some(fence) => Fenced(CloseIn(page[1..], fence))
  }

  /** How many lines a turn takes; an unclosed block takes one more than there are. */
  function Taking(turn: Turn): nat {
    match turn
    case Tagged(_, skip, body) => skip + |body| + 3
    case Fenced(n) => n + 2
    case _ => 1
  }

  function ItemOf(turn: Turn, at: nat): Item
    requires turn.Tagged? || turn.Fenced?
  {
    match turn
    case Tagged(tag, skip, body) => Taken(tag, at, at + 1 + skip, at + 2 + skip + |body|, body)
    case Fenced(n) => Passed(at, at + n + 1)
  }

  function Suffix(lines: seq<string>, index: nat): (rest: seq<string>)
    ensures |rest| == if index <= |lines| then |lines| - index else 0
  {
    if index <= |lines| then lines[index..] else []
  }

  function Prepend(item: Item, rest: Option<seq<Item>>): Option<seq<Item>> {
    if rest.Some? then Some([item] + rest.value) else None
  }

  /** What a harness sees on a page, or `None` where one of its directives has no closed block. */
  function Items(namespace: string, page: seq<string>, at: nat): Option<seq<Item>>
    decreases |page|
  {
    if page == [] then Some([])
    else
      var turn := TurnOf(namespace, page);
      if turn.Broken? then None
      else
        var rest := Items(namespace, Suffix(page, Taking(turn)), at + Taking(turn));
        if turn.Plain? then rest else Prepend(ItemOf(turn, at), rest)
  }

  // ---------------------------------------------------------------- the two readers

  method ClosingFence(lines: seq<string>, opening: nat, fence: Fence) returns (index: nat)
    requires opening < |lines|
    ensures index == opening + 1 + CloseIn(lines[opening + 1..], fence)
  {
    index := opening + 1;
    while index < |lines|
      invariant opening < index <= |lines|
      invariant opening + 1 + CloseIn(lines[opening + 1..], fence) == index + CloseIn(lines[index..], fence)
    {
      if Closes(lines[index], fence) {
        return;
      }
      assert lines[index..][1..] == lines[index + 1..];
      index := index + 1;
    }
  }

  /** What `read_fence` hands back: the body, the line that opens the block, the line after it. */
  datatype Reading = Reading(body: seq<string>, open: nat, after: nat)

  function ReadAt(lines: seq<string>, start: nat): Option<Reading>
    requires start < |lines|
  {
    match BlockIn(lines[start + 1..])
    case None => None
    case Some(block) =>
      var open := start + 1 + block.skip;
      Some(Reading(block.body, open, open + |block.body| + 2))
  }

  method ReadFence(lines: seq<string>, start: nat) returns (reading: Option<Reading>)
    requires start < |lines|
    ensures reading == ReadAt(lines, start)
  {
    hide FenceOf, Closes, Blank, BlockIn;
    ghost var rest := lines[start + 1..];
    var index := start + 1;
    while index < |lines| && Blank(lines[index])
      invariant start < index <= |lines|
      invariant start + 1 + Blanks(rest) == index + Blanks(lines[index..])
    {
      assert lines[index..][1..] == lines[index + 1..];
      index := index + 1;
    }
    BlockFrom(lines, start, index);
    if index >= |lines| {
      return None;
    }
    var fence := FenceOf(lines[index]);
    if fence.None? {
      return None;
    }
    var closing := ClosingFence(lines, index, fence.value);
    if closing >= |lines| {
      return None;
    }
    return Some(Reading(lines[index + 1..closing], index, closing + 1));
  }

  lemma BlockFrom(lines: seq<string>, start: nat, index: nat)
    requires start < index <= |lines| && Blanks(lines[start + 1..]) == index - start - 1
    ensures BlockIn(lines[start + 1..]) ==
      if index == |lines| || FenceOf(lines[index]).None? then None
      else var n := CloseIn(lines[index + 1..], FenceOf(lines[index]).value);
           if index + 1 + n < |lines| then Some(Block(index - start - 1, lines[index + 1..index + 1 + n])) else None
  {
    hide FenceOf, CloseIn, Blanks;
    if index < |lines| {
      var page, skip := lines[start + 1..], index - start - 1;
      assert page[skip] == lines[index] && page[skip + 1..] == lines[index + 1..];
      if FenceOf(lines[index]).Some? {
        var n := CloseIn(lines[index + 1..], FenceOf(lines[index]).value);
        if index + 1 + n < |lines| {
          assert page[skip + 1..skip + 1 + n] == lines[index + 1..index + 1 + n];
        }
      }
    }
  }

  // ---------------------------------------------------------------- reading on

  function Joined(done: seq<Item>, rest: Option<seq<Item>>): Option<seq<Item>> {
    if rest.Some? then Some(done + rest.value) else None
  }

  lemma SuffixTwice(lines: seq<string>, a: nat, b: nat)
    ensures Suffix(Suffix(lines, a), b) == Suffix(lines, a + b)
  {
  }

  /** One turn on: what is still to come is what the turn brings and the rest. */
  lemma ReadOn(namespace: string, lines: seq<string>, index: nat)
    requires index < |lines|
    ensures Suffix(lines, index) != []
    ensures var turn := TurnOf(namespace, Suffix(lines, index));
            var next := index + Taking(turn);
            var rest := Items(namespace, Suffix(lines, next), next);
            Items(namespace, Suffix(lines, index), index)
              == if turn.Broken? then None else if turn.Plain? then rest else Prepend(ItemOf(turn, index), rest)
  {
    hide TurnOf, Suffix;
    SuffixTwice(lines, index, Taking(TurnOf(namespace, Suffix(lines, index))));
  }

  /** The turn at a line, as the readers find it. */
  lemma TurnAt(namespace: string, lines: seq<string>, index: nat)
    requires index < |lines|
    ensures Suffix(lines, index) != []
    ensures TurnOf(namespace, Suffix(lines, index)) ==
      match TagOf(namespace, lines[index])
      case Some(tag) =>
        (match ReadAt(lines, index)
         case None => Broken
         case Some(r) => Tagged(tag, r.open - index - 1, r.body))
      case None =>
        match FenceOf(lines[index])
        case None => Plain
        case Some(fence) => Fenced(CloseIn(lines[index + 1..], fence))
    ensures ReadAt(lines, index).Some? ==> ReadAt(lines, index).value.after == ReadAt(lines, index).value.open + |ReadAt(lines, index).value.body| + 2
  {
    hide TagOf, FenceOf, CloseIn, BlockIn;
    assert Suffix(lines, index)[1..] == lines[index + 1..];
  }

  lemma JoinedStep(done: seq<Item>, item: Item, rest: Option<seq<Item>>)
    ensures Joined(done, Prepend(item, rest)) == Joined(done + [item], rest)
  {
    if rest.Some? {
      assert done + ([item] + rest.value) == done + [item] + rest.value;
    }
  }

  lemma NothingLeft(namespace: string, lines: seq<string>, index: nat, done: seq<Item>)
    requires index >= |lines|
    ensures Joined(done, Items(namespace, Suffix(lines, index), index)) == Some(done)
  {
    assert Suffix(lines, index) == [];
    assert done + [] == done;
  }

  // ---------------------------------------------------------------- one view of the page

  datatype Region = Region(open: nat, close: nat)

  /** The top-level fenced regions of a page, directives aside. */
  function Regions(page: seq<string>, at: nat): seq<Region>
    decreases |page|
  {
    if page == [] then []
    else match FenceOf(page[0])
         case None => Regions(Suffix(page, 1), at + 1)
         case Some(fence) =>
           var n := CloseIn(page[1..], fence);
           [Region(at, at + n + 1)] + Regions(Suffix(page, n + 2), at + n + 2)
  }

  function RegionsOf(items: seq<Item>): seq<Region> {
    if items == [] then [] else [Region(items[0].open, items[0].close)] + RegionsOf(items[1..])
  }

  lemma BlankOpensNothing(line: string)
    requires Blank(line)
    ensures FenceOf(line).None?
  {
    assert line != "" ==> line[0] in line;
  }

  lemma TagsOpenNothing(namespace: string, line: string)
    requires TagOf(namespace, line).Some?
    ensures FenceOf(line).None?
  {
  }

  lemma NoFence(page: seq<string>, at: nat)
    requires page != [] && FenceOf(page[0]).None?
    ensures Regions(page, at) == Regions(Suffix(page, 1), at + 1)
  {
    hide FenceOf, Suffix;
  }

  lemma OneFence(page: seq<string>, at: nat, n: nat)
    requires page != [] && FenceOf(page[0]).Some? && n == CloseIn(page[1..], FenceOf(page[0]).value)
    ensures Regions(page, at) == [Region(at, at + n + 1)] + Regions(Suffix(page, n + 2), at + n + 2)
  {
    hide FenceOf, Suffix, CloseIn;
  }

  lemma {:induction false} RegionsAfterBlanks(page: seq<string>, at: nat, skip: nat)
    requires skip <= |page| && forall i | 0 <= i < skip :: Blank(page[i])
    ensures Regions(page, at) == Regions(Suffix(page, skip), at + skip)
  {
    hide Regions, Blank, FenceOf;
    if skip > 0 {
      BlankOpensNothing(page[0]);
      NoFence(page, at);
      RegionsAfterBlanks(Suffix(page, 1), at + 1, skip - 1);
      SuffixTwice(page, 1, skip - 1);
    } else {
      assert page[0..] == page;
    }
  }

  lemma {:induction false} BlankFront(page: seq<string>)
    ensures forall i | 0 <= i < Blanks(page) :: Blank(page[i])
  {
    if page != [] {
      BlankFront(page[1..]);
    }
  }

  lemma BlockParts(page: seq<string>)
    requires BlockIn(page).Some?
    ensures var block := BlockIn(page).value; var here := Suffix(page, block.skip);
      && here != [] && FenceOf(here[0]).Some?
      && |block.body| == CloseIn(here[1..], FenceOf(here[0]).value)
      && forall i | 0 <= i < block.skip :: Blank(page[i])
  {
    hide FenceOf, CloseIn, Blank, Blanks;
    BlankFront(page);
    var skip := BlockIn(page).value.skip;
    assert Suffix(page, skip)[1..] == page[skip + 1..];
  }

  lemma RegionsAtBlock(page: seq<string>, at: nat)
    requires BlockIn(page).Some?
    ensures var block := BlockIn(page).value; var n := |block.body|; var open := at + block.skip;
            Regions(page, at) == [Region(open, open + n + 1)] + Regions(Suffix(page, block.skip + n + 2), open + n + 2)
  {
    hide FenceOf, CloseIn, Blank, BlockIn, Regions, Suffix;
    var block := BlockIn(page).value;
    BlockParts(page);
    RegionsAfterBlanks(page, at, block.skip);
    OneFence(Suffix(page, block.skip), at + block.skip, |block.body|);
    SuffixTwice(page, block.skip, |block.body| + 2);
  }

  /** Each turn brings the region of its item, or none. */
  lemma RegionsTurn(namespace: string, page: seq<string>, at: nat)
    requires page != [] && !TurnOf(namespace, page).Broken?
    ensures var turn := TurnOf(namespace, page);
            var rest := Regions(Suffix(page, Taking(turn)), at + Taking(turn));
            Regions(page, at) == if turn.Plain? then rest else [Region(ItemOf(turn, at).open, ItemOf(turn, at).close)] + rest
  {
    hide TagOf, FenceOf, CloseIn, BlockIn, Regions, Suffix;
    if TagOf(namespace, page[0]).Some? {
      TagsOpenNothing(namespace, page[0]);
      NoFence(page, at);
      SuffixOne(page);
      RegionsAtBlock(page[1..], at + 1);
      SuffixTwice(page, 1, Taking(TurnOf(namespace, page)) - 1);
    } else if FenceOf(page[0]).Some? {
      OneFence(page, at, CloseIn(page[1..], FenceOf(page[0]).value));
    } else {
      NoFence(page, at);
    }
  }

  lemma SuffixOne(page: seq<string>)
    requires page != []
    ensures Suffix(page, 1) == page[1..]
  {
  }

  /** Whatever its namespace, a harness that accepts a page sees the page's fenced regions, each once
      and in order; so do two of them. */
  lemma {:induction false} HarnessesSeeOneView(namespace: string, page: seq<string>, at: nat)
    requires Items(namespace, page, at).Some?
    ensures RegionsOf(Items(namespace, page, at).value) == Regions(page, at)
    decreases |page|
  {
    hide TurnOf, Suffix, Regions;
    if page == [] {
      NoRegions(at);
    } else {
      var turn := TurnOf(namespace, page);
      RegionsTurn(namespace, page, at);
      HarnessesSeeOneView(namespace, Suffix(page, Taking(turn)), at + Taking(turn));
      if !turn.Plain? {
        var rest := Items(namespace, Suffix(page, Taking(turn)), at + Taking(turn)).value;
        assert ([ItemOf(turn, at)] + rest)[1..] == rest;
      }
    }
  }

  lemma NoRegions(at: nat)
    ensures RegionsOf([]) == [] && Regions([], at) == []
  {
  }

  // ---------------------------------------------------------------- which directives are taken

  predicate Inside(items: seq<Item>, x: nat) {
    exists item | item in items :: item.open <= x <= item.close
  }

  predicate TakenAt(items: seq<Item>, x: nat) {
    exists item | item in items :: item.Taken? && item.at == x
  }

  predicate From(item: Item, at: nat) {
    at <= item.open <= item.close && (item.Taken? ==> at <= item.at < item.open)
  }

  lemma {:induction false} ItemsComeLater(namespace: string, page: seq<string>, at: nat)
    requires Items(namespace, page, at).Some?
    ensures forall item | item in Items(namespace, page, at).value :: From(item, at)
    decreases |page|
  {
    hide TurnOf, Suffix;
    if page != [] {
      var turn := TurnOf(namespace, page);
      ItemsComeLater(namespace, Suffix(page, Taking(turn)), at + Taking(turn));
    }
  }

  /** Reading on after one item, nothing changes for the lines that follow it. */
  lemma OneItemMore(item: Item, rest: seq<Item>, next: nat, x: nat)
    requires forall later | later in rest :: From(later, next)
    requires From(item, 0) && item.close < next
    ensures x >= next ==> (TakenAt([item] + rest, x) <==> TakenAt(rest, x)) && (Inside([item] + rest, x) <==> Inside(rest, x))
    ensures x < next ==> (TakenAt([item] + rest, x) <==> item.Taken? && item.at == x) && (Inside([item] + rest, x) <==> item.open <= x <= item.close)
  {
    assert forall i :: i in [item] + rest <==> i == item || i in rest;
    assert item in [item] + rest;
  }

  /** Among the lines that a turn takes, the directives outside its block are the one it starts with. */
  lemma TurnLines(namespace: string, page: seq<string>, k: nat)
    requires page != [] && !TurnOf(namespace, page).Broken? && k < Taking(TurnOf(namespace, page)) && k < |page|
    ensures var turn := TurnOf(namespace, page);
      && (turn.Plain? ==> TagOf(namespace, page[k]).None?)
      && (turn.Fenced? ==> k <= turn.n + 1)
      && (turn.Tagged? ==> if k == 0 then TagOf(namespace, page[k]).Some? else k > turn.skip || TagOf(namespace, page[k]).None?)
  {
    hide TagOf, FenceOf, CloseIn, BlockIn;
    var turn := TurnOf(namespace, page);
    if turn.Tagged? && 0 < k <= turn.skip {
      BlockParts(page[1..]);
      assert Blank(page[1..][k - 1]);
      BlankIsNoTag(namespace, page[k]);
    }
  }

  lemma BlankIsNoTag(namespace: string, line: string)
    requires Blank(line)
    ensures TagOf(namespace, line).None?
  {
    assert line != "" ==> line[0] in line;
  }

  lemma NothingAt(items: seq<Item>, at: nat)
    requires forall item | item in items :: From(item, at + 1)
    ensures !TakenAt(items, at)
  {
  }

  /** A line is a directive that is taken exactly when it reads as one and lies in no fenced region:
      what is shown inside a block declares nothing, and no directive outside is overlooked. */
  lemma {:induction false} TagsOutsideAreTaken(namespace: string, page: seq<string>, at: nat, k: nat)
    requires Items(namespace, page, at).Some? && k < |page|
    ensures var items := Items(namespace, page, at).value;
            TakenAt(items, at + k) <==> TagOf(namespace, page[k]).Some? && !Inside(items, at + k)
    decreases |page|
  {
    hide TagOf, TurnOf, TakenAt, Inside, Suffix;
    var turn := TurnOf(namespace, page);
    var next := at + Taking(turn);
    var rest := Suffix(page, Taking(turn));
    ItemsComeLater(namespace, rest, next);
    if !turn.Plain? {
      OneItemMore(ItemOf(turn, at), Items(namespace, rest, next).value, next, at + k);
    }
    if k < Taking(turn) {
      TurnLines(namespace, page, k);
      if turn.Plain? {
        NothingAt(Items(namespace, rest, next).value, at);
      }
    } else {
      SuffixAt(page, Taking(turn), k);
      TagsOutsideAreTaken(namespace, rest, next, k - Taking(turn));
    }
  }

  lemma SuffixAt(page: seq<string>, a: nat, k: nat)
    requires a <= k < |page|
    ensures k - a < |Suffix(page, a)| && Suffix(page, a)[k - a] == page[k]
  {
  }
}
