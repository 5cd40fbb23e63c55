/** One state of the delivery board, the checks over it and over its commit history: stored
    statuses, the legal transitions, READY derived from prerequisites and gates, and the order
    of the gates. */
module BoardPlan {
  import opened Lists
  import opened Options
  import opened Graphs
  import opened DepthFirst
  import opened BoardCycles

  /** The seven stored statuses; anything else a card may carry is kept as it was written. */
  datatype Status = Todo | InProgress | InReview | OnHold | Done | Dropped | Superseded | Unknown(text: string)

  predicate Live(s: Status) {
    s.Todo? || s.InProgress? || s.InReview? || s.OnHold?
  }

  predicate Terminal(s: Status) {
    s.Done? || s.Dropped? || s.Superseded?
  }

  /** The arrows of the transition diagram. */
  predicate LegalTransition(from: Status, to: Status) {
    match from
    case Todo => to.InProgress? || to.Superseded? || to.Dropped?
    case InProgress => to.Todo? || to.InReview? || to.Done? || to.OnHold?
    case InReview => to.Done?
    case OnHold => to.Superseded? || to.Dropped? || to.Todo?
    case _ => false
  }

  /** The eleven arrows, one by one. */
  lemma ArrowsAre(from: Status, to: Status)
    ensures LegalTransition(from, to) <==> (from, to) in {
      (Todo, InProgress), (InProgress, Todo), (InProgress, InReview), (InReview, Done), (InProgress, Done), (InProgress, OnHold),
      (Todo, Superseded), (Todo, Dropped), (OnHold, Superseded), (OnHold, Dropped), (OnHold, Todo)}
  {
  }

  /** One token of a card's prerequisite list, as the id and gate grammars read it. */
  datatype Token = Needs(card: Id) | Behind(gate: string) | NoneWord | Unreadable(text: string)

  /** A card; its prerequisite field may be missing. */
  datatype Card = Card(status: Status, listed: Option<seq<Token>>) {
    function Prereqs(): seq<Token> {
      if listed.Some? then listed.value else []
    }

    function PrereqCards(): (ids: seq<Id>)
      ensures forall id :: id in ids <==> Needs(id) in Prereqs()
    {
      CardsOf(Prereqs())
    }

    function PrereqGates(): (gates: seq<string>)
      ensures forall g :: g in gates <==> Behind(g) in Prereqs()
    {
      GatesOf(Prereqs())
    }
  }

  function CardsOf(tokens: seq<Token>): (ids: seq<Id>)
    ensures forall id :: id in ids <==> Needs(id) in tokens
  {
    if tokens == [] then []
    else
      assert forall t :: t in tokens <==> t == tokens[0] || t in tokens[1..];
      (if tokens[0].Needs? then [tokens[0].card] else []) + CardsOf(tokens[1..])
  }

  function GatesOf(tokens: seq<Token>): (gates: seq<string>)
    ensures forall g :: g in gates <==> Behind(g) in tokens
  {
    if tokens == [] then []
    else
      assert forall t :: t in tokens <==> t == tokens[0] || t in tokens[1..];
      (if tokens[0].Behind? then [tokens[0].gate] else []) + GatesOf(tokens[1..])
  }

  /** The cards a list names, in its order and as often, and so the gates. */
  lemma {:induction false} CardsInOrder(a: seq<Token>, b: seq<Token>)
    ensures CardsOf(a + b) == CardsOf(a) + CardsOf(b)
  {
    if a == [] {
      assert a + b == b;
    } else {
      assert (a + b)[1..] == a[1..] + b;
      CardsInOrder(a[1..], b);
    }
  }

  lemma {:induction false} GatesInOrder(a: seq<Token>, b: seq<Token>)
    ensures GatesOf(a + b) == GatesOf(a) + GatesOf(b)
  {
    if a == [] {
      assert a + b == b;
    } else {
      assert (a + b)[1..] == a[1..] + b;
      GatesInOrder(a[1..], b);
    }
  }

  lemma OneToken(t: Token)
    ensures CardsOf([t]) == (if t.Needs? then [t.card] else []) && GatesOf([t]) == (if t.Behind? then [t.gate] else [])
  {
    assert [t][1..] == [];
  }

  datatype Gate = Gate(id: string, number: nat, exitCards: seq<Id>, signed: bool)

  /** A parsed plan; `order` and `gateOrder` are the iteration orders of the two mappings. */
  datatype Plan = Plan(order: seq<Id>, cards: map<Id, Card>, gateOrder: seq<string>, gates: map<string, Gate>) {
    ghost predicate Valid() {
      && (forall id :: id in cards <==> id in order) && Distinct(order)
      && (forall g :: g in gates <==> g in gateOrder) && Distinct(gateOrder)
      && (forall g | g in gates :: gates[g].id == g)
    }

    function Status(id: Id): Status
      requires id in cards
    {
      cards[id].status
    }
  }

  // ---------------------------------------------------------------- prerequisites

  /** The graph the cycle check walks: every card, with the cards it names. */
  function PrereqGraph(plan: Plan): Graph {
    Graph(plan.order, map id | id in plan.cards :: plan.cards[id].PrereqCards())
  }

  /** The cycle check is silent exactly when no card waits, through others, for itself. */
  method CheckCycles(plan: Plan) returns (findings: seq<seq<Id>>)
    requires plan.Valid()
    ensures findings == FirstOfEach(BackEdgeCycles(PrereqGraph(plan)))
    ensures findings == [] <==> Acyclic(PrereqGraph(plan))
    ensures forall i | 0 <= i < |findings| ::
      |findings[i]| >= 2 && forall k | 0 <= k < |findings[i]| - 1 ::
        findings[i][k] in plan.cards && Needs(findings[i][k + 1]) in plan.cards[findings[i][k]].Prereqs()
  {
    ghost var examined;
    findings, examined := FindCycles(PrereqGraph(plan));
    forall i, k | 0 <= i < |findings| && 0 <= k < |findings[i]| - 1
      ensures findings[i][k] in plan.cards && Needs(findings[i][k + 1]) in plan.cards[findings[i][k]].Prereqs()
    {
      assert SimpleCycle(PrereqGraph(plan), findings[i]);
      assert PrereqGraph(plan).Edge(findings[i][k], findings[i][k + 1]);
    }
  }

  datatype PrereqFinding =
    | NoTokens(id: Id) | NoneMixed(id: Id) | UnknownGate(id: Id, gate: string) | SelfPrereq(id: Id)
    | Dangling(id: Id, prereq: Id) | NotAToken(id: Id, text: string)

  /** What the prerequisite check asks of a card that has the field: each token resolves, and `none`
      stands alone. */
  ghost predicate TokensResolve(plan: Plan, id: Id)
    requires id in plan.cards
  {
    plan.cards[id].listed.Some? ==>
      var tokens := plan.cards[id].Prereqs();
      && tokens != []
      && (tokens == [NoneWord] || forall t | t in tokens :: TokenResolves(plan, id, t))
  }

  predicate TokenResolves(plan: Plan, id: Id, t: Token) {
    match t
    case Needs(p) => p != id && p in plan.cards
    case Behind(g) => g in plan.gates
    case _ => false
  }

  /** What each finding says of the card. */
  ghost predicate PrereqRule(plan: Plan, f: PrereqFinding)
    requires f.id in plan.cards
  {
    var tokens := plan.cards[f.id].Prereqs();
    && plan.cards[f.id].listed.Some?
    && match f
       case NoTokens(_) => tokens == []
       case NoneMixed(_) => NoneWord in tokens && |tokens| > 1
       case UnknownGate(_, g) => NoneWord !in tokens && Behind(g) in tokens && g !in plan.gates
       case SelfPrereq(id) => NoneWord !in tokens && Needs(id) in tokens
       case Dangling(id, p) => NoneWord !in tokens && Needs(p) in tokens && p != id && p !in plan.cards
       case NotAToken(_, text) => NoneWord !in tokens && Unreadable(text) in tokens
  }

  method CheckPrereqs(plan: Plan) returns (findings: seq<PrereqFinding>)
    requires plan.Valid()
    ensures findings == [] <==> forall id | id in plan.cards :: TokensResolve(plan, id)
    ensures forall f | f in findings :: f.id in plan.cards && !TokensResolve(plan, f.id)
    ensures forall id | id in plan.cards && !TokensResolve(plan, id) :: exists f :: f in findings && f.id == id
    ensures forall f: PrereqFinding :: f in findings <==> f.id in plan.cards && PrereqRule(plan, f)
  {
    hide PrereqRule, TokensResolve;
    findings := [];
    for i := 0 to |plan.order|
      invariant forall f | f in findings :: f.id in plan.cards && !TokensResolve(plan, f.id)
      invariant forall k | 0 <= k < i && !TokensResolve(plan, plan.order[k]) ::
          exists f :: f in findings && f.id == plan.order[k]
      invariant forall f: PrereqFinding :: f in findings <==> f.id in plan.order[..i] && f.id in plan.cards && PrereqRule(plan, f)
    {
      assert plan.order[..i + 1] == plan.order[..i] + [plan.order[i]];
      var found := CheckTokens(plan, plan.order[i]);
      ghost var before := findings;
      findings := findings + found;
      assert forall f :: f in findings <==> f in before || f in found;
      if found != [] { assert found[0] in findings; }
    }
    if findings != [] { assert findings[0] in findings; }
    assert plan.order[..|plan.order|] == plan.order;
  }

  function TokenFinding(plan: Plan, id: Id, t: Token): Option<PrereqFinding> {
    match t
    case Behind(g) => if g !in plan.gates then Some(UnknownGate(id, g)) else None
    case Needs(p) => if p == id then Some(SelfPrereq(id)) else if p !in plan.cards then Some(Dangling(id, p)) else None
    case NoneWord => None
    case Unreadable(text) => Some(NotAToken(id, text))
  }

  lemma TokenRules(plan: Plan, id: Id, f: PrereqFinding)
    requires id in plan.cards && f.id == id && plan.cards[id].listed.Some? && plan.cards[id].Prereqs() != []
    requires NoneWord !in plan.cards[id].Prereqs()
    ensures (exists t :: t in plan.cards[id].Prereqs() && TokenFinding(plan, id, t) == Some(f)) <==> PrereqRule(plan, f)
  {
  }

  method CheckTokens(plan: Plan, id: Id) returns (findings: seq<PrereqFinding>)
    requires id in plan.cards
    ensures findings == [] <==> TokensResolve(plan, id)
    ensures forall f | f in findings :: f.id == id
    ensures forall f: PrereqFinding | f.id == id :: f in findings <==> PrereqRule(plan, f)
  {
    if plan.cards[id].listed.None? {
      return [];
    }
    var tokens := plan.cards[id].Prereqs();
    if tokens == [] {
      return [NoTokens(id)];
    }
    if NoneWord in tokens {
      if |tokens| > 1 {
        return [NoneMixed(id)];
      }
      return [];
    }
    findings := ReadTokens(plan, id, tokens);
    forall f: PrereqFinding | f.id == id ensures f in findings <==> PrereqRule(plan, f) {
      TokenRules(plan, id, f);
    }
  }

  method ReadTokens(plan: Plan, id: Id, tokens: seq<Token>) returns (findings: seq<PrereqFinding>)
    requires NoneWord !in tokens
    ensures findings == [] <==> forall t | t in tokens :: TokenResolves(plan, id, t)
    ensures forall f :: f in findings <==> exists t :: t in tokens && TokenFinding(plan, id, t) == Some(f)
  {
    hide TokenFinding, TokenResolves;
    findings := [];
    for i := 0 to |tokens|
      invariant findings == TokenFindings(plan, id, tokens[..i])
    {
      assert tokens[..i + 1][..i] == tokens[..i];
      TokenTold(plan, id, tokens[i]);
      match tokens[i] {
        case Behind(g) =>
          if g !in plan.gates { findings := findings + [UnknownGate(id, g)]; }
        case Needs(p) =>
          if p == id { findings := findings + [SelfPrereq(id)]; }
          else if p !in plan.cards { findings := findings + [Dangling(id, p)]; }
        case NoneWord => assert false;
        case Unreadable(text) =>
          findings := findings + [NotAToken(id, text)];
      }
    }
    assert tokens[..|tokens|] == tokens;
    TokenFindingsHave(plan, id, tokens);
  }

  function TokenFindings(plan: Plan, id: Id, tokens: seq<Token>): seq<PrereqFinding> {
    if tokens == [] then []
    else
      TokenFindings(plan, id, tokens[..|tokens| - 1])
      + match TokenFinding(plan, id, tokens[|tokens| - 1]) case None => [] case Some(f) => [f]
  }

  lemma TokenTold(plan: Plan, id: Id, t: Token)
    ensures TokenFinding(plan, id, t) ==
      match t
      case Behind(g) => (if g !in plan.gates then Some(UnknownGate(id, g)) else None)
      case Needs(p) => (if p == id then Some(SelfPrereq(id)) else if p !in plan.cards then Some(Dangling(id, p)) else None)
      case NoneWord => None
      case Unreadable(text) => Some(NotAToken(id, text))
    ensures TokenResolves(plan, id, t) <==> t != NoneWord && TokenFinding(plan, id, t).None?
  {
  }

  lemma {:induction false} TokenFindingsHave(plan: Plan, id: Id, tokens: seq<Token>)
    requires NoneWord !in tokens
    ensures TokenFindings(plan, id, tokens) == [] <==> forall t | t in tokens :: TokenResolves(plan, id, t)
    ensures forall f :: f in TokenFindings(plan, id, tokens) <==> exists t :: t in tokens && TokenFinding(plan, id, t) == Some(f)
  {
    hide TokenFinding, TokenResolves;
    if tokens != [] {
      var front, last := tokens[..|tokens| - 1], tokens[|tokens| - 1];
      assert tokens == front + [last];
      TokenFindingsHave(plan, id, front);
      TokenTold(plan, id, last);
    }
  }

  /** Why a card is not READY. */
  datatype Unmet = UnresolvedCard(id: Id) | NotDone(id: Id, status: Status) | UnresolvedGate(gate: string) | OpenGate(gate: string)

  function UnmetCards(plan: Plan, ids: seq<Id>): (unmet: seq<Unmet>)
    ensures unmet == [] <==> forall id | id in ids :: id in plan.cards && plan.Status(id).Done?
  {
    if ids == [] then []
    else
      assert forall id :: id in ids <==> id == ids[0] || id in ids[1..];
      (if ids[0] !in plan.cards then [UnresolvedCard(ids[0])]
       else if !plan.Status(ids[0]).Done? then [NotDone(ids[0], plan.Status(ids[0]))]
       else []) + UnmetCards(plan, ids[1..])
  }

  function UnmetGates(plan: Plan, gates: seq<string>): (unmet: seq<Unmet>)
    ensures unmet == [] <==> forall g | g in gates :: g in plan.gates && plan.gates[g].signed
  {
    if gates == [] then []
    else
      assert forall g :: g in gates <==> g == gates[0] || g in gates[1..];
      (if gates[0] !in plan.gates then [UnresolvedGate(gates[0])]
       else if !plan.gates[gates[0]].signed then [OpenGate(gates[0])]
       else []) + UnmetGates(plan, gates[1..])
  }

  /** READY is derived: no token blocks exactly when every named card is done and every named
      gate is signed. */
  function BlockingTokens(plan: Plan, card: Card): (unmet: seq<Unmet>)
    ensures unmet == [] <==>
      && (forall id | Needs(id) in card.Prereqs() :: id in plan.cards && plan.Status(id).Done?)
      && (forall g | Behind(g) in card.Prereqs() :: g in plan.gates && plan.gates[g].signed)
  {
    assert forall id :: id in card.PrereqCards() <==> Needs(id) in card.Prereqs();
    assert forall g :: g in card.PrereqGates() <==> Behind(g) in card.Prereqs();
    UnmetCards(plan, card.PrereqCards()) + UnmetGates(plan, card.PrereqGates())
  }

  lemma {:induction false} CardsUnmet(plan: Plan, ids: seq<Id>, u: Unmet)
    ensures u in UnmetCards(plan, ids) <==>
      || (u.UnresolvedCard? && u.id in ids && u.id !in plan.cards)
      || (u.NotDone? && u.id in ids && u.id in plan.cards && u.status == plan.Status(u.id) && u.status != Done)
  {
    if ids != [] {
      CardsUnmet(plan, ids[1..], u);
      assert ids == [ids[0]] + ids[1..];
    }
  }

  lemma {:induction false} GatesUnmet(plan: Plan, gates: seq<string>, u: Unmet)
    ensures u in UnmetGates(plan, gates) <==>
      || (u.UnresolvedGate? && u.gate in gates && u.gate !in plan.gates)
      || (u.OpenGate? && u.gate in gates && u.gate in plan.gates && !plan.gates[u.gate].signed)
  {
    if gates != [] {
      GatesUnmet(plan, gates[1..], u);
      assert gates == [gates[0]] + gates[1..];
    }
  }

  /** What blocks a card, token by token. */
  lemma BlockersAre(plan: Plan, card: Card, u: Unmet)
    ensures u in BlockingTokens(plan, card) <==>
      match u
      case UnresolvedCard(id) => Needs(id) in card.Prereqs() && id !in plan.cards
      case NotDone(id, status) => Needs(id) in card.Prereqs() && id in plan.cards && status == plan.Status(id) && status != Done
      case UnresolvedGate(g) => Behind(g) in card.Prereqs() && g !in plan.gates
      case OpenGate(g) => Behind(g) in card.Prereqs() && g in plan.gates && !plan.gates[g].signed
  {
    hide UnmetCards, UnmetGates;
    CardsUnmet(plan, card.PrereqCards(), u);
    GatesUnmet(plan, card.PrereqGates(), u);
  }

  // ---------------------------------------------------------------- progress

  ghost predicate Workable(plan: Plan) {
    && (forall id | id in plan.cards :: TokensResolve(plan, id) && !plan.Status(id).Unknown?)
    && (forall id, g | id in plan.cards && Behind(g) in plan.cards[id].Prereqs() :: g in plan.gates && plan.gates[g].signed)
    && (forall id, p | id in plan.cards && Live(plan.Status(id)) && Needs(p) in plan.cards[id].Prereqs() && p in plan.cards ::
          !plan.Status(p).Dropped? && !plan.Status(p).Superseded?)
  }

  ghost predicate Stuck(plan: Plan) {
    forall id | id in plan.cards && Live(plan.Status(id)) :: BlockingTokens(plan, plan.cards[id]) != []
  }

  lemma BlockedByALiveCard(plan: Plan, id: Id) returns (p: Id)
    requires Workable(plan) && id in plan.cards && Live(plan.Status(id)) && BlockingTokens(plan, plan.cards[id]) != []
    ensures PrereqGraph(plan).Edge(id, p) && p in plan.cards && Live(plan.Status(p))
  {
    p :| Needs(p) in plan.cards[id].Prereqs() && (p !in plan.cards || !plan.Status(p).Done?);
    assert TokensResolve(plan, id);
  }

  lemma {:induction false} LongWalk(plan: Plan, id: Id, n: nat) returns (walk: seq<Id>)
    requires Workable(plan) && Stuck(plan) && id in plan.cards && Live(plan.Status(id))
    ensures |walk| == n + 1 && walk[0] == id && Walk(PrereqGraph(plan), walk)
    ensures forall v | v in walk :: v in plan.cards
    decreases n
  {
    hide Workable, BlockingTokens, PrereqGraph;
    if n == 0 {
      walk := [id];
    } else {
      var p := BlockedByALiveCard(plan, id);
      var rest := LongWalk(plan, p, n - 1);
      walk := [id] + rest;
      forall i | 0 <= i < |walk| - 1 ensures PrereqGraph(plan).Edge(walk[i], walk[i + 1]) {
        if i > 0 {
          assert PrereqGraph(plan).Edge(rest[i - 1], rest[i - 1 + 1]);
        }
      }
    }
  }

  lemma CutALoop(g: Graph, walk: seq<Id>, i: nat, j: nat)
    requires Walk(g, walk) && i < j < |walk| && walk[i] == walk[j]
    ensures ClosedWalk(g, walk[i..j + 1])
  {
    var loop := walk[i..j + 1];
    forall k | 0 <= k < |loop| - 1 ensures g.Edge(loop[k], loop[k + 1]) {
      assert g.Edge(walk[i + k], walk[i + k + 1]);
    }
  }

  lemma TailOfAWalk(g: Graph, walk: seq<Id>)
    requires Walk(g, walk) && |walk| > 1
    ensures g.Edge(walk[0], walk[1]) && Walk(g, walk[1..])
  {
    var rest := walk[1..];
    assert g.Edge(walk[0], walk[0 + 1]);
    forall i | 0 <= i < |rest| - 1 ensures g.Edge(rest[i], rest[i + 1]) {
      assert g.Edge(walk[i + 1], walk[i + 1 + 1]);
    }
  }

  /** Progress: in a workable plan without dependency cycles, a live card is left only together
      with a live card that nothing blocks. */
  lemma SomethingIsReady(plan: Plan, id: Id)
    requires Workable(plan) && Acyclic(PrereqGraph(plan))
    requires id in plan.cards && Live(plan.Status(id))
    ensures exists r :: r in plan.cards && Live(plan.Status(r)) && BlockingTokens(plan, plan.cards[r]) == []
  {
    hide Workable, BlockingTokens, PrereqGraph;
    if Stuck(plan) {
      var walk := LongWalk(plan, id, |plan.cards|);
      if Distinct(walk) {
        DistinctIsSmall(walk, plan.cards.Keys);
      } else {
        var i, j :| 0 <= i < j < |walk| && walk[i] == walk[j];
        CutALoop(PrereqGraph(plan), walk, i, j);
      }
    }
  }

  // ---------------------------------------------------------------- transitions

  datatype TransitionFinding =
    | Removed(id: Id)
    | Illegal(id: Id, from: Status, to: Status)
    | ClaimedBlocked(id: Id, unmet: seq<Unmet>)

  /** What one commit may do to one card. */
  ghost predicate LegalStep(before: Plan, after: Plan, id: Id)
    requires id in before.cards
  {
    && id in after.cards
    && var s, t := before.Status(id), after.Status(id);
       s == t || (LegalTransition(s, t) && (s.Todo? && t.InProgress? ==> Ready(after, id)))
  }

  /** Every card the card names is done and every gate it names is signed. */
  ghost predicate Ready(plan: Plan, id: Id)
    requires id in plan.cards
  {
    && (forall p | Needs(p) in plan.cards[id].Prereqs() :: p in plan.cards && plan.Status(p).Done?)
    && (forall g | Behind(g) in plan.cards[id].Prereqs() :: g in plan.gates && plan.gates[g].signed)
  }

  ghost predicate TrueFinding(before: Plan, after: Plan, f: TransitionFinding) {
    && f.id in before.cards
    && match f
       case Removed(id) => id !in after.cards
       case Illegal(id, from, to) => id in after.cards && from == before.Status(id) && to == after.Status(id)
                                     && from != to && !LegalTransition(from, to)
       case ClaimedBlocked(id, unmet) => id in after.cards && before.Status(id).Todo? && after.Status(id).InProgress?
                                         && unmet != [] && unmet == BlockingTokens(after, after.cards[id])
  }

  /** Reports exactly the cards whose step is not legal, each once, and why. */
  method CheckTransitions(before: Plan, after: Plan) returns (findings: seq<TransitionFinding>)
    requires before.Valid()
    ensures forall f | f in findings :: TrueFinding(before, after, f)
    ensures forall id | id in before.cards :: LegalStep(before, after, id) <==> forall f | f in findings :: f.id != id
    ensures forall i, j | 0 <= i < j < |findings| :: findings[i].id != findings[j].id
  {
    hide LegalStep, TrueFinding, Judged;
    NoneJudged(before, after);
    assert before.order[..0] == [];
    findings := [];
    for i := 0 to |before.order|
      invariant Judged(before, after, findings, before.order[..i])
    {
      assert before.order[..i + 1] == before.order[..i] + [before.order[i]];
      var f := JudgeStep(before, after, before.order[i]);
      JudgedOneMore(before, after, findings, before.order[..i], before.order[i], f);
      match f {
        case Some(finding) => findings := findings + [finding];
        case None =>
      }
    }
    assert before.order[..|before.order|] == before.order;
    AllJudged(before, after, findings);
  }

  ghost predicate Named(findings: seq<TransitionFinding>, id: Id) {
    exists f :: f in findings && f.id == id
  }

  /** The findings are those of the cards `ids`. */
  ghost predicate Judged(before: Plan, after: Plan, findings: seq<TransitionFinding>, ids: seq<Id>) {
    && (forall f | f in findings :: TrueFinding(before, after, f) && f.id in ids)
    && (forall id | id in ids :: id in before.cards && (LegalStep(before, after, id) <==> !Named(findings, id)))
    && (forall k, j | 0 <= k < j < |findings| :: findings[k].id != findings[j].id)
  }

  lemma NoneJudged(before: Plan, after: Plan)
    ensures Judged(before, after, [], [])
  {
  }

  lemma JudgedOneMore(before: Plan, after: Plan, findings: seq<TransitionFinding>, ids: seq<Id>, id: Id,
                      f: Option<TransitionFinding>)
    requires Judged(before, after, findings, ids) && id in before.cards && id !in ids
    requires f.None? <==> LegalStep(before, after, id)
    requires f.Some? ==> f.value.id == id && TrueFinding(before, after, f.value)
    ensures Judged(before, after, if f.Some? then findings + [f.value] else findings, ids + [id])
  {
    hide LegalStep, TrueFinding;
    if f.Some? {
      var grown := findings + [f.value];
      assert forall g :: g in grown <==> g in findings || g == f.value;
      assert forall k | 0 <= k < |findings| :: findings[k] in findings;
      forall other | other in ids ensures Named(grown, other) <==> Named(findings, other) {
      }
      assert f.value in grown;
    }
  }

  lemma AllJudged(before: Plan, after: Plan, findings: seq<TransitionFinding>)
    requires before.Valid() && Judged(before, after, findings, before.order)
    ensures forall f | f in findings :: TrueFinding(before, after, f)
    ensures forall id | id in before.cards :: LegalStep(before, after, id) <==> forall f | f in findings :: f.id != id
    ensures forall i, j | 0 <= i < j < |findings| :: findings[i].id != findings[j].id
  {
    hide LegalStep, TrueFinding;
    forall id | id in before.cards
      ensures LegalStep(before, after, id) <==> forall f | f in findings :: f.id != id
    {
      assert Named(findings, id) <==> exists f :: f in findings && f.id == id;
    }
  }

  function JudgeStep(before: Plan, after: Plan, id: Id): (f: Option<TransitionFinding>)
    requires id in before.cards
    ensures f.None? <==> LegalStep(before, after, id)
    ensures f.Some? ==> f.value.id == id && TrueFinding(before, after, f.value)
  {
    if id !in after.cards then Some(Removed(id))
    else
      var s, t := before.Status(id), after.Status(id);
      if s == t then None
      else if !LegalTransition(s, t) then Some(Illegal(id, s, t))
      else if s.Todo? && t.InProgress? then
        var unmet := BlockingTokens(after, after.cards[id]);
        if unmet != [] then Some(ClaimedBlocked(id, unmet)) else None
      else None
  }

  // ---------------------------------------------------------------- whole histories

  /** A linear history in which the transition check is silent at every commit. */
  ghost predicate SilentHistory(plans: seq<Plan>) {
    forall k, id | 0 <= k < |plans| - 1 && id in plans[k].cards :: LegalStep(plans[k], plans[k + 1], id)
  }

  lemma StepArrow(plans: seq<Plan>, k: nat, id: Id)
    requires SilentHistory(plans) && k + 1 < |plans| && id in plans[k].cards
    ensures id in plans[k + 1].cards
    ensures var s, t := plans[k].Status(id), plans[k + 1].Status(id); s == t || LegalTransition(s, t)
    ensures Claimed(plans, k, id) ==> Ready(plans[k + 1], id)
  {
    hide Ready;
    assert LegalStep(plans[k], plans[k + 1], id);
  }

  /** Cards are never lost, and a terminal status is kept for good. */
  lemma {:induction false} CardsStayAndTerminalsHold(plans: seq<Plan>, i: nat, j: nat, id: Id)
    requires SilentHistory(plans) && i <= j < |plans| && id in plans[i].cards
    ensures id in plans[j].cards
    ensures Terminal(plans[i].Status(id)) ==> plans[j].Status(id) == plans[i].Status(id)
    decreases j - i
  {
    hide SilentHistory;
    if i < j {
      StepArrow(plans, i, id);
      CardsStayAndTerminalsHold(plans, i + 1, j, id);
    }
  }

  /** The statuses a card can have gone through, from one status to another. */
  ghost predicate StatusWalk(history: seq<Status>) {
    forall k | 0 <= k < |history| - 1 ::
      history[k] == history[k + 1] || LegalTransition(history[k], history[k + 1])
  }

  lemma HistoryIsAWalk(plans: seq<Plan>, i: nat, j: nat, id: Id, history: seq<Status>)
    requires SilentHistory(plans) && i <= j < |plans| && id in plans[i].cards && |history| == j - i + 1
    requires forall k | i <= k <= j && id in plans[k].cards :: history[k - i] == plans[k].Status(id)
    ensures StatusWalk(history)
  {
    hide SilentHistory, LegalTransition;
    forall k | 0 <= k < |history| - 1
      ensures history[k] == history[k + 1] || LegalTransition(history[k], history[k + 1])
    {
      CardsStayAndTerminalsHold(plans, i, i + k, id);
      StepArrow(plans, i + k, id);
      assert history[i + k - i] == plans[i + k].Status(id);
      assert history[i + k + 1 - i] == plans[i + k + 1].Status(id);
    }
  }

  /** The claim of a card: between `k` and `k + 1` it left todo for in-progress. */
  ghost predicate Claimed(plans: seq<Plan>, k: nat, id: Id) {
    && k + 1 < |plans| && id in plans[k].cards && id in plans[k + 1].cards
    && plans[k].Status(id).Todo? && plans[k + 1].Status(id).InProgress?
  }

  /** Everything a card named as a prerequisite when it was claimed is done ever after. */
  lemma ClaimedOnDoneWork(plans: seq<Plan>, k: nat, j: nat, id: Id, p: Id)
    requires SilentHistory(plans) && Claimed(plans, k, id) && k < j < |plans|
    requires Needs(p) in plans[k + 1].cards[id].Prereqs()
    ensures p in plans[j].cards && plans[j].Status(p).Done?
  {
    StepArrow(plans, k, id);
    CardsStayAndTerminalsHold(plans, k + 1, j, p);
  }

  /** No work is done unclaimed: a card that was todo and is under way or done was claimed in
      between, so all it named at that claim has been done since. */
  lemma {:induction false} WorkWasClaimed(plans: seq<Plan>, i: nat, j: nat, id: Id) returns (k: nat)
    requires SilentHistory(plans) && i <= j < |plans| && id in plans[i].cards && id in plans[j].cards
    requires plans[i].Status(id).Todo?
    requires var s := plans[j].Status(id); s.InProgress? || s.InReview? || s.OnHold? || s.Done?
    ensures i <= k < j && Claimed(plans, k, id)
    ensures forall p, m | Needs(p) in plans[k + 1].cards[id].Prereqs() && k < m < |plans| ::
              p in plans[m].cards && plans[m].Status(p).Done?
    decreases j
  {
    hide SilentHistory;
    CardsStayAndTerminalsHold(plans, i, j - 1, id);
    StepArrow(plans, j - 1, id);
    if Claimed(plans, j - 1, id) {
      k := j - 1;
    } else {
      k := WorkWasClaimed(plans, i, j - 1, id);
    }
    forall p, m | Needs(p) in plans[k + 1].cards[id].Prereqs() && k < m < |plans|
      ensures p in plans[m].cards && plans[m].Status(p).Done?
    {
      ClaimedOnDoneWork(plans, k, m, id, p);
    }
  }

  ghost predicate Unstarted(s: Status) {
    s.Todo? || s.Dropped? || s.Superseded?
  }

  /** Cards that wait for each other in a circle and start as todo are never worked on, in any
      silent history that keeps the circle. */
  lemma {:induction false} CirclesNeverStart(plans: seq<Plan>, walk: seq<Id>, j: nat)
    requires SilentHistory(plans) && j < |plans| && |walk| >= 2 && walk[0] == walk[|walk| - 1]
    requires forall m, k | 0 <= m < |plans| && 0 <= k < |walk| - 1 ::
               walk[k] in plans[m].cards && Needs(walk[k + 1]) in plans[m].cards[walk[k]].Prereqs()
    requires forall k | 0 <= k < |walk| - 1 :: plans[0].Status(walk[k]).Todo?
    ensures forall k | 0 <= k < |walk| - 1 :: Unstarted(plans[j].Status(walk[k]))
  {
    hide SilentHistory;
    if j > 0 {
      CirclesNeverStart(plans, walk, j - 1);
      forall k | 0 <= k < |walk| - 1 ensures Unstarted(plans[j].Status(walk[k])) {
        var next := if k + 1 == |walk| - 1 then 0 else k + 1;
        assert walk[next] == walk[k + 1];
        assert Unstarted(plans[j - 1].Status(walk[next]));
        StepArrow(plans, j - 1, walk[next]);
        StepArrow(plans, j - 1, walk[k]);
        assert Needs(walk[k + 1]) in plans[j].cards[walk[k]].Prereqs();
      }
    }
  }

  // ---------------------------------------------------------------- gates

  /** `n` is the lowest number of a gate whose exit list names the card. */
  ghost predicate IsLowest(plan: Plan, id: Id, n: nat) {
    && (exists g :: g in plan.gates && id in plan.gates[g].exitCards && plan.gates[g].number == n)
    && (forall g | g in plan.gates && id in plan.gates[g].exitCards :: n <= plan.gates[g].number)
  }

  ghost predicate Gated(plan: Plan, id: Id) {
    exists g :: g in plan.gates && id in plan.gates[g].exitCards
  }

  /** Lowest among the first `n` gates. */
  ghost predicate LowestSoFar(plan: Plan, lowest: map<Id, nat>, n: nat)
    requires n <= |plan.gateOrder| && forall g | g in plan.gateOrder :: g in plan.gates
  {
    && (forall id | id in lowest :: exists k | 0 <= k < n ::
          id in plan.gates[plan.gateOrder[k]].exitCards && plan.gates[plan.gateOrder[k]].number == lowest[id])
    && (forall k, id | 0 <= k < n && id in plan.gates[plan.gateOrder[k]].exitCards ::
          id in lowest && lowest[id] <= plan.gates[plan.gateOrder[k]].number)
  }

  /** The inner loop, over one gate's exit list. */
  method LowerBy(before: map<Id, nat>, gate: Gate) returns (lowest: map<Id, nat>)
    ensures forall id :: id in lowest <==> id in before || id in gate.exitCards
    ensures forall id | id in lowest ::
      lowest[id] == if id !in gate.exitCards then before[id]
                    else if id in before && before[id] <= gate.number then before[id] else gate.number
  {
    lowest := before;
    for j := 0 to |gate.exitCards|
      invariant forall id :: id in lowest <==> id in before || id in gate.exitCards[..j]
      invariant forall id | id in lowest ::
          lowest[id] == if id !in gate.exitCards[..j] then before[id]
                        else if id in before && before[id] <= gate.number then before[id] else gate.number
    {
      var id := gate.exitCards[j];
      assert gate.exitCards[..j + 1] == gate.exitCards[..j] + [id];
      var known := if id in lowest then lowest[id] else gate.number;
      lowest := lowest[id := if known <= gate.number then known else gate.number];
    }
    assert gate.exitCards[..|gate.exitCards|] == gate.exitCards;
  }

  lemma LowerStep(plan: Plan, before: map<Id, nat>, lowest: map<Id, nat>, i: nat)
    requires i < |plan.gateOrder| && forall g | g in plan.gateOrder :: g in plan.gates
    requires LowestSoFar(plan, before, i)
    requires var gate := plan.gates[plan.gateOrder[i]];
      && (forall id :: id in lowest <==> id in before || id in gate.exitCards)
      && forall id | id in lowest ::
           lowest[id] == if id !in gate.exitCards then before[id]
                         else if id in before && before[id] <= gate.number then before[id] else gate.number
    ensures LowestSoFar(plan, lowest, i + 1)
  {
    forall id | id in lowest
      ensures exists k | 0 <= k < i + 1 ::
        id in plan.gates[plan.gateOrder[k]].exitCards && plan.gates[plan.gateOrder[k]].number == lowest[id]
    {
      if id in before && lowest[id] == before[id] {
        var k :| 0 <= k < i && id in plan.gates[plan.gateOrder[k]].exitCards
              && plan.gates[plan.gateOrder[k]].number == before[id];
      } else {
        assert id in plan.gates[plan.gateOrder[i]].exitCards;
      }
    }
  }

  /** The lowest gate of each card some exit list names. */
  method LowestGate(plan: Plan) returns (lowest: map<Id, nat>)
    requires plan.Valid()
    ensures forall id :: id in lowest <==> Gated(plan, id)
    ensures forall id | id in lowest :: IsLowest(plan, id, lowest[id])
  {
    hide LowestSoFar, Gated, IsLowest;
    lowest := map[];
    NothingYet(plan);
    for i := 0 to |plan.gateOrder|
      invariant LowestSoFar(plan, lowest, i)
    {
      ghost var before := lowest;
      lowest := LowerBy(lowest, plan.gates[plan.gateOrder[i]]);
      LowerStep(plan, before, lowest, i);
    }
    LowestOfAll(plan, lowest);
  }

  lemma NothingYet(plan: Plan)
    requires plan.Valid()
    ensures LowestSoFar(plan, map[], 0)
  {
  }

  lemma LowestOfAll(plan: Plan, lowest: map<Id, nat>)
    requires plan.Valid() && LowestSoFar(plan, lowest, |plan.gateOrder|)
    ensures forall id :: id in lowest <==> Gated(plan, id)
    ensures forall id | id in lowest :: IsLowest(plan, id, lowest[id])
  {
    hide Distinct;
    forall g, id | g in plan.gates && id in plan.gates[g].exitCards
      ensures id in lowest && lowest[id] <= plan.gates[g].number
    {
      var k :| 0 <= k < |plan.gateOrder| && plan.gateOrder[k] == g;
    }
  }

  datatype GateFinding =
    | UnresolvedExit(gate: string, id: Id)
    | OnlyLater(gate: string, id: Id, prereq: Id, later: nat)
    | SignedUndone(gate: string, undone: seq<Id>)

  ghost predicate GateDefect(plan: Plan, f: GateFinding) {
    && f.gate in plan.gates
    && var gate := plan.gates[f.gate];
       match f
       case UnresolvedExit(_, id) => id in gate.exitCards && id !in plan.cards
       case OnlyLater(_, id, p, later) =>
         && id in gate.exitCards && id in plan.cards && Needs(p) in plan.cards[id].Prereqs()
         && IsLowest(plan, p, later) && later > gate.number
       case SignedUndone(_, undone) =>
         && gate.signed && undone != [] && forall id :: id in undone <==>
              id in gate.exitCards && id in plan.cards && !plan.Status(id).Done?
  }

  /** What the gate check asks of a plan. */
  ghost predicate GatesConsistent(plan: Plan) {
    && (forall g, id | g in plan.gates && id in plan.gates[g].exitCards :: id in plan.cards)
    && (forall g, id, p, n: nat | g in plan.gates && id in plan.gates[g].exitCards && id in plan.cards
          && Needs(p) in plan.cards[id].Prereqs() && IsLowest(plan, p, n) :: n <= plan.gates[g].number)
    && (forall g, id | g in plan.gates && plan.gates[g].signed && id in plan.gates[g].exitCards && id in plan.cards ::
          plan.Status(id).Done?)
  }

  /** The defects of one gate. */
  ghost predicate GateClean(plan: Plan, gate: Gate) {
    && (forall id | id in gate.exitCards :: id in plan.cards)
    && (forall id, p, n: nat | id in gate.exitCards && id in plan.cards
          && Needs(p) in plan.cards[id].Prereqs() && IsLowest(plan, p, n) :: n <= gate.number)
    && (gate.signed ==> forall id | id in gate.exitCards && id in plan.cards :: plan.Status(id).Done?)
  }

  method UndoneExits(plan: Plan, gate: Gate) returns (undone: seq<Id>)
    ensures forall id :: id in undone <==> id in gate.exitCards && id in plan.cards && !plan.Status(id).Done?
  {
    undone := [];
    for i := 0 to |gate.exitCards|
      invariant forall id :: id in undone <==> id in gate.exitCards[..i] && id in plan.cards && !plan.Status(id).Done?
    {
      var id := gate.exitCards[i];
      assert gate.exitCards[..i + 1] == gate.exitCards[..i] + [id];
      if id in plan.cards && !plan.Status(id).Done? {
        undone := undone + [id];
      }
    }
    assert gate.exitCards[..|gate.exitCards|] == gate.exitCards;
  }

  method LaterPrereqs(plan: Plan, gate: Gate, id: Id, lowest: map<Id, nat>) returns (findings: seq<GateFinding>)
    requires gate.id in plan.gates && plan.gates[gate.id] == gate && id in plan.cards && id in gate.exitCards
    requires forall p :: p in lowest <==> Gated(plan, p)
    requires forall p | p in lowest :: IsLowest(plan, p, lowest[p])
    ensures forall f | f in findings :: GateDefect(plan, f)
    ensures findings == [] <==> forall p, n: nat | Needs(p) in plan.cards[id].Prereqs() && IsLowest(plan, p, n) :: n <= gate.number
    ensures forall p, n: nat | Needs(p) in plan.cards[id].Prereqs() && IsLowest(plan, p, n) && n > gate.number ::
      OnlyLater(gate.id, id, p, n) in findings
  {
    findings := [];
    var prereqs := plan.cards[id].PrereqCards();
    assert forall p :: p in prereqs <==> Needs(p) in plan.cards[id].Prereqs();
    for i := 0 to |prereqs|
      invariant forall f | f in findings :: GateDefect(plan, f)
      invariant findings == [] <==> forall k | 0 <= k < i :: prereqs[k] in lowest ==> lowest[prereqs[k]] <= gate.number
      invariant forall k | 0 <= k < i && prereqs[k] in lowest && lowest[prereqs[k]] > gate.number ::
          OnlyLater(gate.id, id, prereqs[k], lowest[prereqs[k]]) in findings
    {
      var p := prereqs[i];
      assert p in prereqs;
      if p in lowest && lowest[p] > gate.number {
        findings := findings + [OnlyLater(gate.id, id, p, lowest[p])];
      }
    }
    forall p, n: nat | Needs(p) in plan.cards[id].Prereqs() && IsLowest(plan, p, n)
      ensures p in prereqs && p in lowest && lowest[p] == n
    {
    }
  }

  /** Everything wrong with the gate is told. */
  ghost predicate GateTold(plan: Plan, gate: Gate, findings: seq<GateFinding>) {
    && (forall f | GateDefect(plan, f) && f.gate == gate.id && !f.SignedUndone? :: f in findings)
    && (gate.signed && (exists id :: id in gate.exitCards && id in plan.cards && !plan.Status(id).Done?) ==>
          exists f :: f in findings && f.gate == gate.id && f.SignedUndone?)
  }

  lemma ToldStays(plan: Plan, gate: Gate, findings: seq<GateFinding>, more: seq<GateFinding>)
    requires GateTold(plan, gate, findings) && forall f | f in findings :: f in more
    ensures GateTold(plan, gate, more)
  {
    hide GateDefect;
  }

  method CheckGate(plan: Plan, gate: Gate, lowest: map<Id, nat>) returns (findings: seq<GateFinding>)
    requires gate.id in plan.gates && plan.gates[gate.id] == gate
    requires forall p :: p in lowest <==> Gated(plan, p)
    requires forall p | p in lowest :: IsLowest(plan, p, lowest[p])
    ensures forall f | f in findings :: GateDefect(plan, f)
    ensures findings == [] <==> GateClean(plan, gate)
    ensures GateTold(plan, gate, findings)
  {
    findings := [];
    for i := 0 to |gate.exitCards|
      invariant forall f | f in findings :: GateDefect(plan, f)
      invariant forall k | 0 <= k < i && gate.exitCards[k] !in plan.cards :: UnresolvedExit(gate.id, gate.exitCards[k]) in findings
      invariant forall k, p, n: nat | 0 <= k < i && gate.exitCards[k] in plan.cards && Needs(p) in plan.cards[gate.exitCards[k]].Prereqs()
                  && IsLowest(plan, p, n) && n > gate.number :: OnlyLater(gate.id, gate.exitCards[k], p, n) in findings
      invariant findings == [] <==> forall k | 0 <= k < i ::
          gate.exitCards[k] in plan.cards && forall p, n: nat |
            Needs(p) in plan.cards[gate.exitCards[k]].Prereqs() && IsLowest(plan, p, n) :: n <= gate.number
    {
      var id := gate.exitCards[i];
      if id !in plan.cards {
        findings := findings + [UnresolvedExit(gate.id, id)];
      } else {
        var later := LaterPrereqs(plan, gate, id, lowest);
        findings := findings + later;
      }
    }
    if gate.signed {
      var undone := UndoneExits(plan, gate);
      if undone != [] {
        assert undone[0] in undone;
        findings := findings + [SignedUndone(gate.id, undone)];
      }
    }
  }

  ghost predicate ByNumber(gates: seq<Gate>) {
    forall i, j | 0 <= i < j < |gates| :: gates[i].number <= gates[j].number
  }

  /** The gates by number, equal numbers in their first order. */
  function InsertGate(gate: Gate, sorted: seq<Gate>): (r: seq<Gate>)
    ensures forall g :: g in r <==> g == gate || g in sorted
    ensures |r| == |sorted| + 1
    ensures ByNumber(sorted) ==> ByNumber(r)
  {
    if sorted == [] || gate.number < sorted[0].number then [gate] + sorted
    else
      assert forall g :: g in sorted <==> g == sorted[0] || g in sorted[1..];
      var rest := InsertGate(gate, sorted[1..]);
      assert forall i | 0 <= i < |rest| :: rest[i] in rest;
      [sorted[0]] + rest
  }

  function SortGates(gates: seq<Gate>): (r: seq<Gate>)
    ensures forall g :: g in r <==> g in gates
    ensures |r| == |gates| && ByNumber(r)
  {
    if gates == [] then []
    else
      assert forall g :: g in gates <==> g == gates[|gates| - 1] || g in gates[..|gates| - 1];
      InsertGate(gates[|gates| - 1], SortGates(gates[..|gates| - 1]))
  }

  function GatesByNumber(plan: Plan): (gates: seq<Gate>)
    requires plan.Valid()
    ensures forall gate | gate in gates :: gate.id in plan.gates && plan.gates[gate.id] == gate
    ensures forall g | g in plan.gates :: plan.gates[g] in gates
    ensures ByNumber(gates)
  {
    var listed := seq(|plan.gateOrder|, i requires 0 <= i < |plan.gateOrder| => plan.gates[plan.gateOrder[i]]);
    SameGates(plan, listed);
    SortGates(listed)
  }

  lemma SameGates(plan: Plan, listed: seq<Gate>)
    requires plan.Valid() && |listed| == |plan.gateOrder|
    requires forall i | 0 <= i < |listed| :: listed[i] == plan.gates[plan.gateOrder[i]]
    ensures forall gate | gate in listed :: gate.id in plan.gates && plan.gates[gate.id] == gate
    ensures forall g | g in plan.gates :: plan.gates[g] in listed
  {
    forall g | g in plan.gates ensures plan.gates[g] in listed {
      var i :| 0 <= i < |plan.gateOrder| && plan.gateOrder[i] == g;
      assert listed[i] == plan.gates[g];
    }
  }

  method CheckGates(plan: Plan) returns (findings: seq<GateFinding>)
    requires plan.Valid()
    ensures forall f | f in findings :: GateDefect(plan, f)
    ensures findings == [] <==> GatesConsistent(plan)
    ensures forall g | g in plan.gates :: GateTold(plan, plan.gates[g], findings)
  {
    hide GateDefect, GatesConsistent, GateClean, GateTold, IsLowest, Gated;
    findings := [];
    var lowest := LowestGate(plan);
    var gates := GatesByNumber(plan);
    for i := 0 to |gates|
      invariant forall f | f in findings :: GateDefect(plan, f)
      invariant findings == [] <==> forall k | 0 <= k < i :: GateClean(plan, gates[k])
      invariant forall k | 0 <= k < i :: GateTold(plan, gates[k], findings)
    {
      assert gates[i] in gates;
      var found := CheckGate(plan, gates[i], lowest);
      forall k | 0 <= k < i + 1 ensures GateTold(plan, gates[k], findings + found) {
        ToldStays(plan, gates[k], if k < i then findings else found, findings + found);
      }
      findings := findings + found;
    }
    AllClean(plan, gates);
  }

  lemma AllClean(plan: Plan, gates: seq<Gate>)
    requires forall gate | gate in gates :: gate.id in plan.gates && plan.gates[gate.id] == gate
    requires forall g | g in plan.gates :: plan.gates[g] in gates
    requires forall g | g in plan.gates :: plan.gates[g].id == g
    ensures (forall k | 0 <= k < |gates| :: GateClean(plan, gates[k])) <==> GatesConsistent(plan)
  {
    if forall k | 0 <= k < |gates| :: GateClean(plan, gates[k]) {
      forall g | g in plan.gates ensures GateClean(plan, plan.gates[g]) {
        assert plan.gates[g] in gates;
      }
    }
    if GatesConsistent(plan) {
      forall k | 0 <= k < |gates| ensures GateClean(plan, gates[k]) {
        assert gates[k] in gates;
      }
    }
  }

  // ---------------------------------------------------------------- the order of the gates

  /** No gate with `id` in its exit list is earlier than the lowest gate of `behind`. */
  ghost predicate NotLater(plan: Plan, id: Id, behind: Id) {
    forall g, n: nat | g in plan.gates && id in plan.gates[g].exitCards && IsLowest(plan, behind, n) ::
      n <= plan.gates[g].number
  }

  ghost predicate Ordered(plan: Plan, path: seq<Id>)
    requires path != []
  {
    NotLater(plan, path[0], path[|path| - 1])
  }

  function Piece(path: seq<Id>, i: nat, j: nat): seq<Id>
    requires i <= j < |path|
  {
    path[i..j + 1]
  }

  ghost predicate InnerUngated(plan: Plan, path: seq<Id>) {
    forall i | 0 < i < |path| - 1 :: !Gated(plan, path[i])
  }

  /** No exit card waits, however far back, for a card of a later gate. */
  ghost predicate TransitivelyOrdered(plan: Plan) {
    forall path | path != [] && Walk(PrereqGraph(plan), path) :: Ordered(plan, path)
  }

  /** Nor does it through cards of no gate. */
  ghost predicate DetoursOrdered(plan: Plan) {
    forall path | |path| >= 3 && Walk(PrereqGraph(plan), path) && InnerUngated(plan, path) :: Ordered(plan, path)
  }

  /** The stretches of a path from one gated card to the next. */
  ghost predicate StretchesOrdered(plan: Plan, path: seq<Id>) {
    forall i: nat, j: nat | i < j < |path| && InnerUngated(plan, Piece(path, i, j)) :: Ordered(plan, Piece(path, i, j))
  }

  lemma LowestExists(plan: Plan, id: Id) returns (n: nat)
    requires Gated(plan, id)
    ensures IsLowest(plan, id, n)
  {
    var g :| g in plan.gates && id in plan.gates[g].exitCards;
    n := plan.gates[g].number;
    while exists h :: h in plan.gates && id in plan.gates[h].exitCards && plan.gates[h].number < n
      invariant exists h :: h in plan.gates && id in plan.gates[h].exitCards && plan.gates[h].number == n
      decreases n
    {
      var h :| h in plan.gates && id in plan.gates[h].exitCards && plan.gates[h].number < n;
      n := plan.gates[h].number;
    }
  }

  /** Where the first gated card behind the first one stands, if one stands before the end. */
  lemma FirstGated(plan: Plan, path: seq<Id>) returns (k: nat)
    requires |path| >= 2
    ensures 0 < k < |path| && InnerUngated(plan, path[..k + 1])
    ensures k < |path| - 1 ==> Gated(plan, path[k])
  {
    k := 1;
    while k < |path| - 1 && !Gated(plan, path[k])
      invariant 0 < k < |path|
      invariant forall i | 0 < i < k :: !Gated(plan, path[i])
    {
      k := k + 1;
    }
  }

  /** A gated card hands on the lowest of its gates. */
  lemma OrderedThrough(plan: Plan, path: seq<Id>, k: nat)
    requires k < |path| && Gated(plan, path[k]) && Ordered(plan, path[..k + 1]) && Ordered(plan, path[k..])
    ensures Ordered(plan, path)
  {
    var m := LowestExists(plan, path[k]);
    var h :| h in plan.gates && path[k] in plan.gates[h].exitCards && plan.gates[h].number == m;
    var rest := path[k..];
    assert rest[0] == path[k] && rest[|rest| - 1] == path[|path| - 1];
  }

  lemma RestOfStretches(plan: Plan, path: seq<Id>, k: nat)
    requires k < |path| && StretchesOrdered(plan, path)
    ensures StretchesOrdered(plan, path[k..])
  {
    hide Ordered, InnerUngated;
    var rest := path[k..];
    forall i: nat, j: nat | i < j < |rest| && InnerUngated(plan, Piece(rest, i, j)) ensures Ordered(plan, Piece(rest, i, j)) {
      assert Piece(rest, i, j) == Piece(path, k + i, k + j);
    }
  }

  /** A path is ordered when its stretches are. */
  lemma {:induction false} StretchesAddUp(plan: Plan, path: seq<Id>)
    requires path != [] && StretchesOrdered(plan, path)
    ensures Ordered(plan, path)
    decreases |path|
  {
    hide InnerUngated, Gated;
    if |path| > 1 {
      var k := FirstGated(plan, path);
      assert Piece(path, 0, k) == path[..k + 1];
      assert Ordered(plan, path[..k + 1]);
      if k < |path| - 1 {
        RestOfStretches(plan, path, k);
        StretchesAddUp(plan, path[k..]);
        OrderedThrough(plan, path, k);
      } else {
        assert path[..k + 1] == path;
      }
    }
  }

  lemma PieceOfAWalk(g: Graph, path: seq<Id>, i: nat, j: nat)
    requires Walk(g, path) && i <= j < |path|
    ensures Walk(g, path[i..j + 1])
  {
    var piece := path[i..j + 1];
    forall k | 0 <= k < |piece| - 1 ensures g.Edge(piece[k], piece[k + 1]) {
      assert g.Edge(path[i + k], path[i + k + 1]);
    }
  }

  /** One edge is what the gate check looks at. */
  lemma EdgesAreOrdered(plan: Plan, path: seq<Id>)
    requires GatesConsistent(plan) && |path| == 2 && Walk(PrereqGraph(plan), path)
    ensures Ordered(plan, path)
  {
    assert PrereqGraph(plan).Edge(path[0], path[1]);
  }

  /** What a silent gate check leaves open: in a plan it accepts, no exit card waits for a card of a
      later gate exactly when none does through cards of no gate. */
  lemma GatesClimbExactly(plan: Plan)
    requires GatesConsistent(plan)
    ensures TransitivelyOrdered(plan) <==> DetoursOrdered(plan)
  {
    hide GatesConsistent, Ordered;
    if DetoursOrdered(plan) {
      forall path | path != [] && Walk(PrereqGraph(plan), path) ensures Ordered(plan, path) {
        forall i: nat, j: nat | i < j < |path| && InnerUngated(plan, Piece(path, i, j)) ensures Ordered(plan, Piece(path, i, j)) {
          PieceOfAWalk(PrereqGraph(plan), path, i, j);
          if j == i + 1 {
            EdgesAreOrdered(plan, Piece(path, i, j));
          }
        }
        StretchesAddUp(plan, path);
      }
    }
  }

  /** For every plan, accepted or not: the order holds along all paths exactly when it holds along those
      with no gated card inside. */
  lemma OrderIsDecidedBetweenGates(plan: Plan)
    ensures TransitivelyOrdered(plan) <==>
            forall path | path != [] && Walk(PrereqGraph(plan), path) && InnerUngated(plan, path) :: Ordered(plan, path)
  {
    hide Ordered;
    if forall path | path != [] && Walk(PrereqGraph(plan), path) && InnerUngated(plan, path) :: Ordered(plan, path) {
      forall path | path != [] && Walk(PrereqGraph(plan), path) ensures Ordered(plan, path) {
        forall i: nat, j: nat | i < j < |path| && InnerUngated(plan, Piece(path, i, j)) ensures Ordered(plan, Piece(path, i, j)) {
          PieceOfAWalk(PrereqGraph(plan), path, i, j);
        }
        StretchesAddUp(plan, path);
      }
    }
  }

  lemma GatedStretch(plan: Plan, path: seq<Id>)
    requires |path| >= 2 && InnerUngated(plan, path) && forall v | v in path :: Gated(plan, v)
    ensures |path| == 2
  {
    assert path[1] in path;
  }

  /** In particular a path between cards that all belong to gates climbs no gate. */
  lemma GatesClimb(plan: Plan, g: string, path: seq<Id>, n: nat)
    requires GatesConsistent(plan) && g in plan.gates && path != [] && path[0] in plan.gates[g].exitCards
    requires Walk(PrereqGraph(plan), path) && forall v | v in path :: Gated(plan, v)
    requires IsLowest(plan, path[|path| - 1], n)
    ensures n <= plan.gates[g].number
  {
    hide GatesConsistent, IsLowest, Gated;
    forall i: nat, j: nat | i < j < |path| && InnerUngated(plan, Piece(path, i, j)) ensures Ordered(plan, Piece(path, i, j)) {
      PieceOfAWalk(PrereqGraph(plan), path, i, j);
      GatedStretch(plan, Piece(path, i, j));
      EdgesAreOrdered(plan, Piece(path, i, j));
    }
    StretchesAddUp(plan, path);
  }

  /** Where no detour is out of order, signing every gate up to a gate means that whatever its exit
      cards wait for, however far back, is done if it belongs to a gate at all. */
  lemma SignedMeansBuilt(plan: Plan, g: string, path: seq<Id>, i: nat)
    requires GatesConsistent(plan) && DetoursOrdered(plan)
    requires g in plan.gates && i < |path| && path[0] in plan.gates[g].exitCards
    requires Walk(PrereqGraph(plan), path) && Gated(plan, path[i])
    requires forall h | h in plan.gates && plan.gates[h].number <= plan.gates[g].number :: plan.gates[h].signed
    ensures path[i] in plan.cards && plan.Status(path[i]).Done?
  {
    hide GatesConsistent, InnerUngated;
    GatesClimbExactly(plan);
    var n := LowestExists(plan, path[i]);
    PieceOfAWalk(PrereqGraph(plan), path, 0, i);
    var prefix := path[0..i + 1];
    assert Ordered(plan, prefix) && prefix[0] == path[0] && prefix[|prefix| - 1] == path[i];
    assert n <= plan.gates[g].number;
    var h :| h in plan.gates && path[i] in plan.gates[h].exitCards && plan.gates[h].number == n;
    SignedExitIsDone(plan, h, path[i]);
  }

  lemma SignedExitIsDone(plan: Plan, h: string, id: Id)
    requires GatesConsistent(plan) && h in plan.gates && plan.gates[h].signed && id in plan.gates[h].exitCards
    ensures id in plan.cards && plan.Status(id).Done?
  {
  }

  const UNGATED: Plan := Plan(
    ["A-01", "B-02", "C-03"],
    map["A-01" := Card(Todo, Some([Needs("B-02")])), "B-02" := Card(Todo, Some([Needs("C-03")])), "C-03" := Card(Todo, Some([NoneWord]))],
    ["G1", "G2"],
    map["G1" := Gate("G1", 1, ["A-01"], false), "G2" := Gate("G2", 2, ["C-03"], false)])

  /** A prerequisite in no exit list breaks the climb: the check looks one edge deep. */
  lemma UngatedPrereqHidesALaterGate()
    ensures UNGATED.Valid() && GatesConsistent(UNGATED)
    ensures !TransitivelyOrdered(UNGATED) && !DetoursOrdered(UNGATED)
  {
    hide GatesConsistent, IsLowest;
    UngatedIsValid();
    UngatedIsConsistent();
    UngatedPath();
    GatesClimbExactly(UNGATED);
  }

  lemma UngatedPath()
    ensures var path := ["A-01", "B-02", "C-03"]; Walk(PrereqGraph(UNGATED), path) && !Ordered(UNGATED, path)
  {
    hide Gated;
    var path := ["A-01", "B-02", "C-03"];
    UngatedWalk();
    LowestOfTheLast();
    assert path[|path| - 1] == "C-03" && path[0] == "A-01";
    assert "A-01" in UNGATED.gates["G1"].exitCards;
  }

  lemma UngatedWalk()
    ensures Walk(PrereqGraph(UNGATED), ["A-01", "B-02", "C-03"])
  {
    var p := UNGATED;
    assert p.cards["A-01"].Prereqs()[0] == Needs("B-02") && p.cards["B-02"].Prereqs()[0] == Needs("C-03");
    assert PrereqGraph(p).Edge("A-01", "B-02") && PrereqGraph(p).Edge("B-02", "C-03");
  }

  lemma LowestOfTheLast()
    ensures IsLowest(UNGATED, "C-03", 2)
  {
    assert UNGATED.gates["G2"].exitCards[0] == "C-03";
  }

  lemma UngatedIsValid()
    ensures UNGATED.Valid()
  {
    var p := UNGATED;
    assert p.order[0] == "A-01" && p.order[1] == "B-02" && p.order[2] == "C-03";
    assert p.gateOrder[0] == "G1" && p.gateOrder[1] == "G2";
  }

  lemma UngatedIsConsistent()
    ensures GatesConsistent(UNGATED)
  {
    var p := UNGATED;
    forall g, id, q, n: nat | g in p.gates && id in p.gates[g].exitCards && id in p.cards
          && Needs(q) in p.cards[id].Prereqs() && IsLowest(p, q, n)
      ensures n <= p.gates[g].number
    {
      assert q == "B-02" || q == "C-03";
      assert id == "A-01";
    }
  }
}
