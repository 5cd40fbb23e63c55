/** The validator decides the declarative meaning: for guarded, supported schemas it needs no more
    than a bounded nesting, always reaches a verdict, and reports nothing exactly when the
    instance satisfies the schema. */
module JsonCorrectness {
  import opened Numerals
  import opened Options
  import opened JsonValues
  import opened JsonCanonical
  import opened JsonSchema
  import opened JsonMeaning

  /** The outcome is a verdict, and the verdict is `holds`. */
  ghost predicate Decides(outcome: Outcome, holds: bool) {
    outcome.Found? && (outcome.issues == [] <==> holds)
  }

  lemma ThenDecides(a: Outcome, b: Outcome, p: bool, q: bool)
    requires Decides(a, p) && Decides(b, q)
    ensures Decides(Then(a, b), p && q)
  {
  }

  lemma WhenDecides(bad: bool, path: string, complaint: Complaint)
    ensures Decides(Found(When(bad, path, complaint)), !bad)
  {
  }

  // ---------------------------------------------------------------- assertions without subschemas

  lemma {:induction false} TypesDecided(v: Json, names: seq<string>)
    requires forall n | n in names :: n in TYPE_NAMES
    ensures AnyType(v, names) == Yes(exists n :: n in names && HasType(false, v, n))
  {
    if names != [] {
      assert names[0] in names;
      TypesDecided(v, names[1..]);
      assert IsType(v, names[0]) == Yes(HasType(false, v, names[0]));
      assert forall n :: n in names <==> n == names[0] || n in names[1..];
    }
  }

  lemma KeywordsAreWellFormed(s: Json, k: Keywords)
    requires WellFormed(s) && HasKeywords(s, k)
    ensures k.enumValues.Some? ==> forall x | x in k.enumValues.value :: WellFormed(x)
    ensures k.constValue.Some? ==> WellFormed(k.constValue.value)
  {
    var ms := s.members;
    assert Lookup(ms, "enum").Some? ==> WellFormed(Lookup(ms, "enum").value);
    assert Lookup(ms, "const").Some? ==> WellFormed(Lookup(ms, "const").value);
  }

  lemma EnumDecided(v: Json, options: seq<Json>)
    requires WellFormed(v) && forall x | x in options :: WellFormed(x)
    ensures (exists i | 0 <= i < |options| :: Canonical(options[i]) == Canonical(v)) <==> exists x :: x in options && SameText(x, v)
  {
    hide WellFormed, Canonical, SameText;
    forall i | 0 <= i < |options| ensures Canonical(options[i]) == Canonical(v) <==> SameText(options[i], v) {
      assert options[i] in options;
      CanonicalDecidesSameText(options[i], v);
    }
    if x :| x in options && SameText(x, v) {
      var i :| 0 <= i < |options| && options[i] == x;
      assert Canonical(options[i]) == Canonical(v);
    }
  }

  lemma ValuesDecided(v: Json, s: Json, k: Keywords, path: string)
    requires WellFormed(v) && WellFormed(s) && HasKeywords(s, k)
    ensures Decides(Found(ValuesIssues(v, k, path)), ValuesHold(false, v, k))
  {
    hide HasKeywords, WellFormed, Canonical, SameText, ReadKeywords;
    KeywordsAreWellFormed(s, k);
    if k.constValue.Some? {
      CanonicalDecidesSameText(v, k.constValue.value);
    }
    if k.enumValues.Some? {
      EnumDecided(v, k.enumValues.value);
    }
  }

  lemma {:induction false} RequiredDecided(members: seq<Member>, required: seq<string>, path: string)
    ensures Decides(Found(RequiredIssues(members, required, path)), forall n | n in required :: HasName(members, n))
  {
    if required != [] {
      RequiredDecided(members, required[1..], path);
      assert forall n :: n in required <==> n == required[0] || n in required[1..];
      assert Lookup(members, required[0]).Some? <==> HasName(members, required[0]);
    }
  }

  lemma ArrayDecided(items: seq<Json>, k: Keywords, path: string)
    requires forall x | x in items :: WellFormed(x)
    ensures Decides(Found(ArrayIssues(items, k, path)), ItemsHold(false, items, k))
  {
    hide WellFormed, Canonical, SameText;
    forall i, j | 0 <= i < j < |items| ensures Canonical(items[i]) == Canonical(items[j]) <==> SameText(items[i], items[j]) {
      assert items[i] in items && items[j] in items;
      CanonicalDecidesSameText(items[i], items[j]);
    }
  }

  // ---------------------------------------------------------------- nesting

  function Height(v: Json): (h: nat) {
    match v
    case Arr(items) => 1 + ItemsHeight(items)
    case Obj(members) => 1 + MembersHeight(members)
    case _ => 0
  }

  function ItemsHeight(items: seq<Json>): (h: nat)
    ensures forall x | x in items :: Height(x) <= h
  {
    if items == [] then 0
    else
      var a, b := Height(items[0]), ItemsHeight(items[1..]);
      assert forall x | x in items :: x == items[0] || x in items[1..];
      if a < b then b else a
  }

  function MembersHeight(members: seq<Member>): (h: nat)
    ensures forall m | m in members :: Height(m.value) <= h
  {
    if members == [] then 0
    else
      var a, b := Height(members[0].value), MembersHeight(members[1..]);
      assert forall m | m in members :: m == members[0] || m in members[1..];
      if a < b then b else a
  }

  ghost predicate Bounds(rank: map<Json, nat>, bound: nat) {
    forall s | s in rank :: rank[s] < bound
  }

  /** The nesting that suffices: a full round of ranks for every level of the instance. */
  ghost predicate Enough(rank: map<Json, nat>, bound: nat, v: Json, s: Json, depth: nat)
    requires s in rank
  {
    Height(v) * bound + rank[s] < depth
  }

  lemma EnoughIsSome(rank: map<Json, nat>, bound: nat, v: Json, s: Json, depth: nat)
    requires s in rank && Enough(rank, bound, v, s, depth)
    ensures depth > 0
  {
  }

  lemma EnoughForSameStep(rank: map<Json, nat>, bound: nat, v: Json, s: Json, t: Json, depth: nat)
    requires s in rank && t in rank && rank[t] < rank[s] && Enough(rank, bound, v, s, depth)
    ensures depth > 0 && Enough(rank, bound, v, t, depth - 1)
  {
  }

  lemma EnoughForPartStep(rank: map<Json, nat>, bound: nat, v: Json, s: Json, x: Json, t: Json, depth: nat)
    requires s in rank && t in rank && Bounds(rank, bound) && Height(x) < Height(v) && Enough(rank, bound, v, s, depth)
    ensures depth > 0 && Enough(rank, bound, x, t, depth - 1)
  {
    assert (Height(x) + 1) * bound <= Height(v) * bound by {
      MulOrder(Height(x) + 1, Height(v), bound);
    }
  }

  lemma MulOrder(a: nat, b: nat, c: nat)
    requires a <= b
    ensures a * c <= b * c
  {
  }

  // ---------------------------------------------------------------- the theorem

  ghost predicate Ready(env: Env, rank: map<Json, nat>, bound: nat) {
    Guarded(env, rank) && AllSupported(env, rank) && Bounds(rank, bound)
  }

  /** For a supported document whose references cannot go round in a circle on one instance, the
      validator comes to a verdict within the nesting given, and reports nothing exactly when the
      instance satisfies the schema. */
  lemma {:induction false} ReportIsMeaning(env: Env, rank: map<Json, nat>, bound: nat, v: Json, s: Json, path: string, depth: nat)
    requires Ready(env, rank, bound) && s in rank && WellFormed(v) && Enough(rank, bound, v, s, depth)
    ensures Decides(Run(env, v, s, path, depth), Meets(env, false, rank, v, s))
    decreases v, rank[s], 4
  {
    hide WellFormed, HasUnknownKeyword, HasAssertionBesideRef, ReadKeywords, RunKeywords, Ready, Resolve, Meets;
    hide Guarded, Lookup, Enough;
    ReadyIsGuarded(env, rank, bound);
    SupportedCases(env, rank, s);
    EnoughIsSome(rank, bound, v, s, depth);
    if s.Bool? {
      BooleanSchema(env, rank, v, s);
    } else if s.members == [] {
      EmptySchemaHolds(env, false, rank, v);
    } else if Lookup(s.members, "$ref").Some? {
      var t :| RefersTo(env, s, t);
      MeetsByReference(env, false, rank, v, s, t);
      EnoughForSameStep(rank, bound, v, s, t, depth);
      ReportIsMeaning(env, rank, bound, v, t, path, depth - 1);
    } else {
      KeywordsDecided(env, rank, bound, v, s, ReadKeywords(s.members).value, path, depth - 1);
    }
  }

  lemma BooleanSchema(env: Env, rank: map<Json, nat>, v: Json, s: Json)
    requires Guarded(env, rank) && s in rank && s.Bool?
    ensures Meets(env, false, rank, v, s) <==> s.b
  {
  }

  lemma SupportedCases(env: Env, rank: map<Json, nat>, s: Json)
    requires AllSupported(env, rank) && s in rank
    ensures WellFormed(s) && Supported(env, s)
    ensures s.Bool? || s.Obj?
    ensures s.Obj? ==> !HasUnknownKeyword(s.members)
    ensures s.Obj? && Lookup(s.members, "$ref").Some? ==> !HasAssertionBesideRef(s.members) && exists t :: RefersTo(env, s, t)
    ensures s.Obj? && Lookup(s.members, "$ref").None? ==> ReadKeywords(s.members).Some?
  {
    hide ReadKeywords, WellFormed, RefersTo;
    assert Supported(env, s);
  }

  lemma KeywordsDecided(env: Env, rank: map<Json, nat>, bound: nat, v: Json, s: Json, k: Keywords, path: string, depth: nat)
    requires Ready(env, rank, bound) && s in rank && WellFormed(v) && Enough(rank, bound, v, s, depth + 1)
    requires HasKeywords(s, k)
    ensures Decides(RunKeywords(env, v, k, path, depth), Meets(env, false, rank, v, s))
    decreases v, rank[s], 3
  {
    hide WellFormed, ReadKeywords, TypeHolds, ValuesHold, NamesHold, ItemsHold, StringHolds, NumberHolds;
    hide BranchesHold, MembersHold, ElementsHold, Meets, TypePart, Ready, HasKeywords, Supported, Guarded, Enough;
    hide RunCombinators, RunObject, RunArray, ValuesIssues, StringIssues, NumberIssues, NumberValue;
    ReadyIsGuarded(env, rank, bound);
    SupportedCases(env, rank, s);
    MeetsByParts(env, false, rank, v, s, k);
    TypePartDecided(env, v, s, k, path);
    ValuesDecided(v, s, k, path);
    CombinatorsDecided(env, rank, bound, v, s, k, path, depth);
    if v.Obj? {
      ObjectDecided(env, rank, bound, v, s, k, path, depth);
    } else if v.Arr? {
      ItemsOfArrayDecided(env, rank, bound, v, s, k, path, depth);
    } else if v.Str? {
      StringDecided(env, v.s, k, path);
    } else if IsNumber(v) {
      NumberDecided(NumberValue(v), k, path);
    }
  }

  lemma TypePartDecided(env: Env, v: Json, s: Json, k: Keywords, path: string)
    requires Supported(env, s) && HasKeywords(s, k)
    ensures Decides(TypePart(v, k, path), TypeHolds(false, v, k))
  {
    hide HasType, ReadKeywords;
    if k.typeNames.Some? {
      TypesDecided(v, k.typeNames.value);
    }
  }

  lemma StringDecided(env: Env, s: string, k: Keywords, path: string)
    ensures Decides(Found(StringIssues(env, s, k, path)), StringHolds(env, s, k))
  {
  }

  lemma NumberDecided(x: real, k: Keywords, path: string)
    ensures Decides(Found(NumberIssues(x, k, path)), NumberHolds(x, k))
  {
  }

  // ---------------------------------------------------------------- combinators

  ghost predicate AnyHolds(env: Env, rank: map<Json, nat>, v: Json, branches: seq<Json>)
    requires Guarded(env, rank) && forall t | t in branches :: t in rank
  {
    exists t :: t in branches && Meets(env, false, rank, v, t)
  }

  ghost predicate OneHolds(env: Env, rank: map<Json, nat>, v: Json, branches: seq<Json>)
    requires Guarded(env, rank) && forall t | t in branches :: t in rank
  {
    exists i: nat | i < |branches| :: OnlyOne(env, false, rank, v, branches, i)
  }

  ghost predicate AllHold(env: Env, rank: map<Json, nat>, v: Json, branches: seq<Json>)
    requires Guarded(env, rank) && forall t | t in branches :: t in rank
  {
    forall t | t in branches :: Meets(env, false, rank, v, t)
  }

  lemma BranchesByKind(env: Env, rank: map<Json, nat>, v: Json, s: Json, k: Keywords)
    requires Guarded(env, rank) && s in rank && HasKeywords(s, k)
    ensures forall t | t in k.allOf :: t in rank
    ensures k.anyOf.Some? ==> forall t | t in k.anyOf.value :: t in rank
    ensures k.oneOf.Some? ==> forall t | t in k.oneOf.value :: t in rank
    ensures k.notSchema.Some? ==> k.notSchema.value in rank
    ensures BranchesHold(env, false, rank, v, s, k) <==>
      && AllHold(env, rank, v, k.allOf)
      && (k.anyOf.Some? ==> AnyHolds(env, rank, v, k.anyOf.value))
      && (k.oneOf.Some? ==> OneHolds(env, rank, v, k.oneOf.value))
      && (k.notSchema.Some? ==> !Meets(env, false, rank, v, k.notSchema.value))
  {
    hide Meets, Guarded, HasKeywords, OnlyOne;
    StepsAreCovered(env, rank, s, k);
  }

  lemma CombinatorsDecided(env: Env, rank: map<Json, nat>, bound: nat, v: Json, s: Json, k: Keywords, path: string, depth: nat)
    requires Ready(env, rank, bound) && s in rank && WellFormed(v) && Enough(rank, bound, v, s, depth + 1)
    requires HasKeywords(s, k)
    ensures Guarded(env, rank) && Decides(RunCombinators(env, v, k, path, depth), BranchesHold(env, false, rank, v, s, k))
    decreases v, rank[s], 2
  {
    hide WellFormed, ReadKeywords, HasKeywords, Ready, RunAll, RunAnyOf, RunOneOf, RunNot, RunAny, RunCount, Conforms;
    hide Meets, Guarded, Enough, AllHold, AnyHolds, OneHolds, BranchesHold, MeetingBranches;
    ReadyIsGuarded(env, rank, bound);
    StepsAreCovered(env, rank, s, k);
    BranchesByKind(env, rank, v, s, k);
    AllDecided(env, rank, bound, v, s, k.allOf, path, depth);
    AnyOfDecided(env, rank, bound, v, s, k, path, depth);
    OneOfDecided(env, rank, bound, v, s, k, path, depth);
    NotDecided(env, rank, bound, v, s, k, path, depth);
  }

  lemma AnyOfDecided(env: Env, rank: map<Json, nat>, bound: nat, v: Json, s: Json, k: Keywords, path: string, depth: nat)
    requires Ready(env, rank, bound) && s in rank && WellFormed(v) && Enough(rank, bound, v, s, depth + 1)
    requires k.anyOf.Some? ==> forall t | t in k.anyOf.value :: t in rank && rank[t] < rank[s]
    ensures Guarded(env, rank)
    ensures Decides(RunAnyOf(env, v, k.anyOf, path, depth), k.anyOf.Some? ==> AnyHolds(env, rank, v, k.anyOf.value))
    decreases v, rank[s], 2, 0
  {
    hide WellFormed, Ready, RunAny, Guarded, Enough, AnyHolds;
    ReadyIsGuarded(env, rank, bound);
    if k.anyOf.Some? {
      AnyDecided(env, rank, bound, v, s, k.anyOf.value, depth);
    }
  }

  lemma OneOfDecided(env: Env, rank: map<Json, nat>, bound: nat, v: Json, s: Json, k: Keywords, path: string, depth: nat)
    requires Ready(env, rank, bound) && s in rank && WellFormed(v) && Enough(rank, bound, v, s, depth + 1)
    requires k.oneOf.Some? ==> forall t | t in k.oneOf.value :: t in rank && rank[t] < rank[s]
    ensures Guarded(env, rank)
    ensures Decides(RunOneOf(env, v, k.oneOf, path, depth), k.oneOf.Some? ==> OneHolds(env, rank, v, k.oneOf.value))
    decreases v, rank[s], 2, 0
  {
    hide WellFormed, Ready, RunCount, Guarded, Enough, OneHolds, MeetingBranches;
    ReadyIsGuarded(env, rank, bound);
    if k.oneOf.Some? {
      CountDecided(env, rank, bound, v, s, k.oneOf.value, depth);
      OneOrNot(env, rank, v, k.oneOf.value);
    }
  }

  lemma NotDecided(env: Env, rank: map<Json, nat>, bound: nat, v: Json, s: Json, k: Keywords, path: string, depth: nat)
    requires Ready(env, rank, bound) && s in rank && WellFormed(v) && Enough(rank, bound, v, s, depth + 1)
    requires k.notSchema.Some? ==> k.notSchema.value in rank && rank[k.notSchema.value] < rank[s]
    ensures Guarded(env, rank)
    ensures Decides(RunNot(env, v, k.notSchema, path, depth), k.notSchema.Some? ==> !Meets(env, false, rank, v, k.notSchema.value))
    decreases v, rank[s], 2, 0
  {
    hide WellFormed, Ready, Conforms, Guarded, Enough, Meets;
    ReadyIsGuarded(env, rank, bound);
    if k.notSchema.Some? {
      BranchDecided(env, rank, bound, v, s, k.notSchema.value, depth);
    }
  }

  lemma ReadyIsGuarded(env: Env, rank: map<Json, nat>, bound: nat)
    requires Ready(env, rank, bound)
    ensures Guarded(env, rank) && AllSupported(env, rank)
  {
  }

  lemma BranchDecided(env: Env, rank: map<Json, nat>, bound: nat, v: Json, s: Json, t: Json, depth: nat)
    requires Ready(env, rank, bound) && s in rank && WellFormed(v) && Enough(rank, bound, v, s, depth + 1)
    requires t in rank && rank[t] < rank[s]
    ensures Conforms(env, v, t, depth) == Yes(Meets(env, false, rank, v, t))
    decreases v, rank[s], 0
  {
    hide Meets, Run, Ready;
    ReadyIsGuarded(env, rank, bound);
    EnoughForSameStep(rank, bound, v, s, t, depth + 1);
    ReportIsMeaning(env, rank, bound, v, t, "", depth);
  }

  lemma {:induction false} AllDecided(env: Env, rank: map<Json, nat>, bound: nat, v: Json, s: Json, branches: seq<Json>, path: string, depth: nat)
    requires Ready(env, rank, bound) && s in rank && WellFormed(v) && Enough(rank, bound, v, s, depth + 1)
    requires forall t | t in branches :: t in rank && rank[t] < rank[s]
    ensures Guarded(env, rank) && Decides(RunAll(env, v, branches, path, depth), AllHold(env, rank, v, branches))
    decreases v, rank[s], 1, |branches|
  {
    hide Meets, Run, Ready, WellFormed, Guarded, Enough;
    ReadyIsGuarded(env, rank, bound);
    if branches != [] {
      assert branches[0] in branches;
      EnoughForSameStep(rank, bound, v, s, branches[0], depth + 1);
      ReportIsMeaning(env, rank, bound, v, branches[0], path, depth);
      AllDecided(env, rank, bound, v, s, branches[1..], path, depth);
      assert forall t :: t in branches <==> t == branches[0] || t in branches[1..];
    }
  }

  lemma {:induction false} AnyDecided(env: Env, rank: map<Json, nat>, bound: nat, v: Json, s: Json, branches: seq<Json>, depth: nat)
    requires Ready(env, rank, bound) && s in rank && WellFormed(v) && Enough(rank, bound, v, s, depth + 1)
    requires forall t | t in branches :: t in rank && rank[t] < rank[s]
    ensures Guarded(env, rank) && RunAny(env, v, branches, depth) == Yes(AnyHolds(env, rank, v, branches))
    decreases v, rank[s], 1, |branches|
  {
    hide Meets, Run, Ready, WellFormed, Conforms, Guarded, Enough;
    ReadyIsGuarded(env, rank, bound);
    if branches != [] {
      assert branches[0] in branches;
      BranchDecided(env, rank, bound, v, s, branches[0], depth);
      AnyDecided(env, rank, bound, v, s, branches[1..], depth);
      assert forall t :: t in branches <==> t == branches[0] || t in branches[1..];
    }
  }

  ghost function MeetingBranches(env: Env, rank: map<Json, nat>, v: Json, branches: seq<Json>): nat
    requires Guarded(env, rank) && forall t | t in branches :: t in rank
  {
    if branches == [] then 0
    else (if Meets(env, false, rank, v, branches[0]) then 1 else 0) + MeetingBranches(env, rank, v, branches[1..])
  }

  lemma {:induction false} CountDecided(env: Env, rank: map<Json, nat>, bound: nat, v: Json, s: Json, branches: seq<Json>, depth: nat)
    requires Ready(env, rank, bound) && s in rank && WellFormed(v) && Enough(rank, bound, v, s, depth + 1)
    requires forall t | t in branches :: t in rank && rank[t] < rank[s]
    ensures Guarded(env, rank) && RunCount(env, v, branches, depth) == Counted(MeetingBranches(env, rank, v, branches))
    decreases v, rank[s], 1, |branches|
  {
    hide Meets, Run, Ready, WellFormed, Conforms, Guarded, Enough;
    ReadyIsGuarded(env, rank, bound);
    if branches != [] {
      assert branches[0] in branches;
      BranchDecided(env, rank, bound, v, s, branches[0], depth);
      CountDecided(env, rank, bound, v, s, branches[1..], depth);
    }
  }

  lemma {:induction false} NoneOrSome(env: Env, rank: map<Json, nat>, v: Json, branches: seq<Json>)
    requires Guarded(env, rank) && forall t | t in branches :: t in rank
    ensures MeetingBranches(env, rank, v, branches) == 0
       <==> forall j | 0 <= j < |branches| :: !Meets(env, false, rank, v, branches[j])
  {
    hide Meets;
    if branches != [] {
      NoneOrSome(env, rank, v, branches[1..]);
      assert (forall j | 0 <= j < |branches| :: !Meets(env, false, rank, v, branches[j]))
        <==> !Meets(env, false, rank, v, branches[0])
             && forall j | 0 <= j < |branches[1..]| :: !Meets(env, false, rank, v, branches[1..][j]) by {
        assert forall j | 0 < j < |branches| :: branches[j] == branches[1..][j - 1];
      }
    }
  }

  lemma {:induction false} OneOrNot(env: Env, rank: map<Json, nat>, v: Json, branches: seq<Json>)
    requires Guarded(env, rank) && forall t | t in branches :: t in rank
    ensures MeetingBranches(env, rank, v, branches) == 1 <==> OneHolds(env, rank, v, branches)
  {
    hide Meets, Guarded;
    if branches != [] {
      var rest := branches[1..];
      OneOrNot(env, rank, v, rest);
      NoneOrSome(env, rank, v, rest);
      assert forall j | 0 <= j < |rest| :: branches[j + 1] == rest[j];
      if Meets(env, false, rank, v, branches[0]) {
        FirstMeets(env, rank, v, branches);
      } else {
        FirstFails(env, rank, v, branches);
      }
    }
  }

  lemma FirstMeets(env: Env, rank: map<Json, nat>, v: Json, branches: seq<Json>)
    requires Guarded(env, rank) && (forall t | t in branches :: t in rank) && branches != []
    requires Meets(env, false, rank, v, branches[0])
    ensures (exists i: nat | i < |branches| :: OnlyOne(env, false, rank, v, branches, i))
       <==> forall j | 0 <= j < |branches[1..]| :: !Meets(env, false, rank, v, branches[1..][j])
  {
    hide Meets;
    var rest := branches[1..];
    assert forall j | 0 <= j < |rest| :: branches[j + 1] == rest[j];
    if forall j | 0 <= j < |rest| :: !Meets(env, false, rank, v, rest[j]) {
      forall j | 0 <= j < |branches| && j != 0 ensures !Meets(env, false, rank, v, branches[j]) {
        assert branches[j] == rest[j - 1];
      }
      assert OnlyOne(env, false, rank, v, branches, 0);
    }
    forall i: nat, j | i < |branches| && OnlyOne(env, false, rank, v, branches, i) && 0 <= j < |rest|
      ensures !Meets(env, false, rank, v, rest[j])
    {
      assert i == 0;
      assert rest[j] == branches[j + 1];
    }
  }

  lemma FirstFails(env: Env, rank: map<Json, nat>, v: Json, branches: seq<Json>)
    requires Guarded(env, rank) && (forall t | t in branches :: t in rank) && branches != []
    requires !Meets(env, false, rank, v, branches[0])
    ensures (exists i: nat | i < |branches| :: OnlyOne(env, false, rank, v, branches, i))
       <==> exists i: nat | i < |branches[1..]| :: OnlyOne(env, false, rank, v, branches[1..], i)
  {
    hide Meets;
    var rest := branches[1..];
    forall i: nat | i < |rest| && OnlyOne(env, false, rank, v, rest, i) ensures OnlyOne(env, false, rank, v, branches, i + 1) {
      forall j | 0 <= j < |branches| && j != i + 1 ensures !Meets(env, false, rank, v, branches[j]) {
        assert j > 0 ==> branches[j] == rest[j - 1];
      }
    }
    forall i: nat | i < |branches| && OnlyOne(env, false, rank, v, branches, i)
      ensures i > 0 && OnlyOne(env, false, rank, v, rest, i - 1)
    {
      assert i > 0 && rest[i - 1] == branches[i];
      forall j | 0 <= j < |rest| && j != i - 1 ensures !Meets(env, false, rank, v, rest[j]) {
        assert rest[j] == branches[j + 1];
      }
    }
  }

  // ---------------------------------------------------------------- objects and arrays

  lemma MembersAreLower(v: Json, m: Member)
    requires v.Obj? && m in v.members
    ensures Height(m.value) < Height(v) && (WellFormed(v) ==> WellFormed(m.value))
  {
  }

  lemma ObjectDecided(env: Env, rank: map<Json, nat>, bound: nat, v: Json, s: Json, k: Keywords, path: string, depth: nat)
    requires Ready(env, rank, bound) && s in rank && WellFormed(v) && Enough(rank, bound, v, s, depth + 1)
    requires HasKeywords(s, k) && v.Obj?
    ensures Guarded(env, rank)
    ensures Decides(RunObject(env, v.members, k, path, depth),
                    NamesHold(v.members, k) && MembersHold(env, false, rank, v.members, s, k))
    decreases v, rank[s], 2
  {
    hide WellFormed, ReadKeywords, HasKeywords, Ready, RunProperties, RunAdditional, Meets;
    ReadyIsGuarded(env, rank, bound);
    StepsAreCovered(env, rank, s, k);
    RequiredDecided(v.members, k.required, path);
    PropertiesDecided(env, rank, bound, v, s, k, v.members, path, depth);
    AdditionalDecided(env, rank, bound, v, s, k, v.members, path, depth);
  }

  lemma {:induction false} PropertiesDecided(env: Env, rank: map<Json, nat>, bound: nat, v: Json, s: Json, k: Keywords,
                                             members: seq<Member>, path: string, depth: nat)
    requires Ready(env, rank, bound) && s in rank && WellFormed(v) && Enough(rank, bound, v, s, depth + 1)
    requires HasKeywords(s, k) && v.Obj? && forall m | m in members :: m in v.members
    requires forall name | MemberSchema(k, name).Some? :: MemberSchema(k, name).value in rank
    ensures Guarded(env, rank)
    ensures Decides(RunProperties(env, members, k, path, depth),
                    forall m | m in members && Lookup(k.properties, m.name).Some? ::
                      Meets(env, false, rank, m.value, MemberSchema(k, m.name).value))
    decreases v, rank[s], 1, |members|
  {
    hide WellFormed, ReadKeywords, HasKeywords, Meets, Run, Height;
    if members != [] {
      var m := members[0];
      assert m in members;
      if Lookup(k.properties, m.name).Some? {
        var t := MemberSchema(k, m.name).value;
        MembersAreLower(v, m);
        EnoughForPartStep(rank, bound, v, s, m.value, t, depth + 1);
        ReportIsMeaning(env, rank, bound, m.value, t, path + "/" + m.name, depth);
      }
      PropertiesDecided(env, rank, bound, v, s, k, members[1..], path, depth);
      assert forall x :: x in members <==> x == m || x in members[1..];
    }
  }

  lemma AdditionalKinds(env: Env, rank: map<Json, nat>, s: Json, k: Keywords)
    requires AllSupported(env, rank) && s in rank && HasKeywords(s, k)
    ensures k.additional.Some? ==> k.additional.value.Bool? || k.additional.value.Obj?
  {
    hide ReadKeywords, WellFormed, HasUnknownKeyword, HasAssertionBesideRef;
    assert Supported(env, s);
  }

  lemma {:induction false} AdditionalDecided(env: Env, rank: map<Json, nat>, bound: nat, v: Json, s: Json, k: Keywords,
                                             members: seq<Member>, path: string, depth: nat)
    requires Ready(env, rank, bound) && s in rank && WellFormed(v) && Enough(rank, bound, v, s, depth + 1)
    requires HasKeywords(s, k) && v.Obj? && forall m | m in members :: m in v.members
    requires forall name | MemberSchema(k, name).Some? :: MemberSchema(k, name).value in rank
    ensures Guarded(env, rank)
    ensures Decides(RunAdditional(env, members, k, path, depth),
                    forall m | m in members && Lookup(k.properties, m.name).None? && k.additional.Some? ::
                      Meets(env, false, rank, m.value, MemberSchema(k, m.name).value))
    decreases v, rank[s], 1, |members|
  {
    hide WellFormed, ReadKeywords, Run, Height, Meets, Supported, Guarded;
    AdditionalKinds(env, rank, s, k);
    if members != [] {
      var m := members[0];
      assert m in members;
      if Lookup(k.properties, m.name).None? && k.additional.Some? && k.additional.value.Obj? {
        var t := k.additional.value;
        assert MemberSchema(k, m.name) == Some(t);
        MembersAreLower(v, m);
        EnoughForPartStep(rank, bound, v, s, m.value, t, depth + 1);
        ReportIsMeaning(env, rank, bound, m.value, t, path + "/" + m.name, depth);
      } else if Lookup(k.properties, m.name).None? && k.additional.Some? {
        assert MemberSchema(k, m.name) == k.additional;
        BooleanSchema(env, rank, m.value, k.additional.value);
      }
      AdditionalDecided(env, rank, bound, v, s, k, members[1..], path, depth);
      assert forall x :: x in members <==> x == m || x in members[1..];
    }
  }

  lemma ItemsAreLower(v: Json, x: Json)
    requires v.Arr? && x in v.items
    ensures Height(x) < Height(v) && (WellFormed(v) ==> WellFormed(x))
  {
  }

  lemma ItemsOfArrayDecided(env: Env, rank: map<Json, nat>, bound: nat, v: Json, s: Json, k: Keywords, path: string, depth: nat)
    requires Ready(env, rank, bound) && s in rank && WellFormed(v) && Enough(rank, bound, v, s, depth + 1)
    requires HasKeywords(s, k) && v.Arr?
    ensures Guarded(env, rank)
    ensures Decides(RunArray(env, v.items, k, path, depth),
                    ItemsHold(false, v.items, k) && ElementsHold(env, false, rank, v.items, s, k))
    decreases v, rank[s], 2
  {
    hide ReadKeywords, Meets, RunItems, ArrayIssues, Height, Canonical, SameText;
    StepsAreCovered(env, rank, s, k);
    assert Supported(env, s);
    forall x | x in v.items ensures WellFormed(x) {
      ItemsAreLower(v, x);
    }
    ArrayDecided(v.items, k, path);
    if k.items.Some? {
      ItemsDecided(env, rank, bound, v, s, k.items.value, path, 0, depth);
    }
  }

  lemma {:induction false} ItemsDecided(env: Env, rank: map<Json, nat>, bound: nat, v: Json, s: Json, t: Json,
                                        path: string, index: nat, depth: nat)
    requires Ready(env, rank, bound) && s in rank && t in rank && WellFormed(v) && Enough(rank, bound, v, s, depth + 1)
    requires v.Arr? && index <= |v.items|
    ensures Guarded(env, rank)
    ensures Decides(RunItems(env, v.items, t, path, index, depth),
                    forall i | index <= i < |v.items| :: Meets(env, false, rank, v.items[i], t))
    decreases v, rank[s], 1, |v.items| - index
  {
    hide WellFormed, Meets, Run, Height, Decimal, Guarded, Supported;
    if index < |v.items| {
      var x := v.items[index];
      assert x in v.items;
      ItemsAreLower(v, x);
      EnoughForPartStep(rank, bound, v, s, x, t, depth + 1);
      ReportIsMeaning(env, rank, bound, x, t, path + "/" + Decimal(index), depth);
      ItemsDecided(env, rank, bound, v, s, t, path, index + 1, depth);
    }
  }
}
