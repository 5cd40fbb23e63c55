/** Where the validator and the standard agree, the concrete places where they do not, and what the
    nesting limit can and cannot change. */
module JsonLimits {
  import opened Numerals
  import opened Options
  import opened JsonValues
  import opened JsonCanonical
  import opened JsonSchema
  import opened JsonMeaning
  import opened JsonCorrectness

  // ---------------------------------------------------------------- the standard's meaning

  /** The numbers of two documents, none of them written in two ways. */
  ghost predicate SpelledAlike(a: Json, b: Json) {
    OneSpelling(NumbersIn(a) + NumbersIn(b))
  }

  /** A float like `1.0`, an integer for the standard and none for the validator. */
  ghost predicate WholeFloat(v: Json) {
    v.Float? && IsInteger(true, v)
  }

  /** What the keywords of one schema ask of an instance for the two readings to agree on it. */
  ghost predicate Unambiguous(v: Json, k: Keywords) {
    && (k.enumValues.Some? ==> forall x | x in k.enumValues.value :: SpelledAlike(x, v))
    && (k.constValue.Some? ==> SpelledAlike(v, k.constValue.value))
    && (k.unique && v.Arr? ==> SpelledAlike(v, v))
    && (k.typeNames.Some? && "integer" in k.typeNames.value && WholeFloat(v) ==> "number" in k.typeNames.value)
  }

  /** An instance and a schema that judges it. */
  type Judged = iset<(Json, Json)>

  /** `judged` holds whatever judging its pairs leads to. */
  ghost predicate ClosedUnderSteps(env: Env, judged: Judged) {
    && (forall v: Json, s: Json, t | (v, s) in judged && SameStep(env, s, t) :: (v, t) in judged)
    && (forall v: Json, s: Json, k, m | (v, s) in judged && HasKeywords(s, k) && v.Obj? && m in v.members && MemberSchema(k, m.name).Some? ::
          (m.value, MemberSchema(k, m.name).value) in judged)
    && (forall v: Json, s: Json, k, x | (v, s) in judged && HasKeywords(s, k) && v.Arr? && x in v.items && k.items.Some? ::
          (x, k.items.value) in judged)
  }

  ghost predicate AllUnambiguous(judged: Judged) {
    forall v: Json, s: Json, k | (v, s) in judged && HasKeywords(s, k) :: Unambiguous(v, k)
  }

  ghost predicate Clear(env: Env, judged: Judged) {
    ClosedUnderSteps(env, judged) && AllUnambiguous(judged)
  }

  lemma SameWhenSpelledAlike(a: Json, b: Json)
    requires SpelledAlike(a, b)
    ensures Same(true, a, b) <==> Same(false, a, b)
  {
    hide JsonEqual, SameText, NumbersIn, OneSpelling;
    if SameText(a, b) {
      SameTextIsEqual(a, b);
    } else if JsonEqual(a, b) {
      EqualIsSameText(NumbersIn(a) + NumbersIn(b), a, b);
    }
  }

  lemma SameItems(v: Json)
    requires v.Arr? && SpelledAlike(v, v)
    ensures forall i, j | 0 <= i < j < |v.items| :: Same(true, v.items[i], v.items[j]) <==> Same(false, v.items[i], v.items[j])
  {
    hide Same, NumbersIn;
    PartsHoldFewer(v);
    forall i, j | 0 <= i < j < |v.items| ensures Same(true, v.items[i], v.items[j]) <==> Same(false, v.items[i], v.items[j]) {
      assert v.items[i] in v.items && v.items[j] in v.items;
      SameWhenSpelledAlike(v.items[i], v.items[j]);
    }
  }

  lemma SameTypes(v: Json, k: Keywords)
    requires Unambiguous(v, k)
    ensures TypeHolds(true, v, k) <==> TypeHolds(false, v, k)
  {
    hide SpelledAlike, FloatValue;
    if k.typeNames.Some? {
      forall n | n in k.typeNames.value && HasType(false, v, n) ensures HasType(true, v, n) {
      }
      if n :| n in k.typeNames.value && HasType(true, v, n) && !HasType(false, v, n) {
        assert n == "integer" && WholeFloat(v);
        assert HasType(false, v, "number");
      }
    }
  }

  lemma SameValues(v: Json, k: Keywords)
    requires Unambiguous(v, k)
    ensures ValuesHold(true, v, k) <==> ValuesHold(false, v, k)
  {
    hide SpelledAlike, Same, WholeFloat;
    if k.constValue.Some? {
      SameWhenSpelledAlike(v, k.constValue.value);
    }
    if k.enumValues.Some? {
      forall x | x in k.enumValues.value ensures Same(true, x, v) <==> Same(false, x, v) {
        SameWhenSpelledAlike(x, v);
      }
    }
  }

  lemma PlainlyTheSame(env: Env, v: Json, k: Keywords)
    requires Unambiguous(v, k)
    ensures PlainlyMeets(env, true, v, k) <==> PlainlyMeets(env, false, v, k)
  {
    SameTypes(v, k);
    SameValues(v, k);
    if v.Arr? && k.unique {
      SameItems(v);
    }
    hide TypeHolds, ValuesHold, Unambiguous, Same, NumberHolds, StringHolds, NamesHold;
  }

  /** Where no judged instance is ambiguous, the validator's reading of a schema is the standard's. */
  lemma {:induction false} MeaningIsStandard(env: Env, rank: map<Json, nat>, judged: Judged, v: Json, s: Json)
    requires Guarded(env, rank) && s in rank && Clear(env, judged) && (v, s) in judged
    ensures Meets(env, true, rank, v, s) <==> Meets(env, false, rank, v, s)
    decreases v, rank[s]
  {
    hide ReadKeywords, Clear, Guarded, PlainlyMeets, Meets, Resolve, MemberSchema;
    if s.Obj? && Lookup(s.members, "$ref").None? && ReadKeywords(s.members).Some? {
      var k := ReadKeywords(s.members).value;
      KeywordsAreStandard(env, rank, judged, v, s, k);
    } else if t :| RefersTo(env, s, t) {
      MeetsByReference(env, true, rank, v, s, t);
      MeetsByReference(env, false, rank, v, s, t);
      ReferenceStaysClear(env, judged, v, s, t);
      MeaningIsStandard(env, rank, judged, v, t);
    } else {
      OtherSchemas(env, rank, v, s);
    }
  }

  lemma ReferenceStaysClear(env: Env, judged: Judged, v: Json, s: Json, t: Json)
    requires Clear(env, judged) && (v, s) in judged && RefersTo(env, s, t)
    ensures (v, t) in judged
  {
    hide AllUnambiguous;
    assert SameStep(env, s, t);
  }

  lemma StepsStayClear(env: Env, judged: Judged, v: Json, s: Json, k: Keywords)
    requires Clear(env, judged) && (v, s) in judged && HasKeywords(s, k)
    ensures Unambiguous(v, k)
    ensures forall t | Branch(k, t) :: (v, t) in judged
    ensures v.Obj? ==> forall m | m in v.members && MemberSchema(k, m.name).Some? :: (m.value, MemberSchema(k, m.name).value) in judged
    ensures v.Arr? && k.items.Some? ==> forall x | x in v.items :: (x, k.items.value) in judged
  {
    hide HasKeywords, Branch, MemberSchema, Unambiguous;
    forall t | Branch(k, t) ensures (v, t) in judged {
      assert SameStep(env, s, t);
    }
  }

  lemma OtherSchemas(env: Env, rank: map<Json, nat>, v: Json, s: Json)
    requires Guarded(env, rank) && s in rank
    requires !(s.Obj? && Lookup(s.members, "$ref").None? && ReadKeywords(s.members).Some?)
    requires forall t :: !RefersTo(env, s, t)
    ensures Meets(env, true, rank, v, s) <==> Meets(env, false, rank, v, s)
  {
    hide ReadKeywords, Resolve;
  }

  lemma KeywordsAreStandard(env: Env, rank: map<Json, nat>, judged: Judged, v: Json, s: Json, k: Keywords)
    requires Guarded(env, rank) && s in rank && Clear(env, judged) && (v, s) in judged && HasKeywords(s, k)
    ensures Meets(env, true, rank, v, s) <==> Meets(env, false, rank, v, s)
    decreases v, rank[s], 0
  {
    hide ReadKeywords, Guarded, PlainlyMeets, Meets, HasKeywords, Clear, ClosedUnderSteps, AllUnambiguous, Unambiguous, BranchesHold, MembersHold, ElementsHold;
    MeetsByParts(env, true, rank, v, s, k);
    MeetsByParts(env, false, rank, v, s, k);
    StepsAreCovered(env, rank, s, k);
    StepsStayClear(env, judged, v, s, k);
    PlainlyTheSame(env, v, k);
    BranchesAreStandard(env, rank, judged, v, s, k);
    if v.Obj? {
      MembersAreStandard(env, rank, judged, v, s, k);
    } else if v.Arr? {
      ElementsAreStandard(env, rank, judged, v, s, k);
    }
  }

  lemma BranchesAreStandard(env: Env, rank: map<Json, nat>, judged: Judged, v: Json, s: Json, k: Keywords)
    requires Guarded(env, rank) && s in rank && Clear(env, judged) && (v, s) in judged && HasKeywords(s, k)
    ensures BranchesHold(env, true, rank, v, s, k) <==> BranchesHold(env, false, rank, v, s, k)
    decreases v, rank[s], 0, 0
  {
    hide ReadKeywords, Guarded, Meets, HasKeywords, Clear, ClosedUnderSteps, AllUnambiguous, Unambiguous, OnlyOne;
    StepsAreCovered(env, rank, s, k);
    StepsStayClear(env, judged, v, s, k);
    forall t | t in rank && rank[t] < rank[s] && Branch(k, t)
      ensures Meets(env, true, rank, v, t) <==> Meets(env, false, rank, v, t)
    {
      MeaningIsStandard(env, rank, judged, v, t);
    }
    if k.oneOf.Some? {
      var branches := k.oneOf.value;
      forall i: nat | i < |branches|
        ensures OnlyOne(env, true, rank, v, branches, i) <==> OnlyOne(env, false, rank, v, branches, i)
      {
        SameOnlyOne(env, rank, v, branches, i);
      }
    }
  }

  lemma SameOnlyOne(env: Env, rank: map<Json, nat>, v: Json, branches: seq<Json>, i: nat)
    requires Guarded(env, rank) && (forall t | t in branches :: t in rank) && i < |branches|
    requires forall t | t in branches :: Meets(env, true, rank, v, t) <==> Meets(env, false, rank, v, t)
    ensures OnlyOne(env, true, rank, v, branches, i) <==> OnlyOne(env, false, rank, v, branches, i)
  {
    hide Meets, Guarded;
    forall j | 0 <= j < |branches| ensures Meets(env, true, rank, v, branches[j]) <==> Meets(env, false, rank, v, branches[j]) {
      assert branches[j] in branches;
    }
  }

  lemma MembersAreStandard(env: Env, rank: map<Json, nat>, judged: Judged, v: Json, s: Json, k: Keywords)
    requires Guarded(env, rank) && s in rank && Clear(env, judged) && (v, s) in judged && HasKeywords(s, k) && v.Obj?
    ensures MembersHold(env, true, rank, v.members, s, k) <==> MembersHold(env, false, rank, v.members, s, k)
    decreases v, rank[s], 0, 0
  {
    hide ReadKeywords, Guarded, Meets, HasKeywords, Clear, ClosedUnderSteps, AllUnambiguous, Unambiguous, MemberSchema;
    StepsAreCovered(env, rank, s, k);
    StepsStayClear(env, judged, v, s, k);
    forall m | m in v.members && MemberSchema(k, m.name).Some?
      ensures Meets(env, true, rank, m.value, MemberSchema(k, m.name).value)
         <==> Meets(env, false, rank, m.value, MemberSchema(k, m.name).value)
    {
      MeaningIsStandard(env, rank, judged, m.value, MemberSchema(k, m.name).value);
    }
  }

  lemma ElementsAreStandard(env: Env, rank: map<Json, nat>, judged: Judged, v: Json, s: Json, k: Keywords)
    requires Guarded(env, rank) && s in rank && Clear(env, judged) && (v, s) in judged && HasKeywords(s, k) && v.Arr?
    ensures ElementsHold(env, true, rank, v.items, s, k) <==> ElementsHold(env, false, rank, v.items, s, k)
    decreases v, rank[s], 0, 0
  {
    hide ReadKeywords, Guarded, Meets, HasKeywords, Clear, ClosedUnderSteps, AllUnambiguous, Unambiguous;
    StepsAreCovered(env, rank, s, k);
    StepsStayClear(env, judged, v, s, k);
    if k.items.Some? {
      forall x | x in v.items
        ensures Meets(env, true, rank, x, k.items.value) <==> Meets(env, false, rank, x, k.items.value)
      {
        MeaningIsStandard(env, rank, judged, x, k.items.value);
      }
    }
  }

  /** So the validator decides conformance as the standard defines it. */
  lemma ReportIsStandardMeaning(env: Env, rank: map<Json, nat>, bound: nat, judged: Judged, v: Json, depth: nat)
    requires Ready(env, rank, bound) && env.root in rank && WellFormed(v) && Enough(rank, bound, v, env.root, depth)
    requires Clear(env, judged) && (v, env.root) in judged
    ensures Decides(Run(env, v, env.root, "", depth), Meets(env, true, rank, v, env.root))
  {
    hide WellFormed, Run, Meets, Clear;
    ReportIsMeaning(env, rank, bound, v, env.root, "", depth);
    MeaningIsStandard(env, rank, judged, v, env.root);
  }

  /** The values schemas compare with, by `enum` and `const`, take their numbers from `numbers`; and a
      schema that asks for an integer is satisfied with any number, or no whole float is among them. */
  ghost predicate SpelledFrom(schemas: set<Json>, numbers: iset<Json>) {
    && OneSpelling(numbers)
    && forall s, k | s in schemas && HasKeywords(s, k) ::
      && (k.enumValues.Some? ==> forall x | x in k.enumValues.value :: NumbersIn(x) <= numbers)
      && (k.constValue.Some? ==> NumbersIn(k.constValue.value) <= numbers)
      && (k.typeNames.Some? && "integer" in k.typeNames.value && "number" !in k.typeNames.value ==>
            forall n | n in numbers :: !WholeFloat(n))
  }

  /** The instances whose numbers are among `numbers`, with each of the schemas. */
  ghost function SpelledPairs(schemas: set<Json>, numbers: iset<Json>): Judged {
    iset v, s | NumbersIn(v) <= numbers && s in schemas :: (v, s)
  }

  lemma FewerSpellings(a: Json, b: Json, numbers: iset<Json>)
    requires OneSpelling(numbers) && NumbersIn(a) <= numbers && NumbersIn(b) <= numbers
    ensures SpelledAlike(a, b)
  {
    hide NumbersIn;
  }

  lemma SpelledIsUnambiguous(schemas: set<Json>, numbers: iset<Json>, v: Json, s: Json, k: Keywords)
    requires SpelledFrom(schemas, numbers) && NumbersIn(v) <= numbers && s in schemas && HasKeywords(s, k)
    ensures Unambiguous(v, k)
  {
    hide SpelledAlike, OneSpelling, HasKeywords;
    FewerSpellings(v, v, numbers);
    if k.enumValues.Some? {
      forall x | x in k.enumValues.value ensures SpelledAlike(x, v) {
        FewerSpellings(x, v, numbers);
      }
    }
    if k.constValue.Some? {
      FewerSpellings(v, k.constValue.value, numbers);
    }
    assert WholeFloat(v) ==> v in NumbersIn(v);
  }

  /** One set of spellings for the instance and the compared values is enough. */
  lemma SpelledIsClear(env: Env, rank: map<Json, nat>, numbers: iset<Json>)
    requires Guarded(env, rank) && SpelledFrom(rank.Keys, numbers)
    ensures Clear(env, SpelledPairs(rank.Keys, numbers))
  {
    hide HasKeywords, Unambiguous, SpelledFrom, NumbersIn, Lookup, ReadKeywords, SameStep, RefersTo;
    var judged := SpelledPairs(rank.Keys, numbers);
    forall v: Json, s: Json, k | (v, s) in judged && HasKeywords(s, k) ensures Unambiguous(v, k) {
      SpelledIsUnambiguous(rank.Keys, numbers, v, s, k);
    }
    forall v: Json, s: Json, k, m | (v, s) in judged && HasKeywords(s, k) && v.Obj? && m in v.members && MemberSchema(k, m.name).Some?
      ensures (m.value, MemberSchema(k, m.name).value) in judged
    {
      PartsHoldFewer(v);
      StepsAreCovered(env, rank, s, k);
    }
    forall v: Json, s: Json, k, x | (v, s) in judged && HasKeywords(s, k) && v.Arr? && x in v.items && k.items.Some?
      ensures (x, k.items.value) in judged
    {
      PartsHoldFewer(v);
      StepsAreCovered(env, rank, s, k);
    }
  }

  // ---------------------------------------------------------------- the nesting limit

  lemma ThenLate(a: Outcome, b: Outcome, a': Outcome, b': Outcome)
    requires Then(a, b) != Stopped(TooDeep)
    requires a != Stopped(TooDeep) ==> a' == a
    requires b != Stopped(TooDeep) ==> b' == b
    ensures Then(a', b') == Then(a, b)
  {
  }

  /** More nesting changes nothing once a verdict, or a refusal, has been reached. */
  lemma {:induction false} DeeperIsTheSame(env: Env, v: Json, s: Json, path: string, d: nat, e: nat)
    requires d <= e && Run(env, v, s, path, d) != Stopped(TooDeep)
    ensures Run(env, v, s, path, e) == Run(env, v, s, path, d)
    decreases d, 0
  {
    hide ReadKeywords, Resolve, HasUnknownKeyword, HasAssertionBesideRef, RunKeywords;
    if s.Obj? && s.members != [] && !HasUnknownKeyword(s.members) {
      var r := Lookup(s.members, "$ref");
      if r.Some? {
        if r.value.Str? && !HasAssertionBesideRef(s.members) && Resolve(r.value.s, env.root).Some? {
          DeeperIsTheSame(env, v, Resolve(r.value.s, env.root).value, path, d - 1, e - 1);
        }
      } else if ReadKeywords(s.members).Some? {
        DeeperKeywords(env, v, ReadKeywords(s.members).value, path, d - 1, e - 1);
      }
    }
  }

  lemma DeeperKeywords(env: Env, v: Json, k: Keywords, path: string, d: nat, e: nat)
    requires d <= e && RunKeywords(env, v, k, path, d) != Stopped(TooDeep)
    ensures RunKeywords(env, v, k, path, e) == RunKeywords(env, v, k, path, d)
    decreases d, 6
  {
    hide RunCombinators, RunObject, RunArray, TypePart, ValuesIssues, StringIssues, NumberIssues, NumberValue;
    if RunCombinators(env, v, k, path, d) != Stopped(TooDeep) {
      DeeperCombinators(env, v, k, path, d, e);
    }
    if v.Obj? && RunObject(env, v.members, k, path, d) != Stopped(TooDeep) {
      DeeperObject(env, v.members, k, path, d, e);
    }
    if v.Arr? && RunArray(env, v.items, k, path, d) != Stopped(TooDeep) {
      DeeperArray(env, v.items, k, path, d, e);
    }
  }

  lemma DeeperCombinators(env: Env, v: Json, k: Keywords, path: string, d: nat, e: nat)
    requires d <= e && RunCombinators(env, v, k, path, d) != Stopped(TooDeep)
    ensures RunCombinators(env, v, k, path, e) == RunCombinators(env, v, k, path, d)
    decreases d, 4
  {
    hide RunAll, RunAnyOf, RunOneOf, RunNot;
    if RunAll(env, v, k.allOf, path, d) != Stopped(TooDeep) {
      DeeperAll(env, v, k.allOf, path, d, e);
    }
    if RunAnyOf(env, v, k.anyOf, path, d) != Stopped(TooDeep) {
      DeeperAnyOf(env, v, k, path, d, e);
    }
    if RunOneOf(env, v, k.oneOf, path, d) != Stopped(TooDeep) {
      DeeperOneOf(env, v, k, path, d, e);
    }
    if RunNot(env, v, k.notSchema, path, d) != Stopped(TooDeep) {
      DeeperNot(env, v, k, path, d, e);
    }
  }

  lemma DeeperAnyOf(env: Env, v: Json, k: Keywords, path: string, d: nat, e: nat)
    requires d <= e && RunAnyOf(env, v, k.anyOf, path, d) != Stopped(TooDeep)
    ensures RunAnyOf(env, v, k.anyOf, path, e) == RunAnyOf(env, v, k.anyOf, path, d)
    decreases d, 3
  {
    if k.anyOf.Some? {
      DeeperAny(env, v, k.anyOf.value, d, e);
    }
  }

  lemma DeeperOneOf(env: Env, v: Json, k: Keywords, path: string, d: nat, e: nat)
    requires d <= e && RunOneOf(env, v, k.oneOf, path, d) != Stopped(TooDeep)
    ensures RunOneOf(env, v, k.oneOf, path, e) == RunOneOf(env, v, k.oneOf, path, d)
    decreases d, 3
  {
    if k.oneOf.Some? {
      DeeperCount(env, v, k.oneOf.value, d, e);
    }
  }

  lemma DeeperNot(env: Env, v: Json, k: Keywords, path: string, d: nat, e: nat)
    requires d <= e && RunNot(env, v, k.notSchema, path, d) != Stopped(TooDeep)
    ensures RunNot(env, v, k.notSchema, path, e) == RunNot(env, v, k.notSchema, path, d)
    decreases d, 3
  {
    if k.notSchema.Some? {
      DeeperIsTheSame(env, v, k.notSchema.value, "", d, e);
    }
  }

  lemma {:induction false} DeeperAll(env: Env, v: Json, branches: seq<Json>, path: string, d: nat, e: nat)
    requires d <= e && RunAll(env, v, branches, path, d) != Stopped(TooDeep)
    ensures RunAll(env, v, branches, path, e) == RunAll(env, v, branches, path, d)
    decreases d, 2, |branches|
  {
    hide Run;
    if branches != [] {
      DeeperIsTheSame(env, v, branches[0], path, d, e);
      if RunAll(env, v, branches[1..], path, d) != Stopped(TooDeep) {
        DeeperAll(env, v, branches[1..], path, d, e);
      }
    }
  }

  lemma {:induction false} DeeperAny(env: Env, v: Json, branches: seq<Json>, d: nat, e: nat)
    requires d <= e && RunAny(env, v, branches, d) != Halted(TooDeep)
    ensures RunAny(env, v, branches, e) == RunAny(env, v, branches, d)
    decreases d, 2, |branches|
  {
    hide Run;
    if branches != [] {
      DeeperIsTheSame(env, v, branches[0], "", d, e);
      if Conforms(env, v, branches[0], d) == Yes(false) {
        DeeperAny(env, v, branches[1..], d, e);
      }
    }
  }

  lemma {:induction false} DeeperCount(env: Env, v: Json, branches: seq<Json>, d: nat, e: nat)
    requires d <= e && RunCount(env, v, branches, d) != CountStopped(TooDeep)
    ensures RunCount(env, v, branches, e) == RunCount(env, v, branches, d)
    decreases d, 2, |branches|
  {
    hide Run;
    if branches != [] {
      DeeperIsTheSame(env, v, branches[0], "", d, e);
      if Conforms(env, v, branches[0], d).Yes? {
        DeeperCount(env, v, branches[1..], d, e);
      }
    }
  }

  lemma DeeperObject(env: Env, members: seq<Member>, k: Keywords, path: string, d: nat, e: nat)
    requires d <= e && RunObject(env, members, k, path, d) != Stopped(TooDeep)
    ensures RunObject(env, members, k, path, e) == RunObject(env, members, k, path, d)
    decreases d, 3
  {
    hide RunProperties, RunAdditional, RequiredIssues;
    if RunProperties(env, members, k, path, d) != Stopped(TooDeep) {
      DeeperProperties(env, members, k, path, d, e);
    }
    if RunAdditional(env, members, k, path, d) != Stopped(TooDeep) {
      DeeperAdditional(env, members, k, path, d, e);
    }
  }

  lemma {:induction false} DeeperProperties(env: Env, members: seq<Member>, k: Keywords, path: string, d: nat, e: nat)
    requires d <= e && RunProperties(env, members, k, path, d) != Stopped(TooDeep)
    ensures RunProperties(env, members, k, path, e) == RunProperties(env, members, k, path, d)
    decreases d, 2, |members|
  {
    hide Run;
    if members != [] {
      var t := Lookup(k.properties, members[0].name);
      if t.Some? {
        DeeperIsTheSame(env, members[0].value, t.value, path + "/" + members[0].name, d, e);
      }
      if RunProperties(env, members[1..], k, path, d) != Stopped(TooDeep) {
        DeeperProperties(env, members[1..], k, path, d, e);
      }
    }
  }

  lemma {:induction false} DeeperAdditional(env: Env, members: seq<Member>, k: Keywords, path: string, d: nat, e: nat)
    requires d <= e && RunAdditional(env, members, k, path, d) != Stopped(TooDeep)
    ensures RunAdditional(env, members, k, path, e) == RunAdditional(env, members, k, path, d)
    decreases d, 2, |members|
  {
    hide Run;
    if members != [] {
      if Lookup(k.properties, members[0].name).None? && k.additional.Some? && k.additional.value.Obj? {
        DeeperIsTheSame(env, members[0].value, k.additional.value, path + "/" + members[0].name, d, e);
      }
      if RunAdditional(env, members[1..], k, path, d) != Stopped(TooDeep) {
        DeeperAdditional(env, members[1..], k, path, d, e);
      }
    }
  }

  lemma DeeperArray(env: Env, items: seq<Json>, k: Keywords, path: string, d: nat, e: nat)
    requires d <= e && RunArray(env, items, k, path, d) != Stopped(TooDeep)
    ensures RunArray(env, items, k, path, e) == RunArray(env, items, k, path, d)
    decreases d, 3
  {
    hide RunItems, ArrayIssues;
    if k.items.Some? && !k.items.value.Arr? {
      DeeperItems(env, items, k.items.value, path, 0, d, e);
    }
  }

  lemma {:induction false} DeeperItems(env: Env, items: seq<Json>, s: Json, path: string, index: nat, d: nat, e: nat)
    requires index <= |items|
    requires d <= e && RunItems(env, items, s, path, index, d) != Stopped(TooDeep)
    ensures RunItems(env, items, s, path, index, e) == RunItems(env, items, s, path, index, d)
    decreases d, 2, |items| - index
  {
    hide Run, Decimal;
    if index < |items| {
      DeeperIsTheSame(env, items[index], s, path + "/" + Decimal(index), d, e);
      if RunItems(env, items, s, path, index + 1, d) != Stopped(TooDeep) {
        DeeperItems(env, items, s, path, index + 1, d, e);
      }
    }
  }

  // ---------------------------------------------------------------- concrete limits

  const SELF: Json := Obj([Member("$ref", Str("#"))])

  /** A reference to itself is followed without end: no nesting is enough for any instance. */
  lemma {:induction false} SelfReferenceNeverEnds(env: Env, v: Json, path: string, depth: nat)
    requires env.root == SELF
    ensures Run(env, v, SELF, path, depth) == Stopped(TooDeep)
  {
    if depth > 0 {
      SelfReferenceNeverEnds(env, v, path, depth - 1);
      assert SELF.members[0].name == SUPPORTED_KEYWORDS[0];
    }
  }

  // ---------------------------------------------------------------- recursion through the instance

  /** Lists of lists of lists: the reference leads back to the document through `items`. */
  const NESTED: Json := Obj([Member("items", SELF)])

  lemma NestedReads()
    ensures ReadKeywords(NESTED.members) == Some(NoKeywords().(items := Some(SELF)))
    ensures !HasUnknownKeyword(NESTED.members) && Lookup(NESTED.members, "$ref").None?
  {
    assert NESTED.members[1..] == [];
    assert NESTED.members[0].name == SUPPORTED_KEYWORDS[8];
  }

  lemma SelfReads()
    ensures !HasUnknownKeyword(SELF.members) && !HasAssertionBesideRef(SELF.members)
    ensures Lookup(SELF.members, "$ref") == Some(Str("#"))
  {
    assert SELF.members[0].name == SUPPORTED_KEYWORDS[0];
  }

  lemma NestedSteps(env: Env, t: Json)
    requires env.root == NESTED
    ensures SameStep(env, SELF, t) ==> t == NESTED
    ensures !SameStep(env, NESTED, t)
    ensures PartStep(NESTED, t) ==> t == SELF
    ensures !PartStep(SELF, t)
  {
    hide ReadKeywords, Lookup;
    NestedReads();
    SelfReads();
  }

  lemma NestedIsSupported(env: Env)
    requires env.root == NESTED
    ensures Supported(env, NESTED) && Supported(env, SELF)
  {
    hide ReadKeywords, Lookup, HasUnknownKeyword, HasAssertionBesideRef;
    NestedReads();
    SelfReads();
    assert RefersTo(env, SELF, NESTED);
    assert WellFormed(Str("#"));
    assert WellFormed(SELF);
    assert WellFormed(NESTED);
    assert Supported(env, SELF);
  }

  /** A recursive document whose references come round only on parts of the instance is judged as it
      means, on every instance, however deep. */
  lemma RecursionThroughItemsIsDecided(env: Env, v: Json, depth: nat)
    requires env.root == NESTED && WellFormed(v) && depth > 2 * Height(v)
    ensures var rank := map[NESTED := 0, SELF := 1];
            Ready(env, rank, 2) && Decides(Run(env, v, NESTED, "", depth), Meets(env, false, rank, v, NESTED))
  {
    hide Supported, SameStep, PartStep, WellFormed, Run, Meets, Height;
    var rank := map[NESTED := 0, SELF := 1];
    NestedIsSupported(env);
    assert NESTED != SELF;
    forall t ensures SameStep(env, SELF, t) ==> t == NESTED
             ensures !SameStep(env, NESTED, t) && (PartStep(NESTED, t) ==> t == SELF) && !PartStep(SELF, t)
    {
      NestedSteps(env, t);
    }
    ReportIsMeaning(env, rank, 2, v, NESTED, "", depth);
  }

  const CONST_ONE: Json := Obj([Member("const", Int(1))])

  lemma ConstReads()
    ensures ReadKeywords(CONST_ONE.members) == Some(NoKeywords().(constValue := Some(Int(1))))
    ensures !HasUnknownKeyword(CONST_ONE.members) && Lookup(CONST_ONE.members, "$ref").None?
  {
    assert CONST_ONE.members[1..] == [];
    assert CONST_ONE.members[0].name == SUPPORTED_KEYWORDS[4];
  }

  function ConstOne(): Keywords {
    NoKeywords().(constValue := Some(Int(1)))
  }

  lemma OneMeetsPlainly(env: Env)
    ensures PlainlyMeets(env, true, Float("1.0"), ConstOne())
  {
    OneIsNotOnePointZero();
    hide FloatValue;
  }

  lemma OneMeets(env: Env, rank: map<Json, nat>)
    requires Guarded(env, rank) && CONST_ONE in rank
    ensures Meets(env, true, rank, Float("1.0"), CONST_ONE)
  {
    hide ReadKeywords, HasUnknownKeyword, Lookup, PlainlyMeets, Guarded, Meets;
    ConstReads();
    OneMeetsPlainly(env);
    MeetsByParts(env, true, rank, Float("1.0"), CONST_ONE, ConstOne());
  }

  lemma OneIsReported(env: Env)
    ensures RunKeywords(env, Float("1.0"), ConstOne(), "", 1) == Found([Issue("", NotTheConst)])
  {
    hide FloatValue, Canonical, RunAny, RunCount, Conforms;
    OneIsNotOnePointZero();
    assert RunCombinators(env, Float("1.0"), ConstOne(), "", 1) == Found([]);
    assert NumberIssues(NumberValue(Float("1.0")), ConstOne(), "") == [];
  }

  /** The float one is the constant one for the standard, and reported as different. */
  lemma FloatsAreComparedAsWritten(env: Env, rank: map<Json, nat>)
    requires Guarded(env, rank) && CONST_ONE in rank
    ensures Meets(env, true, rank, Float("1.0"), CONST_ONE)
    ensures Run(env, Float("1.0"), CONST_ONE, "", 2) == Found([Issue("", NotTheConst)])
  {
    hide ReadKeywords, HasUnknownKeyword, Lookup, RunKeywords, Guarded, Meets, NoKeywords;
    ConstReads();
    OneMeets(env, rank);
    OneIsReported(env);
  }

  const UNKNOWN: Json := Obj([Member("if", Bool(true))])

  lemma IfIsUnknown()
    ensures HasUnknownKeyword(UNKNOWN.members)
  {
    var name := "if";
    assert |name| == 2;
    assert forall i | 0 <= i < |SUPPORTED_KEYWORDS| :: |SUPPORTED_KEYWORDS[i]| > 2;
    assert forall i | 0 <= i < |ANNOTATION_KEYWORDS| :: |ANNOTATION_KEYWORDS[i]| > 2;
    assert UNKNOWN.members[0].name == name;
  }

  lemma UnknownIsRefused(env: Env, v: Json, path: string, depth: nat)
    requires depth > 0
    ensures Run(env, v, UNKNOWN, path, depth) == Stopped(Unsupported)
  {
    hide HasUnknownKeyword, Lookup, ReadKeywords, RunKeywords;
    IfIsUnknown();
  }

  /** `anyOf` stops at the first branch that holds: an unsupported keyword behind it is not refused,
      though the same keyword in front of it is. */
  lemma UnreachedBranchesAreNotRefused(env: Env, v: Json, depth: nat)
    requires depth > 0
    ensures RunAny(env, v, [Bool(true), UNKNOWN], depth) == Yes(true)
    ensures RunAny(env, v, [UNKNOWN, Bool(true)], depth) == Halted(Unsupported)
  {
    UnknownIsRefused(env, v, "", depth);
    assert Conforms(env, v, Bool(true), depth) == Yes(true);
  }
}
