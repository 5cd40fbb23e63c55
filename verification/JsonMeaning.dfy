/** The declarative meaning of a schema, and its relation to what the validator reports.

    A schema may lead to others on the same instance (by `$ref`, `allOf`, `anyOf`, `oneOf` and
    `not`) or on a part of it (by `properties`, `additionalProperties` and `items`). The meaning
    is given where the first kind of step cannot go round in a circle, which a ranking of the
    schemas shows. */
module JsonMeaning {
  import opened Options
  import opened JsonValues
  import opened JsonSchema

  /** The keywords of a schema object that is not a reference. */
  ghost predicate HasKeywords(s: Json, k: Keywords) {
    s.Obj? && Lookup(s.members, "$ref").None? && ReadKeywords(s.members) == Some(k)
  }

  ghost predicate RefersTo(env: Env, s: Json, t: Json) {
    && s.Obj? && Lookup(s.members, "$ref").Some? && Lookup(s.members, "$ref").value.Str?
    && Resolve(Lookup(s.members, "$ref").value.s, env.root) == Some(t)
  }

  ghost predicate Branch(k: Keywords, t: Json) {
    t in k.allOf || (k.anyOf.Some? && t in k.anyOf.value) || (k.oneOf.Some? && t in k.oneOf.value) || k.notSchema == Some(t)
  }

  ghost predicate Part(k: Keywords, t: Json) {
    (exists name :: Member(name, t) in k.properties) || k.additional == Some(t) || k.items == Some(t)
  }

  /** A step to a schema that judges the same instance. */
  ghost predicate SameStep(env: Env, s: Json, t: Json) {
    RefersTo(env, s, t) || exists k :: HasKeywords(s, k) && Branch(k, t)
  }

  /** A step to a schema that judges a part of the instance. */
  ghost predicate PartStep(s: Json, t: Json) {
    exists k :: HasKeywords(s, k) && Part(k, t)
  }

  /** `rank` covers the schemas that can be reached and falls along every step on one instance. */
  ghost predicate Guarded(env: Env, rank: map<Json, nat>) {
    && (forall s, t | s in rank && SameStep(env, s, t) :: t in rank && rank[t] < rank[s])
    && (forall s, t | s in rank && PartStep(s, t) :: t in rank)
  }

  const TYPE_NAMES: seq<string> := ["integer", "number", "boolean", "null", "object", "array", "string"]

  /** The subset the validator implements: a boolean, a reference on its own, or keywords it knows. */
  ghost predicate Supported(env: Env, s: Json) {
    WellFormed(s) &&
    match s
    case Bool(_) => true
    case Obj(ms) =>
      && !HasUnknownKeyword(ms)
      && (Lookup(ms, "$ref").Some? ==> !HasAssertionBesideRef(ms) && exists t :: RefersTo(env, s, t))
      && (Lookup(ms, "$ref").None? ==>
            && ReadKeywords(ms).Some?
            && var k := ReadKeywords(ms).value;
               && (k.typeNames.Some? ==> forall n | n in k.typeNames.value :: n in TYPE_NAMES)
               && (k.additional.Some? ==> k.additional.value.Bool? || k.additional.value.Obj?)
               && (k.items.Some? ==> !k.items.value.Arr?))
    case _ => false
  }

  ghost predicate AllSupported(env: Env, rank: map<Json, nat>) {
    forall s | s in rank :: Supported(env, s)
  }

  // ---------------------------------------------------------------- the meaning

  /** How two documents are compared: as the standard says, by value, or as they are written. */
  ghost predicate Same(standard: bool, a: Json, b: Json) {
    if standard then JsonEqual(a, b) else SameText(a, b)
  }

  /** A number with a zero fractional part is an integer for the standard, an integer literal for
      the validator. */
  ghost predicate IsInteger(standard: bool, v: Json) {
    if standard then IsNumber(v) && NumberValue(v) == NumberValue(v).Floor as real else v.Int?
  }

  ghost predicate HasType(standard: bool, v: Json, name: string) {
    match v
    case Null => name == "null"
    case Bool(_) => name == "boolean"
    case Str(_) => name == "string"
    case Arr(_) => name == "array"
    case Obj(_) => name == "object"
    case _ => name == "number" || (name == "integer" && IsInteger(standard, v))
  }

  ghost predicate Within(x: real, low: Option<real>, high: Option<real>) {
    (low.Some? ==> low.value <= x) && (high.Some? ==> x <= high.value)
  }

  ghost predicate HasName(members: seq<Member>, name: string) {
    exists m :: m in members && m.name == name
  }

  ghost predicate TypeHolds(standard: bool, v: Json, k: Keywords) {
    k.typeNames.Some? ==> exists n :: n in k.typeNames.value && HasType(standard, v, n)
  }

  ghost predicate ValuesHold(standard: bool, v: Json, k: Keywords) {
    && (k.enumValues.Some? ==> exists x :: x in k.enumValues.value && Same(standard, x, v))
    && (k.constValue.Some? ==> Same(standard, v, k.constValue.value))
  }

  ghost predicate NamesHold(members: seq<Member>, k: Keywords) {
    forall n | n in k.required :: HasName(members, n)
  }

  ghost predicate ItemsHold(standard: bool, items: seq<Json>, k: Keywords) {
    && Within(|items| as real, k.minItems, k.maxItems)
    && (k.unique ==> forall i, j | 0 <= i < j < |items| :: !Same(standard, items[i], items[j]))
  }

  ghost predicate StringHolds(env: Env, s: string, k: Keywords) {
    Within(|s| as real, k.minLength, k.maxLength) && (k.pattern.Some? ==> env.search(k.pattern.value, s))
  }

  ghost predicate NumberHolds(x: real, k: Keywords) {
    && Within(x, k.minimum, k.maximum)
    && (k.exclusiveMinimum.Some? ==> k.exclusiveMinimum.value < x)
    && (k.exclusiveMaximum.Some? ==> x < k.exclusiveMaximum.value)
  }

  /** The assertions of sections 6.1 to 6.5 that look at no subschema. */
  ghost predicate PlainlyMeets(env: Env, standard: bool, v: Json, k: Keywords) {
    && TypeHolds(standard, v, k)
    && ValuesHold(standard, v, k)
    && (v.Obj? ==> NamesHold(v.members, k))
    && (v.Arr? ==> ItemsHold(standard, v.items, k))
    && (v.Str? ==> StringHolds(env, v.s, k))
    && (IsNumber(v) ==> NumberHolds(NumberValue(v), k))
  }

  /** The schema that judges a member of an object, if any: its property's, else the additional one. */
  ghost function MemberSchema(k: Keywords, name: string): Option<Json> {
    match Lookup(k.properties, name)
    case Some(t) => Some(t)
    case None => k.additional
  }

  /** The schemas a keyword object leads to are covered by its ranking. */
  lemma StepsAreCovered(env: Env, rank: map<Json, nat>, s: Json, k: Keywords)
    requires Guarded(env, rank) && s in rank && HasKeywords(s, k)
    ensures forall t | t in k.allOf :: t in rank && rank[t] < rank[s]
    ensures k.anyOf.Some? ==> forall t | t in k.anyOf.value :: t in rank && rank[t] < rank[s]
    ensures k.oneOf.Some? ==> forall t | t in k.oneOf.value :: t in rank && rank[t] < rank[s]
    ensures k.notSchema.Some? ==> k.notSchema.value in rank && rank[k.notSchema.value] < rank[s]
    ensures forall name | MemberSchema(k, name).Some? :: MemberSchema(k, name).value in rank
    ensures k.items.Some? ==> k.items.value in rank
  {
    forall t | Branch(k, t) ensures t in rank && rank[t] < rank[s] {
      assert SameStep(env, s, t);
    }
    forall t | Part(k, t) ensures t in rank {
      assert PartStep(s, t);
    }
    forall name | MemberSchema(k, name).Some? ensures MemberSchema(k, name).value in rank {
      assert Part(k, MemberSchema(k, name).value);
    }
    assert k.notSchema.Some? ==> Branch(k, k.notSchema.value);
    assert k.items.Some? ==> Part(k, k.items.value);
  }

  lemma ReferenceIsCovered(env: Env, rank: map<Json, nat>, s: Json)
    requires Guarded(env, rank) && s in rank
    ensures forall t | RefersTo(env, s, t) :: t in rank && rank[t] < rank[s]
  {
    forall t | RefersTo(env, s, t) ensures t in rank && rank[t] < rank[s] {
      assert SameStep(env, s, t);
    }
  }

  /** Whether `v` satisfies `s`. */
  ghost predicate Meets(env: Env, standard: bool, rank: map<Json, nat>, v: Json, s: Json)
    requires Guarded(env, rank) && s in rank
    decreases v, rank[s]
  {
    match s
    case Bool(b) => b
    case Obj(ms) =>
      if Lookup(ms, "$ref").Some? then
        ReferenceIsCovered(env, rank, s);
        exists t :: RefersTo(env, s, t) && Meets(env, standard, rank, v, t)
      else if ReadKeywords(ms).None? then false
      else
        var k := ReadKeywords(ms).value;
        StepsAreCovered(env, rank, s, k);
        && PlainlyMeets(env, standard, v, k)
        && (forall t | t in k.allOf :: Meets(env, standard, rank, v, t))
        && (k.anyOf.Some? ==> exists t :: t in k.anyOf.value && Meets(env, standard, rank, v, t))
        && (k.oneOf.Some? ==> exists i | 0 <= i < |k.oneOf.value| ::
              Meets(env, standard, rank, v, k.oneOf.value[i])
              && forall j | 0 <= j < |k.oneOf.value| && j != i :: !Meets(env, standard, rank, v, k.oneOf.value[j]))
        && (k.notSchema.Some? ==> !Meets(env, standard, rank, v, k.notSchema.value))
        && (v.Obj? ==> forall m | m in v.members && MemberSchema(k, m.name).Some? ::
              Meets(env, standard, rank, m.value, MemberSchema(k, m.name).value))
        && (v.Arr? && k.items.Some? ==> forall x | x in v.items :: Meets(env, standard, rank, x, k.items.value))
    case _ => false
  }

  // ---------------------------------------------------------------- the meaning, part by part

  ghost predicate OnlyOne(env: Env, standard: bool, rank: map<Json, nat>, v: Json, branches: seq<Json>, i: nat)
    requires Guarded(env, rank) && (forall t | t in branches :: t in rank) && i < |branches|
  {
    && Meets(env, standard, rank, v, branches[i])
    && forall j | 0 <= j < |branches| && j != i :: !Meets(env, standard, rank, v, branches[j])
  }

  ghost predicate BranchesHold(env: Env, standard: bool, rank: map<Json, nat>, v: Json, s: Json, k: Keywords)
    requires Guarded(env, rank) && s in rank && HasKeywords(s, k)
  {
    StepsAreCovered(env, rank, s, k);
    && (forall t | t in k.allOf :: Meets(env, standard, rank, v, t))
    && (k.anyOf.Some? ==> exists t :: t in k.anyOf.value && Meets(env, standard, rank, v, t))
    && (k.oneOf.Some? ==> exists i: nat | i < |k.oneOf.value| :: OnlyOne(env, standard, rank, v, k.oneOf.value, i))
    && (k.notSchema.Some? ==> !Meets(env, standard, rank, v, k.notSchema.value))
  }

  ghost predicate MembersHold(env: Env, standard: bool, rank: map<Json, nat>, members: seq<Member>, s: Json, k: Keywords)
    requires Guarded(env, rank) && s in rank && HasKeywords(s, k)
  {
    StepsAreCovered(env, rank, s, k);
    forall m | m in members && MemberSchema(k, m.name).Some? ::
      Meets(env, standard, rank, m.value, MemberSchema(k, m.name).value)
  }

  ghost predicate ElementsHold(env: Env, standard: bool, rank: map<Json, nat>, items: seq<Json>, s: Json, k: Keywords)
    requires Guarded(env, rank) && s in rank && HasKeywords(s, k)
  {
    StepsAreCovered(env, rank, s, k);
    k.items.Some? ==> forall x | x in items :: Meets(env, standard, rank, x, k.items.value)
  }

  /** The one branch of `oneOf`, as the meaning spells it out. */
  ghost predicate OneOfHolds(env: Env, standard: bool, rank: map<Json, nat>, v: Json, branches: seq<Json>)
    requires Guarded(env, rank) && (forall t | t in branches :: t in rank)
  {
    exists i | 0 <= i < |branches| ::
      Meets(env, standard, rank, v, branches[i])
      && forall j | 0 <= j < |branches| && j != i :: !Meets(env, standard, rank, v, branches[j])
  }

  lemma OneOfIsOnlyOne(env: Env, standard: bool, rank: map<Json, nat>, v: Json, branches: seq<Json>)
    requires Guarded(env, rank) && (forall t | t in branches :: t in rank)
    ensures OneOfHolds(env, standard, rank, v, branches)
       <==> exists i: nat | i < |branches| :: OnlyOne(env, standard, rank, v, branches, i)
  {
    hide Meets, Guarded;
    if OneOfHolds(env, standard, rank, v, branches) {
      var i: nat :| i < |branches| && Meets(env, standard, rank, v, branches[i])
                 && forall j | 0 <= j < |branches| && j != i :: !Meets(env, standard, rank, v, branches[j]);
      assert OnlyOne(env, standard, rank, v, branches, i);
    }
  }

  lemma MeetingMeetsParts(env: Env, standard: bool, rank: map<Json, nat>, v: Json, s: Json, k: Keywords)
    requires Guarded(env, rank) && s in rank && HasKeywords(s, k) && Meets(env, standard, rank, v, s)
    ensures PlainlyMeets(env, standard, v, k)
    ensures BranchesHold(env, standard, rank, v, s, k)
    ensures v.Obj? ==> MembersHold(env, standard, rank, v.members, s, k)
    ensures v.Arr? ==> ElementsHold(env, standard, rank, v.items, s, k)
  {
    hide PlainlyMeets, ReadKeywords, Guarded, MemberSchema, OnlyOne, Resolve;
    StepsAreCovered(env, rank, s, k);
    if k.oneOf.Some? {
      OneOfIsOnlyOne(env, standard, rank, v, k.oneOf.value);
    }
  }

  lemma PartsMeet(env: Env, standard: bool, rank: map<Json, nat>, v: Json, s: Json, k: Keywords)
    requires Guarded(env, rank) && s in rank && HasKeywords(s, k)
    requires PlainlyMeets(env, standard, v, k)
    requires BranchesHold(env, standard, rank, v, s, k)
    requires v.Obj? ==> MembersHold(env, standard, rank, v.members, s, k)
    requires v.Arr? ==> ElementsHold(env, standard, rank, v.items, s, k)
    ensures Meets(env, standard, rank, v, s)
  {
    hide PlainlyMeets, ReadKeywords, Guarded, MemberSchema, OnlyOne, Resolve;
    StepsAreCovered(env, rank, s, k);
    if k.oneOf.Some? {
      OneOfIsOnlyOne(env, standard, rank, v, k.oneOf.value);
    }
  }

  /** An instance meets a keyword object when it meets each group of its keywords. */
  lemma MeetsByParts(env: Env, standard: bool, rank: map<Json, nat>, v: Json, s: Json, k: Keywords)
    requires Guarded(env, rank) && s in rank && HasKeywords(s, k)
    ensures Meets(env, standard, rank, v, s) <==>
      && PlainlyMeets(env, standard, v, k)
      && BranchesHold(env, standard, rank, v, s, k)
      && (v.Obj? ==> MembersHold(env, standard, rank, v.members, s, k))
      && (v.Arr? ==> ElementsHold(env, standard, rank, v.items, s, k))
  {
    hide *;
    if Meets(env, standard, rank, v, s) {
      MeetingMeetsParts(env, standard, rank, v, s, k);
    } else if && PlainlyMeets(env, standard, v, k)
              && BranchesHold(env, standard, rank, v, s, k)
              && (v.Obj? ==> MembersHold(env, standard, rank, v.members, s, k))
              && (v.Arr? ==> ElementsHold(env, standard, rank, v.items, s, k)) {
      PartsMeet(env, standard, rank, v, s, k);
    }
  }

  lemma MeetsByReference(env: Env, standard: bool, rank: map<Json, nat>, v: Json, s: Json, t: Json)
    requires Guarded(env, rank) && s in rank && RefersTo(env, s, t)
    ensures t in rank && rank[t] < rank[s]
    ensures Meets(env, standard, rank, v, s) <==> Meets(env, standard, rank, v, t)
  {
    hide PlainlyMeets, ReadKeywords, Guarded, MemberSchema, Resolve;
    ReferenceIsCovered(env, rank, s);
  }

  function NoKeywords(): Keywords {
    Keywords(None, None, None, [], None, None, None, [], [], None, None, None, None, false,
             None, None, None, None, None, None, None)
  }

  lemma NothingReads()
    ensures ReadKeywords([]) == Some(NoKeywords())
  {
  }

  /** The empty schema is met by everything. */
  lemma EmptySchemaHolds(env: Env, standard: bool, rank: map<Json, nat>, v: Json)
    requires Guarded(env, rank) && Obj([]) in rank
    ensures Meets(env, standard, rank, v, Obj([]))
  {
    NothingReads();
    var s, k := Obj([]), NoKeywords();
    assert HasKeywords(s, k) by { hide ReadKeywords; }
    MeetsByParts(env, standard, rank, v, s, k);
    hide ReadKeywords;
  }
}
