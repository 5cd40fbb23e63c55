/** What each keyword demands, told from the members of the schema as they are written. */
module JsonLaws {
  import opened Options
  import opened JsonValues
  import opened JsonSchema
  import opened JsonMeaning
  import opened JsonCorrectness

  /** The instance meets a schema that the ranking covers. */
  ghost predicate Satisfies(env: Env, standard: bool, rank: map<Json, nat>, v: Json, t: Json)
    requires Guarded(env, rank)
  {
    t in rank && Meets(env, standard, rank, v, t)
  }

  // ---------------------------------------------------------------- the shape of a value

  ghost predicate TextList(x: Json) {
    x.Arr? && forall n | n in x.items :: n.Str?
  }

  ghost predicate Limit(x: Json) {
    x.Null? || IsNumber(x)
  }

  /** Each keyword's value has the shape the keyword reads; null reads as absent where the code asks for
      the value with `get`. */
  ghost predicate WellShaped(ms: seq<Member>) {
    && (forall x | Member("type", x) in ms :: x.Null? || x.Str? || TextList(x))
    && (forall x | Member("required", x) in ms :: TextList(x))
    && (forall x | Member("enum", x) in ms :: x.Arr?)
    && (forall x | Member("allOf", x) in ms :: x.Arr?)
    && (forall x | Member("anyOf", x) in ms :: x.Arr?)
    && (forall x | Member("oneOf", x) in ms :: x.Arr?)
    && (forall x | Member("properties", x) in ms :: x.Obj?)
    && (forall x | Member("uniqueItems", x) in ms :: x.Null? || x.Bool?)
    && (forall x | Member("pattern", x) in ms :: x.Null? || x.Str?)
    && LimitsShaped(ms)
  }

  ghost predicate LimitsShaped(ms: seq<Member>) {
    && (forall x | Member("minItems", x) in ms :: Limit(x))
    && (forall x | Member("maxItems", x) in ms :: Limit(x))
    && (forall x | Member("minLength", x) in ms :: Limit(x))
    && (forall x | Member("maxLength", x) in ms :: Limit(x))
    && (forall x | Member("minimum", x) in ms :: Limit(x))
    && (forall x | Member("maximum", x) in ms :: Limit(x))
    && (forall x | Member("exclusiveMinimum", x) in ms :: Limit(x))
    && (forall x | Member("exclusiveMaximum", x) in ms :: Limit(x))
  }

  // ---------------------------------------------------------------- the law of each keyword

  ghost predicate TypeAllows(standard: bool, x: Json, v: Json) {
    match x
    case Str(name) => HasType(standard, v, name)
    case Arr(names) => exists n :: n in names && n.Str? && HasType(standard, v, n.s)
    case _ => true
  }

  ghost predicate ObeysValues(standard: bool, ms: seq<Member>, v: Json) {
    && (forall x | Member("type", x) in ms :: TypeAllows(standard, x, v))
    && (forall x | Member("enum", x) in ms && x.Arr? :: exists y :: y in x.items && Same(standard, y, v))
    && (forall x | Member("const", x) in ms :: Same(standard, v, x))
  }

  ghost predicate OneHolds(env: Env, standard: bool, rank: map<Json, nat>, branches: seq<Json>, v: Json)
    requires Guarded(env, rank)
  {
    exists i: nat | i < |branches| ::
      Satisfies(env, standard, rank, v, branches[i])
      && forall j: nat | j < |branches| && j != i :: !Satisfies(env, standard, rank, v, branches[j])
  }

  ghost predicate SomeHolds(env: Env, standard: bool, rank: map<Json, nat>, branches: seq<Json>, v: Json)
    requires Guarded(env, rank)
  {
    exists t :: t in branches && Satisfies(env, standard, rank, v, t)
  }

  ghost predicate ObeysAllOf(env: Env, standard: bool, rank: map<Json, nat>, ms: seq<Member>, v: Json)
    requires Guarded(env, rank)
  {
    forall x, t | Member("allOf", x) in ms && x.Arr? && t in x.items :: Satisfies(env, standard, rank, v, t)
  }

  ghost predicate ObeysAnyOf(env: Env, standard: bool, rank: map<Json, nat>, ms: seq<Member>, v: Json)
    requires Guarded(env, rank)
  {
    forall x | Member("anyOf", x) in ms && x.Arr? :: SomeHolds(env, standard, rank, x.items, v)
  }

  ghost predicate ObeysOneOf(env: Env, standard: bool, rank: map<Json, nat>, ms: seq<Member>, v: Json)
    requires Guarded(env, rank)
  {
    forall x | Member("oneOf", x) in ms && x.Arr? :: OneHolds(env, standard, rank, x.items, v)
  }

  ghost predicate ObeysNot(env: Env, standard: bool, rank: map<Json, nat>, ms: seq<Member>, v: Json)
    requires Guarded(env, rank)
  {
    forall x | Member("not", x) in ms :: !Satisfies(env, standard, rank, v, x)
  }

  ghost predicate ObeysBranches(env: Env, standard: bool, rank: map<Json, nat>, ms: seq<Member>, v: Json)
    requires Guarded(env, rank)
  {
    && ObeysAllOf(env, standard, rank, ms, v)
    && ObeysAnyOf(env, standard, rank, ms, v)
    && ObeysOneOf(env, standard, rank, ms, v)
    && ObeysNot(env, standard, rank, ms, v)
  }

  /** `properties` has a schema for this member. */
  ghost predicate Declared(ms: seq<Member>, name: string) {
    exists x, q :: Member("properties", x) in ms && x.Obj? && q in x.members && q.name == name
  }

  ghost predicate ObeysMembers(env: Env, standard: bool, rank: map<Json, nat>, ms: seq<Member>, members: seq<Member>)
    requires Guarded(env, rank)
  {
    && (forall x, q, m | Member("properties", x) in ms && x.Obj? && q in x.members && m in members && q.name == m.name ::
          Satisfies(env, standard, rank, m.value, q.value))
    && (forall x, m | Member("additionalProperties", x) in ms && x != Null && m in members && !Declared(ms, m.name) ::
          Satisfies(env, standard, rank, m.value, x))
  }

  ghost predicate ObeysRequired(ms: seq<Member>, members: seq<Member>) {
    forall x, n | Member("required", x) in ms && x.Arr? && n in x.items && n.Str? :: HasName(members, n.s)
  }

  ghost predicate ObeysElements(env: Env, standard: bool, rank: map<Json, nat>, ms: seq<Member>, items: seq<Json>)
    requires Guarded(env, rank)
  {
    forall x, y | Member("items", x) in ms && x != Null && y in items :: Satisfies(env, standard, rank, y, x)
  }

  ghost predicate ObeysCounts(standard: bool, ms: seq<Member>, items: seq<Json>) {
    && (forall x | Member("minItems", x) in ms && IsNumber(x) :: NumberValue(x) <= |items| as real)
    && (forall x | Member("maxItems", x) in ms && IsNumber(x) :: |items| as real <= NumberValue(x))
    && (Member("uniqueItems", Bool(true)) in ms ==>
          forall i, j | 0 <= i < j < |items| :: !Same(standard, items[i], items[j]))
  }

  ghost predicate ObeysText(env: Env, ms: seq<Member>, s: string) {
    && (forall x | Member("minLength", x) in ms && IsNumber(x) :: NumberValue(x) <= |s| as real)
    && (forall x | Member("maxLength", x) in ms && IsNumber(x) :: |s| as real <= NumberValue(x))
    && (forall x | Member("pattern", x) in ms && x.Str? :: env.search(x.s, s))
  }

  ghost predicate ObeysBounds(ms: seq<Member>, n: real) {
    && (forall x | Member("minimum", x) in ms && IsNumber(x) :: NumberValue(x) <= n)
    && (forall x | Member("maximum", x) in ms && IsNumber(x) :: n <= NumberValue(x))
    && (forall x | Member("exclusiveMinimum", x) in ms && IsNumber(x) :: NumberValue(x) < n)
    && (forall x | Member("exclusiveMaximum", x) in ms && IsNumber(x) :: n < NumberValue(x))
  }

  /** The instance obeys every keyword among the members. */
  ghost predicate Obeys(env: Env, standard: bool, rank: map<Json, nat>, ms: seq<Member>, v: Json)
    requires Guarded(env, rank)
  {
    && ObeysValues(standard, ms, v)
    && ObeysBranches(env, standard, rank, ms, v)
    && (v.Obj? ==> ObeysRequired(ms, v.members) && ObeysMembers(env, standard, rank, ms, v.members))
    && (v.Arr? ==> ObeysElements(env, standard, rank, ms, v.items) && ObeysCounts(standard, ms, v.items))
    && (v.Str? ==> ObeysText(env, ms, v.s))
    && (IsNumber(v) ==> ObeysBounds(ms, NumberValue(v)))
  }

  // ---------------------------------------------------------------- looking up and reading

  lemma {:induction false} LookupFinds(ms: seq<Member>, name: string, x: Json)
    requires DistinctNames(ms)
    ensures Lookup(ms, name) == Some(x) <==> Member(name, x) in ms
  {
    if ms != [] {
      LookupFinds(ms[1..], name, x);
      assert ms == [ms[0]] + ms[1..];
      assert forall i | 0 <= i < |ms[1..]| :: ms[1..][i] == ms[1 + i] && ms[1..][i].name != ms[0].name;
    }
  }

  lemma {:induction false} StringsRead(items: seq<Json>)
    ensures Strings(items).Some? <==> forall n | n in items :: n.Str?
    ensures Strings(items).Some? ==> forall s :: s in Strings(items).value <==> Str(s) in items
  {
    if items != [] {
      StringsRead(items[1..]);
      assert items == [items[0]] + items[1..];
    }
  }

  /** What the reader looks at, name by name. */
  lemma FieldsAreRead(ms: seq<Member>, k: Keywords)
    requires ReadKeywords(ms) == Some(k)
    ensures k.typeNames == Opt(AsNames(Get(ms, "type"))) && k.required == Or(AsStrings(Lookup(ms, "required")), [])
    ensures k.enumValues == Opt(AsArray(Lookup(ms, "enum"))) && k.constValue == Lookup(ms, "const")
    ensures k.allOf == Or(AsArray(Lookup(ms, "allOf")), []) && k.anyOf == Opt(AsArray(Lookup(ms, "anyOf")))
    ensures k.oneOf == Opt(AsArray(Lookup(ms, "oneOf"))) && k.notSchema == Lookup(ms, "not")
    ensures k.properties == Or(AsObject(Lookup(ms, "properties")), []) && k.additional == Get(ms, "additionalProperties")
    ensures k.items == Get(ms, "items") && k.unique == Or(AsFlag(Get(ms, "uniqueItems")), false)
    ensures k.pattern == Opt(AsString(Get(ms, "pattern")))
  {
    hide Lookup, Get, AsNames, AsStrings, AsArray, AsObject, AsNumber, AsString, AsFlag;
  }

  lemma LimitsOf(ms: seq<Member>, k: Keywords)
    requires ReadKeywords(ms) == Some(k)
    ensures k.minItems == Opt(AsNumber(Get(ms, "minItems"))) && k.maxItems == Opt(AsNumber(Get(ms, "maxItems")))
    ensures k.minLength == Opt(AsNumber(Get(ms, "minLength"))) && k.maxLength == Opt(AsNumber(Get(ms, "maxLength")))
    ensures k.minimum == Opt(AsNumber(Get(ms, "minimum"))) && k.maximum == Opt(AsNumber(Get(ms, "maximum")))
    ensures k.exclusiveMinimum == Opt(AsNumber(Get(ms, "exclusiveMinimum")))
    ensures k.exclusiveMaximum == Opt(AsNumber(Get(ms, "exclusiveMaximum")))
  {
    hide Lookup, Get, AsNames, AsStrings, AsArray, AsObject, AsNumber, AsString, AsFlag;
  }

  lemma ReadingFails(ms: seq<Member>)
    ensures ReadKeywords(ms).None? <==>
      || AsNames(Get(ms, "type")).Bad? || AsStrings(Lookup(ms, "required")).Bad? || AsArray(Lookup(ms, "enum")).Bad?
      || AsArray(Lookup(ms, "allOf")).Bad? || AsArray(Lookup(ms, "anyOf")).Bad? || AsArray(Lookup(ms, "oneOf")).Bad?
      || AsObject(Lookup(ms, "properties")).Bad? || AsFlag(Get(ms, "uniqueItems")).Bad? || AsString(Get(ms, "pattern")).Bad?
      || AsNumber(Get(ms, "minItems")).Bad? || AsNumber(Get(ms, "maxItems")).Bad?
      || AsNumber(Get(ms, "minLength")).Bad? || AsNumber(Get(ms, "maxLength")).Bad?
      || AsNumber(Get(ms, "minimum")).Bad? || AsNumber(Get(ms, "maximum")).Bad?
      || AsNumber(Get(ms, "exclusiveMinimum")).Bad? || AsNumber(Get(ms, "exclusiveMaximum")).Bad?
  {
    hide Lookup, Get, AsNames, AsStrings, AsArray, AsObject, AsNumber, AsString, AsFlag;
  }

  // ---------------------------------------------------------------- one keyword at a time

  /** A limit is read as its number. */
  lemma LimitRead(ms: seq<Member>, name: string)
    requires DistinctNames(ms)
    ensures AsNumber(Get(ms, name)).Bad? <==> !forall x | Member(name, x) in ms :: Limit(x)
    ensures forall x | Member(name, x) in ms && IsNumber(x) :: Opt(AsNumber(Get(ms, name))) == Some(NumberValue(x))
    ensures Opt(AsNumber(Get(ms, name))).Some? ==>
      exists x :: Member(name, x) in ms && IsNumber(x) && Opt(AsNumber(Get(ms, name))) == Some(NumberValue(x))
  {
    hide Lookup, NumberValue, DistinctNames;
    forall x ensures Lookup(ms, name) == Some(x) <==> Member(name, x) in ms {
      LookupFinds(ms, name, x);
    }
  }

  /** An array is read as its items. */
  lemma ArrayRead(ms: seq<Member>, name: string)
    requires DistinctNames(ms)
    ensures AsArray(Lookup(ms, name)).Bad? <==> !forall x | Member(name, x) in ms :: x.Arr?
    ensures forall x | Member(name, x) in ms && x.Arr? :: AsArray(Lookup(ms, name)) == Good(x.items)
    ensures AsArray(Lookup(ms, name)).Good? ==> Member(name, Arr(AsArray(Lookup(ms, name)).value)) in ms
  {
    hide Lookup, DistinctNames;
    forall x ensures Lookup(ms, name) == Some(x) <==> Member(name, x) in ms {
      LookupFinds(ms, name, x);
    }
  }

  lemma TypeRead(standard: bool, ms: seq<Member>, v: Json)
    requires DistinctNames(ms)
    ensures AsNames(Get(ms, "type")).Bad? <==> !forall x | Member("type", x) in ms :: x.Null? || x.Str? || TextList(x)
    ensures !AsNames(Get(ms, "type")).Bad? ==>
      ((Opt(AsNames(Get(ms, "type"))).Some? ==> exists n :: n in Opt(AsNames(Get(ms, "type"))).value && HasType(standard, v, n))
       <==> forall x | Member("type", x) in ms :: TypeAllows(standard, x, v))
  {
    hide Lookup, DistinctNames, HasType, Strings;
    forall x ensures Lookup(ms, "type") == Some(x) <==> Member("type", x) in ms {
      LookupFinds(ms, "type", x);
    }
    match Lookup(ms, "type") {
      case Some(Arr(items)) =>
        StringsRead(items);
        if n :| n in items && n.Str? && HasType(standard, v, n.s) {
          assert n == Str(n.s);
        }
      case _ =>
    }
  }

  lemma RequiredRead(ms: seq<Member>, members: seq<Member>)
    requires DistinctNames(ms)
    ensures AsStrings(Lookup(ms, "required")).Bad? <==> !forall x | Member("required", x) in ms :: TextList(x)
    ensures !AsStrings(Lookup(ms, "required")).Bad? ==>
      ((forall n | n in Or(AsStrings(Lookup(ms, "required")), []) :: HasName(members, n)) <==> ObeysRequired(ms, members))
  {
    hide Lookup, DistinctNames, HasName, Strings;
    forall x ensures Lookup(ms, "required") == Some(x) <==> Member("required", x) in ms {
      LookupFinds(ms, "required", x);
    }
    match Lookup(ms, "required") {
      case Some(Arr(items)) =>
        StringsRead(items);
        assert forall n | n in items && n.Str? :: n == Str(n.s);
      case _ =>
    }
  }

  lemma FlagRead(ms: seq<Member>)
    requires DistinctNames(ms)
    ensures AsFlag(Get(ms, "uniqueItems")).Bad? <==> !forall x | Member("uniqueItems", x) in ms :: x.Null? || x.Bool?
    ensures Or(AsFlag(Get(ms, "uniqueItems")), false) <==> Member("uniqueItems", Bool(true)) in ms
  {
    hide Lookup, DistinctNames;
    forall x ensures Lookup(ms, "uniqueItems") == Some(x) <==> Member("uniqueItems", x) in ms {
      LookupFinds(ms, "uniqueItems", x);
    }
  }

  lemma PatternRead(ms: seq<Member>)
    requires DistinctNames(ms)
    ensures AsString(Get(ms, "pattern")).Bad? <==> !forall x | Member("pattern", x) in ms :: x.Null? || x.Str?
    ensures forall p :: Opt(AsString(Get(ms, "pattern"))) == Some(p) <==> Member("pattern", Str(p)) in ms
  {
    hide Lookup, DistinctNames;
    forall x ensures Lookup(ms, "pattern") == Some(x) <==> Member("pattern", x) in ms {
      LookupFinds(ms, "pattern", x);
    }
  }

  lemma PropertiesRead(ms: seq<Member>)
    requires DistinctNames(ms)
    ensures AsObject(Lookup(ms, "properties")).Bad? <==> !forall x | Member("properties", x) in ms :: x.Obj?
    ensures forall x | Member("properties", x) in ms && x.Obj? :: Or(AsObject(Lookup(ms, "properties")), []) == x.members
    ensures forall q | q in Or(AsObject(Lookup(ms, "properties")), []) ::
      Member("properties", Obj(Or(AsObject(Lookup(ms, "properties")), []))) in ms
  {
    hide Lookup, DistinctNames;
    forall x ensures Lookup(ms, "properties") == Some(x) <==> Member("properties", x) in ms {
      LookupFinds(ms, "properties", x);
    }
  }

  lemma GotUnlessNull(ms: seq<Member>, name: string, x: Json)
    requires DistinctNames(ms)
    ensures Get(ms, name) == Some(x) <==> Member(name, x) in ms && x != Null
  {
    LookupFinds(ms, name, x);
    LookupFinds(ms, name, Null);
  }

  // ---------------------------------------------------------------- one group at a time

  lemma ReadExactly(ms: seq<Member>)
    requires DistinctNames(ms)
    ensures ReadKeywords(ms).Some? <==> WellShaped(ms)
  {
    hide ReadKeywords, Get, Lookup, AsNames, AsStrings, AsArray, AsObject, AsNumber, AsString, AsFlag, DistinctNames, Limit, TextList;
    ReadingFails(ms);
    TypeRead(true, ms, Null);
    RequiredRead(ms, []);
    FlagRead(ms);
    PatternRead(ms);
    PropertiesRead(ms);
    ArrayRead(ms, "enum");
    ArrayRead(ms, "allOf");
    ArrayRead(ms, "anyOf");
    ArrayRead(ms, "oneOf");
    LimitsAreRead(ms);
  }

  lemma LimitsAreRead(ms: seq<Member>)
    requires DistinctNames(ms)
    ensures !LimitsShaped(ms) <==>
      || AsNumber(Get(ms, "minItems")).Bad? || AsNumber(Get(ms, "maxItems")).Bad?
      || AsNumber(Get(ms, "minLength")).Bad? || AsNumber(Get(ms, "maxLength")).Bad?
      || AsNumber(Get(ms, "minimum")).Bad? || AsNumber(Get(ms, "maximum")).Bad?
      || AsNumber(Get(ms, "exclusiveMinimum")).Bad? || AsNumber(Get(ms, "exclusiveMaximum")).Bad?
  {
    hide Get, AsNumber, DistinctNames, Limit;
    LimitRead(ms, "minItems");
    LimitRead(ms, "maxItems");
    LimitRead(ms, "minLength");
    LimitRead(ms, "maxLength");
    LimitRead(ms, "minimum");
    LimitRead(ms, "maximum");
    LimitRead(ms, "exclusiveMinimum");
    LimitRead(ms, "exclusiveMaximum");
  }

  /** The members, and the keywords read from them. */
  ghost predicate Reads(ms: seq<Member>, k: Keywords) {
    DistinctNames(ms) && ReadKeywords(ms) == Some(k)
  }

  lemma ValuesAgree(standard: bool, ms: seq<Member>, k: Keywords, v: Json)
    requires Reads(ms, k)
    ensures TypeHolds(standard, v, k) && ValuesHold(standard, v, k) <==> ObeysValues(standard, ms, v)
  {
    ReadingFails(ms);
    FieldsAreRead(ms, k);
    hide ReadKeywords, Get, Lookup, AsNames, AsArray, DistinctNames, Same, HasType, TypeAllows;
    TypeRead(standard, ms, v);
    ArrayRead(ms, "enum");
    forall x ensures Lookup(ms, "const") == Some(x) <==> Member("const", x) in ms {
      LookupFinds(ms, "const", x);
    }
  }

  lemma CountsAgree(standard: bool, ms: seq<Member>, k: Keywords, items: seq<Json>)
    requires Reads(ms, k)
    ensures ItemsHold(standard, items, k) <==> ObeysCounts(standard, ms, items)
  {
    FieldsAreRead(ms, k);
    LimitsOf(ms, k);
    hide ReadKeywords, Get, Lookup, AsNumber, AsFlag, DistinctNames, Same, NumberValue;
    LimitRead(ms, "minItems");
    LimitRead(ms, "maxItems");
    FlagRead(ms);
  }

  lemma TextAgrees(env: Env, ms: seq<Member>, k: Keywords, s: string)
    requires Reads(ms, k)
    ensures StringHolds(env, s, k) <==> ObeysText(env, ms, s)
  {
    FieldsAreRead(ms, k);
    LimitsOf(ms, k);
    hide ReadKeywords, Get, Lookup, AsNumber, AsString, DistinctNames, NumberValue;
    LimitRead(ms, "minLength");
    LimitRead(ms, "maxLength");
    PatternRead(ms);
    assert forall x: Json | x.Str? :: x == Str(x.s);
  }

  lemma BoundsAgree(ms: seq<Member>, k: Keywords, n: real)
    requires Reads(ms, k)
    ensures NumberHolds(n, k) <==> ObeysBounds(ms, n)
  {
    LimitsOf(ms, k);
    hide ReadKeywords, Get, Lookup, AsNumber, DistinctNames, NumberValue;
    LimitRead(ms, "minimum");
    LimitRead(ms, "maximum");
    LimitRead(ms, "exclusiveMinimum");
    LimitRead(ms, "exclusiveMaximum");
  }

  lemma RequiredAgrees(ms: seq<Member>, k: Keywords, members: seq<Member>)
    requires Reads(ms, k)
    ensures NamesHold(members, k) <==> ObeysRequired(ms, members)
  {
    ReadingFails(ms);
    FieldsAreRead(ms, k);
    hide ReadKeywords, Get, Lookup, AsStrings, DistinctNames, HasName, ObeysRequired;
    RequiredRead(ms, members);
  }

  lemma PlainlyAgree(env: Env, standard: bool, ms: seq<Member>, k: Keywords, v: Json)
    requires Reads(ms, k)
    ensures PlainlyMeets(env, standard, v, k) <==>
      && ObeysValues(standard, ms, v)
      && (v.Obj? ==> ObeysRequired(ms, v.members))
      && (v.Arr? ==> ObeysCounts(standard, ms, v.items))
      && (v.Str? ==> ObeysText(env, ms, v.s))
      && (IsNumber(v) ==> ObeysBounds(ms, NumberValue(v)))
  {
    hide Reads, TypeHolds, ValuesHold, NamesHold, ItemsHold, StringHolds, NumberHolds, NumberValue;
    hide ObeysValues, ObeysRequired, ObeysCounts, ObeysText, ObeysBounds;
    ValuesAgree(standard, ms, k, v);
    if v.Obj? {
      RequiredAgrees(ms, k, v.members);
    }
    if v.Arr? {
      CountsAgree(standard, ms, k, v.items);
    }
    if v.Str? {
      TextAgrees(env, ms, k, v.s);
    }
    if IsNumber(v) {
      BoundsAgree(ms, k, NumberValue(v));
    }
  }

  lemma BranchesAreRead(ms: seq<Member>, k: Keywords)
    requires Reads(ms, k)
    ensures forall t :: t in k.allOf <==> exists x :: Member("allOf", x) in ms && x.Arr? && t in x.items
    ensures forall x | Member("anyOf", x) in ms && x.Arr? :: k.anyOf == Some(x.items)
    ensures k.anyOf.Some? ==> Member("anyOf", Arr(k.anyOf.value)) in ms
    ensures forall x | Member("oneOf", x) in ms && x.Arr? :: k.oneOf == Some(x.items)
    ensures k.oneOf.Some? ==> Member("oneOf", Arr(k.oneOf.value)) in ms
    ensures forall x | Member("not", x) in ms :: k.notSchema == Some(x)
    ensures k.notSchema.Some? ==> Member("not", k.notSchema.value) in ms
  {
    ReadingFails(ms);
    FieldsAreRead(ms, k);
    hide ReadKeywords, Get, AsArray, DistinctNames;
    ArrayRead(ms, "allOf");
    ArrayRead(ms, "anyOf");
    ArrayRead(ms, "oneOf");
    forall t ensures Lookup(ms, "not") == Some(t) <==> Member("not", t) in ms {
      LookupFinds(ms, "not", t);
    }
  }

  lemma BranchesAgree(env: Env, standard: bool, rank: map<Json, nat>, ms: seq<Member>, k: Keywords, v: Json)
    requires Guarded(env, rank) && Obj(ms) in rank && HasKeywords(Obj(ms), k) && Reads(ms, k)
    ensures BranchesHold(env, standard, rank, v, Obj(ms), k) <==> ObeysBranches(env, standard, rank, ms, v)
  {
    hide Reads, Meets, Guarded, OnlyOne, HasKeywords, ObeysAllOf, ObeysAnyOf, ObeysOneOf, ObeysNot;
    StepsAreCovered(env, rank, Obj(ms), k);
    AllAgree(env, standard, rank, ms, k, v);
    AnyAgrees(env, standard, rank, ms, k, v);
    OneOfAgrees(env, standard, rank, ms, k, v);
    NotOfAgrees(env, standard, rank, ms, k, v);
  }

  lemma AnyAgrees(env: Env, standard: bool, rank: map<Json, nat>, ms: seq<Member>, k: Keywords, v: Json)
    requires Guarded(env, rank) && Reads(ms, k) && (k.anyOf.Some? ==> forall t | t in k.anyOf.value :: t in rank)
    ensures (k.anyOf.Some? ==> exists t :: t in k.anyOf.value && Meets(env, standard, rank, v, t))
       <==> ObeysAnyOf(env, standard, rank, ms, v)
  {
    hide Reads, Meets, Guarded, SomeHolds;
    BranchesAreRead(ms, k);
    if k.anyOf.Some? {
      SomeAgrees(env, standard, rank, k.anyOf.value, v);
    }
  }

  lemma OneOfAgrees(env: Env, standard: bool, rank: map<Json, nat>, ms: seq<Member>, k: Keywords, v: Json)
    requires Guarded(env, rank) && Reads(ms, k) && (k.oneOf.Some? ==> forall t | t in k.oneOf.value :: t in rank)
    ensures (k.oneOf.Some? ==> exists i: nat | i < |k.oneOf.value| :: OnlyOne(env, standard, rank, v, k.oneOf.value, i))
       <==> ObeysOneOf(env, standard, rank, ms, v)
  {
    hide Reads, Meets, Guarded, OneHolds, OnlyOne;
    BranchesAreRead(ms, k);
    if k.oneOf.Some? {
      OneAgrees(env, standard, rank, k.oneOf.value, v);
    }
  }

  lemma NotOfAgrees(env: Env, standard: bool, rank: map<Json, nat>, ms: seq<Member>, k: Keywords, v: Json)
    requires Guarded(env, rank) && Reads(ms, k) && (k.notSchema.Some? ==> k.notSchema.value in rank)
    ensures (k.notSchema.Some? ==> !Meets(env, standard, rank, v, k.notSchema.value)) <==> ObeysNot(env, standard, rank, ms, v)
  {
    hide Reads, Meets, Guarded;
    BranchesAreRead(ms, k);
  }

  lemma AllAgree(env: Env, standard: bool, rank: map<Json, nat>, ms: seq<Member>, k: Keywords, v: Json)
    requires Guarded(env, rank) && Reads(ms, k) && forall t | t in k.allOf :: t in rank
    ensures (forall t | t in k.allOf :: Meets(env, standard, rank, v, t)) <==> ObeysAllOf(env, standard, rank, ms, v)
  {
    hide Meets, Guarded, Reads;
    BranchesAreRead(ms, k);
    if forall t | t in k.allOf :: Meets(env, standard, rank, v, t) {
      forall x, t | Member("allOf", x) in ms && x.Arr? && t in x.items ensures Satisfies(env, standard, rank, v, t) {
        assert t in k.allOf;
      }
    }
    if ObeysAllOf(env, standard, rank, ms, v) {
      forall t | t in k.allOf ensures Meets(env, standard, rank, v, t) {
        var x :| Member("allOf", x) in ms && x.Arr? && t in x.items;
        assert Satisfies(env, standard, rank, v, t);
      }
    }
  }

  lemma SomeAgrees(env: Env, standard: bool, rank: map<Json, nat>, branches: seq<Json>, v: Json)
    requires Guarded(env, rank) && forall t | t in branches :: t in rank
    ensures (exists t :: t in branches && Meets(env, standard, rank, v, t)) <==> SomeHolds(env, standard, rank, branches, v)
  {
    hide Meets, Guarded;
    if t :| t in branches && Meets(env, standard, rank, v, t) {
      assert Satisfies(env, standard, rank, v, t);
    }
  }

  lemma OneAgrees(env: Env, standard: bool, rank: map<Json, nat>, branches: seq<Json>, v: Json)
    requires Guarded(env, rank) && forall t | t in branches :: t in rank
    ensures (exists i: nat | i < |branches| :: OnlyOne(env, standard, rank, v, branches, i))
       <==> OneHolds(env, standard, rank, branches, v)
  {
    hide Meets, Guarded;
    if i: nat :| i < |branches| && OnlyOne(env, standard, rank, v, branches, i) {
      assert Satisfies(env, standard, rank, v, branches[i]);
    }
    if OneHolds(env, standard, rank, branches, v) {
      var i: nat :| i < |branches| && Satisfies(env, standard, rank, v, branches[i])
        && forall j: nat | j < |branches| && j != i :: !Satisfies(env, standard, rank, v, branches[j]);
      forall j | 0 <= j < |branches| && j != i ensures !Meets(env, standard, rank, v, branches[j]) {
        assert !Satisfies(env, standard, rank, v, branches[j]);
      }
      assert OnlyOne(env, standard, rank, v, branches, i);
    }
  }

  lemma ItemsAreRead(ms: seq<Member>, k: Keywords)
    requires Reads(ms, k)
    ensures forall t :: k.items == Some(t) <==> Member("items", t) in ms && t != Null
  {
    FieldsAreRead(ms, k);
    hide ReadKeywords, Get, DistinctNames;
    forall t ensures Get(ms, "items") == Some(t) <==> Member("items", t) in ms && t != Null {
      GotUnlessNull(ms, "items", t);
    }
  }

  lemma ElementsAgree(env: Env, standard: bool, rank: map<Json, nat>, ms: seq<Member>, k: Keywords, items: seq<Json>)
    requires Guarded(env, rank) && Obj(ms) in rank && HasKeywords(Obj(ms), k) && Reads(ms, k)
    ensures ElementsHold(env, standard, rank, items, Obj(ms), k) <==> ObeysElements(env, standard, rank, ms, items)
  {
    hide Reads, Meets, Guarded, HasKeywords;
    StepsAreCovered(env, rank, Obj(ms), k);
    ItemsAreRead(ms, k);
  }

  /** The schema for a member: its property's if one is declared, else the additional one. */
  lemma MemberSchemaIs(ms: seq<Member>, k: Keywords, name: string, t: Json)
    requires Reads(ms, k) && DistinctNames(k.properties)
    ensures MemberSchema(k, name) == Some(t) <==>
      || (exists x, q :: Member("properties", x) in ms && x.Obj? && q in x.members && q.name == name && q.value == t)
      || (!Declared(ms, name) && Member("additionalProperties", t) in ms && t != Null)
  {
    FieldsAreRead(ms, k);
    hide ReadKeywords;
    PropertiesRead(ms);
    GotUnlessNull(ms, "additionalProperties", t);
    hide Get, AsObject;
    forall x ensures Lookup(k.properties, name) == Some(x) <==> Member(name, x) in k.properties {
      LookupFinds(k.properties, name, x);
    }
    hide Lookup, DistinctNames;
    assert Declared(ms, name) <==> exists q :: q in k.properties && q.name == name;
    assert forall q: Member | q.name == name :: q == Member(name, q.value);
  }

  lemma MembersAgree(env: Env, standard: bool, rank: map<Json, nat>, ms: seq<Member>, k: Keywords, members: seq<Member>)
    requires Guarded(env, rank) && Obj(ms) in rank && HasKeywords(Obj(ms), k) && Reads(ms, k) && DistinctNames(k.properties)
    ensures MembersHold(env, standard, rank, members, Obj(ms), k) <==> ObeysMembers(env, standard, rank, ms, members)
  {
    hide Reads, Meets, Guarded, HasKeywords, MemberSchema, DistinctNames, Declared;
    StepsAreCovered(env, rank, Obj(ms), k);
    forall name, t ensures MemberSchema(k, name) == Some(t) <==>
      || (exists x, q :: Member("properties", x) in ms && x.Obj? && q in x.members && q.name == name && q.value == t)
      || (!Declared(ms, name) && Member("additionalProperties", t) in ms && t != Null)
    {
      MemberSchemaIs(ms, k, name, t);
    }
    forall m, t | m in members && MemberSchema(k, m.name) == Some(t) && ObeysMembers(env, standard, rank, ms, members)
      ensures Meets(env, standard, rank, m.value, t)
    {
    }
    if MembersHold(env, standard, rank, members, Obj(ms), k) {
      forall x, q, m | Member("properties", x) in ms && x.Obj? && q in x.members && m in members && q.name == m.name
        ensures Satisfies(env, standard, rank, m.value, q.value)
      {
        assert MemberSchema(k, m.name) == Some(q.value);
      }
      forall x, m | Member("additionalProperties", x) in ms && x != Null && m in members && !Declared(ms, m.name)
        ensures Satisfies(env, standard, rank, m.value, x)
      {
        assert MemberSchema(k, m.name) == Some(x);
      }
    }
  }

  // ---------------------------------------------------------------- every keyword

  lemma PropertiesAreDistinct(ms: seq<Member>, k: Keywords)
    requires WellFormed(Obj(ms)) && Reads(ms, k)
    ensures DistinctNames(k.properties)
  {
    FieldsAreRead(ms, k);
    hide ReadKeywords, Get, Lookup, AsObject, DistinctNames;
    PropertiesRead(ms);
    if k.properties != [] {
      assert k.properties[0] in k.properties;
      PropertyListIsWellFormed(ms, k.properties);
    } else {
      NoNames();
    }
  }

  lemma PropertyListIsWellFormed(ms: seq<Member>, properties: seq<Member>)
    requires WellFormed(Obj(ms)) && Member("properties", Obj(properties)) in ms
    ensures DistinctNames(properties)
  {
    assert WellFormed(Member("properties", Obj(properties)).value);
  }

  lemma NoNames()
    ensures DistinctNames([])
  {
  }

  /** A schema object that is no reference is met exactly when its members have the shapes their names
      ask for and the instance obeys the law of each name. */
  lemma MeetsByNames(env: Env, standard: bool, rank: map<Json, nat>, ms: seq<Member>, v: Json)
    requires Guarded(env, rank) && Obj(ms) in rank && WellFormed(Obj(ms)) && forall m | m in ms :: m.name != "$ref"
    ensures Meets(env, standard, rank, v, Obj(ms)) <==> WellShaped(ms) && Obeys(env, standard, rank, ms, v)
  {
    hide Guarded, Meets, WellShaped, PlainlyMeets, BranchesHold, MembersHold, ElementsHold, MemberSchema;
    hide ObeysValues, ObeysBranches, ObeysRequired, ObeysMembers, ObeysElements, ObeysCounts, ObeysText, ObeysBounds;
    hide ReadKeywords, NumberValue;
    var s := Obj(ms);
    ReadExactly(ms);
    NoReference(ms);
    match ReadKeywords(ms) {
      case None => UnreadIsNotMet(env, standard, rank, ms, v);
      case Some(k) =>
        assert HasKeywords(s, k) && Reads(ms, k);
        MeetsByParts(env, standard, rank, v, s, k);
        PlainlyAgree(env, standard, ms, k, v);
        BranchesAgree(env, standard, rank, ms, k, v);
        if v.Obj? {
          PropertiesAreDistinct(ms, k);
          MembersAgree(env, standard, rank, ms, k, v.members);
        }
        if v.Arr? {
          ElementsAgree(env, standard, rank, ms, k, v.items);
        }
    }
  }

  lemma NoReference(ms: seq<Member>)
    requires forall m | m in ms :: m.name != "$ref"
    ensures Lookup(ms, "$ref").None?
  {
  }

  lemma UnreadIsNotMet(env: Env, standard: bool, rank: map<Json, nat>, ms: seq<Member>, v: Json)
    requires Guarded(env, rank) && Obj(ms) in rank && ReadKeywords(ms).None? && Lookup(ms, "$ref").None?
    ensures !Meets(env, standard, rank, v, Obj(ms))
  {
    hide ReadKeywords, Guarded;
  }

  /** A reference is met exactly when what it names is. */
  lemma ReferenceByName(env: Env, standard: bool, rank: map<Json, nat>, ms: seq<Member>, v: Json, r: string)
    requires Guarded(env, rank) && Obj(ms) in rank && DistinctNames(ms) && Member("$ref", Str(r)) in ms
    ensures Meets(env, standard, rank, v, Obj(ms)) <==>
      Resolve(r, env.root).Some? && Satisfies(env, standard, rank, v, Resolve(r, env.root).value)
  {
    hide ReadKeywords, Resolve, Guarded, DistinctNames;
    LookupFinds(ms, "$ref", Str(r));
    ReferenceIsCovered(env, rank, Obj(ms));
  }

  /** So the validator's report on a supported schema is empty exactly when every name's law holds. */
  lemma ReportByNames(env: Env, rank: map<Json, nat>, bound: nat, v: Json, ms: seq<Member>, path: string, depth: nat)
    requires Ready(env, rank, bound) && Obj(ms) in rank && WellFormed(v) && Enough(rank, bound, v, Obj(ms), depth)
    requires forall m | m in ms :: m.name != "$ref"
    ensures Guarded(env, rank) && Decides(Run(env, v, Obj(ms), path, depth), Obeys(env, false, rank, ms, v))
  {
    hide Guarded, Meets, WellShaped, Run, WellFormed, Enough, Obeys, Supported;
    ReadyIsGuarded(env, rank, bound);
    SupportedCases(env, rank, Obj(ms));
    NoReference(ms);
    ReportIsMeaning(env, rank, bound, v, Obj(ms), path, depth);
    MeetsByNames(env, false, rank, ms, v);
    ShapedIfSupported(ms);
  }

  lemma ShapedIfSupported(ms: seq<Member>)
    requires WellFormed(Obj(ms))
    ensures ReadKeywords(ms).Some? ==> WellShaped(ms)
  {
    hide ReadKeywords, WellShaped;
    ReadExactly(ms);
  }
}
