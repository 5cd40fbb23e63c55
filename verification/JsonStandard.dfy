/** When the validator's verdict is the standard's: the exact condition on the numbers documents are
    written with, and the two schemas on which the verdicts part. */
module JsonStandard {
  import opened Doubles
  import opened Numerals
  import opened Options
  import opened JsonValues
  import opened JsonCanonical
  import opened JsonSchema
  import opened JsonMeaning
  import opened JsonCorrectness
  import opened JsonLimits

  /** The values the schemas compare with take their numbers from `numbers`. */
  ghost predicate ComparesAmong(schemas: set<Json>, numbers: iset<Json>) {
    forall s, k | s in schemas && HasKeywords(s, k) ::
      && (k.enumValues.Some? ==> forall x | x in k.enumValues.value :: NumbersIn(x) <= numbers)
      && (k.constValue.Some? ==> NumbersIn(k.constValue.value) <= numbers)
  }

  /** On documents with these numbers every schema means what it means to the standard. */
  ghost predicate MeansTheStandard(numbers: iset<Json>) {
    forall env, rank, v, s | Guarded(env, rank) && s in rank && NumbersIn(v) <= numbers && ComparesAmong(rank.Keys, numbers) ::
      Meets(env, true, rank, v, s) <==> Meets(env, false, rank, v, s)
  }

  /** On well-formed documents with these numbers every verdict of the validator is the standard's. */
  ghost predicate JudgesAsTheStandard(numbers: iset<Json>) {
    forall env, rank, bound, v, s, depth |
      && Ready(env, rank, bound) && s in rank && WellFormed(v) && Enough(rank, bound, v, s, depth)
      && NumbersIn(v) <= numbers && ComparesAmong(rank.Keys, numbers) ::
        Decides(Run(env, v, s, "", depth), Meets(env, true, rank, v, s))
  }

  /** No value is written in two ways and none as a float without a fraction. */
  ghost predicate PlainNumbers(numbers: iset<Json>) {
    OneSpelling(numbers) && forall n | n in numbers :: !WholeFloat(n)
  }

  /** For any set of numbers: the verdicts are the standard's, and so are the meanings, exactly when no
      value is written in two ways and none as a float without a fraction. */
  lemma StandardExactly(numbers: iset<Json>)
    requires forall n | n in numbers :: IsNumber(n) && WellFormed(n)
    ensures MeansTheStandard(numbers) <==> PlainNumbers(numbers)
    ensures JudgesAsTheStandard(numbers) <==> PlainNumbers(numbers)
  {
    hide MeansTheStandard, JudgesAsTheStandard, WellFormed, OneSpelling, WholeFloat;
    if PlainNumbers(numbers) {
      PlainMeansTheStandard(numbers);
    }
    if MeansTheStandard(numbers) {
      MeaningDecides(numbers);
    }
    if JudgesAsTheStandard(numbers) {
      forall n | n in numbers ensures !WholeFloat(n) {
        NoWholeFloat(numbers, n);
      }
      OneWayToWrite(numbers);
    }
  }

  lemma PlainMeansTheStandard(numbers: iset<Json>)
    requires PlainNumbers(numbers)
    ensures MeansTheStandard(numbers)
  {
    hide Guarded, Meets, HasKeywords, NumbersIn, OneSpelling, WholeFloat, Clear;
    forall env, rank, v, s | Guarded(env, rank) && s in rank && NumbersIn(v) <= numbers && ComparesAmong(rank.Keys, numbers)
      ensures Meets(env, true, rank, v, s) <==> Meets(env, false, rank, v, s)
    {
      assert SpelledFrom(rank.Keys, numbers);
      SpelledIsClear(env, rank, numbers);
      MeaningIsStandard(env, rank, SpelledPairs(rank.Keys, numbers), v, s);
    }
  }

  lemma MeaningDecides(numbers: iset<Json>)
    requires MeansTheStandard(numbers)
    ensures JudgesAsTheStandard(numbers)
  {
    hide Meets, ComparesAmong, NumbersIn, Enough, WellFormed, Run, Guarded;
    forall env, rank, bound, v, s, depth |
      && Ready(env, rank, bound) && s in rank && WellFormed(v) && Enough(rank, bound, v, s, depth)
      && NumbersIn(v) <= numbers && ComparesAmong(rank.Keys, numbers)
      ensures Decides(Run(env, v, s, "", depth), Meets(env, true, rank, v, s))
    {
      ReportIsMeaning(env, rank, bound, v, s, "", depth);
    }
  }

  // ---------------------------------------------------------------- schemas of one keyword

  function OnlyConst(x: Json): Json {
    Obj([Member("const", x)])
  }

  const ONLY_INTEGERS: Json := Obj([Member("type", Str("integer"))])

  function ConstKeywords(x: Json): Keywords {
    NoKeywords().(constValue := Some(x))
  }

  function IntegerKeywords(): Keywords {
    NoKeywords().(typeNames := Some(["integer"]))
  }

  lemma OnlyConstReads(x: Json)
    ensures OnlyConst(x).Obj?
    ensures ReadKeywords(OnlyConst(x).members) == Some(ConstKeywords(x))
    ensures !HasUnknownKeyword(OnlyConst(x).members) && Lookup(OnlyConst(x).members, "$ref").None?
  {
    hide ReadKeywords, HasUnknownKeyword, Lookup;
    OnlyConstHolds(x);
    OnlyConstIsKnown(x);
  }

  /** The keywords that read a value's type, its branches and its parts. */
  const SHAPE_KEYWORDS: seq<string> := ["type", "enum", "allOf", "anyOf", "oneOf", "not", "required", "properties", "additionalProperties", "items"]

  /** The keywords that limit sizes and numbers. */
  const LIMIT_KEYWORDS: seq<string> := [
    "minItems", "maxItems", "uniqueItems", "pattern", "minLength", "maxLength", "minimum", "maximum", "exclusiveMinimum", "exclusiveMaximum"]

  ghost predicate Absent(members: seq<Member>, names: seq<string>) {
    forall i | 0 <= i < |names| :: Lookup(members, names[i]).None?
  }

  lemma OnlyMember(m: Member, names: seq<string>)
    requires m.name !in names
    ensures Absent([m], names)
  {
    assert [m][1..] == [];
  }

  lemma OnlyConstHolds(x: Json)
    ensures ReadKeywords(OnlyConst(x).members) == Some(ConstKeywords(x))
  {
    hide Lookup;
    ConstIsNoOther();
    OnlyMember(Member("const", x), SHAPE_KEYWORDS);
    OnlyMember(Member("const", x), LIMIT_KEYWORDS);
    OnlyConstIsFound(x);
    var members := OnlyConst(x).members;
    assert Lookup(members, SHAPE_KEYWORDS[0]).None? && Lookup(members, SHAPE_KEYWORDS[1]).None? && Lookup(members, SHAPE_KEYWORDS[2]).None? && Lookup(members, SHAPE_KEYWORDS[3]).None? && Lookup(members, SHAPE_KEYWORDS[4]).None?;
    assert Lookup(members, SHAPE_KEYWORDS[5]).None? && Lookup(members, SHAPE_KEYWORDS[6]).None? && Lookup(members, SHAPE_KEYWORDS[7]).None? && Lookup(members, SHAPE_KEYWORDS[8]).None? && Lookup(members, SHAPE_KEYWORDS[9]).None?;
    assert Lookup(members, LIMIT_KEYWORDS[0]).None? && Lookup(members, LIMIT_KEYWORDS[1]).None? && Lookup(members, LIMIT_KEYWORDS[2]).None? && Lookup(members, LIMIT_KEYWORDS[3]).None? && Lookup(members, LIMIT_KEYWORDS[4]).None?;
    assert Lookup(members, LIMIT_KEYWORDS[5]).None? && Lookup(members, LIMIT_KEYWORDS[6]).None? && Lookup(members, LIMIT_KEYWORDS[7]).None? && Lookup(members, LIMIT_KEYWORDS[8]).None? && Lookup(members, LIMIT_KEYWORDS[9]).None?;
  }

  lemma OnlyConstIsFound(x: Json)
    ensures Lookup(OnlyConst(x).members, "const") == Some(x)
  {
  }

  lemma ConstIsNoOther()
    ensures "const" !in SHAPE_KEYWORDS && "const" !in LIMIT_KEYWORDS
  {
  }

  lemma OnlyConstIsKnown(x: Json)
    ensures !HasUnknownKeyword(OnlyConst(x).members) && Lookup(OnlyConst(x).members, "$ref").None?
  {
    assert OnlyConst(x).members[1..] == [];
    assert OnlyConst(x).members[0].name == SUPPORTED_KEYWORDS[4];
  }

  lemma OnlyIntegersReads()
    ensures ReadKeywords(ONLY_INTEGERS.members) == Some(IntegerKeywords())
    ensures !HasUnknownKeyword(ONLY_INTEGERS.members) && Lookup(ONLY_INTEGERS.members, "$ref").None?
  {
    assert ONLY_INTEGERS.members[1..] == [];
    assert ONLY_INTEGERS.members[0].name == SUPPORTED_KEYWORDS[20];
  }

  /** A schema of one keyword that leads to no other. */
  ghost predicate Leaf(s: Json, k: Keywords) {
    && WellFormed(s) && HasKeywords(s, k) && !HasUnknownKeyword(s.members)
    && k.allOf == [] && k.anyOf.None? && k.oneOf.None? && k.notSchema.None?
    && k.properties == [] && k.additional.None? && k.items.None?
    && (k.typeNames.Some? ==> forall n | n in k.typeNames.value :: n in TYPE_NAMES)
  }

  lemma LeafIsReady(env: Env, s: Json, k: Keywords)
    requires Leaf(s, k)
    ensures Ready(env, map[s := 0], 1)
  {
    hide ReadKeywords, Lookup, HasUnknownKeyword, WellFormed, Resolve;
    var rank := map[s := 0];
    assert Supported(env, s);
    forall t ensures !SameStep(env, s, t) && !PartStep(s, t) {
    }
    assert Guarded(env, rank);
  }

  lemma OnlyConstIsALeaf(x: Json)
    requires WellFormed(x)
    ensures Leaf(OnlyConst(x), ConstKeywords(x))
  {
    OnlyConstReads(x);
    hide ReadKeywords, Lookup, HasUnknownKeyword;
    assert WellFormed(OnlyConst(x));
  }

  lemma OnlyIntegersIsALeaf()
    ensures Leaf(ONLY_INTEGERS, IntegerKeywords())
  {
    OnlyIntegersReads();
    hide ReadKeywords, Lookup, HasUnknownKeyword;
    assert WellFormed(Str("integer"));
    assert WellFormed(ONLY_INTEGERS);
    assert TYPE_NAMES[0] == "integer";
  }

  /** An instance meets a leaf when it meets its keywords. */
  lemma LeafMeaning(env: Env, standard: bool, v: Json, s: Json, k: Keywords)
    requires Leaf(s, k)
    ensures Guarded(env, map[s := 0])
    ensures Meets(env, standard, map[s := 0], v, s) <==> PlainlyMeets(env, standard, v, k)
  {
    hide ReadKeywords, Lookup, HasUnknownKeyword, WellFormed, PlainlyMeets, Meets, Guarded;
    LeafIsReady(env, s, k);
    ReadyIsGuarded(env, map[s := 0], 1);
    MeetsByParts(env, standard, map[s := 0], v, s, k);
    assert forall name :: MemberSchema(k, name).None?;
  }

  lemma ConstMeaning(env: Env, standard: bool, v: Json, x: Json)
    requires WellFormed(x) && IsNumber(v)
    ensures Leaf(OnlyConst(x), ConstKeywords(x)) && Guarded(env, map[OnlyConst(x) := 0])
    ensures Meets(env, standard, map[OnlyConst(x) := 0], v, OnlyConst(x)) <==> Same(standard, v, x)
  {
    hide Leaf, Meets, Guarded, Same, WellFormed;
    OnlyConstIsALeaf(x);
    LeafMeaning(env, standard, v, OnlyConst(x), ConstKeywords(x));
  }

  lemma IntegerMeaning(env: Env, standard: bool, v: Json)
    requires IsNumber(v)
    ensures Leaf(ONLY_INTEGERS, IntegerKeywords()) && Guarded(env, map[ONLY_INTEGERS := 0])
    ensures Meets(env, standard, map[ONLY_INTEGERS := 0], v, ONLY_INTEGERS) <==> IsInteger(standard, v)
  {
    hide Leaf, Meets, Guarded, IsInteger, TypeHolds;
    OnlyIntegersIsALeaf();
    LeafMeaning(env, standard, v, ONLY_INTEGERS, IntegerKeywords());
    IntegerType(standard, v);
  }

  lemma IntegerType(standard: bool, v: Json)
    requires IsNumber(v)
    ensures TypeHolds(standard, v, IntegerKeywords()) <==> IsInteger(standard, v)
  {
    hide IsInteger;
    var names := IntegerKeywords().typeNames.value;
    assert names[0] == "integer" && forall n | n in names :: n == "integer";
    assert "integer" != "number" by { assert "integer"[0] != "number"[0]; }
    assert HasType(standard, v, "integer") <==> IsInteger(standard, v);
  }

  // ---------------------------------------------------------------- where the verdicts part

  /** The validator's verdict on a leaf; where it is the standard's, the two meanings agree. */
  lemma LeafVerdict(env: Env, numbers: iset<Json>, v: Json, s: Json, k: Keywords)
    requires Leaf(s, k) && WellFormed(v) && IsNumber(v)
    ensures Guarded(env, map[s := 0])
    ensures Decides(Run(env, v, s, "", 2), Meets(env, false, map[s := 0], v, s))
    ensures JudgesAsTheStandard(numbers) && v in numbers && ComparesAmong({s}, numbers)
        ==> (Meets(env, true, map[s := 0], v, s) <==> Meets(env, false, map[s := 0], v, s))
  {
    hide Leaf, WellFormed, Run, Meets, Guarded, ComparesAmong;
    var rank := map[s := 0];
    LeafIsReady(env, s, k);
    ReadyIsGuarded(env, rank, 1);
    assert Enough(rank, 1, v, s, 2);
    assert rank.Keys == {s};
    ReportIsMeaning(env, rank, 1, v, s, "", 2);
  }

  const ANYWHERE: Env := Env(Null, (pattern, text) => true)

  lemma NoWholeFloat(numbers: iset<Json>, n: Json)
    requires JudgesAsTheStandard(numbers) && n in numbers && WellFormed(n)
    ensures !WholeFloat(n)
  {
    hide JudgesAsTheStandard, Leaf, Meets, Guarded, WellFormed, Run, FloatValue;
    if WholeFloat(n) {
      IntegerMeaning(ANYWHERE, true, n);
      IntegerMeaning(ANYWHERE, false, n);
      IntegersCompareNothing(numbers);
      LeafVerdict(ANYWHERE, numbers, n, ONLY_INTEGERS, IntegerKeywords());
    }
  }

  lemma IntegersCompareNothing(numbers: iset<Json>)
    ensures ComparesAmong({ONLY_INTEGERS}, numbers)
  {
    OnlyIntegersReads();
    hide ReadKeywords;
  }

  lemma ConstCompares(numbers: iset<Json>, x: Json)
    requires x in numbers && IsNumber(x)
    ensures ComparesAmong({OnlyConst(x)}, numbers)
  {
    OnlyConstReads(x);
    hide ReadKeywords;
  }

  lemma OneWayToWrite(numbers: iset<Json>)
    requires JudgesAsTheStandard(numbers) && forall n | n in numbers :: IsNumber(n) && WellFormed(n)
    ensures OneSpelling(numbers)
  {
    hide JudgesAsTheStandard, WellFormed, FloatValue;
    forall a, b | a in numbers && b in numbers && NumberValue(a) == NumberValue(b) ensures a == b {
      WrittenAlike(numbers, a, b);
    }
  }

  lemma WrittenAlike(numbers: iset<Json>, a: Json, b: Json)
    requires JudgesAsTheStandard(numbers) && a in numbers && b in numbers
    requires IsNumber(a) && IsNumber(b) && WellFormed(a) && WellFormed(b) && NumberValue(a) == NumberValue(b)
    ensures a == b
  {
    hide JudgesAsTheStandard, Leaf, Meets, Guarded, WellFormed, Run, FloatValue;
    ConstMeaning(ANYWHERE, true, a, b);
    ConstMeaning(ANYWHERE, false, a, b);
    ConstCompares(numbers, b);
    LeafVerdict(ANYWHERE, numbers, a, OnlyConst(b), ConstKeywords(b));
  }

  /** A float without a fraction is an integer to the standard, and reported as none. */
  lemma WholeFloatsAreReported(env: Env, v: Json)
    requires WholeFloat(v)
    ensures Guarded(env, map[ONLY_INTEGERS := 0]) && Meets(env, true, map[ONLY_INTEGERS := 0], v, ONLY_INTEGERS)
    ensures Run(env, v, ONLY_INTEGERS, "", 2) == Found([Issue("", WrongType)])
  {
    hide ReadKeywords, HasUnknownKeyword, Lookup, RunKeywords, Guarded, Meets, NoKeywords, FloatValue;
    OnlyIntegersReads();
    IntegerMeaning(env, true, v);
    NoInteger(env, v);
  }

  lemma NoInteger(env: Env, v: Json)
    requires v.Float?
    ensures RunKeywords(env, v, IntegerKeywords(), "", 1) == Found([Issue("", WrongType)])
  {
    hide FloatValue, Canonical, RunAny, RunCount, Conforms;
    assert AnyType(v, ["integer"]) == Yes(false);
    assert RunCombinators(env, v, IntegerKeywords(), "", 1) == Found([]);
    assert NumberIssues(NumberValue(v), IntegerKeywords(), "") == [];
  }

  /** `1.0` is such a float. */
  lemma OnePointZeroIsWhole()
    ensures WholeFloat(Float("1.0"))
  {
    hide FloatValue;
    OnePointZeroIsOne();
  }

  // ---------------------------------------------------------------- a float at a bound

  const TEN_TO_23: real := 100000000000000000000000.0

  lemma {:induction false} Power10Add(a: nat, b: nat)
    ensures Power10(a + b) == Power10(a) * Power10(b)
  {
    if a > 0 {
      Power10Add(a - 1, b);
      assert 10.0 * (Power10(a - 1) * Power10(b)) == 10.0 * Power10(a - 1) * Power10(b);
    }
  }

  lemma PowerOfTen23()
    ensures Power10(23) == TEN_TO_23
  {
    assert Power10(5) == 100000.0 && Power10(6) == 1000000.0;
    Power10Add(6, 6);
    Power10Add(5, 6);
    Power10Add(12, 11);
  }

  lemma DigitsOf23()
    ensures DigitsValue("23") == 23 && DigitsValue("1" + "") == 1
  {
    assert "23"[..1] == "2" && "2"[..0] == "" && "1" + "" == "1" && "1"[..0] == "";
    assert DigitsValue("2") == 2;
  }

  lemma CutsOf23()
    ensures Cut("1e+23", 'e') == ("1", "+23") && Cut("1", '.') == ("1", "")
  {
    var s := "1e+23";
    assert s[0] == '1' && s[1..] == "e+23" && "e+23"[1..] == "+23";
    assert Cut("e+23", 'e') == ("", "+23");
    assert "1"[1..] == "";
    assert ['1'] + "" == "1";
  }

  lemma DecimalOf23()
    ensures DecimalValue("1e+23") == TEN_TO_23
  {
    hide Cut, DigitsValue, Power10;
    CutsOf23();
    DigitsOf23();
    PowerOfTen23();
    PowerOfTen0();
    assert "1e+23"[0] == '1' && "+23"[0] == '+' && "+23"[1..] == "23";
  }

  lemma PowerOfTen0()
    ensures Power10(0) == 1.0
  {
  }

  /** The float printed `1e+23` is the double below that number: a bound of exactly ten to the
      twenty-third is not met. */
  lemma BoundsCompareDoubles()
    ensures FloatValue("1e+23") < TEN_TO_23
    ensures NumberIssues(FloatValue("1e+23"), NoKeywords().(minimum := Some(TEN_TO_23)), "") == [Issue("", BelowMinimum)]
  {
    hide DecimalValue, ToDouble;
    DecimalOf23();
    TenTo23IsNoDouble();
  }
}
