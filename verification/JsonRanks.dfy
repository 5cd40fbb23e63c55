/** Which schemas have a meaning: a ranking exists exactly when no schema leads back to itself on one
    instance, the meaning is the same for every ranking, and where schemas must lead round for ever
    the validator comes to no verdict. */
module JsonRanks {
  import opened Lists
  import opened Options
  import opened JsonValues
  import opened JsonSchema
  import opened JsonMeaning
  import opened JsonCorrectness
  import opened JsonLimits

  // ---------------------------------------------------------------- rankings

  /** The schemas lead to one another only. */
  ghost predicate Closed(env: Env, schemas: set<Json>) {
    forall s, t | s in schemas && (SameStep(env, s, t) || PartStep(s, t)) :: t in schemas
  }

  /** A path of schemas that judge one instance. */
  ghost predicate SameWalk(env: Env, path: seq<Json>) {
    forall i | 0 <= i < |path| - 1 :: SameStep(env, path[i], path[i + 1])
  }

  ghost predicate Inside(path: seq<Json>, schemas: set<Json>) {
    forall s | s in path :: s in schemas
  }

  ghost predicate NoCircle(env: Env, schemas: set<Json>) {
    forall path | |path| >= 2 && Inside(path, schemas) && SameWalk(env, path) :: path[0] != path[|path| - 1]
  }

  /** `rank` falls along the steps between the schemas on one instance. */
  ghost predicate Falls(env: Env, schemas: set<Json>, rank: map<Json, nat>) {
    && rank.Keys == schemas
    && (forall s | s in schemas :: rank[s] < |schemas|)
    && forall s, t | s in schemas && t in schemas && SameStep(env, s, t) :: rank[t] < rank[s]
  }

  /** Some of the schemas comes next. */
  ghost predicate LeadsOn(env: Env, schemas: set<Json>, s: Json) {
    exists t :: t in schemas && SameStep(env, s, t)
  }

  lemma {:induction false} LongPath(env: Env, schemas: set<Json>, s: Json, n: nat) returns (path: seq<Json>)
    requires s in schemas && forall t | t in schemas :: LeadsOn(env, schemas, t)
    ensures |path| == n + 1 && path[0] == s && SameWalk(env, path) && Inside(path, schemas)
    decreases n
  {
    hide SameStep;
    path := [s];
    if n > 0 {
      assert LeadsOn(env, schemas, s);
      var t :| t in schemas && SameStep(env, s, t);
      var rest := LongPath(env, schemas, t, n - 1);
      path := [s] + rest;
      forall i | 0 <= i < |path| - 1 ensures SameStep(env, path[i], path[i + 1]) {
        if i > 0 {
          assert SameStep(env, rest[i - 1], rest[i - 1 + 1]);
        }
      }
    }
  }

  /** A path through more schemas than there are comes back to one. */
  lemma LongPathCloses(env: Env, schemas: set<Json>, path: seq<Json>)
    requires SameWalk(env, path) && Inside(path, schemas) && |path| > |schemas|
    ensures !NoCircle(env, schemas)
  {
    hide SameStep;
    if Distinct(path) {
      DistinctIsSmall(path, schemas);
    }
    var i, j :| 0 <= i < j < |path| && path[i] == path[j];
    var circle := path[i..j + 1];
    forall k | 0 <= k < |circle| - 1 ensures SameStep(env, circle[k], circle[k + 1]) {
      assert SameStep(env, path[i + k], path[i + k + 1]);
    }
    assert Inside(circle, schemas) && SameWalk(env, circle);
    assert circle[0] == circle[|circle| - 1];
  }

  /** Without a circle some schema leads to no other. */
  lemma SomeEnd(env: Env, schemas: set<Json>) returns (end: Json)
    requires schemas != {} && NoCircle(env, schemas)
    ensures end in schemas && forall t | t in schemas :: !SameStep(env, end, t)
  {
    hide SameStep, LeadsOn, NoCircle;
    var first :| first in schemas;
    if forall t | t in schemas :: LeadsOn(env, schemas, t) {
      var path := LongPath(env, schemas, first, |schemas|);
      LongPathCloses(env, schemas, path);
    }
    end :| end in schemas && !LeadsOn(env, schemas, end);
    LeadsNowhere(env, schemas, end);
  }

  lemma LeadsNowhere(env: Env, schemas: set<Json>, end: Json)
    requires !LeadsOn(env, schemas, end)
    ensures forall t | t in schemas :: !SameStep(env, end, t)
  {
    hide SameStep;
  }

  lemma FewerSchemas(env: Env, schemas: set<Json>, fewer: set<Json>)
    requires NoCircle(env, schemas) && fewer <= schemas
    ensures NoCircle(env, fewer)
  {
    hide SameWalk;
    forall path | |path| >= 2 && Inside(path, fewer) && SameWalk(env, path) ensures path[0] != path[|path| - 1] {
      assert Inside(path, schemas);
    }
  }

  lemma {:induction false} RankWithoutCircle(env: Env, schemas: set<Json>) returns (rank: map<Json, nat>)
    requires NoCircle(env, schemas)
    ensures Falls(env, schemas, rank)
    decreases |schemas|
  {
    hide SameStep, NoCircle;
    rank := map[];
    if schemas != {} {
      var end := SomeEnd(env, schemas);
      FewerSchemas(env, schemas, schemas - {end});
      var rest := RankWithoutCircle(env, schemas - {end});
      rank := map s | s in schemas :: if s == end then 0 else rest[s] + 1;
    }
  }

  lemma {:induction false} RankFallsAlong(env: Env, rank: map<Json, nat>, path: seq<Json>)
    requires Guarded(env, rank) && |path| >= 2 && path[0] in rank && SameWalk(env, path)
    ensures path[|path| - 1] in rank && rank[path[|path| - 1]] < rank[path[0]]
    decreases |path|
  {
    hide SameStep;
    assert SameStep(env, path[0], path[0 + 1]);
    if |path| > 2 {
      var rest := path[1..];
      forall i | 0 <= i < |rest| - 1 ensures SameStep(env, rest[i], rest[i + 1]) {
        assert SameStep(env, path[i + 1], path[i + 1 + 1]);
      }
      RankFallsAlong(env, rank, rest);
    }
  }

  /** Schemas that lead to one another only can be ranked exactly when none of them leads back to
      itself on one instance. */
  lemma RankedExactly(env: Env, schemas: set<Json>)
    requires Closed(env, schemas)
    ensures (exists rank :: Guarded(env, rank) && rank.Keys == schemas) <==> NoCircle(env, schemas)
  {
    hide SameStep, PartStep, SameWalk;
    if rank :| Guarded(env, rank) && rank.Keys == schemas {
      forall path | |path| >= 2 && Inside(path, schemas) && SameWalk(env, path) ensures path[0] != path[|path| - 1] {
        assert path[0] in path;
        RankFallsAlong(env, rank, path);
      }
    }
    if NoCircle(env, schemas) {
      var rank := RankWithoutCircle(env, schemas);
      FallingIsGuarded(env, schemas, rank);
    }
  }

  lemma FallingIsGuarded(env: Env, schemas: set<Json>, rank: map<Json, nat>)
    requires Closed(env, schemas) && Falls(env, schemas, rank)
    ensures Guarded(env, rank) && Bounds(rank, |schemas|)
  {
    hide SameStep, PartStep;
  }

  // ---------------------------------------------------------------- the meaning needs no ranking

  /** Nesting for every schema on every level of the instance. */
  ghost predicate EnoughFor(schemas: set<Json>, v: Json, depth: nat) {
    (Height(v) + 1) * |schemas| <= depth
  }

  lemma EnoughForRank(schemas: set<Json>, rank: map<Json, nat>, v: Json, s: Json, depth: nat)
    requires s in rank && Bounds(rank, |schemas|) && EnoughFor(schemas, v, depth)
    ensures Enough(rank, |schemas|, v, s, depth)
  {
    assert (Height(v) + 1) * |schemas| == Height(v) * |schemas| + |schemas|;
  }

  lemma SomeBound(rank: map<Json, nat>) returns (bound: nat)
    ensures Bounds(rank, bound)
  {
    var left := rank.Keys;
    bound := 0;
    while left != {}
      invariant left <= rank.Keys
      invariant forall s | s in rank && s !in left :: rank[s] < bound
    {
      var s :| s in left;
      left := left - {s};
      bound := if rank[s] < bound then bound else rank[s] + 1;
    }
  }

  /** A verdict that one ranking vouches for is the meaning by every ranking. */
  lemma VerdictIsMeaning(env: Env, rank: map<Json, nat>, v: Json, s: Json, path: string, depth: nat)
    requires Guarded(env, rank) && AllSupported(env, rank) && s in rank && WellFormed(v)
    requires Run(env, v, s, path, depth).Found?
    ensures Decides(Run(env, v, s, path, depth), Meets(env, false, rank, v, s))
  {
    hide Supported, Run, Meets, WellFormed, Guarded, AllSupported;
    var bound := SomeBound(rank);
    var enough := Height(v) * bound + rank[s] + 1;
    var deep := if depth < enough then enough else depth;
    ReportIsMeaning(env, rank, bound, v, s, path, deep);
    DeeperIsTheSame(env, v, s, path, depth, deep);
  }

  ghost predicate AllOfThemSupported(env: Env, schemas: set<Json>) {
    forall s | s in schemas :: Supported(env, s)
  }

  /** The validator decides every supported document without a circle; no ranking is asked of the
      caller, and all rankings give the one meaning. */
  lemma ReportIsMeaningWithoutCircles(env: Env, schemas: set<Json>, v: Json, s: Json, path: string, depth: nat)
    requires Closed(env, schemas) && NoCircle(env, schemas) && AllOfThemSupported(env, schemas) && s in schemas
    requires WellFormed(v) && EnoughFor(schemas, v, depth)
    ensures exists rank :: Guarded(env, rank) && rank.Keys == schemas
    ensures forall rank | Guarded(env, rank) && rank.Keys == schemas ::
      Decides(Run(env, v, s, path, depth), Meets(env, false, rank, v, s))
  {
    hide Supported, Run, Meets, WellFormed, Enough, EnoughFor, Closed, NoCircle, Guarded;
    var rank := RankWithoutCircle(env, schemas);
    FallingIsGuarded(env, schemas, rank);
    EnoughForRank(schemas, rank, v, s, depth);
    ReportIsMeaning(env, rank, |schemas|, v, s, path, depth);
    forall other | Guarded(env, other) && other.Keys == schemas
      ensures Decides(Run(env, v, s, path, depth), Meets(env, false, other, v, s))
    {
      VerdictIsMeaning(env, other, v, s, path, depth);
    }
  }

  /** With one spelling for each value the verdict is that of the standard. */
  lemma ReportIsStandardWithoutCircles(env: Env, schemas: set<Json>, numbers: iset<Json>, v: Json, s: Json, path: string, depth: nat)
    requires Closed(env, schemas) && NoCircle(env, schemas) && AllOfThemSupported(env, schemas) && s in schemas
    requires WellFormed(v) && EnoughFor(schemas, v, depth)
    requires SpelledFrom(schemas, numbers) && NumbersIn(v) <= numbers
    ensures exists rank :: Guarded(env, rank) && rank.Keys == schemas
    ensures forall rank | Guarded(env, rank) && rank.Keys == schemas ::
      Decides(Run(env, v, s, path, depth), Meets(env, true, rank, v, s))
  {
    hide Supported, Run, Meets, WellFormed, EnoughFor, Closed, NoCircle, Guarded, SpelledFrom, NumbersIn, Clear;
    ReportIsMeaningWithoutCircles(env, schemas, v, s, path, depth);
    forall rank | Guarded(env, rank) && rank.Keys == schemas
      ensures Decides(Run(env, v, s, path, depth), Meets(env, true, rank, v, s))
    {
      SpelledIsClear(env, rank, numbers);
      MeaningIsStandard(env, rank, SpelledPairs(schemas, numbers), v, s);
    }
  }

  // ---------------------------------------------------------------- circles

  /** Judging by `s` always judges the same instance by `t`: `anyOf` may stop before its later
      branches, everything else is looked at. */
  ghost predicate MustLead(env: Env, s: Json, t: Json) {
    || RefersTo(env, s, t)
    || exists k :: HasKeywords(s, k) && MustTry(k, t)
  }

  ghost predicate MustTry(k: Keywords, t: Json) {
    || t in k.allOf
    || (k.anyOf.Some? && k.anyOf.value != [] && t == k.anyOf.value[0])
    || (k.oneOf.Some? && t in k.oneOf.value)
    || k.notSchema == Some(t)
  }

  /** Each of these schemas must lead to one of them. */
  ghost predicate GoesRound(env: Env, loop: iset<Json>) {
    forall s | s in loop :: exists t :: t in loop && MustLead(env, s, t)
  }

  lemma {:induction false} AllStops(env: Env, v: Json, branches: seq<Json>, t: Json, path: string, depth: nat)
    requires t in branches && Run(env, v, t, path, depth).Stopped?
    ensures RunAll(env, v, branches, path, depth).Stopped?
  {
    hide Run;
    if t != branches[0] {
      AllStops(env, v, branches[1..], t, path, depth);
    }
  }

  lemma {:induction false} CountStops(env: Env, v: Json, branches: seq<Json>, t: Json, depth: nat)
    requires t in branches && Run(env, v, t, "", depth).Stopped?
    ensures RunCount(env, v, branches, depth).CountStopped?
  {
    hide Run;
    if t != branches[0] {
      CountStops(env, v, branches[1..], t, depth);
    }
  }

  ghost predicate NeverJudges(env: Env, v: Json, s: Json, depth: nat) {
    forall path :: Run(env, v, s, path, depth).Stopped?
  }

  lemma CombinatorsStop(env: Env, v: Json, k: Keywords, t: Json, path: string, depth: nat)
    requires MustTry(k, t) && NeverJudges(env, v, t, depth)
    ensures RunCombinators(env, v, k, path, depth).Stopped?
  {
    hide Run;
    assert Run(env, v, t, "", depth).Stopped? && Run(env, v, t, path, depth).Stopped?;
    if t in k.allOf {
      AllStops(env, v, k.allOf, t, path, depth);
    } else if k.anyOf.Some? && k.anyOf.value != [] && t == k.anyOf.value[0] {
      assert RunAny(env, v, k.anyOf.value, depth).Halted?;
    } else if k.oneOf.Some? && t in k.oneOf.value {
      CountStops(env, v, k.oneOf.value, t, depth);
    } else {
      assert RunNot(env, v, k.notSchema, path, depth).Stopped?;
    }
  }

  lemma KeywordsStop(env: Env, v: Json, k: Keywords, t: Json, path: string, depth: nat)
    requires MustTry(k, t) && NeverJudges(env, v, t, depth)
    ensures RunKeywords(env, v, k, path, depth).Stopped?
  {
    hide RunCombinators, TypePart, ValuesIssues, RunByKind, MustTry, NeverJudges;
    CombinatorsStop(env, v, k, t, path, depth);
  }

  lemma ReferenceStops(env: Env, v: Json, s: Json, t: Json, depth: nat)
    requires depth > 0 && RefersTo(env, s, t) && NeverJudges(env, v, t, depth - 1)
    ensures NeverJudges(env, v, s, depth)
  {
    hide ReadKeywords, RunKeywords, HasUnknownKeyword, HasAssertionBesideRef, Lookup, Resolve;
    forall path: string ensures Run(env, v, s, path, depth).Stopped? {
      assert Run(env, v, t, path, depth - 1).Stopped?;
    }
  }

  lemma SchemaStops(env: Env, v: Json, s: Json, k: Keywords, t: Json, depth: nat)
    requires depth > 0 && HasKeywords(s, k) && MustTry(k, t) && NeverJudges(env, v, t, depth - 1)
    ensures NeverJudges(env, v, s, depth)
  {
    hide ReadKeywords, RunKeywords, HasUnknownKeyword, Lookup;
    KeywordsAreSome(s, k, t);
    forall path: string ensures Run(env, v, s, path, depth).Stopped? {
      KeywordsStop(env, v, k, t, path, depth - 1);
    }
  }

  lemma LeadingStops(env: Env, v: Json, s: Json, t: Json, depth: nat)
    requires depth > 0 && MustLead(env, s, t) && NeverJudges(env, v, t, depth - 1)
    ensures NeverJudges(env, v, s, depth)
  {
    hide HasKeywords, RefersTo, MustTry, NeverJudges;
    if RefersTo(env, s, t) {
      ReferenceStops(env, v, s, t, depth);
    } else {
      var k :| HasKeywords(s, k) && MustTry(k, t);
      SchemaStops(env, v, s, k, t, depth);
    }
  }

  lemma NoDepth(env: Env, v: Json, s: Json)
    ensures NeverJudges(env, v, s, 0)
  {
  }

  /** Schemas that must lead round among themselves come to no verdict on any instance, whatever the
      nesting. */
  lemma {:induction false} RoundWithoutVerdict(env: Env, loop: iset<Json>, v: Json, s: Json, depth: nat)
    requires GoesRound(env, loop) && s in loop
    ensures NeverJudges(env, v, s, depth)
    decreases depth
  {
    hide MustLead, NeverJudges;
    if depth == 0 {
      NoDepth(env, v, s);
    } else {
      var t :| t in loop && MustLead(env, s, t);
      RoundWithoutVerdict(env, loop, v, t, depth - 1);
      LeadingStops(env, v, s, t, depth);
    }
  }

  lemma KeywordsAreSome(s: Json, k: Keywords, t: Json)
    requires HasKeywords(s, k) && MustTry(k, t)
    ensures s.members != []
  {
  }

  ghost predicate SingleAnyOf(schemas: set<Json>) {
    forall s, k | s in schemas && HasKeywords(s, k) && k.anyOf.Some? :: |k.anyOf.value| <= 1
  }

  lemma AStepMustBeTaken(env: Env, schemas: set<Json>, s: Json, t: Json)
    requires SingleAnyOf(schemas) && s in schemas && SameStep(env, s, t)
    ensures MustLead(env, s, t)
  {
    hide HasKeywords, RefersTo;
    if !RefersTo(env, s, t) {
      var k :| HasKeywords(s, k) && Branch(k, t);
      assert MustTry(k, t);
    }
  }

  lemma CircleGoesRound(env: Env, schemas: set<Json>, path: seq<Json>)
    requires SingleAnyOf(schemas) && |path| >= 2 && Inside(path, schemas) && SameWalk(env, path)
    requires path[0] == path[|path| - 1]
    ensures GoesRound(env, (iset s | s in path))
  {
    hide SameStep, MustLead, SingleAnyOf;
    forall s | s in path ensures exists t :: t in path && MustLead(env, s, t) {
      var i :| 0 <= i < |path| && path[i] == s;
      var j := if i < |path| - 1 then i else 0;
      assert SameStep(env, path[j], path[j + 1]);
      AStepMustBeTaken(env, schemas, path[j], path[j + 1]);
      assert path[j + 1] in path && path[j] == s;
    }
  }

  /** At some nesting each schema judges each instance. */
  ghost predicate AlwaysAVerdict(env: Env, schemas: set<Json>) {
    forall v, s | WellFormed(v) && s in schemas :: exists depth :: Run(env, v, s, "", depth).Found?
  }

  /** Where `anyOf` offers no choice, a supported document comes to a verdict on every instance
      exactly when it has no circle. */
  lemma VerdictsExactly(env: Env, schemas: set<Json>)
    requires Closed(env, schemas) && AllOfThemSupported(env, schemas) && SingleAnyOf(schemas)
    ensures AlwaysAVerdict(env, schemas) <==> NoCircle(env, schemas)
  {
    hide Run, WellFormed, SameWalk, Supported, Closed, SingleAnyOf, Guarded, Meets;
    if AlwaysAVerdict(env, schemas) {
      forall path | |path| >= 2 && Inside(path, schemas) && SameWalk(env, path) ensures path[0] != path[|path| - 1] {
        if path[0] == path[|path| - 1] {
          CircleGoesRound(env, schemas, path);
          NullIsWellFormed();
          assert path[0] in path;
          var depth :| Run(env, Null, path[0], "", depth).Found?;
          RoundWithoutVerdict(env, (iset s | s in path), Null, path[0], depth);
          assert false;
        }
      }
    }
    if NoCircle(env, schemas) {
      forall v, s | WellFormed(v) && s in schemas ensures exists depth :: Run(env, v, s, "", depth).Found? {
        var depth := (Height(v) + 1) * |schemas|;
        ReportIsMeaningWithoutCircles(env, schemas, v, s, "", depth);
        assert Run(env, v, s, "", depth).Found?;
      }
    }
  }

  lemma NullIsWellFormed()
    ensures WellFormed(Null)
  {
  }

  /** A circle through a later branch of `anyOf`. */
  const ESCAPED: Json := Obj([Member("anyOf", Arr([Bool(true), SELF]))])

  lemma EscapedReads()
    ensures ReadKeywords(ESCAPED.members) == Some(NoKeywords().(anyOf := Some([Bool(true), SELF])))
    ensures !HasUnknownKeyword(ESCAPED.members) && Lookup(ESCAPED.members, "$ref").None?
  {
    assert ESCAPED.members[1..] == [];
    assert ESCAPED.members[0].name == SUPPORTED_KEYWORDS[3];
  }

  lemma EscapedIsACircle(env: Env)
    requires env.root == ESCAPED
    ensures SameWalk(env, [ESCAPED, SELF, ESCAPED])
  {
    hide ReadKeywords, Lookup;
    EscapedReads();
    SelfReads();
    var k := NoKeywords().(anyOf := Some([Bool(true), SELF]));
    assert HasKeywords(ESCAPED, k) && k.anyOf.value[1] == SELF;
    assert Branch(k, SELF);
    assert RefersTo(env, SELF, ESCAPED);
  }

  /** A circle that need not be followed does no harm: with `anyOf` the condition is not exact. */
  lemma CircleThatIsEscaped(env: Env)
    requires env.root == ESCAPED
    ensures SameWalk(env, [ESCAPED, SELF, ESCAPED])
    ensures Run(env, Null, ESCAPED, "", 2) == Found([])
  {
    hide ReadKeywords, Lookup, HasUnknownKeyword, RunKeywords;
    EscapedIsACircle(env);
    EscapedReads();
    EscapedRuns(env, NoKeywords().(anyOf := Some([Bool(true), SELF])));
  }

  lemma EscapedRuns(env: Env, k: Keywords)
    requires k == NoKeywords().(anyOf := Some([Bool(true), SELF]))
    ensures RunKeywords(env, Null, k, "", 1) == Found([])
  {
    hide Lookup, NumberIssues;
    assert Conforms(env, Null, Bool(true), 1) == Yes(true);
    assert RunAny(env, Null, k.anyOf.value, 1) == Yes(true);
  }
}
