/** Which issues a report holds, and where, told from the members of the schema as they are written. */
module JsonReports {
  import opened Numerals
  import opened Options
  import opened JsonValues
  import opened JsonSchema
  import opened JsonMeaning
  import opened JsonLaws

  /** The instance passes the schema: it is judged, and nothing is reported. */
  predicate Passes(env: Env, v: Json, t: Json, depth: nat) {
    Run(env, v, t, "", depth) == Found([])
  }

  function Passed(env: Env, v: Json, branches: seq<Json>, depth: nat): nat {
    if branches == [] then 0 else (if Passes(env, v, branches[0], depth) then 1 else 0) + Passed(env, v, branches[1..], depth)
  }

  /** The issue is in the report of this schema on this instance, reported at this place. */
  ghost predicate Reports(env: Env, v: Json, t: Json, path: string, depth: nat, issue: Issue) {
    Run(env, v, t, path, depth).Found? && issue in Run(env, v, t, path, depth).issues
  }

  // ---------------------------------------------------------------- what a schema itself complains of

  ghost predicate TypeFits(x: Json, v: Json) {
    match x
    case Str(name) => IsType(v, name) == Yes(true)
    case Arr(names) => exists n :: n in names && n.Str? && IsType(v, n.s) == Yes(true)
    case _ => true
  }

  ghost predicate ValueFault(ms: seq<Member>, v: Json, c: Complaint) {
    match c
    case WrongType => exists x :: Member("type", x) in ms && !TypeFits(x, v)
    case NotInEnum => exists x :: Member("enum", x) in ms && x.Arr? && forall y | y in x.items :: Canonical(y) != Canonical(v)
    case NotTheConst => exists x :: Member("const", x) in ms && Canonical(x) != Canonical(v)
    case _ => false
  }

  ghost predicate BranchFault(env: Env, ms: seq<Member>, v: Json, depth: nat, c: Complaint) {
    match c
    case NoBranch => exists x :: Member("anyOf", x) in ms && x.Arr? && Passed(env, v, x.items, depth) == 0
    case WrongBranchCount(n) => exists x :: Member("oneOf", x) in ms && x.Arr? && n == Passed(env, v, x.items, depth) && n != 1
    case MatchesNot => exists x :: Member("not", x) in ms && Passes(env, v, x, depth)
    case _ => false
  }

  ghost predicate ObjectFault(ms: seq<Member>, members: seq<Member>, c: Complaint) {
    match c
    case Missing(name) => exists x :: Member("required", x) in ms && x.Arr? && Str(name) in x.items && !HasName(members, name)
    case NotAllowed(name) => Member("additionalProperties", Bool(false)) in ms && HasName(members, name) && !Declared(ms, name)
    case _ => false
  }

  ghost predicate ArrayFault(ms: seq<Member>, items: seq<Json>, c: Complaint) {
    match c
    case TooFewItems => exists x :: Member("minItems", x) in ms && IsNumber(x) && (|items| as real) < NumberValue(x)
    case TooManyItems => exists x :: Member("maxItems", x) in ms && IsNumber(x) && |items| as real > NumberValue(x)
    case NotUnique =>
      Member("uniqueItems", Bool(true)) in ms && exists i, j | 0 <= i < j < |items| :: Canonical(items[i]) == Canonical(items[j])
    case _ => false
  }

  ghost predicate TextFault(env: Env, ms: seq<Member>, s: string, c: Complaint) {
    match c
    case NoPatternMatch => exists x :: Member("pattern", x) in ms && x.Str? && !env.search(x.s, s)
    case TooShort => exists x :: Member("minLength", x) in ms && IsNumber(x) && (|s| as real) < NumberValue(x)
    case TooLong => exists x :: Member("maxLength", x) in ms && IsNumber(x) && |s| as real > NumberValue(x)
    case _ => false
  }

  ghost predicate NumberFault(ms: seq<Member>, n: real, c: Complaint) {
    match c
    case BelowMinimum => exists x :: Member("minimum", x) in ms && IsNumber(x) && n < NumberValue(x)
    case AboveMaximum => exists x :: Member("maximum", x) in ms && IsNumber(x) && n > NumberValue(x)
    case NotAboveExclusive => exists x :: Member("exclusiveMinimum", x) in ms && IsNumber(x) && n <= NumberValue(x)
    case NotBelowExclusive => exists x :: Member("exclusiveMaximum", x) in ms && IsNumber(x) && n >= NumberValue(x)
    case _ => false
  }

  /** The schema itself complains of the instance. */
  ghost predicate Fault(env: Env, ms: seq<Member>, v: Json, depth: nat, c: Complaint) {
    || ValueFault(ms, v, c)
    || BranchFault(env, ms, v, depth, c)
    || (v.Obj? && ObjectFault(ms, v.members, c))
    || (v.Arr? && ArrayFault(ms, v.items, c))
    || (v.Str? && TextFault(env, ms, v.s, c))
    || (IsNumber(v) && NumberFault(ms, NumberValue(v), c))
  }

  /** A schema it leads to does, on the instance or on a part of it. */
  ghost predicate FromBranch(env: Env, ms: seq<Member>, v: Json, path: string, depth: nat, issue: Issue) {
    exists x, t :: Member("allOf", x) in ms && x.Arr? && t in x.items && Reports(env, v, t, path, depth, issue)
  }

  ghost predicate FromProperty(env: Env, ms: seq<Member>, members: seq<Member>, path: string, depth: nat, issue: Issue) {
    exists m, x, q :: m in members && Member("properties", x) in ms && x.Obj? && q in x.members && q.name == m.name
      && Reports(env, m.value, q.value, path + "/" + m.name, depth, issue)
  }

  ghost predicate FromAdditional(env: Env, ms: seq<Member>, members: seq<Member>, path: string, depth: nat, issue: Issue) {
    exists m, x :: m in members && Member("additionalProperties", x) in ms && x.Obj? && !Declared(ms, m.name)
      && Reports(env, m.value, x, path + "/" + m.name, depth, issue)
  }

  ghost predicate FromItem(env: Env, ms: seq<Member>, items: seq<Json>, path: string, depth: nat, issue: Issue) {
    exists i: nat, x :: i < |items| && Member("items", x) in ms && x != Null
      && Reports(env, items[i], x, path + "/" + Decimal(i), depth, issue)
  }

  ghost predicate FromBelow(env: Env, ms: seq<Member>, v: Json, path: string, depth: nat, issue: Issue) {
    || FromBranch(env, ms, v, path, depth, issue)
    || (v.Obj? && FromProperty(env, ms, v.members, path, depth, issue))
    || (v.Obj? && FromAdditional(env, ms, v.members, path, depth, issue))
    || (v.Arr? && FromItem(env, ms, v.items, path, depth, issue))
  }

  // ---------------------------------------------------------------- parts of a report

  /** The outcome is a report, and the issue is in it just if `told`. */
  ghost predicate Tells(outcome: Outcome, issue: Issue, told: bool) {
    outcome.Found? ==> (issue in outcome.issues <==> told)
  }

  lemma ThenTells(a: Outcome, b: Outcome, issue: Issue, p: bool, q: bool)
    requires Tells(a, issue, p) && Tells(b, issue, q)
    ensures Tells(Then(a, b), issue, p || q)
  {
  }

  lemma WhenTells(bad: bool, path: string, c: Complaint, issue: Issue)
    ensures issue in When(bad, path, c) <==> bad && issue == Issue(path, c)
  {
  }

  lemma {:induction false} AnyTypeFits(v: Json, names: seq<string>)
    ensures AnyType(v, names).Yes? ==> (AnyType(v, names).holds <==> exists n :: n in names && IsType(v, n) == Yes(true))
    ensures AnyType(v, names) == Yes(false) ==> forall n | n in names :: IsType(v, n) == Yes(false)
  {
    hide IsType;
    if names != [] {
      AnyTypeFits(v, names[1..]);
      assert forall n :: n in names <==> n == names[0] || n in names[1..];
    }
  }

  /** Of each name there is one member, and looking it up finds it. */
  lemma Asked(ms: seq<Member>, name: string)
    requires DistinctNames(ms)
    ensures forall x :: Member(name, x) in ms <==> Lookup(ms, name) == Some(x)
  {
    hide Lookup, DistinctNames;
    forall x ensures Member(name, x) in ms <==> Lookup(ms, name) == Some(x) {
      LookupFinds(ms, name, x);
    }
  }

  lemma NamesFit(x: Json, v: Json)
    requires AsNames(Some(x)).Good? && AnyType(v, AsNames(Some(x)).value).Yes?
    ensures AnyType(v, AsNames(Some(x)).value).holds <==> TypeFits(x, v)
  {
    hide IsType, Strings, AnyType;
    AnyTypeFits(v, AsNames(Some(x)).value);
    if x.Arr? {
      StringsRead(x.items);
      assert forall n | n in x.items && n.Str? :: n == Str(n.s);
    } else {
      assert x == Str(x.s);
    }
  }

  lemma TypeTells(ms: seq<Member>, k: Keywords, v: Json, path: string, issue: Issue)
    requires Reads(ms, k)
    ensures Tells(TypePart(v, k, path), issue, issue.path == path && issue.complaint == WrongType && ValueFault(ms, v, WrongType))
  {
    hide ReadKeywords, Lookup, DistinctNames, AsNames, AnyType, TypeFits;
    ReadingFails(ms);
    FieldsAreRead(ms, k);
    Asked(ms, "type");
    NoNames(v);
    match Lookup(ms, "type") {
      case None =>
      case Some(x) =>
        if x != Null && AnyType(v, k.typeNames.value).Yes? {
          NamesFit(x, v);
        }
    }
  }

  lemma NoNames(v: Json)
    ensures AsNames(None) == Absent && TypeFits(Null, v)
    ensures forall x | AsNames(Some(x)) == Absent :: false
  {
  }

  lemma EnumTells(ms: seq<Member>, k: Keywords, v: Json)
    requires Reads(ms, k)
    ensures (k.enumValues.Some? && !(exists i | 0 <= i < |k.enumValues.value| :: Canonical(k.enumValues.value[i]) == Canonical(v)))
       <==> ValueFault(ms, v, NotInEnum)
  {
    hide ReadKeywords, Lookup, DistinctNames, Canonical;
    FieldsAreRead(ms, k);
    EnumAsked(ms, v);
    if k.enumValues.Some? {
      OptionsDiffer(k.enumValues.value, v);
    }
  }

  lemma EnumAsked(ms: seq<Member>, v: Json)
    requires DistinctNames(ms)
    ensures var options := Opt(AsArray(Lookup(ms, "enum")));
      (options.Some? && forall y | y in options.value :: Canonical(y) != Canonical(v)) <==> ValueFault(ms, v, NotInEnum)
  {
    hide Lookup, DistinctNames, Canonical;
    ArrayRead(ms, "enum");
  }

  lemma OptionsDiffer(options: seq<Json>, v: Json)
    ensures (forall y | y in options :: Canonical(y) != Canonical(v))
       <==> !(exists i | 0 <= i < |options| :: Canonical(options[i]) == Canonical(v))
  {
    hide Canonical;
    if y :| y in options && Canonical(y) == Canonical(v) {
      var i :| 0 <= i < |options| && options[i] == y;
      assert Canonical(options[i]) == Canonical(v);
    }
  }

  lemma ConstTells(ms: seq<Member>, k: Keywords, v: Json)
    requires Reads(ms, k)
    ensures (k.constValue.Some? && Canonical(v) != Canonical(k.constValue.value)) <==> ValueFault(ms, v, NotTheConst)
  {
    hide ReadKeywords, Lookup, DistinctNames, Canonical;
    FieldsAreRead(ms, k);
    Asked(ms, "const");
  }

  lemma ValuesTell(ms: seq<Member>, k: Keywords, v: Json, path: string, issue: Issue)
    requires Reads(ms, k)
    ensures issue in ValuesIssues(v, k, path) <==>
      issue.path == path && (issue.complaint == NotInEnum || issue.complaint == NotTheConst) && ValueFault(ms, v, issue.complaint)
  {
    hide Canonical, Reads, ValueFault;
    EnumTells(ms, k, v);
    ConstTells(ms, k, v);
  }

  lemma {:induction false} RequiredTell(members: seq<Member>, required: seq<string>, path: string, issue: Issue)
    ensures issue in RequiredIssues(members, required, path) <==>
      issue.path == path && issue.complaint.Missing? && issue.complaint.name in required && !HasName(members, issue.complaint.name)
  {
    if required != [] {
      RequiredTell(members, required[1..], path, issue);
      assert forall n :: n in required <==> n == required[0] || n in required[1..];
      assert Lookup(members, required[0]).Some? <==> HasName(members, required[0]);
    }
  }

  lemma RequiredTells(ms: seq<Member>, k: Keywords, members: seq<Member>, path: string, issue: Issue)
    requires Reads(ms, k)
    ensures issue in RequiredIssues(members, k.required, path) <==>
      issue.path == path && issue.complaint.Missing? && ObjectFault(ms, members, issue.complaint)
  {
    ReadingFails(ms);
    FieldsAreRead(ms, k);
    Asked(ms, "required");
    hide ReadKeywords, Lookup, DistinctNames, HasName, Strings, RequiredIssues, Reads;
    RequiredTell(members, k.required, path, issue);
    match Lookup(ms, "required") {
      case Some(Arr(items)) => StringsRead(items);
      case _ =>
    }
  }

  /** A limit, when it is a number, is the one read. */
  lemma LimitAsked(ms: seq<Member>, name: string, n: real)
    requires DistinctNames(ms)
    ensures var limit := Opt(AsNumber(Get(ms, name)));
      && ((limit.Some? && n < limit.value) <==> exists x :: Member(name, x) in ms && IsNumber(x) && n < NumberValue(x))
      && ((limit.Some? && n > limit.value) <==> exists x :: Member(name, x) in ms && IsNumber(x) && n > NumberValue(x))
      && ((limit.Some? && n <= limit.value) <==> exists x :: Member(name, x) in ms && IsNumber(x) && n <= NumberValue(x))
      && ((limit.Some? && n >= limit.value) <==> exists x :: Member(name, x) in ms && IsNumber(x) && n >= NumberValue(x))
  {
    hide Get, AsNumber, NumberValue, DistinctNames, Limit;
    LimitRead(ms, name);
  }

  lemma CountsTell(ms: seq<Member>, k: Keywords, n: nat)
    requires Reads(ms, k)
    ensures (k.minItems.Some? && (n as real) < k.minItems.value) <==>
            exists x :: Member("minItems", x) in ms && IsNumber(x) && (n as real) < NumberValue(x)
    ensures (k.maxItems.Some? && n as real > k.maxItems.value) <==>
            exists x :: Member("maxItems", x) in ms && IsNumber(x) && n as real > NumberValue(x)
    ensures (k.minLength.Some? && (n as real) < k.minLength.value) <==>
            exists x :: Member("minLength", x) in ms && IsNumber(x) && (n as real) < NumberValue(x)
    ensures (k.maxLength.Some? && n as real > k.maxLength.value) <==>
            exists x :: Member("maxLength", x) in ms && IsNumber(x) && n as real > NumberValue(x)
  {
    LimitsOf(ms, k);
    hide ReadKeywords, Get, AsNumber, DistinctNames, NumberValue, IsNumber;
    LimitAsked(ms, "minItems", n as real);
    LimitAsked(ms, "maxItems", n as real);
    LimitAsked(ms, "minLength", n as real);
    LimitAsked(ms, "maxLength", n as real);
  }

  lemma UniqueTells(ms: seq<Member>, k: Keywords)
    requires Reads(ms, k)
    ensures k.unique <==> Member("uniqueItems", Bool(true)) in ms
  {
    FieldsAreRead(ms, k);
    hide ReadKeywords, Get, AsFlag, DistinctNames;
    FlagRead(ms);
  }

  lemma ArrayTells(ms: seq<Member>, k: Keywords, items: seq<Json>, path: string, issue: Issue)
    requires Reads(ms, k)
    ensures issue in ArrayIssues(items, k, path) <==> issue.path == path && ArrayFault(ms, items, issue.complaint)
  {
    hide Canonical, NumberValue, Reads, IsNumber;
    CountsTell(ms, k, |items|);
    UniqueTells(ms, k);
  }

  lemma PatternTells(env: Env, ms: seq<Member>, k: Keywords, s: string)
    requires Reads(ms, k)
    ensures (k.pattern.Some? && !env.search(k.pattern.value, s)) <==> TextFault(env, ms, s, NoPatternMatch)
  {
    FieldsAreRead(ms, k);
    hide ReadKeywords, Get, AsString, DistinctNames;
    PatternRead(ms);
    assert forall x: Json | x.Str? :: x == Str(x.s);
  }

  lemma TextTells(env: Env, ms: seq<Member>, k: Keywords, s: string, path: string, issue: Issue)
    requires Reads(ms, k)
    ensures issue in StringIssues(env, s, k, path) <==> issue.path == path && TextFault(env, ms, s, issue.complaint)
  {
    hide NumberValue, Reads, IsNumber, TextFault, StringIssues;
    PatternTells(env, ms, k, s);
    CountsTell(ms, k, |s|);
    TextFaults(env, ms, s, issue.complaint);
    StringIssuesAre(env, s, k, path, issue);
  }

  lemma TextFaults(env: Env, ms: seq<Member>, s: string, c: Complaint)
    ensures TextFault(env, ms, s, TooShort) <==> exists x :: Member("minLength", x) in ms && IsNumber(x) && (|s| as real) < NumberValue(x)
    ensures TextFault(env, ms, s, TooLong) <==> exists x :: Member("maxLength", x) in ms && IsNumber(x) && |s| as real > NumberValue(x)
    ensures TextFault(env, ms, s, c) ==> c == NoPatternMatch || c == TooShort || c == TooLong
  {
    hide NumberValue, IsNumber;
  }

  lemma StringIssuesAre(env: Env, s: string, k: Keywords, path: string, issue: Issue)
    ensures issue in StringIssues(env, s, k, path) <==> (
      || (issue == Issue(path, NoPatternMatch) && k.pattern.Some? && !env.search(k.pattern.value, s))
      || (issue == Issue(path, TooShort) && k.minLength.Some? && (|s| as real) < k.minLength.value)
      || (issue == Issue(path, TooLong) && k.maxLength.Some? && |s| as real > k.maxLength.value))
  {
  }

  lemma LowTells(ms: seq<Member>, k: Keywords, n: real)
    requires Reads(ms, k)
    ensures (k.minimum.Some? && n < k.minimum.value) <==> NumberFault(ms, n, BelowMinimum)
    ensures (k.exclusiveMinimum.Some? && n <= k.exclusiveMinimum.value) <==> NumberFault(ms, n, NotAboveExclusive)
  {
    hide ReadKeywords, Get, AsNumber, DistinctNames, NumberValue, IsNumber;
    LimitsOf(ms, k);
    LimitAsked(ms, "minimum", n);
    LimitAsked(ms, "exclusiveMinimum", n);
  }

  lemma HighTells(ms: seq<Member>, k: Keywords, n: real)
    requires Reads(ms, k)
    ensures (k.maximum.Some? && n > k.maximum.value) <==> NumberFault(ms, n, AboveMaximum)
    ensures (k.exclusiveMaximum.Some? && n >= k.exclusiveMaximum.value) <==> NumberFault(ms, n, NotBelowExclusive)
  {
    hide ReadKeywords, Get, AsNumber, DistinctNames, NumberValue, IsNumber;
    LimitsOf(ms, k);
    LimitAsked(ms, "maximum", n);
    LimitAsked(ms, "exclusiveMaximum", n);
  }

  lemma NumberTells(ms: seq<Member>, k: Keywords, n: real, path: string, issue: Issue)
    requires Reads(ms, k)
    ensures issue in NumberIssues(n, k, path) <==> issue.path == path && NumberFault(ms, n, issue.complaint)
  {
    hide NumberFault, Reads, NumberIssues;
    LowTells(ms, k, n);
    HighTells(ms, k, n);
    NoOtherBound(ms, n, issue.complaint);
    NumberIssuesAre(n, k, path, issue);
  }

  lemma NumberIssuesAre(n: real, k: Keywords, path: string, issue: Issue)
    ensures issue in NumberIssues(n, k, path) <==> (
      || (issue == Issue(path, BelowMinimum) && k.minimum.Some? && n < k.minimum.value)
      || (issue == Issue(path, AboveMaximum) && k.maximum.Some? && n > k.maximum.value)
      || (issue == Issue(path, NotAboveExclusive) && k.exclusiveMinimum.Some? && n <= k.exclusiveMinimum.value)
      || (issue == Issue(path, NotBelowExclusive) && k.exclusiveMaximum.Some? && n >= k.exclusiveMaximum.value))
  {
  }

  lemma NoOtherBound(ms: seq<Member>, n: real, c: Complaint)
    ensures NumberFault(ms, n, c) ==> c == BelowMinimum || c == AboveMaximum || c == NotAboveExclusive || c == NotBelowExclusive
  {
  }

  // ---------------------------------------------------------------- branches

  lemma {:induction false} AnyCounts(env: Env, v: Json, branches: seq<Json>, depth: nat)
    ensures RunAny(env, v, branches, depth).Yes? ==> (RunAny(env, v, branches, depth).holds <==> Passed(env, v, branches, depth) > 0)
  {
    hide Run;
    if branches != [] {
      AnyCounts(env, v, branches[1..], depth);
    }
  }

  lemma {:induction false} CountCounts(env: Env, v: Json, branches: seq<Json>, depth: nat)
    ensures RunCount(env, v, branches, depth).Counted? ==> RunCount(env, v, branches, depth).n == Passed(env, v, branches, depth)
  {
    hide Run;
    if branches != [] {
      CountCounts(env, v, branches[1..], depth);
    }
  }

  lemma {:induction false} AllTell(env: Env, v: Json, branches: seq<Json>, path: string, depth: nat, issue: Issue)
    ensures Tells(RunAll(env, v, branches, path, depth), issue, exists t :: t in branches && Reports(env, v, t, path, depth, issue))
  {
    hide Run;
    if branches != [] {
      AllTell(env, v, branches[1..], path, depth, issue);
      assert forall t :: t in branches <==> t == branches[0] || t in branches[1..];
      ThenTells(Run(env, v, branches[0], path, depth), RunAll(env, v, branches[1..], path, depth), issue,
                Reports(env, v, branches[0], path, depth, issue),
                exists t :: t in branches[1..] && Reports(env, v, t, path, depth, issue));
    }
  }

  lemma BranchesTell(env: Env, ms: seq<Member>, k: Keywords, v: Json, path: string, depth: nat, issue: Issue)
    requires Reads(ms, k)
    ensures Tells(RunCombinators(env, v, k, path, depth), issue,
                  FromBranch(env, ms, v, path, depth, issue) || (issue.path == path && BranchFault(env, ms, v, depth, issue.complaint)))
  {
    hide Reads, Run, RunAny, RunCount, RunAll, Reports, Passed, RunAnyOf, RunOneOf, RunNot;
    BranchesAreRead(ms, k);
    AllTell(env, v, k.allOf, path, depth, issue);
    AnyOfTells(env, ms, k, v, path, depth, issue);
    OneOfTells(env, ms, k, v, path, depth, issue);
    NotTells(env, ms, k, v, path, depth, issue);
    var all, any, one, no := RunAll(env, v, k.allOf, path, depth), RunAnyOf(env, v, k.anyOf, path, depth),
                             RunOneOf(env, v, k.oneOf, path, depth), RunNot(env, v, k.notSchema, path, depth);
    assert RunCombinators(env, v, k, path, depth) == Then(all, Then(any, Then(one, no)));
  }

  lemma BranchesAsked(env: Env, ms: seq<Member>, k: Keywords, v: Json, depth: nat)
    requires Reads(ms, k)
    ensures BranchFault(env, ms, v, depth, NoBranch) <==> k.anyOf.Some? && Passed(env, v, k.anyOf.value, depth) == 0
    ensures forall n :: BranchFault(env, ms, v, depth, WrongBranchCount(n)) <==>
      k.oneOf.Some? && Passed(env, v, k.oneOf.value, depth) == n && n != 1
    ensures BranchFault(env, ms, v, depth, MatchesNot) <==> k.notSchema.Some? && Passes(env, v, k.notSchema.value, depth)
  {
    hide Reads, Passes, Passed;
    BranchesAreRead(ms, k);
  }

  lemma AnyOfTells(env: Env, ms: seq<Member>, k: Keywords, v: Json, path: string, depth: nat, issue: Issue)
    requires Reads(ms, k)
    ensures Tells(RunAnyOf(env, v, k.anyOf, path, depth), issue,
                  issue.path == path && issue.complaint == NoBranch && BranchFault(env, ms, v, depth, NoBranch))
  {
    hide Reads, Run, RunAny, Passed, BranchFault;
    BranchesAsked(env, ms, k, v, depth);
    if k.anyOf.Some? {
      AnyCounts(env, v, k.anyOf.value, depth);
    }
  }

  lemma OneOfTells(env: Env, ms: seq<Member>, k: Keywords, v: Json, path: string, depth: nat, issue: Issue)
    requires Reads(ms, k)
    ensures Tells(RunOneOf(env, v, k.oneOf, path, depth), issue,
                  issue.path == path && issue.complaint.WrongBranchCount? && BranchFault(env, ms, v, depth, issue.complaint))
  {
    hide Reads, Run, RunCount, Passed, BranchFault;
    BranchesAsked(env, ms, k, v, depth);
    if k.oneOf.Some? {
      CountCounts(env, v, k.oneOf.value, depth);
    }
  }

  lemma NotTells(env: Env, ms: seq<Member>, k: Keywords, v: Json, path: string, depth: nat, issue: Issue)
    requires Reads(ms, k)
    ensures Tells(RunNot(env, v, k.notSchema, path, depth), issue,
                  issue.path == path && issue.complaint == MatchesNot && BranchFault(env, ms, v, depth, MatchesNot))
  {
    hide Reads, Run, BranchFault;
    BranchesAsked(env, ms, k, v, depth);
  }

  // ---------------------------------------------------------------- parts of the instance

  lemma {:induction false} PropertiesTell(env: Env, members: seq<Member>, k: Keywords, path: string, depth: nat, issue: Issue)
    ensures Tells(RunProperties(env, members, k, path, depth), issue,
                  exists m :: m in members && Lookup(k.properties, m.name).Some?
                    && Reports(env, m.value, Lookup(k.properties, m.name).value, path + "/" + m.name, depth, issue))
  {
    hide Run, Lookup;
    if members != [] {
      PropertiesTell(env, members[1..], k, path, depth, issue);
      assert forall m :: m in members <==> m == members[0] || m in members[1..];
    }
  }

  lemma {:induction false} AdditionalTell(env: Env, members: seq<Member>, k: Keywords, path: string, depth: nat, issue: Issue)
    ensures Tells(RunAdditional(env, members, k, path, depth), issue,
                  exists m :: m in members && Tells(RunExtra(env, m, k, path, depth), issue, true)
                    && RunExtra(env, m, k, path, depth).Found?)
    ensures RunAdditional(env, members, k, path, depth).Found? ==> forall m | m in members :: RunExtra(env, m, k, path, depth).Found?
  {
    hide Run, RunExtra;
    if members != [] {
      AdditionalTell(env, members[1..], k, path, depth, issue);
      assert forall m :: m in members <==> m == members[0] || m in members[1..];
    }
  }

  lemma {:induction false} ItemsTell(env: Env, items: seq<Json>, t: Json, path: string, index: nat, depth: nat, issue: Issue)
    requires index <= |items|
    ensures Tells(RunItems(env, items, t, path, index, depth), issue,
                  exists i: nat :: index <= i < |items| && Reports(env, items[i], t, path + "/" + Decimal(i), depth, issue))
    decreases |items| - index
  {
    hide Run, Decimal;
    if index < |items| {
      ItemsTell(env, items, t, path, index + 1, depth, issue);
    }
  }

  /** The schema a property's name leads to is the one written under that name. */
  lemma PropertyNamed(ms: seq<Member>, k: Keywords, name: string)
    requires Reads(ms, k) && DistinctNames(k.properties)
    ensures Lookup(k.properties, name).Some? <==> Declared(ms, name)
    ensures forall t :: Lookup(k.properties, name) == Some(t) <==>
      exists x :: Member("properties", x) in ms && x.Obj? && Member(name, t) in x.members
  {
    hide ReadKeywords, Get, AsObject;
    FieldsAreRead(ms, k);
    PropertiesRead(ms);
    forall t ensures Lookup(k.properties, name) == Some(t) <==> Member(name, t) in k.properties {
      LookupFinds(k.properties, name, t);
    }
    hide Lookup, DistinctNames;
    assert Declared(ms, name) <==> exists q :: q in k.properties && q.name == name;
    assert forall q: Member | q.name == name :: q == Member(name, q.value);
  }

  lemma MembersTell(env: Env, ms: seq<Member>, k: Keywords, members: seq<Member>, path: string, depth: nat, issue: Issue)
    requires Reads(ms, k) && DistinctNames(k.properties)
    ensures Tells(RunProperties(env, members, k, path, depth), issue, FromProperty(env, ms, members, path, depth, issue))
  {
    hide Reads, DistinctNames, Run, Reports, RunProperties;
    PropertiesTell(env, members, k, path, depth, issue);
    if m :| && m in members && Lookup(k.properties, m.name).Some?
            && Reports(env, m.value, Lookup(k.properties, m.name).value, path + "/" + m.name, depth, issue)
    {
      var t := Lookup(k.properties, m.name).value;
      PropertyNamed(ms, k, m.name);
      var x :| Member("properties", x) in ms && x.Obj? && Member(m.name, t) in x.members;
      var q := Member(m.name, t);
      assert Reports(env, m.value, q.value, path + "/" + m.name, depth, issue);
    }
    if FromProperty(env, ms, members, path, depth, issue) {
      var m, x, q :| m in members && Member("properties", x) in ms && x.Obj? && q in x.members && q.name == m.name
        && Reports(env, m.value, q.value, path + "/" + m.name, depth, issue);
      PropertyNamed(ms, k, m.name);
      assert q == Member(m.name, q.value);
      assert Lookup(k.properties, m.name) == Some(q.value);
    }
  }

  lemma AdditionalNamed(ms: seq<Member>, k: Keywords)
    requires Reads(ms, k)
    ensures forall x :: k.additional == Some(x) <==> Member("additionalProperties", x) in ms && x != Null
  {
    hide ReadKeywords, Get;
    FieldsAreRead(ms, k);
    forall x ensures Get(ms, "additionalProperties") == Some(x) <==> Member("additionalProperties", x) in ms && x != Null {
      GotUnlessNull(ms, "additionalProperties", x);
    }
  }

  ghost predicate ExtraTold(env: Env, ms: seq<Member>, m: Member, path: string, depth: nat, issue: Issue) {
    !Declared(ms, m.name) && (
      || (Member("additionalProperties", Bool(false)) in ms && issue == Issue(path, NotAllowed(m.name)))
      || exists x :: Member("additionalProperties", x) in ms && x.Obj? && Reports(env, m.value, x, path + "/" + m.name, depth, issue))
  }

  lemma ExtraTells(env: Env, ms: seq<Member>, k: Keywords, m: Member, path: string, depth: nat, issue: Issue)
    requires Reads(ms, k) && DistinctNames(k.properties)
    ensures Tells(RunExtra(env, m, k, path, depth), issue, ExtraTold(env, ms, m, path, depth, issue))
  {
    hide Reads, DistinctNames, Run, Declared;
    PropertyNamed(ms, k, m.name);
    AdditionalNamed(ms, k);
  }

  lemma AdditionalTells(env: Env, ms: seq<Member>, k: Keywords, members: seq<Member>, path: string, depth: nat, issue: Issue)
    requires Reads(ms, k) && DistinctNames(k.properties)
    ensures Tells(RunAdditional(env, members, k, path, depth), issue,
      || FromAdditional(env, ms, members, path, depth, issue)
      || (issue.path == path && issue.complaint.NotAllowed? && ObjectFault(ms, members, issue.complaint)))
  {
    hide Reads, DistinctNames, RunExtra, RunAdditional, Reports, ExtraTold;
    AdditionalTell(env, members, k, path, depth, issue);
    forall m | m in members ensures Tells(RunExtra(env, m, k, path, depth), issue, ExtraTold(env, ms, m, path, depth, issue)) {
      ExtraTells(env, ms, k, m, path, depth, issue);
    }
    ExtrasTold(env, ms, members, path, depth, issue);
  }

  lemma ExtrasTold(env: Env, ms: seq<Member>, members: seq<Member>, path: string, depth: nat, issue: Issue)
    ensures (exists m :: m in members && ExtraTold(env, ms, m, path, depth, issue)) <==> (
      || FromAdditional(env, ms, members, path, depth, issue)
      || (issue.path == path && issue.complaint.NotAllowed? && ObjectFault(ms, members, issue.complaint)))
  {
    hide Reports, Declared;
    if issue.path == path && issue.complaint.NotAllowed? && ObjectFault(ms, members, issue.complaint) {
      var m :| m in members && m.name == issue.complaint.name;
      assert ExtraTold(env, ms, m, path, depth, issue);
    }
    if FromAdditional(env, ms, members, path, depth, issue) {
      var m, x :| m in members && Member("additionalProperties", x) in ms && x.Obj? && !Declared(ms, m.name)
        && Reports(env, m.value, x, path + "/" + m.name, depth, issue);
      assert ExtraTold(env, ms, m, path, depth, issue);
    }
  }

  lemma ObjectFaults(ms: seq<Member>, members: seq<Member>, c: Complaint)
    ensures ObjectFault(ms, members, c) ==> c.Missing? || c.NotAllowed?
  {
  }

  lemma ObjectTells(env: Env, ms: seq<Member>, k: Keywords, members: seq<Member>, path: string, depth: nat, issue: Issue)
    requires Reads(ms, k) && DistinctNames(k.properties)
    ensures Tells(RunObject(env, members, k, path, depth), issue,
      || FromProperty(env, ms, members, path, depth, issue)
      || FromAdditional(env, ms, members, path, depth, issue)
      || (issue.path == path && ObjectFault(ms, members, issue.complaint)))
  {
    hide Reads, DistinctNames, RunProperties, RunAdditional, RequiredIssues, ObjectFault, FromProperty, FromAdditional;
    RequiredTells(ms, k, members, path, issue);
    MembersTell(env, ms, k, members, path, depth, issue);
    AdditionalTells(env, ms, k, members, path, depth, issue);
    ObjectFaults(ms, members, issue.complaint);
  }

  lemma ListTells(env: Env, ms: seq<Member>, k: Keywords, items: seq<Json>, path: string, depth: nat, issue: Issue)
    requires Reads(ms, k)
    ensures Tells(RunArray(env, items, k, path, depth), issue,
      FromItem(env, ms, items, path, depth, issue) || (issue.path == path && ArrayFault(ms, items, issue.complaint)))
  {
    hide Reads, Run, ArrayFault, ArrayIssues, Reports, RunItems, Decimal;
    ArrayTells(ms, k, items, path, issue);
    ItemsAreRead(ms, k);
    if k.items.Some? {
      var t := k.items.value;
      ItemsTell(env, items, t, path, 0, depth, issue);
      assert FromItem(env, ms, items, path, depth, issue) <==>
        exists i: nat :: i < |items| && Reports(env, items[i], t, path + "/" + Decimal(i), depth, issue);
    }
  }

  lemma KindTells(env: Env, ms: seq<Member>, k: Keywords, v: Json, path: string, depth: nat, issue: Issue)
    requires Reads(ms, k) && DistinctNames(k.properties)
    ensures Tells(RunByKind(env, v, k, path, depth), issue,
      || (v.Obj? && FromProperty(env, ms, v.members, path, depth, issue))
      || (v.Obj? && FromAdditional(env, ms, v.members, path, depth, issue))
      || (v.Arr? && FromItem(env, ms, v.items, path, depth, issue))
      || (issue.path == path && (
        || (v.Obj? && ObjectFault(ms, v.members, issue.complaint))
        || (v.Arr? && ArrayFault(ms, v.items, issue.complaint))
        || (v.Str? && TextFault(env, ms, v.s, issue.complaint))
        || (IsNumber(v) && NumberFault(ms, NumberValue(v), issue.complaint)))))
  {
    hide Reads, DistinctNames, RunObject, RunArray, StringIssues, NumberIssues, NumberValue;
    hide FromProperty, FromAdditional, FromItem, ObjectFault, ArrayFault, TextFault, NumberFault;
    if v.Obj? {
      ObjectTells(env, ms, k, v.members, path, depth, issue);
    } else if v.Arr? {
      ListTells(env, ms, k, v.items, path, depth, issue);
    } else if v.Str? {
      TextTells(env, ms, k, v.s, path, issue);
    } else if IsNumber(v) {
      NumberTells(ms, k, NumberValue(v), path, issue);
    }
  }

  lemma ValueFaults(ms: seq<Member>, v: Json, c: Complaint)
    ensures ValueFault(ms, v, c) ==> c == WrongType || c == NotInEnum || c == NotTheConst
  {
  }

  lemma AnyInstanceTells(env: Env, ms: seq<Member>, k: Keywords, v: Json, path: string, depth: nat, issue: Issue)
    requires Reads(ms, k)
    ensures Tells(RunAnyInstance(env, v, k, path, depth), issue,
      || FromBranch(env, ms, v, path, depth, issue)
      || (issue.path == path && (ValueFault(ms, v, issue.complaint) || BranchFault(env, ms, v, depth, issue.complaint))))
  {
    hide Reads, ValueFault, BranchFault, FromBranch, RunCombinators, ValuesIssues, TypePart;
    TypeTells(ms, k, v, path, issue);
    ValuesTell(ms, k, v, path, issue);
    BranchesTell(env, ms, k, v, path, depth, issue);
    ValueFaults(ms, v, issue.complaint);
  }

  lemma KeywordsTell(env: Env, ms: seq<Member>, k: Keywords, v: Json, path: string, depth: nat, issue: Issue)
    requires Reads(ms, k) && DistinctNames(k.properties)
    ensures Tells(RunKeywords(env, v, k, path, depth), issue,
      (issue.path == path && Fault(env, ms, v, depth, issue.complaint)) || FromBelow(env, ms, v, path, depth, issue))
  {
    hide Reads, DistinctNames, RunAnyInstance, RunByKind, NumberValue;
    hide ValueFault, BranchFault, FromBranch, FromProperty, FromAdditional, FromItem, ObjectFault, ArrayFault, TextFault, NumberFault;
    AnyInstanceTells(env, ms, k, v, path, depth, issue);
    KindTells(env, ms, k, v, path, depth, issue);
  }

  /** A schema object that is no reference reports an issue exactly when one of its members, told by
      its name, faults the instance here, or a schema it applies to the instance or to a part of it
      reports that issue at that part's place. */
  lemma ReportLevel(env: Env, ms: seq<Member>, v: Json, path: string, depth: nat, issue: Issue)
    requires depth > 0 && WellFormed(Obj(ms)) && forall m | m in ms :: m.name != "$ref"
    requires Run(env, v, Obj(ms), path, depth).Found?
    ensures issue in Run(env, v, Obj(ms), path, depth).issues <==> (
      (issue.path == path && Fault(env, ms, v, depth - 1, issue.complaint)) || FromBelow(env, ms, v, path, depth - 1, issue))
  {
    hide ReadKeywords, HasUnknownKeyword, RunKeywords, Fault, FromBelow, WellFormed, DistinctNames;
    NoReference(ms);
    NamesDiffer(ms);
    if ms == [] {
      NothingAsked(env, v, path, depth - 1, issue);
    } else {
      var k := ReadKeywords(ms).value;
      assert Reads(ms, k);
      PropertiesAreDistinct(ms, k);
      KeywordsTell(env, ms, k, v, path, depth - 1, issue);
    }
  }

  lemma NamesDiffer(ms: seq<Member>)
    requires WellFormed(Obj(ms))
    ensures DistinctNames(ms)
  {
  }

  lemma NothingAsked(env: Env, v: Json, path: string, depth: nat, issue: Issue)
    ensures !Fault(env, [], v, depth, issue.complaint) && !FromBelow(env, [], v, path, depth, issue)
  {
    hide Reports, Passed, Canonical, NumberValue;
  }

  /** A reference reports what it names reports, in the same place. */
  lemma ReferenceReports(env: Env, ms: seq<Member>, v: Json, path: string, depth: nat, r: string)
    requires depth > 0 && DistinctNames(ms) && Member("$ref", Str(r)) in ms
    requires Run(env, v, Obj(ms), path, depth).Found?
    ensures Resolve(r, env.root).Some?
    ensures Run(env, v, Obj(ms), path, depth) == Run(env, v, Resolve(r, env.root).value, path, depth - 1)
  {
    hide Resolve, DistinctNames, HasUnknownKeyword, HasAssertionBesideRef;
    LookupFinds(ms, "$ref", Str(r));
  }

  // ---------------------------------------------------------------- refusals

  ghost predicate Annotates(name: string) {
    || name in {"$comment", "$id", "$schema", "default", "definitions", "description"}
    || name in {"examples", "format", "readOnly", "title", "writeOnly"}
  }

  ghost predicate Asserts(name: string) {
    || name in {"type", "enum", "const", "allOf", "anyOf", "oneOf", "not"}
    || name in {"properties", "required", "additionalProperties", "items", "minItems", "maxItems", "uniqueItems"}
    || name in {"pattern", "minLength", "maxLength", "minimum", "maximum", "exclusiveMinimum", "exclusiveMaximum"}
  }

  lemma NamesInUse(ms: seq<Member>)
    ensures !HasUnknownKeyword(ms) <==> forall m | m in ms :: Annotates(m.name) || Asserts(m.name) || m.name == "$ref"
    ensures !HasAssertionBesideRef(ms) <==> forall m | m in ms :: Annotates(m.name) || m.name == "$ref"
  {
  }

  /** What is refused before anything is judged: a schema that is neither an object nor a boolean, a
      name outside the subset, a name beside `$ref` that would be lost, a reference to nothing; and
      what cannot be read. */
  lemma RefusedByNames(env: Env, ms: seq<Member>, v: Json, path: string, depth: nat)
    requires depth > 0 && WellFormed(Obj(ms))
    ensures (exists m :: m in ms && !Annotates(m.name) && !Asserts(m.name) && m.name != "$ref") ==>
      Run(env, v, Obj(ms), path, depth) == Stopped(Unsupported)
    ensures (exists m, r :: m in ms && Asserts(m.name) && Member("$ref", r) in ms) ==>
      Run(env, v, Obj(ms), path, depth) == Stopped(Unsupported)
    ensures (forall m | m in ms :: Annotates(m.name) || Asserts(m.name)) && !WellShaped(ms) ==>
      Run(env, v, Obj(ms), path, depth) == Stopped(Malformed)
  {
    hide ReadKeywords, HasUnknownKeyword, HasAssertionBesideRef, RunKeywords, WellFormed, WellShaped, DistinctNames;
    hide Annotates, Asserts, Resolve;
    NamesInUse(ms);
    NamesDiffer(ms);
    NamesApart();
    forall r | Member("$ref", r) in ms ensures Lookup(ms, "$ref") == Some(r) {
      LookupFinds(ms, "$ref", r);
    }
    hide Lookup;
    EmptyIsShaped();
    ReadExactly(ms);
    if forall m | m in ms :: m.name != "$ref" {
      NoReference(ms);
    }
  }

  lemma NamesApart()
    ensures forall n | Asserts(n) :: !Annotates(n) && n != "$ref"
    ensures !Annotates("$ref")
  {
  }

  lemma EmptyIsShaped()
    ensures WellShaped([])
  {
  }

  lemma OtherSchemas(env: Env, v: Json, t: Json, path: string, depth: nat)
    requires depth > 0 && !t.Obj?
    ensures Run(env, v, t, path, depth) ==
      if t == Bool(true) then Found([]) else if t == Bool(false) then Found([Issue(path, FalseSchema)]) else Stopped(Unsupported)
  {
  }
}
