/** The draft-07 subset validator: what each construct reports, as a function of the instance,
    the schema and the nesting the interpreter still allows, and the validator that appends these
    reports to a shared list. */
module JsonSchema {
  import opened Numerals
  import opened Options
  import opened JsonValues
  import opened Text

  /** What ends a validation without a verdict: the refusal of a construct outside the subset, a
      keyword value of the wrong shape, or the recursion limit. */
  datatype Stop = Unsupported | Malformed | TooDeep

  datatype Complaint =
    | FalseSchema | WrongType | NotInEnum | NotTheConst
    | NoBranch | WrongBranchCount(matched: nat) | MatchesNot
    | Missing(name: string) | NotAllowed(name: string)
    | TooFewItems | TooManyItems | NotUnique
    | NoPatternMatch | TooShort | TooLong
    | BelowMinimum | AboveMaximum | NotAboveExclusive | NotBelowExclusive

  datatype Issue = Issue(path: string, complaint: Complaint)

  /** The result of a validation: the issues found, or why there is none. */
  datatype Outcome = Found(issues: seq<Issue>) | Stopped(stop: Stop)

  /** The result of trying a branch. */
  datatype Truth = Yes(holds: bool) | Halted(stop: Stop)

  datatype Count = Counted(n: nat) | CountStopped(stop: Stop)

  /** The document `$ref` points into, and the regular-expression search of the host. */
  datatype Env = Env(root: Json, search: (string, string) -> bool)

  function Then(a: Outcome, b: Outcome): Outcome {
    if a.Stopped? then a else if b.Stopped? then b else Found(a.issues + b.issues)
  }

  function When(bad: bool, path: string, complaint: Complaint): seq<Issue> {
    if bad then [Issue(path, complaint)] else []
  }

  // ---------------------------------------------------------------- reading a schema

  const ANNOTATION_KEYWORDS: seq<string> := [
    "$comment", "$id", "$schema", "default", "definitions", "description", "examples", "format", "readOnly",
    "title", "writeOnly"
  ]

  const SUPPORTED_KEYWORDS: seq<string> := [
    "$ref", "additionalProperties", "allOf", "anyOf", "const", "enum", "exclusiveMaximum", "exclusiveMinimum",
    "items", "maxItems", "maxLength", "maximum", "minItems", "minLength", "minimum", "not", "oneOf", "pattern",
    "properties", "required", "type", "uniqueItems"
  ]

  function Lookup(members: seq<Member>, name: string): (r: Option<Json>)
    ensures r.Some? ==> Member(name, r.value) in members
    ensures r.None? ==> forall m | m in members :: m.name != name
  {
    if members == [] then None
    else if members[0].name == name then Some(members[0].value)
    else Lookup(members[1..], name)
  }

  /** `dict.get`: an absent member and a null one read alike. */
  function Get(members: seq<Member>, name: string): (r: Option<Json>)
    ensures r.Some? ==> Member(name, r.value) in members
  {
    var r := Lookup(members, name);
    if r == Some(Null) then None else r
  }

  predicate HasUnknownKeyword(members: seq<Member>) {
    exists i | 0 <= i < |members| :: members[i].name !in SUPPORTED_KEYWORDS && members[i].name !in ANNOTATION_KEYWORDS
  }

  predicate HasAssertionBesideRef(members: seq<Member>) {
    exists i | 0 <= i < |members| :: members[i].name != "$ref" && members[i].name !in ANNOTATION_KEYWORDS
  }

  /** The assertion keywords of a schema object, each with its value in the shape it must have. */
  datatype Keywords = Keywords(
    typeNames: Option<seq<string>>, enumValues: Option<seq<Json>>, constValue: Option<Json>,
    allOf: seq<Json>, anyOf: Option<seq<Json>>, oneOf: Option<seq<Json>>, notSchema: Option<Json>,
    required: seq<string>, properties: seq<Member>, additional: Option<Json>,
    items: Option<Json>, minItems: Option<real>, maxItems: Option<real>, unique: bool,
    pattern: Option<string>, minLength: Option<real>, maxLength: Option<real>,
    minimum: Option<real>, maximum: Option<real>, exclusiveMinimum: Option<real>, exclusiveMaximum: Option<real>)

  function Strings(items: seq<Json>): Option<seq<string>> {
    if items == [] then Some([])
    else
      var rest := Strings(items[1..]);
      if items[0].Str? && rest.Some? then Some([items[0].s] + rest.value) else None
  }

  /** A keyword value that has been looked up and shaped; `Bad` when it cannot be. */
  datatype Shaped<+T> = Absent | Good(value: T) | Bad

  function AsArray(v: Option<Json>): Shaped<seq<Json>> {
    match v case None => Absent case Some(Arr(items)) => Good(items) case _ => Bad
  }

  function AsObject(v: Option<Json>): Shaped<seq<Member>> {
    match v case None => Absent case Some(Obj(members)) => Good(members) case _ => Bad
  }

  function AsStrings(v: Option<Json>): Shaped<seq<string>> {
    match v
    case None => Absent
    case Some(Arr(items)) => (match Strings(items) case Some(names) => Good(names) case None => Bad)
    case _ => Bad
  }

  function AsNames(v: Option<Json>): Shaped<seq<string>> {
    match v case Some(Str(name)) => Good([name]) case _ => AsStrings(v)
  }

  function AsString(v: Option<Json>): Shaped<string> {
    match v case None => Absent case Some(Str(s)) => Good(s) case _ => Bad
  }

  function AsNumber(v: Option<Json>): Shaped<real> {
    match v case None => Absent case Some(x) => if IsNumber(x) then Good(NumberValue(x)) else Bad
  }

  function AsFlag(v: Option<Json>): Shaped<bool> {
    match v case None => Absent case Some(Bool(b)) => Good(b) case _ => Bad
  }

  function Opt<T>(s: Shaped<T>): Option<T> {
    if s.Good? then Some(s.value) else None
  }

  function Or<T>(s: Shaped<T>, default: T): T {
    if s.Good? then s.value else default
  }

  function ReadKeywords(ms: seq<Member>): Option<Keywords> {
    var typeNames, required := AsNames(Get(ms, "type")), AsStrings(Lookup(ms, "required"));
    var enumValues := AsArray(Lookup(ms, "enum"));
    var allOf, anyOf, oneOf := AsArray(Lookup(ms, "allOf")), AsArray(Lookup(ms, "anyOf")), AsArray(Lookup(ms, "oneOf"));
    var properties, unique := AsObject(Lookup(ms, "properties")), AsFlag(Get(ms, "uniqueItems"));
    var minItems, maxItems := AsNumber(Get(ms, "minItems")), AsNumber(Get(ms, "maxItems"));
    var pattern := AsString(Get(ms, "pattern"));
    var minLength, maxLength := AsNumber(Get(ms, "minLength")), AsNumber(Get(ms, "maxLength"));
    var minimum, maximum := AsNumber(Get(ms, "minimum")), AsNumber(Get(ms, "maximum"));
    var low, high := AsNumber(Get(ms, "exclusiveMinimum")), AsNumber(Get(ms, "exclusiveMaximum"));
    if typeNames.Bad? || required.Bad? || enumValues.Bad? || allOf.Bad? || anyOf.Bad? || oneOf.Bad? || properties.Bad?
       || unique.Bad? || minItems.Bad? || maxItems.Bad? || pattern.Bad? || minLength.Bad? || maxLength.Bad?
       || minimum.Bad? || maximum.Bad? || low.Bad? || high.Bad?
    then None
    else Some(Keywords(
      Opt(typeNames), Opt(enumValues), Lookup(ms, "const"),
      Or(allOf, []), Opt(anyOf), Opt(oneOf), Lookup(ms, "not"),
      Or(required, []), Or(properties, []), Get(ms, "additionalProperties"),
      Get(ms, "items"), Opt(minItems), Opt(maxItems), Or(unique, false),
      Opt(pattern), Opt(minLength), Opt(maxLength),
      Opt(minimum), Opt(maximum), Opt(low), Opt(high)))
  }

  // ---------------------------------------------------------------- local references

  /** `str.replace` for a pattern of two characters. */
  function ReplacePair(s: string, a: char, b: char, c: char): string {
    if |s| >= 2 && s[0] == a && s[1] == b then [c] + ReplacePair(s[2..], a, b, c)
    else if s == "" then ""
    else [s[0]] + ReplacePair(s[1..], a, b, c)
  }

  function Unescape(raw: string): string {
    ReplacePair(ReplacePair(raw, '~', '1', '/'), '~', '0', '~')
  }

  function Descend(target: Json, tokens: seq<string>): Option<Json> {
    if tokens == [] then Some(target)
    else if !target.Obj? then None
    else match Lookup(target.members, Unescape(tokens[0]))
         case None => None
         case Some(next) => Descend(next, tokens[1..])
  }

  /** The schema a local pointer names; none for a remote or dangling one, which is refused. */
  function Resolve(ref: string, root: Json): Option<Json> {
    if ref == "#" then Some(root)
    else if !("#/" <= ref) then None
    else Descend(root, Split(ref[2..], '/'))
  }

  // ---------------------------------------------------------------- assertions without subschemas

  function IsType(v: Json, name: string): Truth {
    if name == "integer" then Yes(v.Int?)
    else if name == "number" then Yes(IsNumber(v))
    else if name == "boolean" then Yes(v.Bool?)
    else if name == "null" then Yes(v.Null?)
    else if name == "object" then Yes(v.Obj?)
    else if name == "array" then Yes(v.Arr?)
    else if name == "string" then Yes(v.Str?)
    else Halted(Unsupported)
  }

  function AnyType(v: Json, names: seq<string>): Truth {
    if names == [] then Yes(false)
    else match IsType(v, names[0])
         case Yes(true) => Yes(true)
         case Yes(false) => AnyType(v, names[1..])
         case Halted(e) => Halted(e)
  }

  function TypePart(v: Json, k: Keywords, path: string): Outcome {
    match k.typeNames
    case None => Found([])
    case Some(names) =>
      match AnyType(v, names)
      case Yes(b) => Found(When(!b, path, WrongType))
      case Halted(e) => Stopped(e)
  }

  function ValuesIssues(v: Json, k: Keywords, path: string): seq<Issue> {
    When(k.enumValues.Some? && !(exists i | 0 <= i < |k.enumValues.value| :: Canonical(k.enumValues.value[i]) == Canonical(v)),
         path, NotInEnum)
    + When(k.constValue.Some? && Canonical(v) != Canonical(k.constValue.value), path, NotTheConst)
  }

  function RequiredIssues(members: seq<Member>, required: seq<string>, path: string): seq<Issue> {
    if required == [] then []
    else When(Lookup(members, required[0]).None?, path, Missing(required[0])) + RequiredIssues(members, required[1..], path)
  }

  predicate AllApart(items: seq<Json>) {
    forall i, j | 0 <= i < j < |items| :: Canonical(items[i]) != Canonical(items[j])
  }

  function LimitIssues(size: nat, low: Option<real>, high: Option<real>, path: string, below: Complaint, above: Complaint): seq<Issue> {
    When(low.Some? && size as real < low.value, path, below) + When(high.Some? && size as real > high.value, path, above)
  }

  function ArrayIssues(items: seq<Json>, k: Keywords, path: string): seq<Issue> {
    LimitIssues(|items|, k.minItems, k.maxItems, path, TooFewItems, TooManyItems)
    + When(k.unique && !AllApart(items), path, NotUnique)
  }

  function StringIssues(env: Env, s: string, k: Keywords, path: string): seq<Issue> {
    When(k.pattern.Some? && !env.search(k.pattern.value, s), path, NoPatternMatch)
    + LimitIssues(|s|, k.minLength, k.maxLength, path, TooShort, TooLong)
  }

  function NumberIssues(x: real, k: Keywords, path: string): seq<Issue> {
    When(k.minimum.Some? && x < k.minimum.value, path, BelowMinimum)
    + When(k.maximum.Some? && x > k.maximum.value, path, AboveMaximum)
    + When(k.exclusiveMinimum.Some? && x <= k.exclusiveMinimum.value, path, NotAboveExclusive)
    + When(k.exclusiveMaximum.Some? && x >= k.exclusiveMaximum.value, path, NotBelowExclusive)
  }

  // ---------------------------------------------------------------- the whole report

  /** What validating `v` against `s` reports, `depth` nested calls being allowed. */
  function Run(env: Env, v: Json, s: Json, path: string, depth: nat): Outcome
    decreases depth, 0
  {
    if depth == 0 then Stopped(TooDeep)
    else
      match s
      case Bool(b) => Found(When(!b, path, FalseSchema))
      case Obj(ms) =>
        if ms == [] then Found([])
        else if HasUnknownKeyword(ms) then Stopped(Unsupported)
        else if Lookup(ms, "$ref").Some? then
          if HasAssertionBesideRef(ms) then Stopped(Unsupported)
          else (match Lookup(ms, "$ref").value
                case Str(ref) =>
                  (match Resolve(ref, env.root)
                   case None => Stopped(Unsupported)
                   case Some(target) => Run(env, v, target, path, depth - 1))
                case _ => Stopped(Malformed))
        else (match ReadKeywords(ms)
              case None => Stopped(Malformed)
              case Some(k) => RunKeywords(env, v, k, path, depth - 1))
      case _ => Stopped(Unsupported)
  }

  function RunKeywords(env: Env, v: Json, k: Keywords, path: string, depth: nat): Outcome
    decreases depth, 6
  {
    Then(RunAnyInstance(env, v, k, path, depth), RunByKind(env, v, k, path, depth))
  }

  /** The keywords that apply to instances of every type. */
  function RunAnyInstance(env: Env, v: Json, k: Keywords, path: string, depth: nat): Outcome
    decreases depth, 5
  {
    Then(TypePart(v, k, path), Then(Found(ValuesIssues(v, k, path)), RunCombinators(env, v, k, path, depth)))
  }

  /** The keywords that apply to instances of one type. */
  function RunByKind(env: Env, v: Json, k: Keywords, path: string, depth: nat): Outcome
    decreases depth, 5
  {
    if v.Obj? then RunObject(env, v.members, k, path, depth)
    else if v.Arr? then RunArray(env, v.items, k, path, depth)
    else if v.Str? then Found(StringIssues(env, v.s, k, path))
    else if IsNumber(v) then Found(NumberIssues(NumberValue(v), k, path))
    else Found([])
  }

  function RunCombinators(env: Env, v: Json, k: Keywords, path: string, depth: nat): Outcome
    decreases depth, 4
  {
    Then(RunAll(env, v, k.allOf, path, depth),
    Then(RunAnyOf(env, v, k.anyOf, path, depth),
    Then(RunOneOf(env, v, k.oneOf, path, depth),
         RunNot(env, v, k.notSchema, path, depth))))
  }

  function RunAnyOf(env: Env, v: Json, anyOf: Option<seq<Json>>, path: string, depth: nat): Outcome
    decreases depth, 3
  {
    match anyOf
    case None => Found([])
    case Some(branches) =>
      match RunAny(env, v, branches, depth)
      case Yes(b) => Found(When(!b, path, NoBranch))
      case Halted(e) => Stopped(e)
  }

  function RunOneOf(env: Env, v: Json, oneOf: Option<seq<Json>>, path: string, depth: nat): Outcome
    decreases depth, 3
  {
    match oneOf
    case None => Found([])
    case Some(branches) =>
      match RunCount(env, v, branches, depth)
      case Counted(n) => Found(When(n != 1, path, WrongBranchCount(n)))
      case CountStopped(e) => Stopped(e)
  }

  function RunNot(env: Env, v: Json, notSchema: Option<Json>, path: string, depth: nat): Outcome
    decreases depth, 3
  {
    match notSchema
    case None => Found([])
    case Some(t) =>
      match Conforms(env, v, t, depth)
      case Yes(b) => Found(When(b, path, MatchesNot))
      case Halted(e) => Stopped(e)
  }

  function RunAll(env: Env, v: Json, branches: seq<Json>, path: string, depth: nat): Outcome
    decreases depth, 2, |branches|
  {
    if branches == [] then Found([])
    else Then(Run(env, v, branches[0], path, depth), RunAll(env, v, branches[1..], path, depth))
  }

  /** A branch is tried on a list of its own. */
  function Conforms(env: Env, v: Json, s: Json, depth: nat): Truth
    decreases depth, 1
  {
    match Run(env, v, s, "", depth)
    case Found(issues) => Yes(issues == [])
    case Stopped(e) => Halted(e)
  }

  function RunAny(env: Env, v: Json, branches: seq<Json>, depth: nat): Truth
    decreases depth, 2, |branches|
  {
    if branches == [] then Yes(false)
    else match Conforms(env, v, branches[0], depth)
         case Yes(true) => Yes(true)
         case Yes(false) => RunAny(env, v, branches[1..], depth)
         case Halted(e) => Halted(e)
  }

  function RunCount(env: Env, v: Json, branches: seq<Json>, depth: nat): Count
    decreases depth, 2, |branches|
  {
    if branches == [] then Counted(0)
    else match Conforms(env, v, branches[0], depth)
         case Halted(e) => CountStopped(e)
         case Yes(b) =>
           match RunCount(env, v, branches[1..], depth)
           case CountStopped(e) => CountStopped(e)
           case Counted(n) => Counted(if b then n + 1 else n)
  }

  function RunObject(env: Env, members: seq<Member>, k: Keywords, path: string, depth: nat): Outcome
    decreases depth, 3
  {
    Then(Found(RequiredIssues(members, k.required, path)),
    Then(RunProperties(env, members, k, path, depth),
         RunAdditional(env, members, k, path, depth)))
  }

  function RunProperties(env: Env, members: seq<Member>, k: Keywords, path: string, depth: nat): Outcome
    decreases depth, 2, |members|
  {
    if members == [] then Found([])
    else
      Then(match Lookup(k.properties, members[0].name)
           case None => Found([])
           case Some(t) => Run(env, members[0].value, t, path + "/" + members[0].name, depth),
           RunProperties(env, members[1..], k, path, depth))
  }

  function RunAdditional(env: Env, members: seq<Member>, k: Keywords, path: string, depth: nat): Outcome
    decreases depth, 2, |members|
  {
    if members == [] then Found([])
    else Then(RunExtra(env, members[0], k, path, depth), RunAdditional(env, members[1..], k, path, depth))
  }

  /** A member no property schema judges: refused, judged by the additional schema, or let pass. */
  function RunExtra(env: Env, member: Member, k: Keywords, path: string, depth: nat): Outcome
    decreases depth, 1
  {
    if Lookup(k.properties, member.name).Some? then Found([])
    else match k.additional
         case Some(Bool(b)) => Found(When(!b, path, NotAllowed(member.name)))
         case Some(Obj(t)) => Run(env, member.value, Obj(t), path + "/" + member.name, depth)
         case _ => Found([])
  }

  function RunArray(env: Env, items: seq<Json>, k: Keywords, path: string, depth: nat): Outcome
    decreases depth, 3
  {
    match k.items
    case Some(Arr(_)) => Stopped(Unsupported)
    case Some(t) => Then(RunItems(env, items, t, path, 0, depth), Found(ArrayIssues(items, k, path)))
    case None => Found(ArrayIssues(items, k, path))
  }

  function RunItems(env: Env, items: seq<Json>, s: Json, path: string, index: nat, depth: nat): Outcome
    requires index <= |items|
    decreases depth, 2, |items| - index
  {
    if index == |items| then Found([])
    else Then(Run(env, items[index], s, path + "/" + Decimal(index), depth),
              RunItems(env, items, s, path, index + 1, depth))
  }
}
