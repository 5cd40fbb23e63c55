/** The validator as it runs: methods that walk the instance and the schema, append what they find
    to a list they share, and try branches on lists of their own. Each is proved against the
    function that says what it reports. */
module JsonValidator {
  import opened Numerals
  import opened Options
  import opened JsonValues
  import opened JsonSchema
  import opened Text

  class IssueList {
    var items: seq<Issue>

    constructor ()
      ensures items == []
    {
      items := [];
    }

    method Append(issue: Issue)
      modifies this
      ensures items == old(items) + [issue]
    {
      items := items + [issue];
    }
  }

  /** What a call may do to the shared list: append the report in full, or, when it stops, leave what
      was there in front. */
  ghost predicate Appended(before: seq<Issue>, after: seq<Issue>, stop: Option<Stop>, outcome: Outcome) {
    match outcome
    case Found(issues) => stop.None? && after == before + issues
    case Stopped(e) => stop == Some(e) && before <= after
  }

  lemma AppendedThen(a: seq<Issue>, b: seq<Issue>, c: seq<Issue>, first: Outcome, second: Outcome, stop: Option<Stop>)
    requires Appended(a, b, None, first) && Appended(b, c, stop, second)
    ensures Appended(a, c, stop, Then(first, second))
  {
  }

  method Flag(bad: bool, path: string, complaint: Complaint, issues: IssueList)
    modifies issues
    ensures issues.items == old(issues.items) + When(bad, path, complaint)
  {
    if bad {
      issues.Append(Issue(path, complaint));
    }
  }

  method ResolveRef(ref: string, root: Json) returns (target: Option<Json>)
    ensures target == Resolve(ref, root)
  {
    if ref == "#" {
      return Some(root);
    }
    if !("#/" <= ref) {
      return None;
    }
    var tokens := Split(ref[2..], '/');
    var current := root;
    var i := 0;
    while i < |tokens|
      invariant i <= |tokens|
      invariant Descend(root, tokens) == Descend(current, tokens[i..])
    {
      if !current.Obj? {
        return None;
      }
      var next := Lookup(current.members, Unescape(tokens[i]));
      if next.None? {
        return None;
      }
      current := next.value;
      i := i + 1;
    }
    return Some(current);
  }

  method FitsAnyType(v: Json, names: seq<string>) returns (fits: Truth)
    ensures fits == AnyType(v, names)
  {
    var i := 0;
    while i < |names|
      invariant i <= |names|
      invariant AnyType(v, names) == AnyType(v, names[i..])
    {
      var fit := IsType(v, names[i]);
      if fit != Yes(false) {
        return fit;
      }
      i := i + 1;
    }
    return Yes(false);
  }

  method ValidateType(v: Json, k: Keywords, path: string, issues: IssueList) returns (stop: Option<Stop>)
    modifies issues
    ensures Appended(old(issues.items), issues.items, stop, TypePart(v, k, path))
  {
    if k.typeNames.None? {
      return None;
    }
    var fits := FitsAnyType(v, k.typeNames.value);
    match fits {
      case Halted(e) => return Some(e);
      case Yes(b) => Flag(!b, path, WrongType, issues);
    }
    return None;
  }

  method ValidateValues(v: Json, k: Keywords, path: string, issues: IssueList)
    modifies issues
    ensures issues.items == old(issues.items) + ValuesIssues(v, k, path)
  {
    if k.enumValues.Some? {
      var text := Canonical(v);
      var allowed := set x | x in k.enumValues.value :: Canonical(x);
      Flag(text !in allowed, path, NotInEnum, issues);
    }
    if k.constValue.Some? {
      Flag(Canonical(v) != Canonical(k.constValue.value), path, NotTheConst, issues);
    }
  }

  method ValidateRequired(members: seq<Member>, required: seq<string>, path: string, issues: IssueList)
    modifies issues
    ensures issues.items == old(issues.items) + RequiredIssues(members, required, path)
  {
    var i := 0;
    while i < |required|
      invariant i <= |required|
      invariant old(issues.items) + RequiredIssues(members, required, path)
             == issues.items + RequiredIssues(members, required[i..], path)
    {
      Flag(Lookup(members, required[i]).None?, path, Missing(required[i]), issues);
      i := i + 1;
    }
  }

  method ValidateLimits(size: nat, low: Option<real>, high: Option<real>, path: string, below: Complaint, above: Complaint,
                        issues: IssueList)
    modifies issues
    ensures issues.items == old(issues.items) + LimitIssues(size, low, high, path, below, above)
  {
    Flag(low.Some? && size as real < low.value, path, below, issues);
    Flag(high.Some? && size as real > high.value, path, above, issues);
  }

  /** The source compares the number of items with the number of distinct texts. */
  method ItemsAreUnique(items: seq<Json>) returns (unique: bool)
    ensures unique <==> AllApart(items)
  {
    hide Canonical;
    var keys := seq(|items|, i requires 0 <= i < |items| => Canonical(items[i]));
    unique := |set x | x in keys| == |keys|;
    DistinctBySize(keys);
    if !AllApart(items) {
      var i, j :| 0 <= i < j < |items| && Canonical(items[i]) == Canonical(items[j]);
      assert keys[i] == keys[j];
    }
  }

  lemma {:induction false} SetIsNoLarger(keys: seq<string>)
    ensures |set x | x in keys| <= |keys|
  {
    if keys != [] {
      var last := |keys| - 1;
      SetIsNoLarger(keys[..last]);
      assert (set x | x in keys) == (set x | x in keys[..last]) + {keys[last]};
    }
  }

  /** A list has as many distinct elements as places exactly when no two places agree. */
  lemma {:induction false} DistinctBySize(keys: seq<string>)
    ensures |set x | x in keys| == |keys| <==> forall i, j | 0 <= i < j < |keys| :: keys[i] != keys[j]
  {
    if keys != [] {
      var last := |keys| - 1;
      var front := set x | x in keys[..last];
      DistinctBySize(keys[..last]);
      SetIsNoLarger(keys[..last]);
      assert (set x | x in keys) == front + {keys[last]};
      if keys[last] in front {
        var i :| 0 <= i < last && keys[..last][i] == keys[last];
        assert keys[i] == keys[last];
        assert front + {keys[last]} == front;
      }
    }
  }

  method ValidateArrayShape(items: seq<Json>, k: Keywords, path: string, issues: IssueList)
    modifies issues
    ensures issues.items == old(issues.items) + ArrayIssues(items, k, path)
  {
    ValidateLimits(|items|, k.minItems, k.maxItems, path, TooFewItems, TooManyItems, issues);
    if k.unique {
      var unique := ItemsAreUnique(items);
      Flag(!unique, path, NotUnique, issues);
    }
  }

  method ValidateString(env: Env, s: string, k: Keywords, path: string, issues: IssueList)
    modifies issues
    ensures issues.items == old(issues.items) + StringIssues(env, s, k, path)
  {
    Flag(k.pattern.Some? && !env.search(k.pattern.value, s), path, NoPatternMatch, issues);
    ValidateLimits(|s|, k.minLength, k.maxLength, path, TooShort, TooLong, issues);
  }

  method ValidateNumber(x: real, k: Keywords, path: string, issues: IssueList)
    modifies issues
    ensures issues.items == old(issues.items) + NumberIssues(x, k, path)
  {
    hide When;
    Flag(k.minimum.Some? && x < k.minimum.value, path, BelowMinimum, issues);
    Flag(k.maximum.Some? && x > k.maximum.value, path, AboveMaximum, issues);
    Flag(k.exclusiveMinimum.Some? && x <= k.exclusiveMinimum.value, path, NotAboveExclusive, issues);
    Flag(k.exclusiveMaximum.Some? && x >= k.exclusiveMaximum.value, path, NotBelowExclusive, issues);
  }

  // ---------------------------------------------------------------- the recursive walk

  method ValidateInto(env: Env, v: Json, s: Json, path: string, issues: IssueList, depth: nat) returns (stop: Option<Stop>)
    modifies issues
    ensures Appended(old(issues.items), issues.items, stop, Run(env, v, s, path, depth))
    decreases depth, 0
  {
    hide Lookup, HasUnknownKeyword, HasAssertionBesideRef, ReadKeywords, Resolve, RunKeywords;
    if depth == 0 {
      return Some(TooDeep);
    }
    match s {
      case Bool(b) =>
        Flag(!b, path, FalseSchema, issues);
        return None;
      case Obj(ms) =>
        if ms == [] {
          return None;
        }
        if HasUnknownKeyword(ms) {
          return Some(Unsupported);
        }
        var ref := Lookup(ms, "$ref");
        if ref.Some? {
          if HasAssertionBesideRef(ms) {
            return Some(Unsupported);
          }
          if !ref.value.Str? {
            return Some(Malformed);
          }
          var target := ResolveRef(ref.value.s, env.root);
          if target.None? {
            return Some(Unsupported);
          }
          stop := ValidateInto(env, v, target.value, path, issues, depth - 1);
          return;
        }
        var k := ReadKeywords(ms);
        if k.None? {
          return Some(Malformed);
        }
        stop := ValidateKeywords(env, v, k.value, path, issues, depth - 1);
      case _ =>
        return Some(Unsupported);
    }
  }

  method ValidateKeywords(env: Env, v: Json, k: Keywords, path: string, issues: IssueList, depth: nat) returns (stop: Option<Stop>)
    modifies issues
    ensures Appended(old(issues.items), issues.items, stop, RunKeywords(env, v, k, path, depth))
    decreases depth, 6
  {
    hide RunAnyInstance, RunByKind;
    stop := ValidateAnyInstance(env, v, k, path, issues, depth);
    if stop.Some? {
      return;
    }
    stop := ValidateByKind(env, v, k, path, issues, depth);
  }

  method ValidateAnyInstance(env: Env, v: Json, k: Keywords, path: string, issues: IssueList, depth: nat) returns (stop: Option<Stop>)
    modifies issues
    ensures Appended(old(issues.items), issues.items, stop, RunAnyInstance(env, v, k, path, depth))
    decreases depth, 5
  {
    hide TypePart, ValuesIssues, RunCombinators;
    stop := ValidateType(v, k, path, issues);
    if stop.Some? {
      return;
    }
    ValidateValues(v, k, path, issues);
    stop := ValidateCombinators(env, v, k, path, issues, depth);
  }

  method ValidateByKind(env: Env, v: Json, k: Keywords, path: string, issues: IssueList, depth: nat) returns (stop: Option<Stop>)
    modifies issues
    ensures Appended(old(issues.items), issues.items, stop, RunByKind(env, v, k, path, depth))
    decreases depth, 5
  {
    hide RunObject, RunArray, StringIssues, NumberIssues, NumberValue;
    stop := None;
    if v.Obj? {
      stop := ValidateObject(env, v.members, k, path, issues, depth);
      if stop.Some? {
        return;
      }
    }
    if v.Arr? {
      stop := ValidateArray(env, v.items, k, path, issues, depth);
      if stop.Some? {
        return;
      }
    }
    if v.Str? {
      ValidateString(env, v.s, k, path, issues);
    }
    if IsNumber(v) {
      ValidateNumber(NumberValue(v), k, path, issues);
    }
  }

  /** Whether the instance satisfies a branch, tried on a fresh list. */
  method ConformsTo(env: Env, v: Json, s: Json, depth: nat) returns (truth: Truth)
    ensures truth == Conforms(env, v, s, depth)
    decreases depth, 1
  {
    var branch := new IssueList();
    var stop := ValidateInto(env, v, s, "", branch, depth);
    truth := if stop.Some? then Halted(stop.value) else Yes(branch.items == []);
  }

  method ValidateAll(env: Env, v: Json, branches: seq<Json>, path: string, issues: IssueList, depth: nat) returns (stop: Option<Stop>)
    modifies issues
    ensures Appended(old(issues.items), issues.items, stop, RunAll(env, v, branches, path, depth))
    decreases depth, 2
  {
    hide Run;
    ghost var start := issues.items;
    var i := 0;
    while i < |branches|
      invariant i <= |branches| && start <= issues.items
      invariant forall after, e :: Appended(issues.items, after, e, RunAll(env, v, branches[i..], path, depth))
                              ==> Appended(start, after, e, RunAll(env, v, branches, path, depth))
    {
      ghost var before := issues.items;
      stop := ValidateInto(env, v, branches[i], path, issues, depth);
      assert branches[i..][1..] == branches[i + 1..];
      if stop.Some? {
        assert Appended(before, issues.items, stop, RunAll(env, v, branches[i..], path, depth));
        return;
      }
      i := i + 1;
    }
    assert Appended(issues.items, issues.items, None, RunAll(env, v, branches[i..], path, depth));
    return None;
  }

  method TryAny(env: Env, v: Json, branches: seq<Json>, depth: nat) returns (truth: Truth)
    ensures truth == RunAny(env, v, branches, depth)
    decreases depth, 2
  {
    var i := 0;
    while i < |branches|
      invariant i <= |branches|
      invariant RunAny(env, v, branches, depth) == RunAny(env, v, branches[i..], depth)
    {
      truth := ConformsTo(env, v, branches[i], depth);
      if truth != Yes(false) {
        return;
      }
      i := i + 1;
    }
    return Yes(false);
  }

  method CountMatches(env: Env, v: Json, branches: seq<Json>, depth: nat) returns (count: Count)
    ensures count == RunCount(env, v, branches, depth)
    decreases depth, 2
  {
    hide Conforms;
    var i, matched := 0, 0;
    while i < |branches|
      invariant i <= |branches| && matched >= 0
      invariant match RunCount(env, v, branches[i..], depth)
                case Counted(n) => RunCount(env, v, branches, depth) == Counted(matched + n)
                case CountStopped(e) => RunCount(env, v, branches, depth) == CountStopped(e)
    {
      var truth := ConformsTo(env, v, branches[i], depth);
      if truth.Halted? {
        return CountStopped(truth.stop);
      }
      if truth.holds {
        matched := matched + 1;
      }
      i := i + 1;
    }
    return Counted(matched);
  }

  method ValidateCombinators(env: Env, v: Json, k: Keywords, path: string, issues: IssueList, depth: nat) returns (stop: Option<Stop>)
    modifies issues
    ensures Appended(old(issues.items), issues.items, stop, RunCombinators(env, v, k, path, depth))
    decreases depth, 4
  {
    hide RunAll, RunAnyOf, RunOneOf, RunNot;
    stop := ValidateAll(env, v, k.allOf, path, issues, depth);
    if stop.Some? {
      return;
    }
    stop := ValidateAnyOf(env, v, k.anyOf, path, issues, depth);
    if stop.Some? {
      return;
    }
    stop := ValidateOneOf(env, v, k.oneOf, path, issues, depth);
    if stop.Some? {
      return;
    }
    stop := ValidateNot(env, v, k.notSchema, path, issues, depth);
  }

  method ValidateAnyOf(env: Env, v: Json, anyOf: Option<seq<Json>>, path: string, issues: IssueList, depth: nat)
    returns (stop: Option<Stop>)
    modifies issues
    ensures Appended(old(issues.items), issues.items, stop, RunAnyOf(env, v, anyOf, path, depth))
    decreases depth, 3
  {
    hide RunAny;
    if anyOf.Some? {
      var truth := TryAny(env, v, anyOf.value, depth);
      if truth.Halted? {
        return Some(truth.stop);
      }
      Flag(!truth.holds, path, NoBranch, issues);
    }
    return None;
  }

  method ValidateOneOf(env: Env, v: Json, oneOf: Option<seq<Json>>, path: string, issues: IssueList, depth: nat)
    returns (stop: Option<Stop>)
    modifies issues
    ensures Appended(old(issues.items), issues.items, stop, RunOneOf(env, v, oneOf, path, depth))
    decreases depth, 3
  {
    hide RunCount;
    if oneOf.Some? {
      var count := CountMatches(env, v, oneOf.value, depth);
      if count.CountStopped? {
        return Some(count.stop);
      }
      Flag(count.n != 1, path, WrongBranchCount(count.n), issues);
    }
    return None;
  }

  method ValidateNot(env: Env, v: Json, notSchema: Option<Json>, path: string, issues: IssueList, depth: nat)
    returns (stop: Option<Stop>)
    modifies issues
    ensures Appended(old(issues.items), issues.items, stop, RunNot(env, v, notSchema, path, depth))
    decreases depth, 3
  {
    hide Conforms;
    if notSchema.Some? {
      var truth := ConformsTo(env, v, notSchema.value, depth);
      if truth.Halted? {
        return Some(truth.stop);
      }
      Flag(truth.holds, path, MatchesNot, issues);
    }
    return None;
  }

  method ValidateObject(env: Env, members: seq<Member>, k: Keywords, path: string, issues: IssueList, depth: nat) returns (stop: Option<Stop>)
    modifies issues
    ensures Appended(old(issues.items), issues.items, stop, RunObject(env, members, k, path, depth))
    decreases depth, 3
  {
    hide RequiredIssues, RunProperties, RunAdditional;
    ValidateRequired(members, k.required, path, issues);
    stop := ValidateProperties(env, members, k, path, issues, depth);
    if stop.Some? {
      return;
    }
    stop := ValidateAdditional(env, members, k, path, issues, depth);
  }

  method ValidateProperties(env: Env, members: seq<Member>, k: Keywords, path: string, issues: IssueList, depth: nat)
    returns (stop: Option<Stop>)
    modifies issues
    ensures Appended(old(issues.items), issues.items, stop, RunProperties(env, members, k, path, depth))
    decreases depth, 2
  {
    hide Run;
    ghost var start := issues.items;
    var i := 0;
    while i < |members|
      invariant i <= |members| && start <= issues.items
      invariant forall after, e :: Appended(issues.items, after, e, RunProperties(env, members[i..], k, path, depth))
                              ==> Appended(start, after, e, RunProperties(env, members, k, path, depth))
    {
      ghost var before := issues.items;
      assert members[i..][1..] == members[i + 1..];
      var t := Lookup(k.properties, members[i].name);
      if t.Some? {
        stop := ValidateInto(env, members[i].value, t.value, path + "/" + members[i].name, issues, depth);
        if stop.Some? {
          assert Appended(before, issues.items, stop, RunProperties(env, members[i..], k, path, depth));
          return;
        }
      }
      i := i + 1;
    }
    assert Appended(issues.items, issues.items, None, RunProperties(env, members[i..], k, path, depth));
    return None;
  }

  /** One member no property schema judges. */
  method ValidateExtra(env: Env, member: Member, k: Keywords, path: string, issues: IssueList, depth: nat) returns (stop: Option<Stop>)
    modifies issues
    ensures Appended(old(issues.items), issues.items, stop, RunExtra(env, member, k, path, depth))
    decreases depth, 1
  {
    hide Run, Lookup;
    if Lookup(k.properties, member.name).None? && k.additional.Some? {
      if k.additional.value.Bool? {
        Flag(!k.additional.value.b, path, NotAllowed(member.name), issues);
      } else if k.additional.value.Obj? {
        stop := ValidateInto(env, member.value, k.additional.value, path + "/" + member.name, issues, depth);
        return;
      }
    }
    return None;
  }

  /** The source loops over the instance only for `false` and for a schema object. */
  method ValidateAdditional(env: Env, members: seq<Member>, k: Keywords, path: string, issues: IssueList, depth: nat)
    returns (stop: Option<Stop>)
    modifies issues
    ensures Appended(old(issues.items), issues.items, stop, RunAdditional(env, members, k, path, depth))
    decreases depth, 2
  {
    hide RunExtra;
    ghost var start := issues.items;
    var i := 0;
    while i < |members|
      invariant i <= |members| && start <= issues.items
      invariant forall after, e :: Appended(issues.items, after, e, RunAdditional(env, members[i..], k, path, depth))
                              ==> Appended(start, after, e, RunAdditional(env, members, k, path, depth))
    {
      ghost var before := issues.items;
      assert members[i..][1..] == members[i + 1..];
      stop := ValidateExtra(env, members[i], k, path, issues, depth);
      if stop.Some? {
        assert Appended(before, issues.items, stop, RunAdditional(env, members[i..], k, path, depth));
        return;
      }
      i := i + 1;
    }
    assert Appended(issues.items, issues.items, None, RunAdditional(env, members[i..], k, path, depth));
    return None;
  }

  method ValidateArray(env: Env, items: seq<Json>, k: Keywords, path: string, issues: IssueList, depth: nat) returns (stop: Option<Stop>)
    modifies issues
    ensures Appended(old(issues.items), issues.items, stop, RunArray(env, items, k, path, depth))
    decreases depth, 3
  {
    hide RunItems, ArrayIssues;
    if k.items.Some? {
      if k.items.value.Arr? {
        return Some(Unsupported);
      }
      stop := ValidateItems(env, items, k.items.value, path, issues, depth);
      if stop.Some? {
        return;
      }
    }
    ValidateArrayShape(items, k, path, issues);
    return None;
  }

  method ValidateItems(env: Env, items: seq<Json>, s: Json, path: string, issues: IssueList, depth: nat) returns (stop: Option<Stop>)
    modifies issues
    ensures Appended(old(issues.items), issues.items, stop, RunItems(env, items, s, path, 0, depth))
    decreases depth, 2
  {
    hide Run, Decimal;
    ghost var start := issues.items;
    var i := 0;
    while i < |items|
      invariant i <= |items| && start <= issues.items
      invariant forall after, e :: Appended(issues.items, after, e, RunItems(env, items, s, path, i, depth))
                              ==> Appended(start, after, e, RunItems(env, items, s, path, 0, depth))
    {
      ghost var before := issues.items;
      stop := ValidateInto(env, items[i], s, path + "/" + Decimal(i), issues, depth);
      if stop.Some? {
        assert Appended(before, issues.items, stop, RunItems(env, items, s, path, i, depth));
        return;
      }
      i := i + 1;
    }
    assert Appended(issues.items, issues.items, None, RunItems(env, items, s, path, i, depth));
    return None;
  }

  /** The entry point: the schema is its own resolution root. */
  method Validate(instance: Json, schema: Json, search: (string, string) -> bool, depth: nat) returns (outcome: Outcome)
    ensures outcome == Run(Env(schema, search), instance, schema, "", depth)
  {
    var issues := new IssueList();
    var stop := ValidateInto(Env(schema, search), instance, schema, "", issues, depth);
    outcome := if stop.Some? then Stopped(stop.value) else Found(issues.items);
  }
}
