/** The issue protocol: each run reads a repository's open drift issues page by page, finds the one
    that carries a payload's fingerprint, and creates it, comments on it or leaves it. The
    repository is a class whose methods are the requests; any request may fail, which ends the
    run where it is. */
module DriftIssues {
  import opened Options
  import opened Text
  import opened DriftMarkers

  datatype Issue = Issue(number: nat, isOpen: bool, isPull: bool, labels: seq<string>, title: string, body: string, comments: seq<string>)

  datatype Payload = Payload(kind: string, fingerprint: string, title: string, labels: seq<string>, digest: string,
                             bodyRest: string, commentRest: string)
  {
    function Body(): string {
      IssueBody(fingerprint, digest, bodyRest)
    }

    function Comment(): string {
      UpdateComment(digest, commentRest)
    }

    /** The marker stands in no signal text, and the drift label is among the labels. */
    ghost predicate Good() {
      && IsFingerprint(fingerprint) && IsDigest(digest) && Clean(bodyRest) && Clean(commentRest)
      && "drift" in labels
    }
  }

  /** What the requests can see of a repository; the newest issue comes first. */
  datatype Repo = Repo(issues: seq<Issue>, next: nat)

  ghost predicate Numbered(repo: Repo) {
    && (forall i | 0 <= i < |repo.issues| :: repo.issues[i].number < repo.next)
    && (forall i, j | 0 <= i < j < |repo.issues| :: repo.issues[i].number != repo.issues[j].number)
  }

  predicate Listed(issue: Issue) {
    issue.isOpen && "drift" in issue.labels
  }

  predicate Carries(issue: Issue, fingerprint: string) {
    Listed(issue) && !issue.isPull && Contains(issue.body, FingerprintMarker(fingerprint))
  }

  /** The open issues with the drift label, pull requests among them. */
  function Listing(issues: seq<Issue>): seq<Issue> {
    if issues == [] then []
    else (if Listed(issues[0]) then [issues[0]] else []) + Listing(issues[1..])
  }

  /** What the code looks for in a listing. */
  predicate Marked(issue: Issue, fingerprint: string) {
    !issue.isPull && Contains(issue.body, FingerprintMarker(fingerprint))
  }

  function FirstMarked(list: seq<Issue>, fingerprint: string): Option<Issue> {
    if list == [] then None
    else if Marked(list[0], fingerprint) then Some(list[0])
    else FirstMarked(list[1..], fingerprint)
  }

  function FirstCarrier(issues: seq<Issue>, fingerprint: string): (r: Option<nat>)
    ensures r.Some? ==> r.value < |issues| && Carries(issues[r.value], fingerprint)
                        && forall i | 0 <= i < r.value :: !Carries(issues[i], fingerprint)
    ensures r.None? ==> forall i | 0 <= i < |issues| :: !Carries(issues[i], fingerprint)
  {
    if issues == [] then None
    else if Carries(issues[0], fingerprint) then Some(0)
    else match FirstCarrier(issues[1..], fingerprint)
         case None => None
         case Some(i) => Some(i + 1)
  }

  function LastOr(found: Option<string>, text: string): Option<string> {
    var digests := Digests(text, 0);
    if digests == [] then found else Some(digests[|digests| - 1])
  }

  /** The last digest of a list of texts read in order, given what was found before them. */
  function Latest(found: Option<string>, texts: seq<string>): Option<string>
    decreases |texts|
  {
    if texts == [] then found else Latest(LastOr(found, texts[0]), texts[1..])
  }

  function LatestDigest(texts: seq<string>): Option<string> {
    Latest(None, texts)
  }

  lemma {:induction false} LatestAppend(found: Option<string>, a: seq<string>, b: seq<string>)
    ensures Latest(found, a + b) == Latest(Latest(found, a), b)
    decreases |a|
  {
    hide LastOr;
    if a == [] {
      assert a + b == b;
    } else {
      assert (a + b)[1..] == a[1..] + b;
      LatestAppend(LastOr(found, a[0]), a[1..], b);
    }
  }

  function Texts(issue: Issue): seq<string> {
    [issue.body] + issue.comments
  }

  const PAGE: nat := 100

  /** Page `n`, counted from one. */
  function PageOf<T>(items: seq<T>, n: nat): (page: seq<T>)
    requires n >= 1
    ensures |page| <= PAGE
  {
    var low := (n - 1) * PAGE;
    if low >= |items| then [] else if low + PAGE >= |items| then items[low..] else items[low..low + PAGE]
  }

  // ---------------------------------------------------------------- one payload, as a step

  function NewIssue(repo: Repo, p: Payload): Issue {
    Issue(repo.next, true, false, p.labels, p.title, p.Body(), [])
  }

  function Created(repo: Repo, p: Payload): Repo {
    Repo([NewIssue(repo, p)] + repo.issues, repo.next + 1)
  }

  function Commented(repo: Repo, i: nat, text: string): Repo
    requires i < |repo.issues|
  {
    repo.(issues := repo.issues[i := repo.issues[i].(comments := repo.issues[i].comments + [text])])
  }

  /** What processing a payload makes of the repository. */
  function Step(repo: Repo, p: Payload): Repo {
    match FirstCarrier(repo.issues, p.fingerprint)
    case None => Created(repo, p)
    case Some(i) =>
      if LatestDigest(Texts(repo.issues[i])) == Some(p.digest) then repo else Commented(repo, i, p.Comment())
  }

  function Steps(repo: Repo, payloads: seq<Payload>): Repo
    decreases |payloads|
  {
    if payloads == [] then repo else Steps(Step(repo, payloads[0]), payloads[1..])
  }

  // ---------------------------------------------------------------- how many requests it takes

  /** How many listed issues are read before the first marked one. */
  function UntilMarked(list: seq<Issue>, fingerprint: string): (n: nat)
    ensures n <= |list| && (n < |list| <==> FirstMarked(list, fingerprint).Some?)
  {
    if list == [] || Marked(list[0], fingerprint) then 0 else 1 + UntilMarked(list[1..], fingerprint)
  }

  lemma {:induction false} UntilOfBoth(a: seq<Issue>, b: seq<Issue>, fingerprint: string)
    ensures UntilMarked(a + b, fingerprint)
         == if FirstMarked(a, fingerprint).Some? then UntilMarked(a, fingerprint) else |a| + UntilMarked(b, fingerprint)
  {
    hide Marked;
    if a == [] {
      assert a + b == b;
    } else {
      assert (a + b)[1..] == a[1..] + b;
      UntilOfBoth(a[1..], b, fingerprint);
    }
  }

  /** The pages that are read to see item `n`, counted from zero, or that there is none. */
  function PagesRead(n: nat): nat {
    n / PAGE + 1
  }

  lemma PageOfItem(n: nat, page: nat)
    requires page >= 1 && (page - 1) * PAGE <= n
    ensures PagesRead(n) >= page && (n < page * PAGE ==> PagesRead(n) == page)
  {
  }

  function Named(names: seq<string>): set<string> {
    set name | name in names
  }

  /** One request for a label that is there, two for one that is created. */
  function LabelCost(labels: set<string>, names: seq<string>): nat {
    if names == [] then 0
    else
      var front, name := names[..|names| - 1], names[|names| - 1];
      LabelCost(labels, front) + if name in labels + Named(front) then 1 else 2
  }

  /** The requests that one payload takes. */
  function Cost(repo: Repo, labels: set<string>, p: Payload): nat {
    PagesRead(UntilMarked(Listing(repo.issues), p.fingerprint)) +
    match FirstCarrier(repo.issues, p.fingerprint)
    case None => LabelCost(labels, p.labels) + 1
    case Some(i) => IssueCost(repo.issues[i], p.digest)
  }

  function IssueCost(issue: Issue, digest: string): nat {
    PagesRead(|issue.comments|) + if LatestDigest(Texts(issue)) == Some(digest) then 0 else 1
  }

  function LabelsAfter(repo: Repo, labels: set<string>, p: Payload): set<string> {
    if FirstCarrier(repo.issues, p.fingerprint).None? then labels + Named(p.labels) else labels
  }

  function LabelsAfterRun(repo: Repo, labels: set<string>, payloads: seq<Payload>): set<string> {
    if payloads == [] then labels
    else
      var front, p := payloads[..|payloads| - 1], payloads[|payloads| - 1];
      LabelsAfter(Steps(repo, front), LabelsAfterRun(repo, labels, front), p)
  }

  /** The requests that a run takes. */
  function RunCost(repo: Repo, labels: set<string>, payloads: seq<Payload>): nat {
    if payloads == [] then 0
    else
      var front, p := payloads[..|payloads| - 1], payloads[|payloads| - 1];
      RunCost(repo, labels, front) + Cost(Steps(repo, front), LabelsAfterRun(repo, labels, front), p)
  }

  lemma RunCostStep(repo: Repo, labels: set<string>, front: seq<Payload>, p: Payload)
    ensures RunCost(repo, labels, front + [p]) == RunCost(repo, labels, front) + Cost(Steps(repo, front), LabelsAfterRun(repo, labels, front), p)
    ensures LabelsAfterRun(repo, labels, front + [p]) == LabelsAfter(Steps(repo, front), LabelsAfterRun(repo, labels, front), p)
  {
    assert (front + [p])[..|front|] == front;
  }

  lemma {:induction false} RunCostGrows(repo: Repo, labels: set<string>, payloads: seq<Payload>, n: nat)
    requires n <= |payloads|
    ensures RunCost(repo, labels, payloads[..n]) <= RunCost(repo, labels, payloads)
    decreases |payloads|
  {
    hide Cost, LabelsAfter;
    if n < |payloads| {
      var front := payloads[..|payloads| - 1];
      RunCostGrows(repo, labels, front, n);
      assert front[..n] == payloads[..n];
    } else {
      assert payloads[..n] == payloads;
    }
  }

  lemma NothingCosts(repo: Repo, labels: set<string>)
    ensures RunCost(repo, labels, []) == 0 && LabelsAfterRun(repo, labels, []) == labels
  {
  }

  lemma NoLabelCosts(labels: set<string>)
    ensures LabelCost(labels, []) == 0 && Named([]) == {}
  {
  }

  lemma LabelCostStep(labels: set<string>, names: seq<string>, i: nat)
    requires i < |names|
    ensures LabelCost(labels, names[..i + 1])
         == LabelCost(labels, names[..i]) + (if names[i] in labels + Named(names[..i]) then 1 else 2)
    ensures Named(names[..i + 1]) == Named(names[..i]) + {names[i]}
    ensures LabelCost(labels, names[..i + 1]) <= LabelCost(labels, names)
  {
    assert names[..i + 1][..i] == names[..i];
    LabelCostGrows(labels, names, i + 1);
  }

  lemma {:induction false} LabelCostGrows(labels: set<string>, names: seq<string>, n: nat)
    requires n <= |names|
    ensures LabelCost(labels, names[..n]) <= LabelCost(labels, names)
    decreases |names|
  {
    if n < |names| {
      LabelCostGrows(labels, names[..|names| - 1], n);
      assert names[..|names| - 1][..n] == names[..n];
    } else {
      assert names[..n] == names;
    }
  }

  /** What is left of `patience` requests when `cost` are needed: all are used up if they do not suffice. */
  function Left(patience: nat, cost: nat): nat {
    if cost <= patience then patience - cost else 0
  }

  ghost predicate HasNumber(repo: Repo, number: nat) {
    exists i :: 0 <= i < |repo.issues| && repo.issues[i].number == number
  }

  // ---------------------------------------------------------------- the requests

  datatype Reply<+T> = Answer(value: T) | Failed

  class Repository {
    var repo: Repo
    var labels: set<string>
    /** How many more requests are answered. */
    var patience: nat

    constructor (repo: Repo, labels: set<string>, patience: nat)
      ensures this.repo == repo && this.labels == labels && this.patience == patience
    {
      this.repo, this.labels, this.patience := repo, labels, patience;
    }

    method Ask() returns (answered: bool)
      modifies this`patience
      ensures answered <==> old(patience) > 0
      ensures patience == Left(old(patience), 1)
    {
      answered := patience > 0;
      if answered {
        patience := patience - 1;
      }
    }

    method ListOpen(page: nat) returns (r: Reply<seq<Issue>>)
      requires page >= 1
      modifies this`patience
      ensures r == if old(patience) > 0 then Answer(PageOf(Listing(repo.issues), page)) else Failed
      ensures patience == Left(old(patience), 1)
    {
      var answered := Ask();
      r := if answered then Answer(PageOf(Listing(repo.issues), page)) else Failed;
    }

    method ListComments(number: nat, page: nat) returns (r: Reply<seq<string>>)
      requires page >= 1
      modifies this`patience
      ensures r.Answer? ==> exists i :: 0 <= i < |repo.issues| && repo.issues[i].number == number
                                    && r.value == PageOf(repo.issues[i].comments, page)
      ensures r.Answer? <==> old(patience) > 0 && HasNumber(repo, number)
      ensures patience == Left(old(patience), 1)
    {
      var answered := Ask();
      if answered {
        for i := 0 to |repo.issues|
          invariant patience == Left(old(patience), 1)
          invariant forall k | 0 <= k < i :: repo.issues[k].number != number
        {
          if repo.issues[i].number == number {
            return Answer(PageOf(repo.issues[i].comments, page));
          }
        }
      }
      return Failed;
    }

    method PostIssue(p: Payload) returns (ok: bool)
      modifies this`repo, this`patience
      ensures repo == if ok then Created(old(repo), p) else old(repo)
      ensures (ok <==> old(patience) > 0) && patience == Left(old(patience), 1)
    {
      ok := Ask();
      if ok {
        repo := Created(repo, p);
      }
    }

    method PostComment(number: nat, text: string) returns (ok: bool)
      requires Numbered(repo)
      modifies this`repo, this`patience
      ensures !ok ==> repo == old(repo)
      ensures ok ==> exists i :: 0 <= i < |old(repo).issues| && old(repo).issues[i].number == number
                              && repo == Commented(old(repo), i, text)
      ensures ok <==> old(patience) > 0 && HasNumber(old(repo), number)
      ensures patience == Left(old(patience), 1)
    {
      var answered := Ask();
      if answered {
        for i := 0 to |repo.issues|
          invariant repo == old(repo) && patience == Left(old(patience), 1)
          invariant forall k | 0 <= k < i :: repo.issues[k].number != number
        {
          if repo.issues[i].number == number {
            repo := Commented(repo, i, text);
            return true;
          }
        }
      }
      return false;
    }

    /** Creates the label unless the repository has it. */
    method EnsureLabel(name: string) returns (ok: bool)
      modifies this`labels, this`patience
      ensures old(labels) <= labels <= old(labels) + {name}
      ensures ok ==> name in labels
      ensures var cost := if name in old(labels) then 1 else 2;
        (ok <==> cost <= old(patience)) && patience == Left(old(patience), cost)
    {
      ok := Ask();
      if ok && name !in labels {
        ok := Ask();
        if ok {
          labels := labels + {name};
        }
      }
    }

    /** The first listed issue with the marker: the pages cover the whole list. */
    method FindOpenIssue(fingerprint: string) returns (r: Reply<Option<Issue>>)
      modifies this`patience
      ensures r.Answer? ==>
        match FirstCarrier(repo.issues, fingerprint)
        case None => r.value == None
        case Some(i) => r.value == Some(repo.issues[i])
      ensures var cost := PagesRead(UntilMarked(Listing(repo.issues), fingerprint));
        (r.Answer? <==> cost <= old(patience)) && patience == Left(old(patience), cost)
    {
      hide Marked, Listing, PagesRead, PageOf;
      ghost var list := Listing(repo.issues);
      FirstMarkedIsFirstCarrier(repo.issues, fingerprint);
      var page := 1;
      assert list[0..] == list;
      while true
        invariant page >= 1 && (page - 1) * PAGE <= |list|
        invariant FirstMarked(list, fingerprint) == FirstMarked(list[(page - 1) * PAGE..], fingerprint)
        invariant UntilMarked(list, fingerprint) == (page - 1) * PAGE + UntilMarked(list[(page - 1) * PAGE..], fingerprint)
        invariant patience + (page - 1) == old(patience)
        decreases |list| - (page - 1) * PAGE
      {
        PageOfItem(UntilMarked(list, fingerprint), page);
        var reply := ListOpen(page);
        if reply.Failed? {
          assert old(patience) == page - 1;
          assert PagesRead(UntilMarked(list, fingerprint)) >= page;
          return Failed;
        }
        ghost var rest := list[(page - 1) * PAGE..];
        PageSplits(list, page);
        FirstOfBoth(reply.value, rest[|reply.value|..], fingerprint);
        UntilOfBoth(reply.value, rest[|reply.value|..], fingerprint);
        var found := ScanIssues(reply.value, fingerprint);
        if found.Some? {
          return Answer(found);
        }
        if |reply.value| < PAGE {
          return Answer(None);
        }
        page := page + 1;
      }
    }

    /** The inner loop, over the issues of one page. */
    static method ScanIssues(page: seq<Issue>, fingerprint: string) returns (found: Option<Issue>)
      ensures found == FirstMarked(page, fingerprint)
    {
      hide Contains, FingerprintMarker;
      for k := 0 to |page|
        invariant FirstMarked(page, fingerprint) == FirstMarked(page[k..], fingerprint)
      {
        if !page[k].isPull && Contains(page[k].body, FingerprintMarker(fingerprint)) {
          return Some(page[k]);
        }
      }
      found := None;
    }

    /** The inner loop, over the comments of one page. */
    static method ScanPage(found: Option<string>, page: seq<string>) returns (latest: Option<string>)
      ensures latest == Latest(found, page)
    {
      hide Digests;
      latest := found;
      for k := 0 to |page|
        invariant Latest(found, page) == Latest(latest, page[k..])
      {
        var digests := Digests(page[k], 0);
        if digests != [] {
          latest := Some(digests[|digests| - 1]);
        }
      }
    }

    method LatestSignals(issue: Issue) returns (r: Reply<Option<string>>)
      requires Numbered(repo) && issue in repo.issues
      modifies this`patience
      ensures r.Answer? ==> r.value == LatestDigest(Texts(issue))
      ensures var cost := PagesRead(|issue.comments|);
        (r.Answer? <==> cost <= old(patience)) && patience == Left(old(patience), cost)
    {
      hide LastOr, PagesRead, PageOf;
      var comments := issue.comments;
      var latest := ScanPage(None, [issue.body]);
      LatestAppend(None, [issue.body], comments);
      assert comments[0..] == comments;
      assert HasNumber(repo, issue.number);
      var page := 1;
      while true
        invariant page >= 1 && (page - 1) * PAGE <= |comments|
        invariant LatestDigest(Texts(issue)) == Latest(latest, comments[(page - 1) * PAGE..])
        invariant patience + (page - 1) == old(patience)
        decreases |comments| - (page - 1) * PAGE
      {
        PageOfItem(|comments|, page);
        var reply := ListComments(issue.number, page);
        if reply.Failed? {
          assert old(patience) == page - 1;
          return Failed;
        }
        SameNumberSameIssue(repo, issue, reply.value, page);
        ghost var low, rest := (page - 1) * PAGE, comments[(page - 1) * PAGE..];
        PageSplits(comments, page);
        LatestAppend(latest, reply.value, rest[|reply.value|..]);
        latest := ScanPage(latest, reply.value);
        if |reply.value| < PAGE {
          return Answer(latest);
        }
        page := page + 1;
      }
    }

    /** One payload: when every request is answered the repository takes the step, and otherwise it
        keeps its issues as they are. It fails only when a request of those it takes is refused. */
    method Process(p: Payload) returns (ok: bool)
      requires Numbered(repo)
      modifies this
      ensures Numbered(repo)
      ensures repo == if ok then Step(old(repo), p) else old(repo)
      ensures old(labels) <= labels
      ensures ok ==> labels == LabelsAfter(old(repo), old(labels), p)
      ensures var cost := Cost(old(repo), old(labels), p);
        (ok <==> cost <= old(patience)) && patience == Left(old(patience), cost)
    {
      hide Carries, LatestDigest, Created, Commented, UntilMarked, Listing, PagesRead, Numbered, LabelCost, IssueCost;
      StepKeepsNumbers(repo, p);
      var existing := FindOpenIssue(p.fingerprint);
      if existing.Failed? {
        return false;
      }
      if existing.value.None? {
        ok := Open(p);
      } else {
        ok := Update(existing.value.value, p);
      }
    }

    /** The labels, then the issue. */
    method Open(p: Payload) returns (ok: bool)
      modifies this
      ensures repo == if ok then Created(old(repo), p) else old(repo)
      ensures old(labels) <= labels && (ok ==> labels == old(labels) + Named(p.labels))
      ensures var cost := LabelCost(old(labels), p.labels) + 1;
        (ok <==> cost <= old(patience)) && patience == Left(old(patience), cost)
    {
      hide LabelCost, Created;
      NoLabelCosts(labels);
      for i := 0 to |p.labels|
        invariant repo == old(repo) && labels == old(labels) + Named(p.labels[..i])
        invariant patience + LabelCost(old(labels), p.labels[..i]) == old(patience)
      {
        LabelCostStep(old(labels), p.labels, i);
        ok := EnsureLabel(p.labels[i]);
        if !ok {
          return;
        }
      }
      assert p.labels[..|p.labels|] == p.labels;
      ok := PostIssue(p);
    }

    /** A comment, unless the signals are those of the last one. */
    method Update(issue: Issue, p: Payload) returns (ok: bool)
      requires Numbered(repo) && issue in repo.issues
      modifies this`repo, this`patience
      ensures !ok ==> repo == old(repo)
      ensures ok && LatestDigest(Texts(issue)) == Some(p.digest) ==> repo == old(repo)
      ensures ok && LatestDigest(Texts(issue)) != Some(p.digest) ==>
        forall i | 0 <= i < |old(repo).issues| && old(repo).issues[i] == issue :: repo == Commented(old(repo), i, p.Comment())
      ensures (ok <==> IssueCost(issue, p.digest) <= old(patience)) && patience == Left(old(patience), IssueCost(issue, p.digest))
    {
      hide LatestDigest, Commented, PagesRead;
      var latest := LatestSignals(issue);
      if latest.Failed? {
        return false;
      }
      if latest.value == Some(p.digest) {
        return true;
      }
      ok := PostComment(issue.number, p.Comment());
    }

    /** A run: the payloads in order, up to the first request that fails; it gets as far as the requests
        that are answered reach. */
    method ProcessPayloads(payloads: seq<Payload>) returns (ok: bool, done: nat)
      requires Numbered(repo)
      modifies this
      ensures Numbered(repo) && done <= |payloads|
      ensures repo == Steps(old(repo), payloads[..done])
      ensures ok ==> done == |payloads|
      ensures ok <==> RunCost(old(repo), old(labels), payloads) <= old(patience)
      ensures !ok ==> done < |payloads| && patience == 0
      ensures !ok ==>
        RunCost(old(repo), old(labels), payloads[..done]) <= old(patience) < RunCost(old(repo), old(labels), payloads[..done + 1])
    {
      hide Step, Numbered, Cost, LabelsAfter, RunCost;
      NothingCosts(repo, labels);
      done := 0;
      while done < |payloads|
        invariant done <= |payloads| && Numbered(repo)
        invariant repo == Steps(old(repo), payloads[..done])
        invariant labels == LabelsAfterRun(old(repo), old(labels), payloads[..done])
        invariant patience + RunCost(old(repo), old(labels), payloads[..done]) == old(patience)
      {
        RunCostStep(old(repo), old(labels), payloads[..done], payloads[done]);
        RunCostGrows(old(repo), old(labels), payloads, done + 1);
        assert payloads[..done + 1] == payloads[..done] + [payloads[done]];
        ok := Process(payloads[done]);
        if !ok {
          return;
        }
        StepsAppend(old(repo), payloads[..done], payloads[done]);
        done := done + 1;
      }
      assert payloads[..|payloads|] == payloads;
      ok := true;
    }
  }

  lemma StepKeepsNumbers(repo: Repo, p: Payload)
    requires Numbered(repo)
    ensures Numbered(Step(repo, p))
  {
    hide Carries, LatestDigest;
  }

  lemma {:induction false} StepsAppend(repo: Repo, payloads: seq<Payload>, p: Payload)
    ensures Steps(repo, payloads + [p]) == Step(Steps(repo, payloads), p)
    decreases |payloads|
  {
    hide Step;
    if payloads == [] {
      assert [p][1..] == [] && payloads + [p] == [p];
    } else {
      assert (payloads + [p])[1..] == payloads[1..] + [p];
      StepsAppend(Step(repo, payloads[0]), payloads[1..], p);
    }
  }

  lemma SameNumberSameIssue(repo: Repo, issue: Issue, page: seq<string>, n: nat)
    requires Numbered(repo) && issue in repo.issues && n >= 1
    requires exists i :: 0 <= i < |repo.issues| && repo.issues[i].number == issue.number && page == PageOf(repo.issues[i].comments, n)
    ensures page == PageOf(issue.comments, n)
  {
    hide PageOf;
    var j :| 0 <= j < |repo.issues| && repo.issues[j] == issue;
  }

  /** A page is the front of what is still to read; a short page is all of it. */
  lemma PageSplits<T>(items: seq<T>, n: nat)
    requires n >= 1 && (n - 1) * PAGE <= |items|
    ensures var rest := items[(n - 1) * PAGE..]; var page := PageOf(items, n);
      && |page| <= |rest| && rest == page + rest[|page|..]
      && (|page| < PAGE ==> rest[|page|..] == [])
      && (|page| == PAGE ==> n * PAGE <= |items| && rest[|page|..] == items[n * PAGE..])
  {
  }

  lemma {:induction false} FirstOfBoth(a: seq<Issue>, b: seq<Issue>, fingerprint: string)
    ensures FirstMarked(a + b, fingerprint) == if FirstMarked(a, fingerprint).Some? then FirstMarked(a, fingerprint) else FirstMarked(b, fingerprint)
  {
    hide Marked;
    if a == [] {
      assert a + b == b;
    } else {
      assert (a + b)[1..] == a[1..] + b;
      FirstOfBoth(a[1..], b, fingerprint);
    }
  }

  /** The first one marked among those listed is the first carrier. */
  lemma {:induction false} FirstMarkedIsFirstCarrier(issues: seq<Issue>, fingerprint: string)
    ensures FirstMarked(Listing(issues), fingerprint) == match FirstCarrier(issues, fingerprint) case None => None case Some(i) => Some(issues[i])
  {
    hide Contains, FingerprintMarker;
    if issues != [] {
      FirstMarkedIsFirstCarrier(issues[1..], fingerprint);
      FirstOfBoth(if Listed(issues[0]) then [issues[0]] else [], Listing(issues[1..]), fingerprint);
    }
  }
}
