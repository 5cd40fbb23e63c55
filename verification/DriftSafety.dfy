/** What holds of a repository over any sequence of runs, issues being closed in between: one open
    issue per fingerprint, nothing rewritten, the newest digest on record, and no word twice. */
module DriftSafety {
  import opened Options
  import opened Text
  import opened DriftMarkers
  import opened DriftIssues

  /** No two open drift issues carry one fingerprint. */
  ghost predicate AtMostOne(issues: seq<Issue>) {
    forall i, j, f | 0 <= i < j < |issues| && IsFingerprint(f) :: !(Carries(issues[i], f) && Carries(issues[j], f))
  }

  ghost predicate Unique(repo: Repo) {
    Numbered(repo) && AtMostOne(repo.issues)
  }

  // ---------------------------------------------------------------- single steps

  lemma NewIssueCarriesItsOwn(repo: Repo, p: Payload, f: string)
    requires p.Good() && IsFingerprint(f)
    ensures Carries(NewIssue(repo, p), f) <==> f == p.fingerprint
  {
    hide IssueBody, IsFingerprint, IsDigest, Clean, Contains;
    BodyCarriesOneFingerprint(p.fingerprint, p.digest, p.bodyRest, f);
  }

  lemma CreationKeepsUnique(repo: Repo, p: Payload)
    requires Unique(repo) && p.Good() && FirstCarrier(repo.issues, p.fingerprint).None?
    ensures Unique(Created(repo, p))
  {
    hide Contains, FingerprintMarker, Listed, IsFingerprint, IsDigest, Clean, IssueBody;
    var after := Created(repo, p);
    forall f | IsFingerprint(f) ensures Carries(after.issues[0], f) <==> f == p.fingerprint {
      NewIssueCarriesItsOwn(repo, p, f);
    }
    hide Carries;
    forall i, j, f | 0 <= i < j < |after.issues| && IsFingerprint(f)
      ensures !(Carries(after.issues[i], f) && Carries(after.issues[j], f))
    {
      assert after.issues[j] == repo.issues[j - 1];
      if i > 0 {
        assert after.issues[i] == repo.issues[i - 1];
      }
    }
  }

  lemma CommentsCarryNothing(repo: Repo, i: nat, text: string, k: nat, f: string)
    requires i < |repo.issues| && k < |repo.issues|
    ensures Carries(Commented(repo, i, text).issues[k], f) <==> Carries(repo.issues[k], f)
  {
    hide Contains, FingerprintMarker;
  }

  lemma CommentKeepsUnique(repo: Repo, i: nat, text: string)
    requires Unique(repo) && i < |repo.issues|
    ensures Unique(Commented(repo, i, text))
  {
    hide Carries, IsFingerprint;
    forall k: nat, f | k < |repo.issues| ensures Carries(Commented(repo, i, text).issues[k], f) <==> Carries(repo.issues[k], f) {
      CommentsCarryNothing(repo, i, text, k, f);
    }
  }

  lemma StepKeepsUnique(repo: Repo, p: Payload)
    requires Unique(repo) && p.Good()
    ensures Unique(Step(repo, p))
  {
    hide Unique, Created, Commented, Carries, LatestDigest;
    match FirstCarrier(repo.issues, p.fingerprint) {
      case None => CreationKeepsUnique(repo, p);
      case Some(i) => CommentKeepsUnique(repo, i, p.Comment());
    }
  }

  // ---------------------------------------------------------------- whole histories

  /** What can happen to a repository between two looks at it: a payload is processed, or somebody
      closes an issue. */
  datatype Event = Processed(p: Payload) | ClosedBy(i: nat)

  function Closed(repo: Repo, i: nat): Repo {
    if i < |repo.issues| then repo.(issues := repo.issues[i := repo.issues[i].(isOpen := false)]) else repo
  }

  function After(repo: Repo, e: Event): Repo {
    match e
    case Processed(p) => Step(repo, p)
    case ClosedBy(i) => Closed(repo, i)
  }

  function AfterAll(repo: Repo, events: seq<Event>): Repo
    decreases |events|
  {
    if events == [] then repo else AfterAll(After(repo, events[0]), events[1..])
  }

  ghost predicate GoodEvents(events: seq<Event>) {
    forall i | 0 <= i < |events| :: events[i].Processed? ==> events[i].p.Good()
  }

  lemma ClosingKeepsUnique(repo: Repo, i: nat)
    requires Unique(repo)
    ensures Unique(Closed(repo, i))
  {
    var after := Closed(repo, i);
    hide Contains, FingerprintMarker, IsFingerprint;
    forall k, f | 0 <= k < |after.issues| ensures Carries(after.issues[k], f) ==> Carries(repo.issues[k], f) {
    }
  }

  /** Over any history there are never two open issues for one fingerprint. */
  lemma {:induction false} HistoriesKeepUnique(repo: Repo, events: seq<Event>)
    requires Unique(repo) && GoodEvents(events)
    ensures Unique(AfterAll(repo, events))
    decreases |events|
  {
    hide Unique, Step, Closed;
    if events != [] {
      match events[0] {
        case Processed(p) => StepKeepsUnique(repo, p);
        case ClosedBy(i) => ClosingKeepsUnique(repo, i);
      }
      HistoriesKeepUnique(After(repo, events[0]), events[1..]);
    }
  }

  /** An issue as it may look later: the same issue, its text kept, comments only added, and a closed
      one untouched. */
  ghost predicate Grown(before: Issue, after: Issue) {
    && after.number == before.number && after.isPull == before.isPull && after.labels == before.labels
    && after.title == before.title && after.body == before.body && before.comments <= after.comments
    && (!before.isOpen ==> after == before)
  }

  /** Every issue is still there, behind the newer ones. */
  ghost predicate Kept(before: Repo, after: Repo) {
    && |before.issues| <= |after.issues|
    && forall i | 0 <= i < |before.issues| :: Grown(before.issues[i], after.issues[i + |after.issues| - |before.issues|])
  }

  lemma KeptTwice(a: Repo, b: Repo, c: Repo)
    requires Kept(a, b) && Kept(b, c)
    ensures Kept(a, c)
  {
    forall i | 0 <= i < |a.issues| ensures Grown(a.issues[i], c.issues[i + |c.issues| - |a.issues|]) {
      var j := i + |b.issues| - |a.issues|;
      assert Grown(a.issues[i], b.issues[j]);
      assert Grown(b.issues[j], c.issues[j + |c.issues| - |b.issues|]);
    }
  }

  lemma OneEventKeeps(repo: Repo, e: Event)
    ensures Kept(repo, After(repo, e))
  {
    hide Contains, FingerprintMarker, LatestDigest, IssueBody, UpdateComment;
  }

  /** No history loses an issue, rewrites a text or touches a closed issue. */
  lemma {:induction false} HistoriesKeepTexts(repo: Repo, events: seq<Event>)
    ensures Kept(repo, AfterAll(repo, events))
    decreases |events|
  {
    if events != [] {
      hide After, Kept;
      OneEventKeeps(repo, events[0]);
      HistoriesKeepTexts(After(repo, events[0]), events[1..]);
      KeptTwice(repo, After(repo, events[0]), AfterAll(After(repo, events[0]), events[1..]));
    } else {
      hide After;
    }
  }

  // ---------------------------------------------------------------- the newest digest

  /** The issue for the payload is open and shows its digest. */
  ghost predicate Settled(repo: Repo, fingerprint: string, digest: string) {
    match FirstCarrier(repo.issues, fingerprint)
    case None => false
    case Some(i) => LatestDigest(Texts(repo.issues[i])) == Some(digest)
  }

  lemma NewIssueShowsItsDigest(repo: Repo, p: Payload)
    requires p.Good()
    ensures LatestDigest(Texts(NewIssue(repo, p))) == Some(p.digest)
  {
    hide IssueBody, IsFingerprint, IsDigest, Clean, Digests;
    BodyCarriesItsDigest(p.fingerprint, p.digest, p.bodyRest);
    assert Texts(NewIssue(repo, p)) == [p.Body()];
    assert [p.Body()][1..] == [];
    assert LastOr(None, p.Body()) == Some(p.digest);
    assert Latest(None, [p.Body()]) == Some(p.digest);
  }

  lemma CommentShowsItsDigest(issue: Issue, p: Payload)
    requires p.Good()
    ensures LatestDigest(Texts(issue.(comments := issue.comments + [p.Comment()]))) == Some(p.digest)
  {
    hide UpdateComment, IsFingerprint, IsDigest, Clean, Digests;
    CommentCarriesItsDigest(p.digest, p.commentRest);
    var longer := issue.(comments := issue.comments + [p.Comment()]);
    assert Texts(longer) == Texts(issue) + [p.Comment()];
    LatestAppend(None, Texts(issue), [p.Comment()]);
    assert [p.Comment()][1..] == [];
    assert Latest(Latest(None, Texts(issue)), [p.Comment()]) == Some(p.digest);
  }

  lemma {:induction false} FirstCarrierStays(issues: seq<Issue>, issues': seq<Issue>, fingerprint: string)
    requires |issues| == |issues'| && forall i | 0 <= i < |issues| :: Carries(issues'[i], fingerprint) <==> Carries(issues[i], fingerprint)
    ensures FirstCarrier(issues', fingerprint) == FirstCarrier(issues, fingerprint)
  {
    hide Carries;
    if issues != [] {
      FirstCarrierStays(issues[1..], issues'[1..], fingerprint);
    }
  }

  lemma CommentKeepsCarriers(repo: Repo, i: nat, text: string, f: string)
    requires i < |repo.issues|
    ensures FirstCarrier(Commented(repo, i, text).issues, f) == FirstCarrier(repo.issues, f)
  {
    hide Carries;
    forall k: nat | k < |repo.issues| ensures Carries(Commented(repo, i, text).issues[k], f) <==> Carries(repo.issues[k], f) {
      CommentsCarryNothing(repo, i, text, k, f);
    }
    FirstCarrierStays(repo.issues, Commented(repo, i, text).issues, f);
  }

  /** After a payload is processed its issue is open and shows its digest. */
  lemma StepSettles(repo: Repo, p: Payload)
    requires p.Good()
    ensures Settled(Step(repo, p), p.fingerprint, p.digest)
  {
    hide Carries, LatestDigest, IsFingerprint, IsDigest, Clean;
    match FirstCarrier(repo.issues, p.fingerprint) {
      case None =>
        NewIssueCarriesItsOwn(repo, p, p.fingerprint);
        NewIssueShowsItsDigest(repo, p);
      case Some(i) =>
        CommentKeepsCarriers(repo, i, p.Comment(), p.fingerprint);
        CommentShowsItsDigest(repo.issues[i], p);
    }
  }

  /** A settled payload changes nothing. */
  lemma SettledIsQuiet(repo: Repo, p: Payload)
    requires Settled(repo, p.fingerprint, p.digest)
    ensures Step(repo, p) == repo
  {
  }

  lemma CreationKeepsSettled(repo: Repo, p: Payload, f: string, digest: string)
    requires p.Good() && IsFingerprint(f) && f != p.fingerprint && Settled(repo, f, digest)
    ensures Settled(Created(repo, p), f, digest)
  {
    hide LatestDigest, IsFingerprint, IsDigest, Clean, Carries, IssueBody, Texts;
    var k := FirstCarrier(repo.issues, f).value;
    NewIssueCarriesItsOwn(repo, p, f);
    var after := Created(repo, p).issues;
    assert after[1..] == repo.issues;
    assert FirstCarrier(after, f) == Some(k + 1);
    assert after[k + 1] == repo.issues[k];
  }

  lemma CommentKeepsSettled(repo: Repo, i: nat, text: string, f: string, digest: string)
    requires i < |repo.issues| && !Carries(repo.issues[i], f) && Settled(repo, f, digest)
    ensures Settled(Commented(repo, i, text), f, digest)
  {
    hide LatestDigest, Carries;
    CommentKeepsCarriers(repo, i, text, f);
    var k := FirstCarrier(repo.issues, f).value;
    assert Commented(repo, i, text).issues[k] == repo.issues[k];
  }

  /** Where an issue carries both fingerprints, both ask for one digest. */
  ghost predicate AgreeOn(issues: seq<Issue>, f: string, digest: string, g: string, digest': string) {
    forall k | 0 <= k < |issues| && Carries(issues[k], f) && Carries(issues[k], g) :: digest == digest'
  }

  /** No open issue carries the fingerprints of two payloads with different digests. */
  ghost predicate Agree(repo: Repo, payloads: seq<Payload>) {
    forall i, j | 0 <= i < |payloads| && 0 <= j < |payloads| ::
      AgreeOn(repo.issues, payloads[i].fingerprint, payloads[i].digest, payloads[j].fingerprint, payloads[j].digest)
  }

  lemma StepKeepsAgreement(repo: Repo, p: Payload, f: string, digest: string, g: string, digest': string)
    requires p.Good() && IsFingerprint(f) && IsFingerprint(g) && (f == g ==> digest == digest')
    requires AgreeOn(repo.issues, f, digest, g, digest')
    ensures AgreeOn(Step(repo, p).issues, f, digest, g, digest')
  {
    hide Carries, LatestDigest, IsFingerprint, IsDigest, Clean;
    match FirstCarrier(repo.issues, p.fingerprint) {
      case None =>
        NewIssueCarriesItsOwn(repo, p, f);
        NewIssueCarriesItsOwn(repo, p, g);
        assert Created(repo, p).issues[1..] == repo.issues;
      case Some(i) =>
        forall k: nat, h | k < |repo.issues|
          ensures Carries(Commented(repo, i, p.Comment()).issues[k], h) <==> Carries(repo.issues[k], h)
        {
          CommentsCarryNothing(repo, i, p.Comment(), k, h);
        }
    }
  }

  lemma OnlyCarrier(repo: Repo, f: string, k: nat)
    requires Unique(repo) && IsFingerprint(f) && k < |repo.issues| && Carries(repo.issues[k], f)
    ensures FirstCarrier(repo.issues, f) == Some(k)
  {
    hide Carries, IsFingerprint;
  }

  /** Processing one payload leaves the issues of the others as they are, unless one issue is for both
      and they differ. */
  lemma OthersStaySettled(repo: Repo, p: Payload, f: string, digest: string)
    requires Unique(repo) && p.Good() && IsFingerprint(f) && f != p.fingerprint && Settled(repo, f, digest)
    requires AgreeOn(repo.issues, f, digest, p.fingerprint, p.digest)
    ensures Settled(Step(repo, p), f, digest)
  {
    hide LatestDigest, IsFingerprint, IsDigest, Clean, Carries, Created, Commented, Unique;
    match FirstCarrier(repo.issues, p.fingerprint) {
      case None => CreationKeepsSettled(repo, p, f, digest);
      case Some(i) =>
        if Carries(repo.issues[i], f) {
          OnlyCarrier(repo, f, i);
        } else {
          CommentKeepsSettled(repo, i, p.Comment(), f, digest);
        }
    }
  }

  ghost predicate GoodRun(payloads: seq<Payload>) {
    && (forall i | 0 <= i < |payloads| :: payloads[i].Good())
    && (forall i, j | 0 <= i < j < |payloads| :: payloads[i].fingerprint != payloads[j].fingerprint)
  }

  lemma {:induction false} RunKeepsOthersSettled(repo: Repo, payloads: seq<Payload>, f: string, digest: string)
    requires Unique(repo) && GoodRun(payloads) && IsFingerprint(f) && Settled(repo, f, digest)
    requires forall i | 0 <= i < |payloads| ::
      payloads[i].fingerprint != f && AgreeOn(repo.issues, f, digest, payloads[i].fingerprint, payloads[i].digest)
    ensures Settled(Steps(repo, payloads), f, digest)
    decreases |payloads|
  {
    hide Unique, Step, Settled, IsFingerprint, AgreeOn, IsDigest, Clean;
    if payloads != [] {
      var p := payloads[0];
      StepKeepsUnique(repo, p);
      OthersStaySettled(repo, p, f, digest);
      forall i | 0 <= i < |payloads| - 1
        ensures AgreeOn(Step(repo, p).issues, f, digest, payloads[1..][i].fingerprint, payloads[1..][i].digest)
      {
        assert payloads[1..][i] == payloads[i + 1];
        StepKeepsAgreement(repo, p, f, digest, payloads[i + 1].fingerprint, payloads[i + 1].digest);
      }
      RunKeepsOthersSettled(Step(repo, p), payloads[1..], f, digest);
    }
  }

  lemma StepKeepsAgreeing(repo: Repo, payloads: seq<Payload>)
    requires payloads != [] && GoodRun(payloads) && Agree(repo, payloads)
    ensures Agree(Step(repo, payloads[0]), payloads[1..])
    ensures forall i | 0 <= i < |payloads| - 1 ::
      var q := payloads[1..][i];
      q.fingerprint != payloads[0].fingerprint
      && AgreeOn(Step(repo, payloads[0]).issues, payloads[0].fingerprint, payloads[0].digest, q.fingerprint, q.digest)
  {
    hide AgreeOn, Step, IsFingerprint, IsDigest, Clean;
    var rest := payloads[1..];
    forall i, j | 0 <= i < |rest| && 0 <= j < |rest|
      ensures AgreeOn(Step(repo, payloads[0]).issues, rest[i].fingerprint, rest[i].digest, rest[j].fingerprint, rest[j].digest)
    {
      assert rest[i] == payloads[i + 1] && rest[j] == payloads[j + 1];
      StepKeepsAgreement(repo, payloads[0], rest[i].fingerprint, rest[i].digest, rest[j].fingerprint, rest[j].digest);
    }
    forall i | 0 <= i < |rest|
      ensures rest[i].fingerprint != payloads[0].fingerprint
      ensures AgreeOn(Step(repo, payloads[0]).issues, payloads[0].fingerprint, payloads[0].digest, rest[i].fingerprint, rest[i].digest)
    {
      assert rest[i] == payloads[i + 1];
      StepKeepsAgreement(repo, payloads[0], payloads[0].fingerprint, payloads[0].digest, rest[i].fingerprint, rest[i].digest);
    }
  }

  /** A run settles all its payloads, where they agree. */
  lemma {:induction false} RunSettles(repo: Repo, payloads: seq<Payload>)
    requires Unique(repo) && GoodRun(payloads) && Agree(repo, payloads)
    ensures forall i | 0 <= i < |payloads| :: Settled(Steps(repo, payloads), payloads[i].fingerprint, payloads[i].digest)
    decreases |payloads|
  {
    hide Unique, Step, Settled, IsFingerprint, Agree, AgreeOn, IsDigest, Clean;
    if payloads != [] {
      var p, rest := payloads[0], payloads[1..];
      StepKeepsUnique(repo, p);
      StepSettles(repo, p);
      StepKeepsAgreeing(repo, payloads);
      RunSettles(Step(repo, p), rest);
      RunKeepsOthersSettled(Step(repo, p), rest, p.fingerprint, p.digest);
      forall i | 0 <= i < |payloads| ensures Settled(Steps(repo, payloads), payloads[i].fingerprint, payloads[i].digest) {
        if i > 0 {
          assert payloads[i] == rest[i - 1];
        }
      }
    }
  }

  lemma {:induction false} SettledRunIsQuiet(repo: Repo, payloads: seq<Payload>)
    requires forall i | 0 <= i < |payloads| :: Settled(repo, payloads[i].fingerprint, payloads[i].digest)
    ensures Steps(repo, payloads) == repo
    decreases |payloads|
  {
    hide Step, Settled;
    if payloads != [] {
      SettledIsQuiet(repo, payloads[0]);
      SettledRunIsQuiet(repo, payloads[1..]);
    }
  }

  /** A second run with the same fingerprints and digests, in any order and however often, writes
      nothing, unless one open issue is for two payloads of the run that differ. */
  lemma SecondRunWritesNothing(repo: Repo, first: seq<Payload>, second: seq<Payload>)
    requires Unique(repo) && GoodRun(first) && Agree(repo, first)
    requires forall q | q in second :: exists p :: p in first && p.fingerprint == q.fingerprint && p.digest == q.digest
    ensures Steps(Steps(repo, first), second) == Steps(repo, first)
  {
    hide Unique, Settled, Agree;
    RunSettles(repo, first);
    var settled := Steps(repo, first);
    forall i | 0 <= i < |second| ensures Settled(settled, second[i].fingerprint, second[i].digest) {
      assert second[i] in second;
      var p :| p in first && p.fingerprint == second[i].fingerprint && p.digest == second[i].digest;
      var j :| 0 <= j < |first| && first[j] == p;
    }
    SettledRunIsQuiet(settled, second);
  }

  // ---------------------------------------------------------------- and only then

  lemma {:induction false} StepsKeep(repo: Repo, payloads: seq<Payload>)
    ensures Kept(repo, Steps(repo, payloads))
    decreases |payloads|
  {
    hide Step, Kept;
    if payloads == [] {
      KeptAsItIs(repo);
    } else {
      OneEventKeeps(repo, Processed(payloads[0]));
      StepsKeep(Step(repo, payloads[0]), payloads[1..]);
      KeptTwice(repo, Step(repo, payloads[0]), Steps(repo, payloads));
    }
  }

  lemma KeptAsItIs(repo: Repo)
    ensures Kept(repo, repo)
  {
  }

  lemma KeptBothWays(a: Repo, b: Repo)
    requires Kept(a, b) && Kept(b, a)
    ensures a.issues == b.issues
  {
    forall i | 0 <= i < |a.issues| ensures a.issues[i] == b.issues[i] {
      assert Grown(a.issues[i], b.issues[i]) && Grown(b.issues[i], a.issues[i]);
      assert a.issues[i].comments == b.issues[i].comments;
    }
  }

  lemma QuietStepIsSettled(repo: Repo, p: Payload)
    requires Step(repo, p).issues == repo.issues
    ensures Settled(repo, p.fingerprint, p.digest) && Step(repo, p) == repo
  {
    hide Carries, LatestDigest;
    match FirstCarrier(repo.issues, p.fingerprint) {
      case None =>
      case Some(i) => CommentChanges(repo, i, p.Comment());
    }
  }

  lemma CommentChanges(repo: Repo, i: nat, text: string)
    requires i < |repo.issues|
    ensures Commented(repo, i, text).issues != repo.issues
  {
    assert |Commented(repo, i, text).issues[i].comments| == |repo.issues[i].comments| + 1;
  }

  lemma {:induction false} QuietRunIsSettled(repo: Repo, payloads: seq<Payload>)
    requires Steps(repo, payloads).issues == repo.issues
    ensures forall i | 0 <= i < |payloads| :: Settled(repo, payloads[i].fingerprint, payloads[i].digest)
    decreases |payloads|
  {
    hide Step, Settled, Kept;
    if payloads != [] {
      var p, rest := payloads[0], payloads[1..];
      OneEventKeeps(repo, Processed(p));
      StepsKeep(Step(repo, p), rest);
      SameIssuesKept(Step(repo, p), Steps(repo, payloads), repo);
      KeptBothWays(repo, Step(repo, p));
      QuietStepIsSettled(repo, p);
      QuietRunIsSettled(repo, rest);
      forall i | 0 <= i < |payloads| ensures Settled(repo, payloads[i].fingerprint, payloads[i].digest) {
        if i > 0 {
          assert payloads[i] == rest[i - 1];
        }
      }
    }
  }

  lemma SameIssuesKept(a: Repo, b: Repo, c: Repo)
    requires Kept(a, b) && b.issues == c.issues
    ensures Kept(a, c)
  {
  }

  /** An issue stays what it carries through a run. */
  lemma {:induction false} CarriersStay(repo: Repo, payloads: seq<Payload>, k: nat) returns (k': nat)
    requires k < |repo.issues|
    ensures k' < |Steps(repo, payloads).issues|
    ensures forall f :: Carries(Steps(repo, payloads).issues[k'], f) <==> Carries(repo.issues[k], f)
    decreases |payloads|
  {
    hide Carries, LatestDigest;
    if payloads == [] {
      k' := k;
    } else {
      var p := payloads[0];
      var next := k;
      match FirstCarrier(repo.issues, p.fingerprint) {
        case None =>
          next := k + 1;
          assert Step(repo, p).issues[k + 1] == repo.issues[k];
        case Some(i) =>
          forall f ensures Carries(Commented(repo, i, p.Comment()).issues[k], f) <==> Carries(repo.issues[k], f) {
            CommentsCarryNothing(repo, i, p.Comment(), k, f);
          }
      }
      k' := CarriersStay(Step(repo, p), payloads[1..], next);
    }
  }

  lemma {:induction false} RunKeepsUnique(repo: Repo, payloads: seq<Payload>)
    requires Unique(repo) && forall i | 0 <= i < |payloads| :: payloads[i].Good()
    ensures Unique(Steps(repo, payloads))
    decreases |payloads|
  {
    hide Unique, Step;
    if payloads != [] {
      StepKeepsUnique(repo, payloads[0]);
      RunKeepsUnique(Step(repo, payloads[0]), payloads[1..]);
    }
  }

  /** Running twice writes nothing the second time exactly when no open issue, to begin with, is for two
      payloads of the run that differ. */
  lemma SecondRunIsQuietExactly(repo: Repo, payloads: seq<Payload>)
    requires Unique(repo) && GoodRun(payloads)
    ensures Steps(Steps(repo, payloads), payloads) == Steps(repo, payloads) <==> Agree(repo, payloads)
  {
    hide Unique, Settled, Carries, Steps, IsFingerprint, IsDigest, Clean;
    if Agree(repo, payloads) {
      SecondRunWritesNothing(repo, payloads, payloads);
    }
    var settled := Steps(repo, payloads);
    if Steps(settled, payloads) == settled {
      QuietRunIsSettled(settled, payloads);
      RunKeepsUnique(repo, payloads);
      forall i, j | 0 <= i < |payloads| && 0 <= j < |payloads|
        ensures AgreeOn(repo.issues, payloads[i].fingerprint, payloads[i].digest, payloads[j].fingerprint, payloads[j].digest)
      {
        forall k | 0 <= k < |repo.issues| && Carries(repo.issues[k], payloads[i].fingerprint) && Carries(repo.issues[k], payloads[j].fingerprint)
          ensures payloads[i].digest == payloads[j].digest
        {
          var k' := CarriersStay(repo, payloads, k);
          OnlyCarrier(settled, payloads[i].fingerprint, k');
          OnlyCarrier(settled, payloads[j].fingerprint, k');
          SettledAlike(settled, payloads[i], payloads[j], k');
        }
      }
    }
  }

  lemma SettledAlike(repo: Repo, p: Payload, q: Payload, k: nat)
    requires Settled(repo, p.fingerprint, p.digest) && Settled(repo, q.fingerprint, q.digest)
    requires FirstCarrier(repo.issues, p.fingerprint) == Some(k) == FirstCarrier(repo.issues, q.fingerprint)
    ensures p.digest == q.digest
  {
    hide LatestDigest;
  }

  // ---------------------------------------------------------------- concurrent runs

  /** The protocol rests on runs being sequential: two that both read before either writes both
      create, and one issue per fingerprint is kept exactly when their fingerprints differ. */
  lemma InterleavedRunsBothCreate(repo: Repo, p: Payload, q: Payload)
    requires Unique(repo) && p.Good() && q.Good()
    requires FirstCarrier(repo.issues, p.fingerprint).None? && FirstCarrier(repo.issues, q.fingerprint).None?
    ensures AtMostOne(Created(Created(repo, p), q).issues) <==> p.fingerprint != q.fingerprint
  {
    hide Carries, IsFingerprint, IsDigest, Clean, Unique;
    var once, both := Created(repo, p), Created(Created(repo, p), q);
    if p.fingerprint == q.fingerprint {
      NewIssueCarriesItsOwn(repo, p, p.fingerprint);
      NewIssueCarriesItsOwn(once, q, p.fingerprint);
      assert both.issues[0] == NewIssue(once, q) && both.issues[1] == NewIssue(repo, p);
      assert Carries(both.issues[0], p.fingerprint) && Carries(both.issues[1], p.fingerprint);
    } else {
      CreationKeepsUnique(repo, p);
      NewIssueCarriesItsOwn(repo, p, q.fingerprint);
      assert once.issues[1..] == repo.issues;
      CreationKeepsUnique(once, q);
      UniqueIsAtMostOne(both);
    }
  }

  lemma UniqueIsAtMostOne(repo: Repo)
    requires Unique(repo)
    ensures AtMostOne(repo.issues)
  {
  }

  // ---------------------------------------------------------------- texts with markers of their own

  /** The last digest in a text, where there is one, is this one. */
  predicate SpeaksFor(rest: string, digest: string) {
    var digests := Digests(rest, 0);
    digests == [] || digests[|digests| - 1] == digest
  }

  lemma LastOfText(found: Option<string>, text: string, digest: string, rest: string)
    requires Digests(text, 0) == [digest] + Digests(rest, 0)
    ensures LastOr(found, text) == Some(digest) <==> SpeaksFor(rest, digest)
  {
    hide Digests;
  }

  lemma NewIssueShows(repo: Repo, p: Payload)
    requires IsFingerprint(p.fingerprint) && IsDigest(p.digest)
    ensures LatestDigest(Texts(NewIssue(repo, p))) == Some(p.digest) <==> SpeaksFor(p.bodyRest, p.digest)
  {
    hide IssueBody, IsFingerprint, IsDigest, Digests, LastOr, SpeaksFor;
    DigestsOfBody(p.fingerprint, p.digest, p.bodyRest);
    LastOfText(None, p.Body(), p.digest, p.bodyRest);
    assert Texts(NewIssue(repo, p)) == [p.Body()] && [p.Body()][1..] == [];
    assert Latest(None, [p.Body()]) == LastOr(None, p.Body());
  }

  lemma CommentShows(issue: Issue, p: Payload)
    requires IsDigest(p.digest)
    ensures LatestDigest(Texts(issue.(comments := issue.comments + [p.Comment()]))) == Some(p.digest)
       <==> SpeaksFor(p.commentRest, p.digest)
  {
    hide UpdateComment, IsDigest, Digests, LastOr, SpeaksFor;
    DigestsOfComment(p.digest, p.commentRest);
    var found := Latest(None, Texts(issue));
    LastOfText(found, p.Comment(), p.digest, p.commentRest);
    var longer := issue.(comments := issue.comments + [p.Comment()]);
    assert Texts(longer) == Texts(issue) + [p.Comment()];
    LatestAppend(None, Texts(issue), [p.Comment()]);
    assert [p.Comment()][1..] == [];
    assert Latest(found, [p.Comment()]) == LastOr(found, p.Comment());
  }

  lemma NewIssueIsFirst(repo: Repo, p: Payload)
    requires IsFingerprint(p.fingerprint) && IsDigest(p.digest) && "drift" in p.labels
    ensures FirstCarrier(Created(repo, p).issues, p.fingerprint) == Some(0)
  {
    hide IssueBody, IsFingerprint, IsDigest;
    MarkersOfBody(p.fingerprint, p.digest, p.bodyRest, p.fingerprint);
  }

  /** Without any assumption on the texts that are shown: after a payload has been written, processing
      it again writes nothing exactly when the texts hold no digest or end in the payload's own. A
      signal line that holds another digest marker makes every later run comment again. */
  lemma WrittenOnceExactly(repo: Repo, p: Payload)
    requires IsFingerprint(p.fingerprint) && IsDigest(p.digest) && "drift" in p.labels && Step(repo, p) != repo
    ensures Step(Step(repo, p), p) == Step(repo, p)
       <==> SpeaksFor(if FirstCarrier(repo.issues, p.fingerprint).None? then p.bodyRest else p.commentRest, p.digest)
  {
    hide Carries, LatestDigest, IsFingerprint, IsDigest, SpeaksFor;
    var after := Step(repo, p);
    match FirstCarrier(repo.issues, p.fingerprint) {
      case None =>
        NewIssueIsFirst(repo, p);
        NewIssueShows(repo, p);
        CommentIsSeen(after, 0, p.Comment());
      case Some(i) =>
        CommentKeepsCarriers(repo, i, p.Comment(), p.fingerprint);
        CommentShows(repo.issues[i], p);
        CommentIsSeen(after, i, p.Comment());
    }
  }

  lemma CommentIsSeen(repo: Repo, i: nat, text: string)
    requires i < |repo.issues|
    ensures Commented(repo, i, text) != repo
  {
    assert |Commented(repo, i, text).issues[i].comments| == |repo.issues[i].comments| + 1;
  }
}
