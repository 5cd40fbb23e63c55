/** What an item is charged with, counted over the failures, co-failures and advisories of the reports. */
module PytestCarriers {
  import opened Lists
  import opened Options
  import opened PytestPlugin

  // ---------------------------------------------------------------- the carriers of a record

  /** The report failed with this record of its own property. */
  predicate FailureSpells(report: Outcome, f: Finding) {
    && report.Reported? && report.failure.Some? && f.origin == FromFailure && f.owner == report.slug
    && f.severity == report.failure.value.severity && f.claim == report.failure.value.claim
    && f.condition == report.failure.value.condition && f.location == report.failure.value.location
  }

  /** A co-failure names the owner of its record itself. */
  predicate CoFailureSpells(c: CoFailure, f: Finding) {
    && f.origin == FromCoFailure && f.owner == c.owner
    && f.severity == c.severity && f.claim == c.claim && f.condition == c.condition && f.location == c.location
  }

  /** And so does an advisory. */
  predicate AdvisorySpells(a: Advisory, f: Finding) {
    && f.origin == FromAdvisory && f.owner == a.owner
    && f.severity == a.severity && f.claim == a.claim && f.condition == a.condition && f.location == a.location
  }

  function CoFailureCount(carriers: seq<CoFailure>, f: Finding): nat {
    if carriers == [] then 0
    else CoFailureCount(carriers[1..], f) + if CoFailureSpells(carriers[0], f) then 1 else 0
  }

  function AdvisoryCount(carriers: seq<Advisory>, f: Finding): nat {
    if carriers == [] then 0
    else AdvisoryCount(carriers[1..], f) + if AdvisorySpells(carriers[0], f) then 1 else 0
  }

  /** How many carriers of one report spell the record. */
  function CarriersIn(report: Outcome, f: Finding): nat {
    if report.NotImplemented? || report.failure.None? then 0
    else
      (if FailureSpells(report, f) then 1 else 0)
      + CoFailureCount(report.failure.value.coFailures, f) + AdvisoryCount(report.failure.value.advisories, f)
  }

  /** How many carriers of all reports do, whatever property the reports are of. */
  function Carriers(outcomes: seq<Outcome>, f: Finding): nat {
    if outcomes == [] then 0 else CarriersIn(outcomes[0], f) + Carriers(outcomes[1..], f)
  }

  // ---------------------------------------------------------------- counting records

  lemma {:induction false} CoFailuresCounted(carriers: seq<CoFailure>, list: seq<Finding>, f: Finding)
    requires |list| == |carriers| && forall i | 0 <= i < |list| :: list[i] == CoFailureFinding(carriers[i])
    ensures multiset(list)[f] == CoFailureCount(carriers, f)
  {
    if list != [] {
      CoFailuresCounted(carriers[1..], list[1..], f);
      assert list == [list[0]] + list[1..];
    }
  }

  lemma {:induction false} AdvisoriesCounted(carriers: seq<Advisory>, list: seq<Finding>, f: Finding)
    requires |list| == |carriers| && forall i | 0 <= i < |list| :: list[i] == AdvisoryFinding(carriers[i])
    ensures multiset(list)[f] == AdvisoryCount(carriers, f)
  {
    if list != [] {
      AdvisoriesCounted(carriers[1..], list[1..], f);
      assert list == [list[0]] + list[1..];
    }
  }

  lemma OwnedCounted(report: Outcome, f: Finding)
    ensures multiset(OwnedIn(report))[f] == CarriersIn(report, f)
  {
    if report.Reported? && report.failure.Some? {
      var it := report.failure.value;
      var own := [Finding(report.slug, FromFailure, it.severity, it.claim, it.condition, it.location)];
      var co := seq(|it.coFailures|, i requires 0 <= i < |it.coFailures| => CoFailureFinding(it.coFailures[i]));
      var ad := seq(|it.advisories|, i requires 0 <= i < |it.advisories| => AdvisoryFinding(it.advisories[i]));
      CoFailuresCounted(it.coFailures, co, f);
      AdvisoriesCounted(it.advisories, ad, f);
      assert OwnedIn(report) == own + co + ad;
      assert multiset(own)[f] == if FailureSpells(report, f) then 1 else 0;
    }
  }

  lemma {:induction false} CarriersOfFront(outcomes: seq<Outcome>, f: Finding)
    requires outcomes != []
    ensures Carriers(outcomes, f) == Carriers(outcomes[..|outcomes| - 1], f) + CarriersIn(outcomes[|outcomes| - 1], f)
  {
    hide CarriersIn;
    if |outcomes| > 1 {
      CarriersOfFront(outcomes[1..], f);
      assert outcomes[1..][..|outcomes| - 2] == outcomes[..|outcomes| - 1][1..];
    } else {
      assert outcomes[1..] == [];
    }
  }

  lemma {:induction false} RecordsCounted(outcomes: seq<Outcome>, f: Finding)
    ensures multiset(Records(outcomes))[f] == Carriers(outcomes, f)
  {
    hide OwnedIn, CarriersIn;
    if outcomes != [] {
      RecordsCounted(outcomes[..|outcomes| - 1], f);
      OwnedCounted(outcomes[|outcomes| - 1], f);
      CarriersOfFront(outcomes, f);
    }
  }

  /** An item has each record of its property as often as failures, co-failures and advisories spell it,
      whichever reports these ride on, and no record of another property. */
  lemma ItemIsChargedByOwner(run: Run, slug: string, f: Finding)
    ensures multiset(ItemOf(run, slug).findings)[f] == if f.owner == slug then Carriers(run.outcomes, f) else 0
  {
    hide Carriers;
    KeepCounted(Records(run.outcomes), OwnedBy(slug), f);
    RecordsCounted(run.outcomes, f);
  }

  // ---------------------------------------------------------------- which carriers those are

  lemma {:induction false} SomeCoFailure(carriers: seq<CoFailure>, f: Finding)
    ensures CoFailureCount(carriers, f) > 0 <==> exists c :: c in carriers && CoFailureSpells(c, f)
  {
    if carriers != [] {
      SomeCoFailure(carriers[1..], f);
      assert carriers == [carriers[0]] + carriers[1..];
    }
  }

  lemma {:induction false} SomeAdvisory(carriers: seq<Advisory>, f: Finding)
    ensures AdvisoryCount(carriers, f) > 0 <==> exists a :: a in carriers && AdvisorySpells(a, f)
  {
    if carriers != [] {
      SomeAdvisory(carriers[1..], f);
      assert carriers == [carriers[0]] + carriers[1..];
    }
  }

  /** The report carries the record, as its failure or as a rider. */
  ghost predicate CarriedBy(report: Outcome, f: Finding) {
    || FailureSpells(report, f)
    || (report.Reported? && report.failure.Some? && exists c :: c in report.failure.value.coFailures && CoFailureSpells(c, f))
    || (report.Reported? && report.failure.Some? && exists a :: a in report.failure.value.advisories && AdvisorySpells(a, f))
  }

  lemma SomeCarrier(report: Outcome, f: Finding)
    ensures CarriersIn(report, f) > 0 <==> CarriedBy(report, f)
  {
    if report.Reported? && report.failure.Some? {
      SomeCoFailure(report.failure.value.coFailures, f);
      SomeAdvisory(report.failure.value.advisories, f);
    }
  }

  lemma {:induction false} SomeReport(outcomes: seq<Outcome>, f: Finding)
    ensures Carriers(outcomes, f) > 0 <==> exists report :: report in outcomes && CarriedBy(report, f)
  {
    hide CarriersIn, CarriedBy;
    if outcomes != [] {
      SomeReport(outcomes[1..], f);
      SomeCarrier(outcomes[0], f);
      assert outcomes == [outcomes[0]] + outcomes[1..];
    }
  }

  /** A record is among an item's findings exactly when the property owns it and some report carries it. */
  lemma ItemFindingsAre(run: Run, slug: string, f: Finding)
    ensures f in ItemOf(run, slug).findings <==>
            f.owner == slug && exists report :: report in run.outcomes && CarriedBy(report, f)
  {
    hide Carriers, CarriedBy;
    ItemIsChargedByOwner(run, slug, f);
    SomeReport(run.outcomes, f);
    var findings := ItemOf(run, slug).findings;
    assert f in findings <==> multiset(findings)[f] > 0;
  }

  // ---------------------------------------------------------------- notes

  function CoNoteCount(carriers: seq<CoFailure>, n: Note): nat {
    if carriers == [] then 0 else multiset(carriers[0].notes)[n] + CoNoteCount(carriers[1..], n)
  }

  lemma {:induction false} CoNotesOfFront(carriers: seq<CoFailure>, n: Note)
    requires carriers != []
    ensures CoNoteCount(carriers, n) == CoNoteCount(carriers[..|carriers| - 1], n) + multiset(carriers[|carriers| - 1].notes)[n]
  {
    if |carriers| > 1 {
      CoNotesOfFront(carriers[1..], n);
      assert carriers[1..][..|carriers| - 2] == carriers[..|carriers| - 1][1..];
    } else {
      assert carriers[1..] == [];
    }
  }

  lemma {:induction false} CoNotesCounted(carriers: seq<CoFailure>, n: Note)
    ensures multiset(CoNotes(carriers))[n] == CoNoteCount(carriers, n)
  {
    if carriers != [] {
      CoNotesCounted(carriers[..|carriers| - 1], n);
      CoNotesOfFront(carriers, n);
    }
  }

  /** An item has the notes of the first report of its property: those of its witness, its failure and the
      co-failures that ride on it, each as often as it stands there. */
  lemma ItemNotesAre(run: Run, slug: string, k: nat, n: Note)
    requires k < |run.outcomes| && run.outcomes[k].Reported? && run.outcomes[k].slug == slug
    requires forall i | 0 <= i < k :: !(run.outcomes[i].Reported? && run.outcomes[i].slug == slug)
    ensures multiset(ItemOf(run, slug).notes)[n] ==
      multiset(run.outcomes[k].witnessNotes)[n]
      + match run.outcomes[k].failure
        case None => 0
        case Some(f) => multiset(f.notes)[n] + CoNoteCount(f.coFailures, n)
  {
    FirstReport(run.outcomes, slug, k);
    if run.outcomes[k].failure.Some? {
      CoNotesCounted(run.outcomes[k].failure.value.coFailures, n);
    }
  }

  lemma {:induction false} FirstReport(outcomes: seq<Outcome>, slug: string, k: nat)
    requires k < |outcomes| && outcomes[k].Reported? && outcomes[k].slug == slug
    requires forall i | 0 <= i < k :: !(outcomes[i].Reported? && outcomes[i].slug == slug)
    ensures ReportOf(outcomes, slug) == Some(outcomes[k])
  {
    if k > 0 {
      FirstReport(outcomes[1..], slug, k - 1);
    }
  }

  /** An item has exactly the promotions of its property, and the error of the run. */
  lemma ItemPromotionsAre(run: Run, slug: string, p: Promotion)
    ensures multiset(ItemOf(run, slug).promotions)[p] == if p.owner == slug then multiset(run.promotions)[p] else 0
    ensures ItemOf(run, slug).error == run.error && ItemOf(run, slug).slug == slug
  {
    KeepCounted(run.promotions, PromotionsBy(slug), p);
  }
}
