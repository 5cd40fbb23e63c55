/** The records of a verification run, attributed to the items of a test session: who owns a record,
    what a strict policy promotes, and what an item fails on or shows. */
module PytestPlugin {
  import opened Lists
  import opened Options

  datatype Origin = FromFailure | FromCoFailure | FromAdvisory | FromNote

  datatype Severity = Fatal | Error | Warning

  /** A structured note; only a graded one can be promoted. */
  datatype Note = Note(kind: string, graded: bool, locations: seq<string>)

  datatype CoFailure = CoFailure(owner: string, severity: Severity, claim: string, condition: string, location: string, notes: seq<Note>)

  datatype Advisory = Advisory(owner: string, severity: Severity, claim: string, condition: string, location: string)

  datatype Failure = Failure(
      severity: Severity, claim: string, condition: string, location: string,
      coFailures: seq<CoFailure>, advisories: seq<Advisory>, notes: seq<Note>)

  /** What a run says of one property. */
  datatype Outcome =
    | NotImplemented(slug: string)
    | Reported(slug: string, failure: Option<Failure>, witnessNotes: seq<Note>)

  /** A record and the property that owns it. */
  datatype Finding = Finding(owner: string, origin: Origin, severity: Severity, claim: string, condition: string, location: string) {
    predicate Blocking() {
      severity == Fatal || severity == Error
    }

    function Identity(): (Origin, string, string) {
      (origin, condition, location)
    }
  }

  datatype Promotion = Promotion(owner: string, origin: Origin, condition: Option<string>, kind: Option<string>, location: Option<string>)

  datatype Run = Run(outcomes: seq<Outcome>, promotions: seq<Promotion>, error: Option<string>)

  // ---------------------------------------------------------------- who owns what

  function CoFailureFinding(c: CoFailure): Finding {
    Finding(c.owner, FromCoFailure, c.severity, c.claim, c.condition, c.location)
  }

  function AdvisoryFinding(a: Advisory): Finding {
    Finding(a.owner, FromAdvisory, a.severity, a.claim, a.condition, a.location)
  }

  /** Every record that the report of one property carries. */
  function OwnedIn(outcome: Outcome): seq<Finding> {
    if outcome.NotImplemented? || outcome.failure.None? then []
    else
      var f := outcome.failure.value;
      [Finding(outcome.slug, FromFailure, f.severity, f.claim, f.condition, f.location)]
      + seq(|f.coFailures|, i requires 0 <= i < |f.coFailures| => CoFailureFinding(f.coFailures[i]))
      + seq(|f.advisories|, i requires 0 <= i < |f.advisories| => AdvisoryFinding(f.advisories[i]))
  }

  method OwnedFindings(report: Outcome) returns (records: seq<Finding>)
    requires report.Reported?
    ensures records == OwnedIn(report)
  {
    if report.failure.None? {
      return [];
    }
    var f := report.failure.value;
    records := [Finding(report.slug, FromFailure, f.severity, f.claim, f.condition, f.location)];
    for i := 0 to |f.coFailures|
      invariant |records| == 1 + i && records[0] == OwnedIn(report)[0]
      invariant forall k | 0 <= k < i :: records[1 + k] == CoFailureFinding(f.coFailures[k])
    {
      var c := f.coFailures[i];
      records := records + [Finding(c.owner, FromCoFailure, c.severity, c.claim, c.condition, c.location)];
    }
    ghost var front := records;
    for i := 0 to |f.advisories|
      invariant |records| == |front| + i && records[..|front|] == front
      invariant forall k | 0 <= k < i :: records[|front| + k] == AdvisoryFinding(f.advisories[k])
    {
      var a := f.advisories[i];
      records := records + [Finding(a.owner, FromAdvisory, a.severity, a.claim, a.condition, a.location)];
    }
    assert forall k | 0 <= k < |f.advisories| :: OwnedIn(report)[|front| + k] == AdvisoryFinding(f.advisories[k]);
    assert forall k | 0 <= k < |front| :: records[k] == records[..|front|][k];
  }

  /** Every record of a run, in the order in which its properties come. */
  function Records(outcomes: seq<Outcome>): seq<Finding> {
    if outcomes == [] then [] else Records(outcomes[..|outcomes| - 1]) + OwnedIn(outcomes[|outcomes| - 1])
  }

  function OwnedBy(slug: string): Finding -> bool {
    (f: Finding) => f.owner == slug
  }

  function FindingsFor(outcomes: seq<Outcome>, slug: string): seq<Finding> {
    Keep(Records(outcomes), OwnedBy(slug))
  }

  function CoNotes(coFailures: seq<CoFailure>): seq<Note> {
    if coFailures == [] then [] else CoNotes(coFailures[..|coFailures| - 1]) + coFailures[|coFailures| - 1].notes
  }

  /** The notes that one report carries, in its witness, its failure and its co-failures. */
  function NotesIn(outcome: Outcome): seq<Note> {
    if outcome.NotImplemented? then []
    else outcome.witnessNotes + match outcome.failure
                                case None => []
                                case Some(f) => f.notes + CoNotes(f.coFailures)
  }

  /** The first report of a property. */
  function ReportOf(outcomes: seq<Outcome>, slug: string): Option<Outcome> {
    if outcomes == [] then None
    else if outcomes[0].Reported? && outcomes[0].slug == slug then Some(outcomes[0])
    else ReportOf(outcomes[1..], slug)
  }

  function NotesOf(outcomes: seq<Outcome>, slug: string): seq<Note> {
    match ReportOf(outcomes, slug) case None => [] case Some(report) => NotesIn(report)
  }

  method NotesFor(outcomes: seq<Outcome>, slug: string) returns (notes: seq<Note>)
    ensures notes == NotesOf(outcomes, slug)
  {
    for i := 0 to |outcomes|
      invariant ReportOf(outcomes, slug) == ReportOf(outcomes[i..], slug)
    {
      var outcome := outcomes[i];
      assert outcomes[i..][1..] == outcomes[i + 1..];
      if outcome.NotImplemented? || outcome.slug != slug {
        continue;
      }
      notes := outcome.witnessNotes;
      if outcome.failure.Some? {
        var f := outcome.failure.value;
        notes := notes + f.notes;
        ghost var front := notes;
        for j := 0 to |f.coFailures|
          invariant notes == front + CoNotes(f.coFailures[..j])
        {
          assert f.coFailures[..j + 1][..j] == f.coFailures[..j];
          notes := notes + f.coFailures[j].notes;
        }
        assert f.coFailures[..|f.coFailures|] == f.coFailures;
      }
      return;
    }
    assert outcomes[|outcomes|..] == [];
    notes := [];
  }

  // ---------------------------------------------------------------- no record is lost between items

  function OutsideOf(slugs: seq<string>): Finding -> bool {
    (f: Finding) => f.owner !in slugs
  }

  /** The records of these properties, property by property. */
  function Gathered(records: seq<Finding>, slugs: seq<string>): seq<Finding> {
    if slugs == [] then []
    else Gathered(records, slugs[..|slugs| - 1]) + Keep(records, OwnedBy(slugs[|slugs| - 1]))
  }

  lemma {:induction false} GatheredAndRest(records: seq<Finding>, slugs: seq<string>)
    requires Distinct(slugs)
    ensures multiset(Gathered(records, slugs)) + multiset(Keep(records, OutsideOf(slugs))) == multiset(records)
  {
    if slugs == [] {
      KeepAll(records, OutsideOf(slugs));
    } else {
      var front, slug := slugs[..|slugs| - 1], slugs[|slugs| - 1];
      GatheredAndRest(records, front);
      OneMoreItem(records, front, slug);
      assert front + [slug] == slugs;
    }
  }

  lemma {:induction false} KeepAll(records: seq<Finding>, p: Finding -> bool)
    requires forall f | f in records :: p(f)
    ensures Keep(records, p) == records
  {
    if records != [] {
      assert records[0] in records;
      KeepAll(records[1..], p);
    }
  }

  lemma OneMoreItem(records: seq<Finding>, front: seq<string>, slug: string)
    requires slug !in front
    ensures multiset(Keep(records, OutsideOf(front)))
         == multiset(Keep(records, OwnedBy(slug))) + multiset(Keep(records, OutsideOf(front + [slug])))
  {
    var outside, owned, rest := OutsideOf(front), OwnedBy(slug), OutsideOf(front + [slug]);
    var others := (f: Finding) => !owned(f);
    KeepSplits(Keep(records, outside), owned, others);
    KeepTwice(records, outside, owned, owned);
    KeepTwice(records, outside, others, rest);
  }

  // ---------------------------------------------------------------- what an item fails on

  function PromotionsBy(slug: string): Promotion -> bool {
    (p: Promotion) => p.owner == slug
  }

  function PromotionsFor(promotions: seq<Promotion>, slug: string): seq<Promotion> {
    Keep(promotions, PromotionsBy(slug))
  }

  function IsBlocking(): Finding -> bool {
    (f: Finding) => f.Blocking()
  }

  function IsWarning(): Finding -> bool {
    (f: Finding) => !f.Blocking()
  }

  datatype Item = Item(slug: string, error: Option<string>, findings: seq<Finding>, promotions: seq<Promotion>, notes: seq<Note>) {
    function BlockingFindings(): seq<Finding> {
      Keep(findings, IsBlocking())
    }

    function WarningFindings(): seq<Finding> {
      Keep(findings, IsWarning())
    }

    predicate Failed() {
      error.Some? || BlockingFindings() != [] || promotions != []
    }
  }

  function ItemOf(run: Run, slug: string): Item {
    Item(slug, run.error, FindingsFor(run.outcomes, slug), PromotionsFor(run.promotions, slug), NotesOf(run.outcomes, slug))
  }

  /** The findings of the items of these properties, item by item. */
  function ItemFindings(run: Run, slugs: seq<string>): seq<Finding> {
    if slugs == [] then []
    else ItemFindings(run, slugs[..|slugs| - 1]) + ItemOf(run, slugs[|slugs| - 1]).findings
  }

  lemma {:induction false} ItemFindingsAreGathered(run: Run, slugs: seq<string>)
    ensures ItemFindings(run, slugs) == Gathered(Records(run.outcomes), slugs)
  {
    hide Records, Keep;
    if slugs != [] {
      ItemFindingsAreGathered(run, slugs[..|slugs| - 1]);
    }
  }

  /** Whatever properties have an item, every record of the run is a finding of exactly one item or
      belongs to a property without one: none is lost and none is charged twice. */
  lemma RecordsSplitOverItems(run: Run, slugs: seq<string>)
    requires Distinct(slugs)
    ensures multiset(ItemFindings(run, slugs)) + multiset(Keep(Records(run.outcomes), OutsideOf(slugs)))
         == multiset(Records(run.outcomes))
    ensures forall slug, f | slug in slugs && f in ItemOf(run, slug).findings :: f.owner == slug
  {
    hide Records;
    ItemFindingsAreGathered(run, slugs);
    GatheredAndRest(Records(run.outcomes), slugs);
  }

  /** What the run gated on that no item can fail on. */
  function UngatedFindings(run: Run, itemized: seq<string>): seq<Finding> {
    Keep(Records(run.outcomes), (f: Finding) => f.Blocking() && f.owner !in itemized)
  }

  function UngatedPromotions(run: Run, itemized: seq<string>): seq<Promotion> {
    Keep(run.promotions, (p: Promotion) => p.owner !in itemized)
  }

  /** The run reached a verdict that blocks: a blocking record or a promotion. */
  predicate Blocks(run: Run) {
    (exists f | f in Records(run.outcomes) :: f.Blocking()) || run.promotions != []
  }

  lemma ItemFailsOn(run: Run, slug: string)
    requires run.error.None?
    ensures ItemOf(run, slug).Failed() <==>
            (exists f | f in Records(run.outcomes) :: f.Blocking() && f.owner == slug) || exists p | p in run.promotions :: p.owner == slug
  {
    var item := ItemOf(run, slug);
    assert forall f :: f in item.BlockingFindings() <==> f in Records(run.outcomes) && f.owner == slug && f.Blocking();
    assert item.BlockingFindings() != [] ==> item.BlockingFindings()[0] in item.BlockingFindings();
    assert item.promotions != [] ==> item.promotions[0] in item.promotions;
  }

  /** A run that reached a verdict blocks exactly when some item fails or the closing report names
      what fell outside the items: nothing that gates goes missing in silence. */
  lemma NothingGatesUnseen(run: Run, itemized: seq<string>)
    requires run.error.None?
    ensures Blocks(run) <==>
            (exists slug | slug in itemized :: ItemOf(run, slug).Failed()) || UngatedFindings(run, itemized) != [] || UngatedPromotions(run, itemized) != []
  {
    hide Records, ItemOf;
    forall slug ensures ItemOf(run, slug).Failed() <==>
      (exists f | f in Records(run.outcomes) :: f.Blocking() && f.owner == slug) || exists p | p in run.promotions :: p.owner == slug
    {
      ItemFailsOn(run, slug);
    }
    var findings, promotions := UngatedFindings(run, itemized), UngatedPromotions(run, itemized);
    assert findings != [] ==> findings[0] in findings;
    assert promotions != [] ==> promotions[0] in promotions;
    if f :| f in Records(run.outcomes) && f.Blocking() {
      assert f.owner !in itemized ==> f in findings;
    }
    if run.promotions != [] {
      var p := run.promotions[0];
      assert p in run.promotions && (p.owner !in itemized ==> p in promotions);
    }
  }
}
