/** What a strict policy promotes in a run, and what it leaves to be noted. */
module StrictPolicy {
  import opened Lists
  import opened Options
  import opened PytestPlugin
  import opened PytestPromotions

  /** The policy names properties; a property may fix the identity under which its notes of a kind are
      promoted. */
  datatype Strict = Strict(promotes: string -> bool, identity: (string, string) -> Option<string>)

  // ---------------------------------------------------------------- what is promoted

  function PromotionOf(f: Finding): Promotion {
    Promotion(f.owner, f.origin, Some(f.condition), None, Some(f.location))
  }

  function PromotionsOf(findings: seq<Finding>): seq<Promotion> {
    if findings == [] then [] else [PromotionOf(findings[0])] + PromotionsOf(findings[1..])
  }

  /** A note is promoted once for each of its locations, or once if it has none. */
  function NotePromotion(strict: Strict, slug: string, note: Note): seq<Promotion> {
    if note.locations == [] then [Promotion(slug, FromNote, strict.identity(slug, note.kind), Some(note.kind), None)]
    else seq(|note.locations|, i requires 0 <= i < |note.locations| =>
               Promotion(slug, FromNote, strict.identity(slug, note.kind), Some(note.kind), Some(note.locations[i])))
  }

  function NotePromotions(strict: Strict, slug: string, notes: seq<Note>): seq<Promotion> {
    if notes == [] then []
    else (if notes[0].graded then NotePromotion(strict, slug, notes[0]) else []) + NotePromotions(strict, slug, notes[1..])
  }

  function Promotable(strict: Strict): Finding -> bool {
    (f: Finding) => f.severity == Warning && strict.promotes(f.owner)
  }

  function PromotedIn(strict: Strict, outcome: Outcome): seq<Promotion> {
    PromotionsOf(Keep(OwnedIn(outcome), Promotable(strict)))
    + if outcome.Reported? && strict.promotes(outcome.slug) then NotePromotions(strict, outcome.slug, NotesIn(outcome)) else []
  }

  /** What the run promotes, in report order and then record order. */
  function Promoted(strict: Strict, outcomes: seq<Outcome>): seq<Promotion> {
    if outcomes == [] then [] else Promoted(strict, outcomes[..|outcomes| - 1]) + PromotedIn(strict, outcomes[|outcomes| - 1])
  }

  // ---------------------------------------------------------------- the promotions of one item

  function FindingSide(slug: string): Promotion -> bool {
    (p: Promotion) => p.owner == slug && p.origin != FromNote
  }

  function NoteSide(slug: string): Promotion -> bool {
    (p: Promotion) => p.owner == slug && p.origin == FromNote
  }

  function WarningOf(slug: string): Finding -> bool {
    (f: Finding) => f.owner == slug && f.severity == Warning
  }

  function OfFindings(): Promotion -> bool {
    (p: Promotion) => p.origin != FromNote
  }

  function OfNotes(): Promotion -> bool {
    (p: Promotion) => p.origin == FromNote
  }

  ghost predicate NoNotes(findings: seq<Finding>) {
    forall f | f in findings :: f.origin != FromNote
  }

  lemma OwnedAreFindings(outcome: Outcome)
    ensures NoNotes(OwnedIn(outcome))
  {
  }

  lemma PromotionsOfBoth(a: seq<Finding>, b: seq<Finding>)
    ensures PromotionsOf(a + b) == PromotionsOf(a) + PromotionsOf(b)
  {
    if a == [] {
      assert a + b == b;
    } else {
      assert (a + b)[1..] == a[1..] + b;
      PromotionsOfBoth(a[1..], b);
    }
  }

  /** Of the promoted findings of one report an item has those it owns, if the policy names it. */
  lemma {:induction false} FindingSideOf(strict: Strict, slug: string, records: seq<Finding>)
    requires NoNotes(records)
    ensures Keep(PromotionsOf(Keep(records, Promotable(strict))), FindingSide(slug))
         == if strict.promotes(slug) then PromotionsOf(Keep(records, WarningOf(slug))) else []
    ensures Keep(PromotionsOf(Keep(records, Promotable(strict))), NoteSide(slug)) == []
  {
    if records != [] {
      assert records[0] in records;
      FindingSideOf(strict, slug, records[1..]);
      var f := records[0];
      var first := if Promotable(strict)(f) then [f] else [];
      var rest := Keep(records[1..], Promotable(strict));
      PromotionsOfBoth(first, rest);
      KeepOfBoth(PromotionsOf(first), PromotionsOf(rest), FindingSide(slug));
      KeepOfBoth(PromotionsOf(first), PromotionsOf(rest), NoteSide(slug));
      PromotionsOfBoth(if WarningOf(slug)(f) then [f] else [], Keep(records[1..], WarningOf(slug)));
    }
  }

  lemma {:induction false} NotesPromoteAsNotes(strict: Strict, owner: string, notes: seq<Note>, slug: string)
    ensures Keep(NotePromotions(strict, owner, notes), FindingSide(slug)) == []
    ensures Keep(NotePromotions(strict, owner, notes), NoteSide(slug)) == if owner == slug then NotePromotions(strict, owner, notes) else []
  {
    hide NotePromotion;
    if notes != [] {
      NotesPromoteAsNotes(strict, owner, notes[1..], slug);
      var first := if notes[0].graded then NotePromotion(strict, owner, notes[0]) else [];
      var rest := NotePromotions(strict, owner, notes[1..]);
      NotePromotionIs(strict, owner, notes[0]);
      KeepOfBoth(first, rest, FindingSide(slug));
      KeepOfBoth(first, rest, NoteSide(slug));
      KeepUniform(first, FindingSide(slug), false);
      KeepUniform(first, NoteSide(slug), owner == slug);
    }
  }

  lemma NotePromotionIs(strict: Strict, owner: string, note: Note)
    ensures forall p | p in NotePromotion(strict, owner, note) :: p.owner == owner && p.origin == FromNote && p.kind == Some(note.kind)
    ensures NotePromotion(strict, owner, note) != []
  {
  }

  lemma {:induction false} KeepUniform(promotions: seq<Promotion>, side: Promotion -> bool, all: bool)
    requires forall p | p in promotions :: side(p) == all
    ensures Keep(promotions, side) == if all then promotions else []
  {
    if promotions != [] {
      assert promotions[0] in promotions;
      KeepUniform(promotions[1..], side, all);
    }
  }

  ghost predicate OneReportEach(outcomes: seq<Outcome>) {
    forall i, j | 0 <= i < j < |outcomes| :: outcomes[i].slug != outcomes[j].slug
  }

  lemma {:induction false} ReportOfFront(outcomes: seq<Outcome>, slug: string)
    requires outcomes != []
    ensures var front, last := outcomes[..|outcomes| - 1], outcomes[|outcomes| - 1];
      ReportOf(outcomes, slug) == if ReportOf(front, slug).Some? then ReportOf(front, slug)
                                  else if last.Reported? && last.slug == slug then Some(last) else None
  {
    if |outcomes| > 1 {
      ReportOfFront(outcomes[1..], slug);
      assert outcomes[1..][..|outcomes| - 2] == outcomes[..|outcomes| - 1][1..];
    } else {
      assert outcomes[1..] == [];
    }
  }

  lemma {:induction false} ReportIsThere(outcomes: seq<Outcome>, slug: string)
    ensures ReportOf(outcomes, slug).Some? ==> ReportOf(outcomes, slug).value in outcomes && ReportOf(outcomes, slug).value.slug == slug
  {
    if outcomes != [] {
      ReportIsThere(outcomes[1..], slug);
    }
  }

  lemma PromotedStep(strict: Strict, front: seq<Outcome>, last: Outcome, side: Promotion -> bool)
    ensures Keep(Promoted(strict, front + [last]), side) == Keep(Promoted(strict, front), side) + Keep(PromotedIn(strict, last), side)
  {
    hide PromotedIn, Keep;
    assert (front + [last])[..|front|] == front;
    KeepOfBoth(Promoted(strict, front), PromotedIn(strict, last), side);
  }

  /** The promoted findings of an item are its warnings, one promotion each and in order, if the policy
      names the property; otherwise there are none. */
  lemma {:induction false} FindingSideOfRun(strict: Strict, outcomes: seq<Outcome>, slug: string)
    ensures Keep(Promoted(strict, outcomes), FindingSide(slug))
         == if strict.promotes(slug) then PromotionsOf(Keep(Records(outcomes), WarningOf(slug))) else []
  {
    hide OwnedIn, PromotionsOf, PromotedIn, Keep;
    NothingIsPromoted(strict, slug);
    if outcomes != [] {
      var front, last := outcomes[..|outcomes| - 1], outcomes[|outcomes| - 1];
      FindingSideOfRun(strict, front, slug);
      LastReport(strict, front, last, slug);
      assert outcomes == front + [last];
      PromotedStep(strict, front, last, FindingSide(slug));
      RecordsStep(front, last, WarningOf(slug));
      PromotionsOfBoth(Keep(Records(front), WarningOf(slug)), Keep(OwnedIn(last), WarningOf(slug)));
    }
  }

  lemma NotesOfFront(front: seq<Outcome>, last: Outcome, slug: string)
    requires OneReportEach(front + [last])
    ensures OneReportEach(front)
    ensures NotesOf(front + [last], slug) == if last.Reported? && last.slug == slug then NotesIn(last) else NotesOf(front, slug)
    ensures last.slug == slug ==> NotesOf(front, slug) == []
  {
    hide NotesIn, ReportOf;
    var outcomes := front + [last];
    assert outcomes[..|front|] == front;
    ReportOfFront(outcomes, slug);
    ReportIsThere(front, slug);
    forall i, j | 0 <= i < j < |front| ensures front[i].slug != front[j].slug {
      assert outcomes[i].slug != outcomes[j].slug;
    }
    forall i | 0 <= i < |front| ensures front[i].slug != last.slug {
      assert outcomes[i].slug != outcomes[|front|].slug;
    }
  }

  /** The promoted notes of an item are its graded ones, once for each location. */
  lemma {:induction false} NoteSideOfRun(strict: Strict, outcomes: seq<Outcome>, slug: string)
    requires OneReportEach(outcomes)
    ensures Keep(Promoted(strict, outcomes), NoteSide(slug))
         == if strict.promotes(slug) then NotePromotions(strict, slug, NotesOf(outcomes, slug)) else []
  {
    hide NotesIn, NotePromotions, PromotedIn, NotesOf, OneReportEach, Keep;
    NothingIsPromoted(strict, slug);
    if outcomes != [] {
      var front, last := outcomes[..|outcomes| - 1], outcomes[|outcomes| - 1];
      assert outcomes == front + [last];
      NotesOfFront(front, last, slug);
      NoteSideOfRun(strict, front, slug);
      LastReport(strict, front, last, slug);
      PromotedStep(strict, front, last, NoteSide(slug));
      var a, b := Keep(Promoted(strict, front), NoteSide(slug)), Keep(PromotedIn(strict, last), NoteSide(slug));
      assert a + [] == a && [] + b == b;
    }
  }

  lemma RecordsStep(front: seq<Outcome>, last: Outcome, p: Finding -> bool)
    ensures Keep(Records(front + [last]), p) == Keep(Records(front), p) + Keep(OwnedIn(last), p)
  {
    hide OwnedIn, Keep;
    assert (front + [last])[..|front|] == front;
    KeepOfBoth(Records(front), OwnedIn(last), p);
  }

  lemma NothingIsPromoted(strict: Strict, slug: string)
    ensures PromotionsOf([]) == [] && NotePromotions(strict, slug, []) == [] && NotesOf([], slug) == []
    ensures Keep(Promoted(strict, []), FindingSide(slug)) == [] && Keep(Promoted(strict, []), NoteSide(slug)) == []
    ensures Keep(Records([]), WarningOf(slug)) == []
  {
  }

  lemma LastReport(strict: Strict, front: seq<Outcome>, last: Outcome, slug: string)
    ensures Keep(PromotedIn(strict, last), FindingSide(slug))
         == if strict.promotes(slug) then PromotionsOf(Keep(OwnedIn(last), WarningOf(slug))) else []
    ensures Keep(PromotedIn(strict, last), NoteSide(slug))
         == if last.Reported? && last.slug == slug && strict.promotes(slug) then NotePromotions(strict, slug, NotesIn(last)) else []
  {
    hide NotesIn, OwnedIn, NotePromotions, PromotionsOf, Keep;
    var findings := PromotionsOf(Keep(OwnedIn(last), Promotable(strict)));
    var notes := if last.Reported? && strict.promotes(last.slug) then NotePromotions(strict, last.slug, NotesIn(last)) else [];
    OwnedAreFindings(last);
    FindingSideOf(strict, slug, OwnedIn(last));
    KeepOfBoth(findings, notes, FindingSide(slug));
    KeepOfBoth(findings, notes, NoteSide(slug));
    NotesPromoteAsNotes(strict, last.slug, NotesIn(last), slug);
    KeepUniform([], FindingSide(slug), false);
    KeepUniform([], NoteSide(slug), false);
  }

  // ---------------------------------------------------------------- promoted or noted

  /** The run's promotions are what its policy selects. */
  ghost predicate Follows(run: Run, strict: Strict) {
    run.promotions == Promoted(strict, run.outcomes) && OneReportEach(run.outcomes)
  }

  lemma WarningsOfItem(run: Run, slug: string)
    ensures ItemOf(run, slug).WarningFindings() == Keep(Records(run.outcomes), WarningOf(slug))
  {
    KeepTwice(Records(run.outcomes), OwnedBy(slug), IsWarning(), WarningOf(slug));
  }

  lemma SidesOfItem(run: Run, slug: string)
    ensures Keep(ItemOf(run, slug).promotions, OfFindings()) == Keep(run.promotions, FindingSide(slug))
    ensures Keep(ItemOf(run, slug).promotions, OfNotes()) == Keep(run.promotions, NoteSide(slug))
  {
    KeepTwice(run.promotions, PromotionsBy(slug), OfFindings(), FindingSide(slug));
    KeepTwice(run.promotions, PromotionsBy(slug), OfNotes(), NoteSide(slug));
  }

  lemma {:induction false} PromotionsOfHas(findings: seq<Finding>, p: Promotion)
    ensures p in PromotionsOf(findings) <==> exists f | f in findings :: PromotionOf(f) == p
  {
    if findings != [] {
      PromotionsOfHas(findings[1..], p);
      assert findings == [findings[0]] + findings[1..];
    }
  }

  lemma {:induction false} RecordsAreFindings(outcomes: seq<Outcome>)
    ensures NoNotes(Records(outcomes))
  {
    if outcomes != [] {
      RecordsAreFindings(outcomes[..|outcomes| - 1]);
      OwnedAreFindings(outcomes[|outcomes| - 1]);
    }
  }

  /** The warnings of an item are either all promoted, one promotion each and in order, or all noted:
      with the blocking findings they are its findings, each once. */
  lemma FindingsAreShownOnce(run: Run, strict: Strict, slug: string)
    requires Follows(run, strict)
    ensures var item := ItemOf(run, slug);
      && multiset(item.BlockingFindings()) + multiset(item.WarningFindings()) == multiset(item.findings)
      && Keep(item.promotions, OfFindings()) == (if strict.promotes(slug) then PromotionsOf(item.WarningFindings()) else [])
      && NotedFindings(item) == if strict.promotes(slug) then [] else item.WarningFindings()
  {
    hide Promoted, Records, NotedFindings, PromotedIdentities, Keep, PromotionsOf, IdentityOf;
    var item := ItemOf(run, slug);
    KeepSplits(item.findings, IsBlocking(), IsWarning());
    FindingSideOfRun(strict, run.outcomes, slug);
    WarningsOfItem(run, slug);
    SidesOfItem(run, slug);
    RecordsAreFindings(run.outcomes);
    forall f | f in item.WarningFindings() ensures IdentityOf(f) in PromotedIdentities(item.promotions) <==> strict.promotes(slug) {
      WarningIdentity(item, strict, slug, f);
    }
    NotedUniform(item, strict.promotes(slug));
  }

  lemma WarningIdentity(item: Item, strict: Strict, slug: string, f: Finding)
    requires f in item.WarningFindings() && NoNotes(item.WarningFindings())
    requires Keep(item.promotions, OfFindings())
          == if strict.promotes(slug) then PromotionsOf(item.WarningFindings()) else []
    ensures IdentityOf(f) in PromotedIdentities(item.promotions) <==> strict.promotes(slug)
  {
    var side := Keep(item.promotions, OfFindings());
    if strict.promotes(slug) {
      PromotionsOfHas(item.WarningFindings(), PromotionOf(f));
      assert PromotionOf(f) in side;
    } else {
      assert forall p | p in item.promotions && p.origin != FromNote :: p in side;
    }
  }

  lemma NotedUniform(item: Item, all: bool)
    requires forall f | f in item.WarningFindings() :: IdentityOf(f) in PromotedIdentities(item.promotions) <==> all
    ensures NotedFindings(item) == if all then [] else item.WarningFindings()
  {
    var noted := (f: Finding) => IdentityOf(f) !in PromotedIdentities(item.promotions);
    KeepConstant(item.WarningFindings(), noted, !all);
  }

  lemma {:induction false} KeepConstant(findings: seq<Finding>, p: Finding -> bool, all: bool)
    requires forall f | f in findings :: p(f) == all
    ensures Keep(findings, p) == if all then findings else []
  {
    if findings != [] {
      assert findings[0] in findings;
      KeepConstant(findings[1..], p, all);
    }
  }

  /** A promoted warning is joined back to a record of its identity; where the records of one identity
      share a grade, that grade is its own. */
  lemma PromotedWarningsJoin(item: Item, w: Finding)
    requires w in item.findings
    ensures JoinFinding(PromotionOf(w), item.findings).joined
    ensures (forall f | f in item.findings && IdentityOf(f) == IdentityOf(w) :: f.severity == w.severity && f.claim == w.claim)
        ==> JoinFinding(PromotionOf(w), item.findings) == PromotedRecord(PromotionOf(w), w.severity, Some(w.claim), true)
  {
    assert Names(PromotionOf(w), w);
  }

  // ---------------------------------------------------------------- the notes

  ghost predicate GradesByKind(notes: seq<Note>) {
    forall m, n | m in notes && n in notes && m.kind == n.kind :: m.graded == n.graded
  }

  lemma {:induction false} KindsPromoted(strict: Strict, slug: string, notes: seq<Note>, kind: string)
    ensures (exists p | p in NotePromotions(strict, slug, notes) :: p.kind == Some(kind)) <==> exists m | m in notes :: m.graded && m.kind == kind
  {
    hide NotePromotion;
    if notes != [] {
      var first := if notes[0].graded then NotePromotion(strict, slug, notes[0]) else [];
      var rest := NotePromotions(strict, slug, notes[1..]);
      KindsPromoted(strict, slug, notes[1..], kind);
      NotePromotionIs(strict, slug, notes[0]);
      assert notes == [notes[0]] + notes[1..];
      if notes[0].graded && notes[0].kind == kind {
        assert first[0] in first && first[0] in first + rest;
      }
      if m :| m in notes && m.graded && m.kind == kind && m != notes[0] {
        assert m in notes[1..];
        var p :| p in rest && p.kind == Some(kind);
        assert p in first + rest;
      }
    }
  }

  lemma KindsOfItem(item: Item, promotions: seq<Promotion>, kind: string)
    requires Keep(item.promotions, OfNotes()) == promotions
    ensures Some(kind) in PromotedKinds(item.promotions) <==> exists p | p in promotions :: p.kind == Some(kind)
  {
    if Some(kind) in PromotedKinds(item.promotions) {
      var p :| p in item.promotions && p.origin == FromNote && p.kind == Some(kind);
      assert p in promotions;
    }
  }

  lemma NoteSideOfItem(run: Run, strict: Strict, slug: string)
    requires Follows(run, strict)
    ensures Keep(ItemOf(run, slug).promotions, OfNotes())
         == if strict.promotes(slug) then NotePromotions(strict, slug, ItemOf(run, slug).notes) else []
  {
    hide Promoted, Keep, NotePromotions, NotesOf;
    NoteSideOfRun(strict, run.outcomes, slug);
    SidesOfItem(run, slug);
  }

  /** Which notes are noted: all that share their kind with no promoted one. */
  lemma WhatIsNoted(run: Run, strict: Strict, slug: string, n: Note)
    requires Follows(run, strict) && n in ItemOf(run, slug).notes
    ensures n in NotedNotes(ItemOf(run, slug)) <==>
            !strict.promotes(slug) || forall m | m in ItemOf(run, slug).notes && m.kind == n.kind :: !m.graded
  {
    hide NotePromotions, ItemOf, Follows, PromotedKinds;
    var item := ItemOf(run, slug);
    NoteSideOfItem(run, strict, slug);
    var promotions := if strict.promotes(slug) then NotePromotions(strict, slug, item.notes) else [];
    KindsOfItem(item, promotions, n.kind);
    KindsPromoted(strict, slug, item.notes, n.kind);
  }

  /** The noted notes are those that are not promoted exactly when the notes of one kind share a grade, as
      far as the policy names the property. */
  lemma NotedUnlessPromoted(run: Run, strict: Strict, slug: string)
    requires Follows(run, strict)
    ensures var item := ItemOf(run, slug);
      (forall n | n in item.notes :: n in NotedNotes(item) <==> !(strict.promotes(slug) && n.graded))
      <==> (strict.promotes(slug) ==> GradesByKind(item.notes))
  {
    hide NotedNotes, ItemOf, Follows;
    var item := ItemOf(run, slug);
    forall n | n in item.notes
      ensures n in NotedNotes(item) <==> !strict.promotes(slug) || forall m | m in item.notes && m.kind == n.kind :: !m.graded
    {
      WhatIsNoted(run, strict, slug, n);
    }
  }

  lemma {:induction false} PromotedNoteIsThere(strict: Strict, slug: string, notes: seq<Note>, p: Promotion) returns (n: Note)
    requires p in NotePromotions(strict, slug, notes)
    ensures n in notes && n.graded && NamesNote(p, n)
  {
    if notes[0].graded && p in NotePromotion(strict, slug, notes[0]) {
      n := notes[0];
    } else {
      n := PromotedNoteIsThere(strict, slug, notes[1..], p);
    }
  }

  /** Where the notes of one kind share a grade, every promoted note is joined back to a note. */
  lemma PromotedNotesJoin(strict: Strict, slug: string, notes: seq<Note>, p: Promotion)
    requires p in NotePromotions(strict, slug, notes) && GradesByKind(notes)
    ensures JoinNote(p, notes) == PromotedRecord(p, Warning, None, true)
  {
    hide NotePromotions;
    var n := PromotedNoteIsThere(strict, slug, notes, p);
    var first := FirstNote(p, notes).value;
    assert first.kind == n.kind;
  }
}
