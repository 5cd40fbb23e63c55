/** What a failing item shows of each of its records, under a strict policy. */
module ShownItems {
  import opened Lists
  import opened Options
  import opened PytestPlugin
  import opened PytestPromotions
  import opened StrictPolicy

  /** The entries of promotions, joined back to the records they name. */
  function LinesOf(item: Item, promotions: seq<Promotion>): (lines: seq<Shown>)
    ensures |lines| == |promotions|
    ensures forall i | 0 <= i < |promotions| :: lines[i] == ShownPromoted(Join(item, promotions[i]))
  {
    if promotions == [] then [] else [ShownPromoted(Join(item, promotions[0]))] + LinesOf(item, promotions[1..])
  }

  /** How a finding is shown: as it is when it blocks, as promoted when the policy names its property,
      as a warning otherwise. */
  function EntryOfFinding(item: Item, strict: Strict, f: Finding): Shown {
    if f.Blocking() then ShownBlocking(f)
    else if strict.promotes(item.slug) then ShownPromoted(JoinFinding(PromotionOf(f), item.findings))
    else ShownWarning(f)
  }

  ghost predicate GradedKind(item: Item, kind: string) {
    exists m :: m in item.notes && m.kind == kind && m.graded
  }

  /** The entries of a note: when the policy names the property, a graded note has one for each
      promotion, and an ungraded one none if its kind is promoted. */
  ghost function EntriesOfNote(item: Item, strict: Strict, n: Note): seq<Shown> {
    if !strict.promotes(item.slug) then [ShownNote(n)]
    else if n.graded then LinesOf(item, NotePromotion(strict, item.slug, n))
    else if GradedKind(item, n.kind) then []
    else [ShownNote(n)]
  }

  function OfTheFindings(item: Item, strict: Strict, findings: seq<Finding>): (lines: seq<Shown>)
    ensures |lines| == |findings|
  {
    if findings == [] then [] else [EntryOfFinding(item, strict, findings[0])] + OfTheFindings(item, strict, findings[1..])
  }

  ghost function OfTheNotes(item: Item, strict: Strict, notes: seq<Note>): seq<Shown> {
    if notes == [] then [] else EntriesOfNote(item, strict, notes[0]) + OfTheNotes(item, strict, notes[1..])
  }

  // ---------------------------------------------------------------- the promotions

  lemma PromotedLines(item: Item)
    ensures ShowPromoted(PromotedRecordsOf(item)) == LinesOf(item, item.promotions)
  {
  }

  lemma LinesOfBoth(item: Item, a: seq<Promotion>, b: seq<Promotion>)
    ensures LinesOf(item, a + b) == LinesOf(item, a) + LinesOf(item, b)
  {
    hide Join;
  }

  lemma KeptLine(item: Item, promotions: seq<Promotion>, side: Promotion -> bool)
    requires promotions != []
    ensures LinesOf(item, Keep(promotions, side))
         == (if side(promotions[0]) then [ShownPromoted(Join(item, promotions[0]))] else [])
            + LinesOf(item, Keep(promotions[1..], side))
  {
    hide Join;
    var first := if side(promotions[0]) then [promotions[0]] else [];
    LinesOfBoth(item, first, Keep(promotions[1..], side));
  }

  lemma {:induction false} LinesSplit(item: Item, promotions: seq<Promotion>)
    ensures multiset(LinesOf(item, promotions))
         == multiset(LinesOf(item, Keep(promotions, OfFindings()))) + multiset(LinesOf(item, Keep(promotions, OfNotes())))
  {
    hide Join, Keep;
    if promotions == [] {
      NoLines(item);
    } else {
      LinesSplit(item, promotions[1..]);
      KeptLine(item, promotions, OfFindings());
      KeptLine(item, promotions, OfNotes());
    }
  }

  lemma NoLines(item: Item)
    ensures LinesOf(item, Keep([], OfFindings())) == [] && LinesOf(item, Keep([], OfNotes())) == []
  {
  }

  // ---------------------------------------------------------------- the findings

  /** The warnings of an item, all promoted or all noted. */
  function WarningLines(item: Item, strict: Strict, warnings: seq<Finding>): seq<Shown> {
    if strict.promotes(item.slug) then LinesOf(item, PromotionsOf(warnings)) else ShowWarnings(warnings)
  }

  lemma WarningLine(item: Item, strict: Strict, f: Finding, rest: seq<Finding>)
    requires f.origin != FromNote && !f.Blocking()
    ensures WarningLines(item, strict, [f] + rest) == [EntryOfFinding(item, strict, f)] + WarningLines(item, strict, rest)
  {
    hide JoinFinding, JoinNote;
    assert ([f] + rest)[1..] == rest;
    LinesOfBoth(item, [PromotionOf(f)], PromotionsOf(rest));
    assert LinesOf(item, [PromotionOf(f)]) == [ShownPromoted(Join(item, PromotionOf(f)))];
    assert ShowWarnings([f] + rest) == [ShownWarning(f)] + ShowWarnings(rest);
  }

  /** The lines of the blocking findings and of the warnings. */
  function BothLines(item: Item, strict: Strict, findings: seq<Finding>): (seq<Shown>, seq<Shown>) {
    (ShowBlocking(Keep(findings, IsBlocking())), WarningLines(item, strict, Keep(findings, IsWarning())))
  }

  lemma FindingLine(item: Item, strict: Strict, findings: seq<Finding>)
    requires findings != [] && findings[0].origin != FromNote
    ensures var entry, all, rest := [EntryOfFinding(item, strict, findings[0])],
                                    BothLines(item, strict, findings), BothLines(item, strict, findings[1..]);
      all == (entry + rest.0, rest.1) || all == (rest.0, entry + rest.1)
  {
    hide WarningLines;
    var f, rest := findings[0], findings[1..];
    if f.Blocking() {
      assert Keep(findings, IsBlocking()) == [f] + Keep(rest, IsBlocking());
      assert Keep(findings, IsWarning()) == Keep(rest, IsWarning());
      assert ShowBlocking([f] + Keep(rest, IsBlocking())) == [ShownBlocking(f)] + ShowBlocking(Keep(rest, IsBlocking()));
    } else {
      assert Keep(findings, IsBlocking()) == Keep(rest, IsBlocking());
      assert Keep(findings, IsWarning()) == [f] + Keep(rest, IsWarning());
      WarningLine(item, strict, f, Keep(rest, IsWarning()));
    }
  }

  lemma {:induction false} FindingLines(item: Item, strict: Strict, findings: seq<Finding>)
    requires NoNotes(findings)
    ensures var both := BothLines(item, strict, findings);
      multiset(both.0) + multiset(both.1) == multiset(OfTheFindings(item, strict, findings))
  {
    hide BothLines, EntryOfFinding;
    if findings == [] {
      NoFindingLines(item, strict);
    } else {
      assert findings[0] in findings;
      FindingLines(item, strict, findings[1..]);
      FindingLine(item, strict, findings);
    }
  }

  lemma NoFindingLines(item: Item, strict: Strict)
    ensures BothLines(item, strict, []) == ([], [])
  {
    var none: seq<Finding> := [];
    assert Keep(none, IsBlocking()) == [] && Keep(none, IsWarning()) == [];
    assert ShowBlocking(none) == [] && ShowWarnings(none) == [] && PromotionsOf(none) == [];
  }

  // ---------------------------------------------------------------- the notes

  function PromotedNoteLines(item: Item, strict: Strict, notes: seq<Note>): seq<Shown> {
    if strict.promotes(item.slug) then LinesOf(item, NotePromotions(strict, item.slug, notes)) else []
  }

  /** Which of the notes are noted, read off the policy. */
  ghost predicate NotedByPolicy(item: Item, strict: Strict, notes: seq<Note>) {
    forall n | n in notes :: Noted(item)(n) <==> !strict.promotes(item.slug) || !GradedKind(item, n.kind)
  }

  lemma NoteLine(item: Item, strict: Strict, n: Note)
    requires n in item.notes && NotedByPolicy(item, strict, [n])
    ensures PromotedNoteLines(item, strict, [n]) + (if Noted(item)(n) then [ShownNote(n)] else []) == EntriesOfNote(item, strict, n)
  {
    hide LinesOf, NotePromotion, Noted;
    assert [n][0] in [n] && [n][1..] == [];
    assert NotePromotions(strict, item.slug, []) == [];
    assert LinesOf(item, []) == [];
    if n.graded {
      assert GradedKind(item, n.kind);
      assert NotePromotions(strict, item.slug, [n]) == NotePromotion(strict, item.slug, n) + [];
    } else {
      assert NotePromotions(strict, item.slug, [n]) == [] + [];
    }
  }

  lemma MoreNoteLines(item: Item, strict: Strict, n: Note, rest: seq<Note>)
    ensures PromotedNoteLines(item, strict, [n] + rest) == PromotedNoteLines(item, strict, [n]) + PromotedNoteLines(item, strict, rest)
  {
    hide LinesOf, NotePromotion;
    var first := if n.graded then NotePromotion(strict, item.slug, n) else [];
    assert ([n] + rest)[1..] == rest && [n][1..] == [];
    assert NotePromotions(strict, item.slug, [n]) == first + [];
    LinesOfBoth(item, first, NotePromotions(strict, item.slug, rest));
  }

  lemma NoteStep(item: Item, strict: Strict, notes: seq<Note>)
    requires notes != [] && notes[0] in item.notes && NotedByPolicy(item, strict, notes)
    ensures var p, q := PromotedNoteLines(item, strict, [notes[0]]), if Noted(item)(notes[0]) then [ShownNote(notes[0])] else [];
      && p + q == EntriesOfNote(item, strict, notes[0])
      && PromotedNoteLines(item, strict, notes) == p + PromotedNoteLines(item, strict, notes[1..])
      && ShowNotes(Keep(notes, Noted(item))) == q + ShowNotes(Keep(notes[1..], Noted(item)))
  {
    hide EntriesOfNote, PromotedNoteLines, Noted;
    var n, rest := notes[0], notes[1..];
    assert n in notes && notes == [n] + rest;
    NoteLine(item, strict, n);
    MoreNoteLines(item, strict, n, rest);
    if Noted(item)(n) {
      assert ShowNotes([n] + Keep(rest, Noted(item))) == [ShownNote(n)] + ShowNotes(Keep(rest, Noted(item)));
    }
  }

  lemma {:induction false} NoteLines(item: Item, strict: Strict, notes: seq<Note>)
    requires (forall n | n in notes :: n in item.notes) && NotedByPolicy(item, strict, notes)
    ensures multiset(PromotedNoteLines(item, strict, notes)) + multiset(ShowNotes(Keep(notes, Noted(item))))
         == multiset(OfTheNotes(item, strict, notes))
  {
    hide EntriesOfNote, PromotedNoteLines, Noted, Keep, ShowNotes;
    if notes == [] {
      NoNoteLines(item, strict);
    } else {
      assert notes[0] in notes;
      NoteLines(item, strict, notes[1..]);
      NoteStep(item, strict, notes);
    }
  }

  lemma NoNoteLines(item: Item, strict: Strict)
    ensures PromotedNoteLines(item, strict, []) == [] && ShowNotes(Keep([], Noted(item))) == []
  {
  }

  lemma NotedAsPolicySays(run: Run, strict: Strict, slug: string)
    requires Follows(run, strict)
    ensures NotedByPolicy(ItemOf(run, slug), strict, ItemOf(run, slug).notes)
  {
    hide Follows, NotesOf, Noted, Records, Keep;
    var item := ItemOf(run, slug);
    forall n | n in item.notes ensures Noted(item)(n) <==> !strict.promotes(slug) || !GradedKind(item, n.kind) {
      WhatIsNoted(run, strict, slug, n);
      assert Noted(item)(n) <==> n in NotedNotes(item);
    }
  }

  // ---------------------------------------------------------------- the item

  function ErrorLine(item: Item): seq<Shown> {
    if item.error.Some? then [ShownError(item.error.value)] else []
  }

  lemma PartsOfFailure(item: Item)
    ensures multiset(FailureOf(item)) == multiset(ErrorLine(item)) + multiset(ShowBlocking(item.BlockingFindings()))
          + multiset(ShowPromoted(PromotedRecordsOf(item))) + multiset(ShowWarnings(NotedFindings(item))) + multiset(ShowNotes(NotedNotes(item)))
  {
    hide PromotedRecordsOf, NotedFindings, NotedNotes, Keep, ShowPromoted, ShowWarnings, ShowNotes, ShowBlocking;
  }

  /** What a failing item shows is the run's error, one entry for each finding and the entries of each
      note, and nothing else. */
  lemma ItemShowsItsRecords(run: Run, strict: Strict, slug: string)
    requires Follows(run, strict)
    ensures var item := ItemOf(run, slug);
      multiset(FailureOf(item)) == multiset(ErrorLine(item)) + multiset(OfTheFindings(item, strict, item.findings))
                                 + multiset(OfTheNotes(item, strict, item.notes))
  {
    var item := ItemOf(run, slug);
    PartsOfFailure(item);
    FindingPart(run, strict, slug);
    NotePart(run, strict, slug);
    PromotedLines(item);
    LinesSplit(item, item.promotions);
    hide *;
  }

  lemma FindingPart(run: Run, strict: Strict, slug: string)
    requires Follows(run, strict)
    ensures var item := ItemOf(run, slug);
      multiset(ShowBlocking(item.BlockingFindings())) + multiset(LinesOf(item, Keep(item.promotions, OfFindings())))
      + multiset(ShowWarnings(NotedFindings(item))) == multiset(OfTheFindings(item, strict, item.findings))
  {
    hide Records, Promoted, Keep, PromotionsOf, NotesOf, NotedFindings, ShowBlocking, Follows, Join, EntryOfFinding;
    var item := ItemOf(run, slug);
    RecordsAreFindings(run.outcomes);
    FindingsAreShownOnce(run, strict, slug);
    FindingLines(item, strict, item.findings);
  }

  lemma NotePart(run: Run, strict: Strict, slug: string)
    requires Follows(run, strict)
    ensures var item := ItemOf(run, slug);
      multiset(LinesOf(item, Keep(item.promotions, OfNotes()))) + multiset(ShowNotes(NotedNotes(item)))
         == multiset(OfTheNotes(item, strict, item.notes))
  {
    hide Records, Promoted, Keep, NotePromotions, NotesOf, Noted, ShowNotes, Follows, Join, EntriesOfNote;
    var item := ItemOf(run, slug);
    NoteSideOfItem(run, strict, slug);
    NotedAsPolicySays(run, strict, slug);
    NoteLines(item, strict, item.notes);
  }

  /** Every finding has one entry by its making; every note has one exactly when, as far as the policy
      names the property, notes of one kind share a grade and no graded note has two locations. */
  lemma NotesAreShownOnceExactly(item: Item, strict: Strict)
    ensures (forall n | n in item.notes :: |EntriesOfNote(item, strict, n)| == 1) <==>
            (strict.promotes(item.slug) ==>
               GradesByKind(item.notes) && forall n | n in item.notes && n.graded :: |n.locations| <= 1)
  {
    hide LinesOf;
    if strict.promotes(item.slug) {
      forall n | n in item.notes && n.graded ensures |EntriesOfNote(item, strict, n)| == 1 <==> |n.locations| <= 1 {
      }
    }
  }

  /** Then the item has as many entries as it has records, and the error if there is one. */
  lemma ShownOnceCounts(run: Run, strict: Strict, slug: string)
    requires Follows(run, strict)
    requires strict.promotes(slug) ==>
      GradesByKind(ItemOf(run, slug).notes) && forall n | n in ItemOf(run, slug).notes && n.graded :: |n.locations| <= 1
    ensures var item := ItemOf(run, slug);
      |FailureOf(item)| == |ErrorLine(item)| + |item.findings| + |item.notes|
  {
    hide EntriesOfNote, Follows, FailureOf, GradesByKind;
    var item := ItemOf(run, slug);
    ItemShowsItsRecords(run, strict, slug);
    NotesAreShownOnceExactly(item, strict);
    OneEntryEach(item, strict, item.notes);
    var parts := ErrorLine(item) + OfTheFindings(item, strict, item.findings) + OfTheNotes(item, strict, item.notes);
    assert |multiset(FailureOf(item))| == |multiset(parts)|;
  }

  lemma {:induction false} OneEntryEach(item: Item, strict: Strict, notes: seq<Note>)
    requires forall n | n in notes :: |EntriesOfNote(item, strict, n)| == 1
    ensures |OfTheNotes(item, strict, notes)| == |notes|
  {
    hide EntriesOfNote;
    if notes != [] {
      assert notes[0] in notes;
      OneEntryEach(item, strict, notes[1..]);
    }
  }

  /** A graded note with two locations is shown twice, though its kind has one grade. */
  lemma NoteWithTwoLocations() returns (run: Run, strict: Strict, slug: string, twice: Note)
    ensures Follows(run, strict) && ItemOf(run, slug).notes == [twice] && GradesByKind(ItemOf(run, slug).notes)
    ensures ItemOf(run, slug).findings == [] && run.error.None? && |FailureOf(ItemOf(run, slug))| == 2
  {
    slug := "p";
    twice := Note("k", true, ["x", "y"]);
    var outcomes := [Reported("p", None, [twice])];
    strict := Strict(s => true, (s, k) => None);
    run := Run(outcomes, Promoted(strict, outcomes), None);
    var item := ItemOf(run, slug);
    NotesOfOneReport(run, outcomes, slug, [twice]);
    ItemShowsItsRecords(run, strict, slug);
    assert OfTheFindings(item, strict, []) == [];
    var entries := OfTheNotes(item, strict, item.notes);
    assert item.notes[1..] == [];
    assert entries == EntriesOfNote(item, strict, twice) + [];
    assert |entries| == 2;
    assert multiset(FailureOf(item)) == multiset(entries);
    assert |multiset(FailureOf(item))| == 2;
  }

  lemma NotesOfOneReport(run: Run, outcomes: seq<Outcome>, slug: string, notes: seq<Note>)
    requires run.outcomes == outcomes == [Reported(slug, None, notes)]
    ensures ItemOf(run, slug).notes == notes && ItemOf(run, slug).findings == []
  {
    assert ReportOf(outcomes, slug) == Some(outcomes[0]);
    assert NotesIn(outcomes[0]) == notes + [];
    assert OwnedIn(outcomes[0]) == [];
    assert outcomes[..0] == [];
    assert Records(outcomes) == [] + [];
  }

  // ---------------------------------------------------------------- notes that are lost

  lemma ShownAsNoted(item: Item, n: Note)
    ensures ShownNote(n) in FailureOf(item) <==> n in NotedNotes(item)
  {
    hide PromotedRecordsOf, NotedFindings, NotedNotes, Keep;
    var notes, before := ShowNotes(NotedNotes(item)), ErrorLine(item) + ShowBlocking(item.BlockingFindings())
                         + ShowPromoted(PromotedRecordsOf(item)) + ShowWarnings(NotedFindings(item));
    assert FailureOf(item) == before + notes;
    assert forall i | 0 <= i < |before| :: !before[i].ShownNote?;
    if n in NotedNotes(item) {
      var i :| 0 <= i < |NotedNotes(item)| && NotedNotes(item)[i] == n;
      assert notes[i] == ShownNote(n);
    }
  }

  /** An ungraded note is shown nowhere exactly when the policy names the property and the note shares
      its kind with a graded one. */
  lemma UngradedNoteIsLostExactly(run: Run, strict: Strict, slug: string, n: Note)
    requires Follows(run, strict) && n in ItemOf(run, slug).notes && !n.graded
    ensures var item := ItemOf(run, slug);
      && (ShownNote(n) !in FailureOf(item) <==> strict.promotes(slug) && GradedKind(item, n.kind))
      && (EntriesOfNote(item, strict, n) == [] <==> strict.promotes(slug) && GradedKind(item, n.kind))
  {
    hide Follows, FailureOf, NotedNotes, NotesOf, Records, Keep;
    var item := ItemOf(run, slug);
    ShownAsNoted(item, n);
    WhatIsNoted(run, strict, slug, n);
  }

  /** Such a run: of two notes of one kind the ungraded one is not shown, and the item has one entry. */
  lemma UngradedNoteIsLost() returns (run: Run, strict: Strict, slug: string, lost: Note)
    ensures Follows(run, strict) && lost in ItemOf(run, slug).notes && |ItemOf(run, slug).notes| == 2
    ensures ShownNote(lost) !in FailureOf(ItemOf(run, slug)) && EntriesOfNote(ItemOf(run, slug), strict, lost) == []
    ensures |FailureOf(ItemOf(run, slug))| == 1
  {
    slug := "p";
    lost := Note("k", false, []);
    var graded := Note("k", true, []);
    var outcomes := [Reported("p", None, [graded, lost])];
    strict := Strict(s => true, (s, k) => None);
    run := Run(outcomes, Promoted(strict, outcomes), None);
    var item := ItemOf(run, slug);
    NotesOfOneReport(run, outcomes, slug, [graded, lost]);
    assert item.notes[0] == graded && item.notes[1] == lost;
    UngradedNoteIsLostExactly(run, strict, slug, lost);
    ItemShowsItsRecords(run, strict, slug);
    TwoNotes(item, strict, graded, lost);
    assert OfTheFindings(item, strict, []) == [];
    assert |multiset(FailureOf(item))| == |multiset(OfTheNotes(item, strict, item.notes))|;
  }

  lemma TwoNotes(item: Item, strict: Strict, graded: Note, lost: Note)
    requires item.notes == [graded, lost] && strict.promotes(item.slug)
    requires graded.graded && graded.locations == [] && EntriesOfNote(item, strict, lost) == []
    ensures |OfTheNotes(item, strict, item.notes)| == 1
  {
    assert item.notes[1..] == [lost] && [lost][1..] == [];
    assert OfTheNotes(item, strict, [lost]) == [] + [];
  }
}
