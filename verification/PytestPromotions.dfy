/** What a strict policy promotes, how an item joins its promotions back to the records they name,
    and what a failing item shows. */
module PytestPromotions {
  import opened Lists
  import opened Options
  import opened PytestPlugin

  // ---------------------------------------------------------------- joining back

  /** A promotion with the grade of the record it names; `joined` says whether a record was found. */
  datatype PromotedRecord = PromotedRecord(promotion: Promotion, severity: Severity, claim: Option<string>, joined: bool)

  predicate Names(p: Promotion, f: Finding) {
    f.origin == p.origin && p.condition == Some(f.condition) && p.location == Some(f.location)
  }

  function FirstNamed(p: Promotion, findings: seq<Finding>): (r: Option<Finding>)
    ensures r.Some? ==> r.value in findings && Names(p, r.value)
    ensures r.None? ==> forall f | f in findings :: !Names(p, f)
  {
    if findings == [] then None
    else if Names(p, findings[0]) then Some(findings[0])
    else FirstNamed(p, findings[1..])
  }

  function JoinFinding(p: Promotion, findings: seq<Finding>): PromotedRecord {
    match FirstNamed(p, findings)
    case Some(f) => PromotedRecord(p, f.severity, Some(f.claim), true)
    case None => PromotedRecord(p, Warning, None, false)
  }

  predicate NamesNote(p: Promotion, n: Note) {
    p.kind == Some(n.kind) && (p.location.Some? && n.locations != [] ==> p.location.value in n.locations)
  }

  function FirstNote(p: Promotion, notes: seq<Note>): (r: Option<Note>)
    ensures r.Some? ==> r.value in notes && NamesNote(p, r.value)
    ensures r.None? ==> forall n | n in notes :: !NamesNote(p, n)
  {
    if notes == [] then None
    else if NamesNote(p, notes[0]) then Some(notes[0])
    else FirstNote(p, notes[1..])
  }

  /** A note without a grade ends the search: it is not promotable. */
  function JoinNote(p: Promotion, notes: seq<Note>): PromotedRecord {
    var first := FirstNote(p, notes);
    PromotedRecord(p, Warning, None, first.Some? && first.value.graded)
  }

  method JoinToNote(p: Promotion, notes: seq<Note>) returns (record: PromotedRecord)
    ensures record == JoinNote(p, notes)
  {
    for i := 0 to |notes|
      invariant FirstNote(p, notes) == FirstNote(p, notes[i..])
    {
      var note := notes[i];
      assert notes[i..][1..] == notes[i + 1..];
      if p.kind != Some(note.kind) {
        continue;
      }
      if p.location.Some? && note.locations != [] && p.location.value !in note.locations {
        continue;
      }
      if !note.graded {
        break;
      }
      return PromotedRecord(p, Warning, None, true);
    }
    record := PromotedRecord(p, Warning, None, false);
  }

  method JoinToFinding(p: Promotion, findings: seq<Finding>) returns (record: PromotedRecord)
    ensures record == JoinFinding(p, findings)
  {
    for i := 0 to |findings|
      invariant FirstNamed(p, findings) == FirstNamed(p, findings[i..])
    {
      var f := findings[i];
      assert findings[i..][1..] == findings[i + 1..];
      if f.origin == p.origin && p.condition == Some(f.condition) && p.location == Some(f.location) {
        return PromotedRecord(p, f.severity, Some(f.claim), true);
      }
    }
    record := PromotedRecord(p, Warning, None, false);
  }

  function Join(item: Item, p: Promotion): PromotedRecord {
    if p.origin == FromNote then JoinNote(p, item.notes) else JoinFinding(p, item.findings)
  }

  function PromotedRecordsOf(item: Item): seq<PromotedRecord> {
    seq(|item.promotions|, i requires 0 <= i < |item.promotions| => Join(item, item.promotions[i]))
  }

  method PromotedRecords(item: Item) returns (joined: seq<PromotedRecord>)
    ensures joined == PromotedRecordsOf(item)
  {
    joined := [];
    for i := 0 to |item.promotions|
      invariant |joined| == i && forall k | 0 <= k < i :: joined[k] == Join(item, item.promotions[k])
    {
      var record: PromotedRecord;
      if item.promotions[i].origin == FromNote {
        record := JoinToNote(item.promotions[i], item.notes);
      } else {
        record := JoinToFinding(item.promotions[i], item.findings);
      }
      joined := joined + [record];
    }
  }

  // ---------------------------------------------------------------- what is shown

  function PromotedIdentities(promotions: seq<Promotion>): set<(Origin, Option<string>, Option<string>)> {
    set p | p in promotions && p.origin != FromNote :: (p.origin, p.condition, p.location)
  }

  function PromotedKinds(promotions: seq<Promotion>): set<Option<string>> {
    set p | p in promotions && p.origin == FromNote :: p.kind
  }

  function IdentityOf(f: Finding): (Origin, Option<string>, Option<string>) {
    (f.origin, Some(f.condition), Some(f.location))
  }

  /** The warnings that are noted, not promoted. */
  function NotedFindings(item: Item): seq<Finding> {
    Keep(item.WarningFindings(), (f: Finding) => IdentityOf(f) !in PromotedIdentities(item.promotions))
  }

  function NotedNotes(item: Item): seq<Note> {
    Keep(item.notes, Noted(item))
  }

  function Noted(item: Item): Note -> bool {
    (n: Note) => Some(n.kind) !in PromotedKinds(item.promotions)
  }

  datatype Shown =
    | ShownError(error: string) | ShownBlocking(finding: Finding) | ShownPromoted(record: PromotedRecord)
    | ShownWarning(finding: Finding) | ShownNote(note: Note)

  function ShowBlocking(findings: seq<Finding>): seq<Shown> {
    seq(|findings|, i requires 0 <= i < |findings| => ShownBlocking(findings[i]))
  }

  function ShowPromoted(records: seq<PromotedRecord>): seq<Shown> {
    seq(|records|, i requires 0 <= i < |records| => ShownPromoted(records[i]))
  }

  function ShowWarnings(findings: seq<Finding>): seq<Shown> {
    seq(|findings|, i requires 0 <= i < |findings| => ShownWarning(findings[i]))
  }

  function ShowNotes(notes: seq<Note>): seq<Shown> {
    seq(|notes|, i requires 0 <= i < |notes| => ShownNote(notes[i]))
  }

  /** The lines of a failing item, one entry a record. */
  function FailureOf(item: Item): seq<Shown> {
    (if item.error.Some? then [ShownError(item.error.value)] else [])
    + ShowBlocking(item.BlockingFindings())
    + ShowPromoted(PromotedRecordsOf(item))
    + (ShowWarnings(NotedFindings(item)) + ShowNotes(NotedNotes(item)))
  }

  method RenderNotes(item: Item) returns (lines: seq<Shown>)
    ensures lines == ShowWarnings(NotedFindings(item)) + ShowNotes(NotedNotes(item))
  {
    hide Keep, Noted, NotedFindings, PromotedKinds;
    var kinds := PromotedKinds(item.promotions);
    NothingNoted(item);
    lines := ShowWarnings(NotedFindings(item));
    ghost var front := lines;
    ghost var noted := Noted(item);
    for i := 0 to |item.notes|
      invariant lines == front + ShowNotes(Keep(item.notes[..i], noted))
    {
      NotedStep(item, i);
      if Some(item.notes[i].kind) !in kinds {
        lines := lines + [ShownNote(item.notes[i])];
      }
    }
    assert item.notes[..|item.notes|] == item.notes;
  }

  lemma NothingNoted(item: Item)
    ensures Keep(item.notes[..0], Noted(item)) == []
  {
  }

  lemma NotedStep(item: Item, i: nat)
    requires i < |item.notes|
    ensures Noted(item)(item.notes[i]) <==> Some(item.notes[i].kind) !in PromotedKinds(item.promotions)
    ensures ShowNotes(Keep(item.notes[..i + 1], Noted(item)))
         == ShowNotes(Keep(item.notes[..i], Noted(item))) + if Noted(item)(item.notes[i]) then [ShownNote(item.notes[i])] else []
  {
    assert item.notes[..i + 1] == item.notes[..i] + [item.notes[i]];
    KeepOfBoth(item.notes[..i], [item.notes[i]], Noted(item));
  }

  method RenderFailure(item: Item) returns (lines: seq<Shown>)
    ensures lines == FailureOf(item)
  {
    lines := [];
    if item.error.Some? {
      lines := lines + [ShownError(item.error.value)];
    }
    lines := lines + ShowBlocking(item.BlockingFindings());
    var records := PromotedRecords(item);
    for i := 0 to |records|
      invariant lines == (if item.error.Some? then [ShownError(item.error.value)] else [])
                         + ShowBlocking(item.BlockingFindings()) + ShowPromoted(records[..i])
    {
      lines := lines + [ShownPromoted(records[i])];
      assert records[..i + 1] == records[..i] + [records[i]];
    }
    assert records[..|records|] == records;
    var notes := RenderNotes(item);
    lines := lines + notes;
  }
}
