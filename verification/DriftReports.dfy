/** From the reports of a run to its payloads: reports are routed by their cell, a frozen cell with
    signals asks for a version-gap issue, the early-warning cell for a range review. */
module DriftReports {
  import opened Options
  import opened DriftMarkers
  import opened DriftIssues
  import opened DriftSafety

  datatype Report = Report(cell: string, hard: seq<string>, soft: seq<string>, proposals: seq<string>) {
    function Signals(): seq<string> {
      hard + soft + proposals
    }
  }

  const FROZEN_CELLS: seq<string> := ["1", "2", "3"]
  const PRE_CELL: string := "pre"

  predicate KnownCell(cell: string) {
    cell in FROZEN_CELLS || cell == PRE_CELL
  }

  /** All signal lines of one cell's reports. */
  function Lines(reports: seq<Report>, cell: string): (lines: seq<string>)
    ensures forall x :: x in lines <==> exists r :: r in reports && r.cell == cell && x in r.Signals()
  {
    if reports == [] then []
    else
      assert forall r :: r in reports <==> r == reports[0] || r in reports[1..];
      (if reports[0].cell == cell then reports[0].Signals() else []) + Lines(reports[1..], cell)
  }

  function Prefix(drill: bool): string {
    if drill then "drill/" else ""
  }

  function GapFingerprint(cell: string, drill: bool): string {
    Prefix(drill) + "version-gap/cell-" + cell
  }

  function ReviewFingerprint(drill: bool): string {
    Prefix(drill) + "range-review/" + PRE_CELL
  }

  /** The words of an issue, which decide nothing: title, body and comment text. */
  datatype Words = Words(title: string, bodyRest: string, commentRest: string)

  function Labels(kind: string, drill: bool): seq<string> {
    ["drift", kind] + (if drill then ["drill"] else [])
  }

  function MakePayload(kind: string, fingerprint: string, digest: string, drill: bool, words: Words): Payload {
    Payload(kind, fingerprint, words.title, Labels(kind, drill), digest, words.bodyRest, words.commentRest)
  }

  function OutcomeLine(outcome: Option<string>): string {
    "pre-pytest-outcome=" + (if outcome.None? || outcome.value == "" then "unrecorded" else outcome.value)
  }

  predicate PreIsRed(outcome: Option<string>) {
    outcome.Some? && outcome.value != "success"
  }

  /** The payload a cell asks for, if any. */
  function CellPayload(reports: seq<Report>, outcome: Option<string>, drill: bool, hash: string -> string,
                       words: string -> Words, cell: string): Option<Payload>
  {
    var lines := Lines(reports, cell);
    if cell == PRE_CELL then
      if lines != [] || PreIsRed(outcome)
      then Some(MakePayload("range-review", ReviewFingerprint(drill), SignalsDigest(hash, lines + [OutcomeLine(outcome)]), drill, words(cell)))
      else None
    else if lines != []
    then Some(MakePayload("version-gap", GapFingerprint(cell, drill), SignalsDigest(hash, lines), drill, words(cell)))
    else None
  }

  const CELLS: seq<string> := FROZEN_CELLS + [PRE_CELL]

  /** The payloads of the first `n` cells, in the order of the cells. */
  function Payloads(reports: seq<Report>, outcome: Option<string>, drill: bool, hash: string -> string,
                    words: string -> Words, n: nat): seq<Payload>
    requires n <= |CELLS|
  {
    if n == 0 then []
    else
      Payloads(reports, outcome, drill, hash, words, n - 1)
      + match CellPayload(reports, outcome, drill, hash, words, CELLS[n - 1])
        case None => []
        case Some(p) => [p]
  }

  /** The dictionary of the source: for every cell that reports, its lines. */
  method GroupByCell(reports: seq<Report>) returns (byCell: Option<map<string, seq<string>>>)
    ensures byCell.None? <==> exists r :: r in reports && !KnownCell(r.cell)
    ensures byCell.Some? ==> forall c | c in byCell.value :: Lines(reports, c) == byCell.value[c]
    ensures byCell.Some? ==> forall c | c !in byCell.value :: Lines(reports, c) == []
  {
    hide Lines, KnownCell, Report.Signals;
    var lines: map<string, seq<string>> := map[];
    for i := 0 to |reports|
      invariant forall k | 0 <= k < i :: KnownCell(reports[k].cell)
      invariant forall c | c in lines :: Lines(reports, c) == lines[c] + Lines(reports[i..], c)
      invariant forall c | c !in lines :: Lines(reports, c) == Lines(reports[i..], c)
    {
      var r := reports[i];
      if !KnownCell(r.cell) {
        return None;
      }
      LinesStep(reports, i);
      lines := lines[r.cell := (if r.cell in lines then lines[r.cell] else []) + r.Signals()];
    }
    NoLines();
    assert reports[|reports|..] == [];
    return Some(lines);
  }

  /** Routes every report to its cell; an unknown cell refuses the whole run. */
  method BuildPayloads(reports: seq<Report>, outcome: Option<string>, drill: bool, hash: string -> string, words: string -> Words)
    returns (payloads: Option<seq<Payload>>)
    ensures payloads.None? <==> exists r :: r in reports && r.cell != "1" && r.cell != "2" && r.cell != "3" && r.cell != "pre"
    ensures payloads.Some? ==> payloads.value == Payloads(reports, outcome, drill, hash, words, |CELLS|)
  {
    hide Lines, SignalsDigest, KnownCell, GapFingerprint, ReviewFingerprint, MakePayload, OutcomeLine;
    KnownCells();
    var byCell := GroupByCell(reports);
    if byCell.None? {
      return None;
    }
    var list := [];
    for n := 0 to |CELLS|
      invariant list == Payloads(reports, outcome, drill, hash, words, n)
    {
      var cell := CELLS[n];
      var lines := if cell in byCell.value then byCell.value[cell] else [];
      if cell == PRE_CELL {
        if lines != [] || PreIsRed(outcome) {
          list := list + [MakePayload("range-review", ReviewFingerprint(drill),
                                      SignalsDigest(hash, lines + [OutcomeLine(outcome)]), drill, words(cell))];
        }
      } else if lines != [] {
        list := list + [MakePayload("version-gap", GapFingerprint(cell, drill), SignalsDigest(hash, lines), drill, words(cell))];
      }
    }
    return Some(list);
  }

  lemma KnownCells()
    ensures forall c :: KnownCell(c) <==> c == "1" || c == "2" || c == "3" || c == "pre"
  {
  }

  lemma NoLines()
    ensures forall c :: Lines([], c) == []
  {
  }

  lemma LinesStep(reports: seq<Report>, i: nat)
    requires i < |reports|
    ensures forall c :: Lines(reports[i..], c)
              == (if reports[i].cell == c then reports[i].Signals() else []) + Lines(reports[i + 1..], c)
  {
    assert reports[i..][1..] == reports[i + 1..];
  }

  // ---------------------------------------------------------------- what two runs share

  /** Two runs have seen the same: per cell the same set of lines, and the same outcome. */
  ghost predicate SameSignals(a: seq<Report>, b: seq<Report>) {
    forall c, x :: x in Lines(a, c) <==> x in Lines(b, c)
  }

  lemma SameSignalsSamePayload(a: seq<Report>, b: seq<Report>, outcome: Option<string>, drill: bool, hash: string -> string,
                               words: string -> Words, words': string -> Words, cell: string)
    requires SameSignals(a, b)
    ensures var p, q := CellPayload(a, outcome, drill, hash, words, cell), CellPayload(b, outcome, drill, hash, words', cell);
      p.Some? == q.Some? && (p.Some? ==> p.value.fingerprint == q.value.fingerprint && p.value.digest == q.value.digest)
  {
    hide SignalsDigest, Lines;
    var x, y, extra := Lines(a, cell), Lines(b, cell), [OutcomeLine(outcome)];
    assert x != [] ==> x[0] in y;
    assert y != [] ==> y[0] in x;
    assert x == [] <==> y == [];
    DigestIgnoresOrderAndRepetition(hash, x, y);
    DigestIgnoresOrderAndRepetition(hash, x + extra, y + extra);
  }

  lemma {:induction false} SameSignalsSameRun(a: seq<Report>, b: seq<Report>, outcome: Option<string>, drill: bool, hash: string -> string,
                             words: string -> Words, words': string -> Words, n: nat)
    requires n <= |CELLS| && SameSignals(a, b)
    ensures forall q | q in Payloads(b, outcome, drill, hash, words', n) ::
      exists p :: p in Payloads(a, outcome, drill, hash, words, n) && p.fingerprint == q.fingerprint && p.digest == q.digest
  {
    hide SameSignals, CellPayload, Lines;
    if n > 0 {
      SameSignalsSameRun(a, b, outcome, drill, hash, words, words', n - 1);
      var front := Payloads(a, outcome, drill, hash, words, n - 1);
      var c, d := CellPayload(a, outcome, drill, hash, words, CELLS[n - 1]), CellPayload(b, outcome, drill, hash, words', CELLS[n - 1]);
      SameSignalsSamePayload(a, b, outcome, drill, hash, words, words', CELLS[n - 1]);
      var all := Payloads(a, outcome, drill, hash, words, n);
      assert forall p | p in front :: p in all;
      assert c.Some? ==> c.value in all;
      forall q | q in Payloads(b, outcome, drill, hash, words', n)
        ensures exists p :: p in all && p.fingerprint == q.fingerprint && p.digest == q.digest
      {
        if q in Payloads(b, outcome, drill, hash, words', n - 1) {
          var p :| p in front && p.fingerprint == q.fingerprint && p.digest == q.digest;
          assert p in all;
        } else {
          assert d == Some(q);
        }
      }
    }
  }

  /** The fingerprint of the payload for a cell. */
  function FingerprintOf(cell: string, drill: bool): string {
    if cell == PRE_CELL then ReviewFingerprint(drill) else GapFingerprint(cell, drill)
  }

  lemma CellsHaveTheirOwn(c: string, d: string, drill: bool)
    requires c != d
    ensures FingerprintOf(c, drill) != FingerprintOf(d, drill)
  {
    var k := |Prefix(drill)|;
    var f, g := FingerprintOf(c, drill), FingerprintOf(d, drill);
    if c != PRE_CELL && d != PRE_CELL {
      var gap := Prefix(drill) + "version-gap/cell-";
      assert f[|gap|..] == c && g[|gap|..] == d;
    } else {
      assert f[k] == (if c == PRE_CELL then 'r' else 'v');
      assert g[k] == (if d == PRE_CELL then 'r' else 'v');
    }
  }

  lemma DistinctCells(i: nat, j: nat)
    requires i < j < |CELLS|
    ensures CELLS[i] != CELLS[j]
  {
  }

  ghost predicate OfACellBelow(fingerprint: string, drill: bool, n: nat)
    requires n <= |CELLS|
  {
    exists c: nat | c < n :: fingerprint == FingerprintOf(CELLS[c], drill)
  }

  ghost predicate AllDistinct(payloads: seq<Payload>) {
    forall i, j | 0 <= i < j < |payloads| :: payloads[i].fingerprint != payloads[j].fingerprint
  }

  lemma LaterCellIsNew(fingerprint: string, drill: bool, n: nat)
    requires n < |CELLS| && OfACellBelow(fingerprint, drill, n)
    ensures fingerprint != FingerprintOf(CELLS[n], drill) && OfACellBelow(fingerprint, drill, n + 1)
  {
    hide FingerprintOf;
    var c: nat :| c < n && fingerprint == FingerprintOf(CELLS[c], drill);
    DistinctCells(c, n);
    CellsHaveTheirOwn(CELLS[c], CELLS[n], drill);
  }

  /** The payloads of a run have fingerprints of their own, one for each cell. */
  lemma {:induction false} FingerprintsAreDistinct(reports: seq<Report>, outcome: Option<string>, drill: bool, hash: string -> string,
                                  words: string -> Words, n: nat)
    requires n <= |CELLS|
    ensures forall i | 0 <= i < |Payloads(reports, outcome, drill, hash, words, n)| ::
              OfACellBelow(Payloads(reports, outcome, drill, hash, words, n)[i].fingerprint, drill, n)
    ensures AllDistinct(Payloads(reports, outcome, drill, hash, words, n))
  {
    hide FingerprintOf, OfACellBelow, CellPayload;
    if n > 0 {
      FingerprintsAreDistinct(reports, outcome, drill, hash, words, n - 1);
      var front, all := Payloads(reports, outcome, drill, hash, words, n - 1), Payloads(reports, outcome, drill, hash, words, n);
      CellFingerprint(reports, outcome, drill, hash, words, CELLS[n - 1]);
      forall i | 0 <= i < |front|
        ensures all[i] == front[i] && OfACellBelow(all[i].fingerprint, drill, n)
        ensures all[i].fingerprint != FingerprintOf(CELLS[n - 1], drill)
      {
        LaterCellIsNew(front[i].fingerprint, drill, n - 1);
      }
      LastCellCounts(drill, n);
    }
  }

  lemma LastCellCounts(drill: bool, n: nat)
    requires 0 < n <= |CELLS|
    ensures OfACellBelow(FingerprintOf(CELLS[n - 1], drill), drill, n)
  {
  }

  lemma CellFingerprint(reports: seq<Report>, outcome: Option<string>, drill: bool, hash: string -> string,
                        words: string -> Words, cell: string)
    ensures var p := CellPayload(reports, outcome, drill, hash, words, cell);
      p.Some? ==> p.value.fingerprint == FingerprintOf(cell, drill)
  {
    hide Lines, SignalsDigest;
  }

  // ---------------------------------------------------------------- payloads are well formed

  /** What the tool relies on its texts and its hash for. */
  ghost predicate PlainTexts(hash: string -> string, words: string -> Words) {
    && (forall s :: IsDigest(hash(s)))
    && (forall c :: Clean(words(c).bodyRest) && Clean(words(c).commentRest))
  }

  lemma FingerprintsAreWords(n: nat, drill: bool)
    requires n < |CELLS|
    ensures IsFingerprint(FingerprintOf(CELLS[n], drill))
  {
    assert IsFingerprint(Prefix(drill)) && IsFingerprint("version-gap/cell-") && IsFingerprint("range-review/");
    assert IsFingerprint("1") && IsFingerprint("2") && IsFingerprint("3") && IsFingerprint("pre");
  }

  lemma LabelsNameDrift(kind: string, drill: bool)
    ensures "drift" in Labels(kind, drill)
  {
    assert Labels(kind, drill)[0] == "drift";
  }

  lemma CellPayloadIsGood(reports: seq<Report>, outcome: Option<string>, drill: bool, hash: string -> string,
                          words: string -> Words, n: nat)
    requires PlainTexts(hash, words) && n < |CELLS|
    ensures var p := CellPayload(reports, outcome, drill, hash, words, CELLS[n]); p.Some? ==> p.value.Good()
  {
    hide Lines, IsDigest, Clean, IsFingerprint, Labels;
    FingerprintsAreWords(n, drill);
    LabelsNameDrift("range-review", drill);
    LabelsNameDrift("version-gap", drill);
    assert forall lines :: IsDigest(SignalsDigest(hash, lines));
  }

  /** The payloads a run builds carry proper markers. */
  lemma {:induction false} PayloadsAreGood(reports: seq<Report>, outcome: Option<string>, drill: bool, hash: string -> string,
                                          words: string -> Words, n: nat)
    requires PlainTexts(hash, words) && n <= |CELLS|
    ensures forall i | 0 <= i < |Payloads(reports, outcome, drill, hash, words, n)| ::
              Payloads(reports, outcome, drill, hash, words, n)[i].Good()
  {
    hide CellPayload, PlainTexts, Payload.Good;
    if n > 0 {
      PayloadsAreGood(reports, outcome, drill, hash, words, n - 1);
      CellPayloadIsGood(reports, outcome, drill, hash, words, n - 1);
      var front, all := Payloads(reports, outcome, drill, hash, words, n - 1), Payloads(reports, outcome, drill, hash, words, n);
      assert forall i | 0 <= i < |front| :: all[i] == front[i];
      assert |all| > |front| ==> Some(all[|front|]) == CellPayload(reports, outcome, drill, hash, words, CELLS[n - 1]);
    }
  }

  /** The whole way: a second run over reports with the same signals, in any order and however often
      repeated, leaves the repository as the first run left it. */
  lemma RepeatedSignalsWriteNothing(repo: Repo, a: seq<Report>, b: seq<Report>, outcome: Option<string>, drill: bool,
                                    hash: string -> string, words: string -> Words, words': string -> Words)
    requires Unique(repo) && SameSignals(a, b) && Agree(repo, Payloads(a, outcome, drill, hash, words, |CELLS|))
    requires PlainTexts(hash, words)
    ensures var first := Steps(repo, Payloads(a, outcome, drill, hash, words, |CELLS|));
      Steps(first, Payloads(b, outcome, drill, hash, words', |CELLS|)) == first
  {
    hide Unique, Agree, SameSignals, Payloads, PlainTexts, IsFingerprint, IsDigest, Clean;
    var first := Payloads(a, outcome, drill, hash, words, |CELLS|);
    FingerprintsAreDistinct(a, outcome, drill, hash, words, |CELLS|);
    SameSignalsSameRun(a, b, outcome, drill, hash, words, words', |CELLS|);
    PayloadsAreGood(a, outcome, drill, hash, words, |CELLS|);
    SecondRunWritesNothing(repo, first, Payloads(b, outcome, drill, hash, words', |CELLS|));
  }
}
