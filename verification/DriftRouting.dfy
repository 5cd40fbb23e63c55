/** What a run asks for, told from its reports and the outcome of the early-warning cell alone. */
module DriftRouting {
  import opened Options
  import opened Text
  import opened Ordering
  import opened DriftMarkers
  import opened DriftIssues
  import opened DriftReports

  /** Some report of the cell has a hard, soft or proposal line. */
  ghost predicate Signalled(reports: seq<Report>, cell: string) {
    exists r :: r in reports && r.cell == cell && (r.hard != [] || r.soft != [] || r.proposals != [])
  }

  ghost predicate SignalOf(reports: seq<Report>, cell: string, line: string) {
    exists r :: r in reports && r.cell == cell && (line in r.hard || line in r.soft || line in r.proposals)
  }

  /** The hash of the cell's lines and of those in `more`, each once, in order, a newline between them. */
  ghost predicate DigestsLines(digest: string, hash: string -> string, reports: seq<Report>, cell: string, more: seq<string>) {
    exists lines :: lines != [] && StrictlySorted(lines) && digest == hash(Join(lines, '\n'))
                    && forall x :: x in lines <==> SignalOf(reports, cell, x) || x in more
  }

  ghost predicate Says(p: Payload, words: Words) {
    p.title == words.title && p.bodyRest == words.bodyRest && p.commentRest == words.commentRest
  }

  /** The version-gap issue of a frozen cell. */
  ghost predicate GapFor(p: Payload, reports: seq<Report>, cell: string, drill: bool, hash: string -> string, words: string -> Words) {
    && p.kind == "version-gap"
    && p.fingerprint == (if drill then "drill/version-gap/cell-" else "version-gap/cell-") + cell
    && p.labels == (if drill then ["drift", "version-gap", "drill"] else ["drift", "version-gap"])
    && DigestsLines(p.digest, hash, reports, cell, [])
    && Says(p, words(cell))
  }

  /** The range review of the early-warning cell. */
  ghost predicate ReviewFor(p: Payload, reports: seq<Report>, outcome: Option<string>, drill: bool, hash: string -> string,
                            words: string -> Words)
  {
    && p.kind == "range-review"
    && p.fingerprint == (if drill then "drill/range-review/pre" else "range-review/pre")
    && p.labels == (if drill then ["drift", "range-review", "drill"] else ["drift", "range-review"])
    && DigestsLines(p.digest, hash, reports, "pre",
                    ["pre-pytest-outcome=" + if outcome.None? || outcome.value == "" then "unrecorded" else outcome.value])
    && Says(p, words("pre"))
  }

  ghost predicate AsksGap(list: seq<Payload>, reports: seq<Report>, cell: string, drill: bool, hash: string -> string,
                          words: string -> Words)
  {
    && |list| <= 1 && (list != [] <==> Signalled(reports, cell))
    && forall p | p in list :: GapFor(p, reports, cell, drill, hash, words)
  }

  ghost predicate AsksReview(list: seq<Payload>, reports: seq<Report>, outcome: Option<string>, drill: bool, hash: string -> string,
                             words: string -> Words)
  {
    && |list| <= 1 && (list != [] <==> Signalled(reports, "pre") || (outcome.Some? && outcome.value != "success"))
    && forall p | p in list :: ReviewFor(p, reports, outcome, drill, hash, words)
  }

  // ---------------------------------------------------------------- lines and digests

  lemma LinesAreSignals(reports: seq<Report>, cell: string)
    ensures forall x :: x in Lines(reports, cell) <==> SignalOf(reports, cell, x)
    ensures Lines(reports, cell) != [] <==> Signalled(reports, cell)
  {
    var lines := Lines(reports, cell);
    if lines != [] {
      assert lines[0] in lines;
      var r :| r in reports && r.cell == cell && lines[0] in r.Signals();
    }
    if r :| r in reports && r.cell == cell && (r.hard != [] || r.soft != [] || r.proposals != []) {
      assert r.Signals()[0] in r.Signals();
      assert r.Signals()[0] in lines;
    }
  }

  lemma DigestIsOfLines(hash: string -> string, reports: seq<Report>, cell: string, more: seq<string>)
    requires Lines(reports, cell) + more != []
    ensures DigestsLines(SignalsDigest(hash, Lines(reports, cell) + more), hash, reports, cell, more)
  {
    hide Lines, SignalOf;
    LinesAreSignals(reports, cell);
    var all := Lines(reports, cell) + more;
    var sorted := SortedSet(all);
    SortedSetIsSorted(all);
    assert all[0] in sorted;
  }

  // ---------------------------------------------------------------- one cell

  function ListOf(p: Option<Payload>): seq<Payload> {
    match p case None => [] case Some(x) => [x]
  }

  lemma FrozenCellAsks(reports: seq<Report>, outcome: Option<string>, drill: bool, hash: string -> string, words: string -> Words,
                       cell: string)
    requires cell != "pre"
    ensures AsksGap(ListOf(CellPayload(reports, outcome, drill, hash, words, cell)), reports, cell, drill, hash, words)
  {
    hide Lines, SignalsDigest, DigestsLines, Signalled;
    LinesAreSignals(reports, cell);
    var lines := Lines(reports, cell);
    if lines != [] {
      assert lines + [] == lines;
      DigestIsOfLines(hash, reports, cell, []);
      GapNames(drill, cell);
    }
  }

  lemma GapNames(drill: bool, cell: string)
    ensures GapFingerprint(cell, drill) == (if drill then "drill/version-gap/cell-" else "version-gap/cell-") + cell
    ensures Labels("version-gap", drill) == if drill then ["drift", "version-gap", "drill"] else ["drift", "version-gap"]
  {
    assert "drill/" + "version-gap/cell-" == "drill/version-gap/cell-";
    assert "" + "version-gap/cell-" == "version-gap/cell-";
  }

  lemma ReviewNames(drill: bool)
    ensures ReviewFingerprint(drill) == if drill then "drill/range-review/pre" else "range-review/pre"
    ensures Labels("range-review", drill) == if drill then ["drift", "range-review", "drill"] else ["drift", "range-review"]
  {
    assert "drill/" + "range-review/" + "pre" == "drill/range-review/pre";
    assert "" + "range-review/" + "pre" == "range-review/pre";
  }

  lemma PreCellAsks(reports: seq<Report>, outcome: Option<string>, drill: bool, hash: string -> string, words: string -> Words)
    ensures AsksReview(ListOf(CellPayload(reports, outcome, drill, hash, words, "pre")), reports, outcome, drill, hash, words)
  {
    hide Lines, SignalsDigest, DigestsLines, Signalled;
    LinesAreSignals(reports, "pre");
    DigestIsOfLines(hash, reports, "pre", [OutcomeLine(outcome)]);
    ReviewNames(drill);
  }

  // ---------------------------------------------------------------- the whole run

  /** A run asks for the version gaps of the frozen cells that signal, in their order, and then for the
      range review when the early-warning cell signals or its outcome is anything but a success. */
  lemma WhatARunAsksFor(reports: seq<Report>, outcome: Option<string>, drill: bool, hash: string -> string, words: string -> Words)
    returns (one: seq<Payload>, two: seq<Payload>, three: seq<Payload>, review: seq<Payload>)
    ensures Payloads(reports, outcome, drill, hash, words, |CELLS|) == one + two + three + review
    ensures AsksGap(one, reports, "1", drill, hash, words) && AsksGap(two, reports, "2", drill, hash, words)
    ensures AsksGap(three, reports, "3", drill, hash, words) && AsksReview(review, reports, outcome, drill, hash, words)
  {
    hide CellPayload, AsksGap, AsksReview;
    one := ListOf(CellPayload(reports, outcome, drill, hash, words, "1"));
    two := ListOf(CellPayload(reports, outcome, drill, hash, words, "2"));
    three := ListOf(CellPayload(reports, outcome, drill, hash, words, "3"));
    review := ListOf(CellPayload(reports, outcome, drill, hash, words, "pre"));
    FrozenCellAsks(reports, outcome, drill, hash, words, "1");
    FrozenCellAsks(reports, outcome, drill, hash, words, "2");
    FrozenCellAsks(reports, outcome, drill, hash, words, "3");
    PreCellAsks(reports, outcome, drill, hash, words);
    PayloadsAre(reports, outcome, drill, hash, words);
  }

  lemma PayloadsAre(reports: seq<Report>, outcome: Option<string>, drill: bool, hash: string -> string, words: string -> Words)
    ensures |CELLS| == 4
    ensures Payloads(reports, outcome, drill, hash, words, |CELLS|)
         == ListOf(CellPayload(reports, outcome, drill, hash, words, "1")) + ListOf(CellPayload(reports, outcome, drill, hash, words, "2"))
            + ListOf(CellPayload(reports, outcome, drill, hash, words, "3")) + ListOf(CellPayload(reports, outcome, drill, hash, words, "pre"))
  {
    hide CellPayload;
    assert CELLS[0] == "1" && CELLS[1] == "2" && CELLS[2] == "3" && CELLS[3] == "pre";
    assert Payloads(reports, outcome, drill, hash, words, 0) == [];
    PayloadsStep(reports, outcome, drill, hash, words, 1);
    PayloadsStep(reports, outcome, drill, hash, words, 2);
    PayloadsStep(reports, outcome, drill, hash, words, 3);
    PayloadsStep(reports, outcome, drill, hash, words, 4);
  }

  lemma PayloadsStep(reports: seq<Report>, outcome: Option<string>, drill: bool, hash: string -> string, words: string -> Words, n: nat)
    requires 0 < n <= |CELLS|
    ensures Payloads(reports, outcome, drill, hash, words, n)
         == Payloads(reports, outcome, drill, hash, words, n - 1) + ListOf(CellPayload(reports, outcome, drill, hash, words, CELLS[n - 1]))
  {
    hide CellPayload;
  }

  /** Which fingerprints a run asks for. */
  lemma FingerprintsAskedFor(reports: seq<Report>, outcome: Option<string>, drill: bool, hash: string -> string, words: string -> Words,
                             fingerprint: string)
    ensures var prefix := if drill then "drill/" else "";
      (exists p :: p in Payloads(reports, outcome, drill, hash, words, |CELLS|) && p.fingerprint == fingerprint)
      <==> || (fingerprint == prefix + "version-gap/cell-1" && Signalled(reports, "1"))
           || (fingerprint == prefix + "version-gap/cell-2" && Signalled(reports, "2"))
           || (fingerprint == prefix + "version-gap/cell-3" && Signalled(reports, "3"))
           || (fingerprint == prefix + "range-review/pre"
               && (Signalled(reports, "pre") || (outcome.Some? && outcome.value != "success")))
  {
    hide Payloads, DigestsLines, Signalled, Says;
    var one, two, three, review := WhatARunAsksFor(reports, outcome, drill, hash, words);
    FingerprintsSpelled(drill);
    assert forall p :: p in one + two + three + review <==> p in one || p in two || p in three || p in review;
    assert one != [] ==> one[0] in one;
    assert two != [] ==> two[0] in two;
    assert three != [] ==> three[0] in three;
    assert review != [] ==> review[0] in review;
  }

  lemma FingerprintsSpelled(drill: bool)
    ensures var prefix := if drill then "drill/" else "";
      && (if drill then "drill/version-gap/cell-" else "version-gap/cell-") + "1" == prefix + "version-gap/cell-1"
      && (if drill then "drill/version-gap/cell-" else "version-gap/cell-") + "2" == prefix + "version-gap/cell-2"
      && (if drill then "drill/version-gap/cell-" else "version-gap/cell-") + "3" == prefix + "version-gap/cell-3"
      && (if drill then "drill/range-review/pre" else "range-review/pre") == prefix + "range-review/pre"
  {
  }
}
