/** The reconciliation pass over a corpus: each revision carries the whole block of one fixture
    before and after the pass, finds itself in a file by its bytes, and replaces one by the other.
    The corpus is a mapping from fixture ids to texts. */
module Reconcile {
  import opened Options
  import opened Text

  datatype State = Outstanding | Applied | Ambiguous

  datatype Revision = Revision(fixture: string, before: string, after: string)

  datatype Failure = NoSuchFixture(fixture: string) | UnknownState(fixture: string) | NotOnce(fixture: string, occurrences: nat)

  datatype Edit = Edited(text: string) | Refused(failure: Failure)

  /** `text.count(block)`: occurrences from left to right, none overlapping the one before. */
  function CountFrom(text: string, block: string, i: nat): nat
    requires block != ""
    decreases |text| - i
  {
    if i + |block| > |text| then 0
    else if OccursAt(text, block, i) then 1 + CountFrom(text, block, i + |block|)
    else CountFrom(text, block, i + 1)
  }

  /** `text.find(block)` from `i` on, when there is an occurrence. */
  function FirstFrom(text: string, block: string, i: nat): (at: nat)
    requires exists j: nat :: i <= j && OccursAt(text, block, j)
    ensures i <= at && OccursAt(text, block, at) && forall j | i <= j < at :: !OccursAt(text, block, j)
    decreases |text| - i
  {
    if OccursAt(text, block, i) then i else FirstFrom(text, block, i + 1)
  }

  function StateIn(revision: Revision, text: string): State {
    var hasBefore, hasAfter := Contains(text, revision.before), Contains(text, revision.after);
    if hasBefore && !hasAfter then Outstanding
    else if hasAfter && !hasBefore then Applied
    else Ambiguous
  }

  function ApplyTo(revision: Revision, text: string): Edit
    requires revision.before != ""
  {
    match StateIn(revision, text)
    case Applied => Edited(text)
    case Ambiguous => Refused(UnknownState(revision.fixture))
    case Outstanding =>
      if CountFrom(text, revision.before, 0) != 1 then Refused(NotOnce(revision.fixture, CountFrom(text, revision.before, 0)))
      else
        var i := FirstFrom(text, revision.before, 0);
        Edited(text[..i] + revision.after + text[i + |revision.before|..])
  }

  // ---------------------------------------------------------------- what applying does, told from the text

  ghost predicate Stands(text: string, block: string) {
    exists front, back :: text == front + block + back
  }

  /** `block` stands behind `front`, for the first time, and again nowhere in `back`. */
  ghost predicate StandsOnce(text: string, block: string, front: string, back: string) {
    && text == front + block + back && !Stands(back, block)
    && forall i: nat | i < |front| :: !OccursAt(text, block, i)
  }

  lemma StandsAt(text: string, block: string)
    ensures Stands(text, block) <==> exists i: nat :: OccursAt(text, block, i)
    ensures Stands(text, block) <==> Contains(text, block)
  {
    if i: nat :| OccursAt(text, block, i) {
      assert text == text[..i] + block + text[i + |block|..];
    }
    if front, back :| text == front + block + back {
      assert OccursAt(text, block, |front|);
    }
  }

  lemma {:induction false} CountIsNone(text: string, block: string, i: nat)
    requires block != ""
    ensures CountFrom(text, block, i) == 0 <==> forall j: nat | i <= j :: !OccursAt(text, block, j)
    decreases |text| - i
  {
    if i + |block| <= |text| && !OccursAt(text, block, i) {
      CountIsNone(text, block, i + 1);
    }
  }

  lemma {:induction false} CountFromFirst(text: string, block: string, i: nat, at: nat)
    requires block != "" && i <= at && OccursAt(text, block, at) && forall j | i <= j < at :: !OccursAt(text, block, j)
    ensures CountFrom(text, block, i) == 1 + CountFrom(text, block, at + |block|)
    decreases at - i
  {
    if i < at {
      CountFromFirst(text, block, i + 1, at);
    }
  }

  lemma StandsBehind(text: string, block: string, n: nat)
    requires n <= |text|
    ensures Stands(text[n..], block) <==> exists j: nat :: n <= j && OccursAt(text, block, j)
  {
    StandsAt(text[n..], block);
    if j: nat :| n <= j && OccursAt(text, block, j) {
      assert text[j..j + |block|] == text[n..][j - n..j - n + |block|];
      assert OccursAt(text[n..], block, j - n);
    }
    if k: nat :| OccursAt(text[n..], block, k) {
      assert text[n + k..n + k + |block|] == text[n..][k..k + |block|];
      assert OccursAt(text, block, n + k);
    }
  }

  /** Standing once is being counted once, and then it is clear what stands around the block. */
  lemma OnceIsCounted(text: string, block: string, front: string, back: string)
    requires block != "" && Stands(text, block)
    ensures (exists j: nat :: OccursAt(text, block, j))
    ensures StandsOnce(text, block, front, back) <==>
      && CountFrom(text, block, 0) == 1
      && front == text[..FirstFrom(text, block, 0)] && back == text[FirstFrom(text, block, 0) + |block|..]
  {
    hide Stands;
    StandsAt(text, block);
    var at := FirstFrom(text, block, 0);
    var end := at + |block|;
    CountFromFirst(text, block, 0, at);
    CountIsNone(text, block, end);
    StandsBehind(text, block, end);
    assert text == text[..at] + block + text[end..];
    if text == front + block + back && forall i: nat | i < |front| :: !OccursAt(text, block, i) {
      assert OccursAt(text, block, |front|);
      assert |front| == at && front == text[..at] && back == text[end..];
    }
  }

  /** A file comes back edited in two cases only: it holds the new block and not the old one, and stays
      as it is, or it holds the old block once and not the new one, and these are exchanged. */
  lemma WhatApplyingDoes(revision: Revision, text: string, edited: string)
    requires revision.before != ""
    ensures ApplyTo(revision, text) == Edited(edited) <==>
      || (Stands(text, revision.after) && !Stands(text, revision.before) && edited == text)
      || (!Stands(text, revision.after) && Replaced(revision, text, edited))
    ensures (forall x :: ApplyTo(revision, text) != Edited(x)) <==>
      || (Stands(text, revision.after) <==> Stands(text, revision.before))
      || (Stands(text, revision.before) && CountFrom(text, revision.before, 0) > 1)
  {
    hide Stands, StandsOnce, Contains, OccursAt, CountFrom;
    StandsAt(text, revision.before);
    StandsAt(text, revision.after);
    CountIsNone(text, revision.before, 0);
    if Stands(text, revision.before) {
      ReplacedIs(revision, text, edited);
    } else {
      NothingReplaced(revision, text, edited);
    }
  }

  lemma NothingReplaced(revision: Revision, text: string, edited: string)
    ensures Replaced(revision, text, edited) ==> Stands(text, revision.before)
  {
    hide Stands;
    if front, back :| StandsOnce(text, revision.before, front, back) && edited == front + revision.after + back {
      OnceStands(text, revision.before, front, back);
    }
  }

  lemma ReplacedIs(revision: Revision, text: string, edited: string)
    requires revision.before != "" && Stands(text, revision.before)
    ensures exists j: nat :: OccursAt(text, revision.before, j)
    ensures var at := FirstFrom(text, revision.before, 0);
      Replaced(revision, text, edited) <==>
        CountFrom(text, revision.before, 0) == 1 && edited == text[..at] + revision.after + text[at + |revision.before|..]
  {
    hide Stands, StandsOnce, CountFrom;
    StandsAt(text, revision.before);
    var at := FirstFrom(text, revision.before, 0);
    forall front, back ensures StandsOnce(text, revision.before, front, back) <==>
      && CountFrom(text, revision.before, 0) == 1 && front == text[..at] && back == text[at + |revision.before|..]
    {
      OnceIsCounted(text, revision.before, front, back);
    }
  }

  ghost predicate Replaced(revision: Revision, text: string, edited: string) {
    exists front, back :: StandsOnce(text, revision.before, front, back) && edited == front + revision.after + back
  }

  lemma OnceStands(text: string, block: string, front: string, back: string)
    ensures StandsOnce(text, block, front, back) ==> Stands(text, block)
  {
  }

  // ---------------------------------------------------------------- one block in one file

  /** `header` occurs in `text` at `at` and nowhere else. */
  ghost predicate OnlyAt(text: string, header: string, at: nat) {
    OccursAt(text, header, at) && forall i: nat :: OccursAt(text, header, i) ==> i == at
  }

  /** A line: its newline is its last character. */
  ghost predicate IsLine(line: string) {
    line != "" && line[|line| - 1] == '\n' && forall i | 0 <= i < |line| - 1 :: line[i] != '\n'
  }

  /** Both blocks open with the header line, which neither repeats, and end with a newline. */
  ghost predicate WellFormed(revision: Revision, header: string) {
    && IsLine(header)
    && OnlyAt(revision.before, header, 0) && OnlyAt(revision.after, header, 0)
    && revision.before[|revision.before| - 1] == '\n' && revision.after[|revision.after| - 1] == '\n'
  }

  /** A block that opens with the header occurs where the header does. */
  lemma BlocksStandAtTheHeader(text: string, block: string, header: string, at: nat)
    requires OnlyAt(text, header, at) && OccursAt(block, header, 0)
    ensures forall i: nat | OccursAt(text, block, i) :: i == at
  {
    forall i: nat | OccursAt(text, block, i) ensures i == at {
      OccursInside(text, block, header, i, 0);
    }
  }

  lemma {:induction false} CountAfter(text: string, block: string, i: nat, at: nat)
    requires block != "" && forall j: nat | OccursAt(text, block, j) :: j == at
    ensures CountFrom(text, block, i) == if i <= at && OccursAt(text, block, at) then 1 else 0
    decreases |text| - i
  {
    if i + |block| <= |text| {
      if OccursAt(text, block, i) {
        CountAfter(text, block, i + |block|, at);
      } else {
        CountAfter(text, block, i + 1, at);
      }
    }
  }

  /** The text with the block at `at` exchanged. */
  function Spliced(revision: Revision, text: string, at: nat): string
    requires OccursAt(text, revision.before, at)
  {
    text[..at] + revision.after + text[at + |revision.before|..]
  }

  /** Where the block stands the pass edits it, and only it: one splice at the header. */
  lemma OutstandingIsSpliced(revision: Revision, header: string, text: string, at: nat)
    requires WellFormed(revision, header) && OnlyAt(text, header, at)
    requires StateIn(revision, text) == Outstanding
    ensures OccursAt(text, revision.before, at)
    ensures ApplyTo(revision, text) == Edited(Spliced(revision, text, at))
  {
    BlocksStandAtTheHeader(text, revision.before, header, at);
    var i: nat :| OccursAt(text, revision.before, i);
    CountAfter(text, revision.before, 0, at);
  }

  /** An occurrence that ends early enough lies in the part both texts share. */
  lemma SharedPrefix(a: string, b: string, n: nat, part: string, i: nat)
    requires n <= |a| && n <= |b| && a[..n] == b[..n] && i + |part| <= n
    ensures OccursAt(a, part, i) <==> OccursAt(b, part, i)
  {
    Pointwise(a, part, i);
    Pointwise(b, part, i);
    forall j | 0 <= j < |part| ensures a[i + j] == part[j] <==> b[i + j] == part[j] {
      assert a[..n][i + j] == b[..n][i + j];
    }
  }

  lemma SharedSuffix(a: string, b: string, m: nat, n: nat, part: string, i: nat)
    requires m <= |a| && n <= |b| && a[m..] == b[n..]
    ensures OccursAt(a, part, m + i) <==> OccursAt(b, part, n + i)
  {
    assert |a| - m == |b| - n;
    Pointwise(a, part, m + i);
    Pointwise(b, part, n + i);
    if m + i + |part| <= |a| {
      forall j | 0 <= j < |part| ensures a[m + i + j] == part[j] <==> b[n + i + j] == part[j] {
        assert a[m..][i + j] == b[n..][i + j];
      }
    }
  }

  /** A line cannot run over a newline that is not its last character. */
  lemma LinesStopAtNewlines(text: string, line: string, i: nat, e: nat)
    requires IsLine(line) && OccursAt(text, line, i) && i < e <= |text| && text[e - 1] == '\n'
    ensures i + |line| <= e
  {
    assert forall j | 0 <= j < |line| :: line[j] == text[i + j];
  }

  /** Splicing keeps the header where it was and brings in no other. */
  lemma HeaderStays(revision: Revision, header: string, text: string, at: nat)
    requires WellFormed(revision, header) && OnlyAt(text, header, at) && OccursAt(text, revision.before, at)
    ensures OnlyAt(Spliced(revision, text, at), header, at)
  {
    var b, a := revision.before, revision.after;
    var spliced := Spliced(revision, text, at);
    var shared := at + |header|;
    SplicedParts(revision, text, at);
    assert text[..shared] == text[..at] + header by { assert text[at..shared] == header; }
    assert spliced[..shared] == text[..at] + header by { assert a[..|header|] == header; }
    SharedPrefix(text, spliced, shared, header, at);
    forall i: nat | OccursAt(spliced, header, i) ensures i == at {
      if i <= at {
        SharedPrefix(text, spliced, shared, header, i);
      } else if i < at + |a| {
        assert spliced[at + |a| - 1] == a[|a| - 1];
        LinesStopAtNewlines(spliced, header, i, at + |a|);
        InsideBlock(spliced, a, header, at, i);
      } else {
        SharedSuffix(spliced, text, at + |a|, at + |b|, header, i - at - |a|);
      }
    }
  }

  lemma SplicedParts(revision: Revision, text: string, at: nat)
    requires OccursAt(text, revision.before, at)
    ensures var s := Spliced(revision, text, at);
      && s[..at] == text[..at] && OccursAt(s, revision.after, at)
      && s[at + |revision.after|..] == text[at + |revision.before|..]
  {
  }

  lemma InsideBlock(text: string, block: string, part: string, at: nat, i: nat)
    requires OccursAt(text, block, at) && OccursAt(text, part, i) && at <= i && i + |part| <= at + |block|
    ensures OccursAt(block, part, i - at)
  {
    Pointwise(text, block, at);
    Pointwise(text, part, i);
    Pointwise(block, part, i - at);
    forall j | 0 <= j < |part| ensures block[i - at + j] == part[j] {
      assert text[at + (i - at + j)] == block[i - at + j];
    }
  }

  predicate IsPrefix(a: string, b: string) {
    |a| <= |b| && b[..|a|] == a
  }

  /** The edited file is in the applied state exactly when what now stands at the header does not
      begin with the old block; otherwise the edit leaves the file ambiguous. */
  lemma EditApplies(revision: Revision, header: string, text: string, at: nat)
    requires WellFormed(revision, header) && OnlyAt(text, header, at)
    requires StateIn(revision, text) == Outstanding
    ensures OccursAt(text, revision.before, at)
    ensures StateIn(revision, Spliced(revision, text, at))
         == if IsPrefix(revision.before, revision.after + text[at + |revision.before|..]) then Ambiguous else Applied
  {
    OutstandingIsSpliced(revision, header, text, at);
    var spliced := Spliced(revision, text, at);
    SplicedParts(revision, text, at);
    HeaderStays(revision, header, text, at);
    BlocksStandAtTheHeader(spliced, revision.before, header, at);
    assert spliced[at..] == revision.after + text[at + |revision.before|..];
    assert OccursAt(spliced, revision.before, at) <==> IsPrefix(revision.before, spliced[at..]) by {
      if at + |revision.before| <= |spliced| {
        assert spliced[at..][..|revision.before|] == spliced[at..at + |revision.before|];
      }
    }
  }

  /** An applied revision leaves the file alone from then on. */
  lemma AppliedIsKept(revision: Revision, text: string)
    requires revision.before != "" && StateIn(revision, text) == Applied
    ensures ApplyTo(revision, text) == Edited(text)
  {
  }

  /** The condition under which an edit leaves the file applied, for every file the pass can meet. */
  ghost predicate Lands(revision: Revision, header: string, text: string) {
    && WellFormed(revision, header)
    && exists at: nat :: OnlyAt(text, header, at)
         && (OccursAt(text, revision.before, at) ==>
               !IsPrefix(revision.before, revision.after + text[at + |revision.before|..]))
  }

  // ---------------------------------------------------------------- the whole corpus

  type Corpus = map<string, string>

  datatype Emission = Emission(corpus: Corpus, applied: nat, failure: Option<Failure>)

  ghost predicate DistinctFixtures(plan: seq<Revision>) {
    forall i, j | 0 <= i < j < |plan| :: plan[i].fixture != plan[j].fixture
  }

  /** The revisions of the first `n` that a corpus still lacks. */
  function OutstandingCount(plan: seq<Revision>, corpus: Corpus, n: nat): nat
    requires n <= |plan| && forall i | 0 <= i < n :: plan[i].fixture in corpus
  {
    if n == 0 then 0
    else OutstandingCount(plan, corpus, n - 1) + (if StateIn(plan[n - 1], corpus[plan[n - 1].fixture]).Outstanding? then 1 else 0)
  }

  /** An edit differs from its file exactly when the revision was outstanding. */
  lemma EditsChangeOutstandingFiles(revision: Revision, text: string, edited: string)
    requires revision.before != "" && ApplyTo(revision, text) == Edited(edited)
    ensures edited != text <==> StateIn(revision, text) == Outstanding
  {
    hide CountFrom;
    if StateIn(revision, text) == Outstanding {
      var i := FirstFrom(text, revision.before, 0);
      SplicedParts(revision, text, i);
      assert OccursAt(edited, revision.after, i);
    }
  }

  /** The first revision that cannot be applied, and why. */
  ghost predicate StopsAt(source: Corpus, plan: seq<Revision>, n: nat, failure: Failure)
    requires n < |plan| && forall i | 0 <= i < |plan| :: plan[i].before != ""
  {
    && (forall i | 0 <= i < n :: plan[i].fixture in source && ApplyTo(plan[i], source[plan[i].fixture]).Edited?)
    && var fixture := plan[n].fixture;
       if fixture !in source then failure == NoSuchFixture(fixture)
       else ApplyTo(plan[n], source[fixture]) == Refused(failure)
  }

  /** Writes the reconciled corpus: a copy with every revision applied, or the first refusal. Every
      file but the fixtures of the plan is copied as it is, and a fixture changes only when its
      revision was outstanding. */
  method Emit(source: Corpus, plan: seq<Revision>) returns (e: Emission)
    requires DistinctFixtures(plan) && forall i | 0 <= i < |plan| :: plan[i].before != ""
    ensures e.corpus.Keys == source.Keys
    ensures forall f | f in source && (forall i | 0 <= i < |plan| :: plan[i].fixture != f) :: e.corpus[f] == source[f]
    ensures e.failure.None? <==> forall i | 0 <= i < |plan| ::
              plan[i].fixture in source && ApplyTo(plan[i], source[plan[i].fixture]).Edited?
    ensures e.failure.None? ==> forall i | 0 <= i < |plan| ::
              ApplyTo(plan[i], source[plan[i].fixture]) == Edited(e.corpus[plan[i].fixture])
    ensures e.failure.None? ==> e.applied == OutstandingCount(plan, source, |plan|)
    ensures e.failure.Some? ==> exists n | 0 <= n < |plan| ::
              StopsAt(source, plan, n, e.failure.value) && e.applied == OutstandingCount(plan, source, n)
              && forall i | 0 <= i < |plan| && plan[i].fixture in source ::
                   if i < n then ApplyTo(plan[i], source[plan[i].fixture]) == Edited(e.corpus[plan[i].fixture])
                   else e.corpus[plan[i].fixture] == source[plan[i].fixture]
  {
    hide StateIn, ApplyTo;
    var corpus: Corpus, applied: nat := source, 0;
    for n := 0 to |plan|
      invariant corpus.Keys == source.Keys
      invariant forall f | f in source && (forall i | 0 <= i < n :: plan[i].fixture != f) :: corpus[f] == source[f]
      invariant forall i | 0 <= i < n ::
          plan[i].fixture in source && ApplyTo(plan[i], source[plan[i].fixture]) == Edited(corpus[plan[i].fixture])
      invariant applied == OutstandingCount(plan, source, n)
    {
      var revision := plan[n];
      if revision.fixture !in corpus {
        return Emission(corpus, applied, Some(NoSuchFixture(revision.fixture)));
      }
      var text := corpus[revision.fixture];
      assert text == source[revision.fixture];
      var edit := ApplyTo(revision, text);
      if edit.Refused? {
        return Emission(corpus, applied, Some(edit.failure));
      }
      EditsChangeOutstandingFiles(revision, text, edit.text);
      if edit.text != text {
        corpus := corpus[revision.fixture := edit.text];
        applied := applied + 1;
      }
    }
    return Emission(corpus, applied, None);
  }

  /** The three classes an audit sorts the plan into. */
  function Classify(plan: seq<Revision>, corpus: Corpus): (states: seq<State>)
    requires forall i | 0 <= i < |plan| :: plan[i].fixture in corpus
    ensures |states| == |plan| && forall i | 0 <= i < |plan| :: states[i] == StateIn(plan[i], corpus[plan[i].fixture])
  {
    seq(|plan|, i requires 0 <= i < |plan| && plan[i].fixture in corpus => StateIn(plan[i], corpus[plan[i].fixture]))
  }

  /** After an emission that succeeds an audit finds nothing outstanding and nothing ambiguous, and
      a second emission changes nothing. */
  lemma EmissionCompletesThePass(source: Corpus, plan: seq<Revision>, emitted: Corpus, header: string)
    requires forall i | 0 <= i < |plan| :: plan[i].fixture in source && plan[i].fixture in emitted && plan[i].before != ""
    requires forall i | 0 <= i < |plan| :: ApplyTo(plan[i], source[plan[i].fixture]) == Edited(emitted[plan[i].fixture])
    requires forall i | 0 <= i < |plan| :: Lands(plan[i], header, source[plan[i].fixture])
    ensures forall s | s in Classify(plan, emitted) :: s == Applied
    ensures forall i | 0 <= i < |plan| :: ApplyTo(plan[i], emitted[plan[i].fixture]) == Edited(emitted[plan[i].fixture])
  {
    forall i | 0 <= i < |plan| ensures StateIn(plan[i], emitted[plan[i].fixture]) == Applied {
      RevisionLands(plan[i], header, source[plan[i].fixture], emitted[plan[i].fixture]);
    }
  }

  lemma RevisionLands(revision: Revision, header: string, text: string, edited: string)
    requires revision.before != "" && ApplyTo(revision, text) == Edited(edited) && Lands(revision, header, text)
    ensures StateIn(revision, edited) == Applied
  {
    hide Contains, WellFormed, OnlyAt, CountFrom, IsPrefix;
    if StateIn(revision, text) == Outstanding {
      var at: nat :| OnlyAt(text, header, at)
        && (OccursAt(text, revision.before, at) ==>
              !IsPrefix(revision.before, revision.after + text[at + |revision.before|..]));
      OutstandingIsSpliced(revision, header, text, at);
      EditApplies(revision, header, text, at);
    }
  }
}
