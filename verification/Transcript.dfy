/** The transcript matcher of the README quickstart harness: the lines a page shows, some of
    them elided by `...`, are compared with the lines a command printed.

    `Describes` is the reference meaning, line by line, in which `...` stands for any run of
    lines. The method below is the greedy matcher of the source. The two are related exactly
    by the last lemmas of the module. */
module Transcript {
  import opened Text

  const ELISION: string := "..."

  /** What a comparison reports; `Matches` is the source's `None`. */
  datatype Verdict =
    | Matches
    | UnexpectedOutput(printed: nat)
    | MissingLine(after: nat, line: string)
    | ExtraOutput(extra: nat, cursor: nat)

  // ---------------------------------------------------------------- trailing whitespace

  function StripAll(lines: seq<string>): (r: seq<string>)
    ensures |r| == |lines|
    ensures forall i | 0 <= i < |r| :: r[i] == RightStrip(lines[i])
  {
    seq(|lines|, i requires 0 <= i < |lines| => RightStrip(lines[i]))
  }

  function DropBlankTail(lines: seq<string>): (r: seq<string>)
    ensures r <= lines
    ensures r != [] ==> r[|r| - 1] != ""
    ensures forall i | |r| <= i < |lines| :: lines[i] == ""
  {
    if lines != [] && lines[|lines| - 1] == "" then DropBlankTail(lines[..|lines| - 1]) else lines
  }

  /** The lines that are compared: stripped on the right, without trailing blank lines. */
  function Normal(lines: seq<string>): seq<string> {
    DropBlankTail(StripAll(lines))
  }

  /** Each line loses its trailing space, and the text its trailing blank lines; nothing else goes. */
  lemma NormalIs(lines: seq<string>)
    ensures var normal := Normal(lines);
      && |normal| <= |lines|
      && (forall i | 0 <= i < |normal| :: normal[i] == RightStrip(lines[i]))
      && (forall i | |normal| <= i < |lines| :: RightStrip(lines[i]) == "")
      && (normal != [] ==> normal[|normal| - 1] != "")
  {
    hide RightStrip, DropBlankTail;
    var stripped := StripAll(lines);
    assert forall i | |Normal(lines)| <= i < |lines| :: stripped[i] == "";
  }

  // ---------------------------------------------------------------- the reference meaning

  /** `shown` describes `printed`: an elision stands for any run of lines, every other line
      for itself, and nothing printed is left over. */
  ghost predicate Describes(shown: seq<string>, printed: seq<string>) {
    if shown == [] then printed == []
    else if shown[0] == ELISION then
      exists k | 0 <= k <= |printed| :: Describes(shown[1..], printed[k..])
    else
      printed != [] && printed[0] == shown[0] && Describes(shown[1..], printed[1..])
  }

  ghost predicate HasElision(shown: seq<string>) {
    ELISION in shown
  }

  ghost predicate OpenEnd(shown: seq<string>) {
    shown != [] && shown[|shown| - 1] == ELISION
  }

  /** No proper prefix of the output is described already. */
  ghost predicate NothingShorter(shown: seq<string>, printed: seq<string>) {
    forall n | 0 <= n < |printed| :: !Describes(shown, printed[..n])
  }

  /** What the matcher accepts. */
  ghost predicate Accepted(shown: seq<string>, printed: seq<string>) {
    Describes(shown, printed) && (OpenEnd(shown) || NothingShorter(shown, printed))
  }

  // ---------------------------------------------------------------- segments

  /** The maximal runs of lines between elisions; `current` is the run being collected. */
  function SegmentsFrom(lines: seq<string>, current: seq<string>): seq<seq<string>> {
    if lines == [] then Flush(current)
    else if lines[0] == ELISION then Flush(current) + SegmentsFrom(lines[1..], [])
    else SegmentsFrom(lines[1..], current + [lines[0]])
  }

  function Flush(current: seq<string>): seq<seq<string>> {
    if current == [] then [] else [current]
  }

  predicate At(segment: seq<string>, lines: seq<string>, k: nat) {
    k + |segment| <= |lines| && lines[k..k + |segment|] == segment
  }

  /** The segments occur in order and without overlap in a prefix of `lines`; when `floating`
      is false the first one sits at the start. */
  ghost predicate Placed(segments: seq<seq<string>>, lines: seq<string>, floating: bool) {
    segments == [] ||
    exists k: nat | k <= |lines| && (floating || k == 0) ::
      At(segments[0], lines, k) && Placed(segments[1..], lines[k + |segments[0]|..], true)
  }

  /** As `Placed`, with nothing left after the last segment. */
  ghost predicate Filled(segments: seq<seq<string>>, lines: seq<string>, floating: bool, openEnd: bool) {
    if segments == [] then openEnd || lines == []
    else exists k: nat | k <= |lines| && (floating || k == 0) ::
           At(segments[0], lines, k) && Filled(segments[1..], lines[k + |segments[0]|..], true, openEnd)
  }

  /** An open end asks for no more than a placement. */
  lemma {:induction false} OpenIsPlaced(segments: seq<seq<string>>, lines: seq<string>, floating: bool)
    ensures Filled(segments, lines, floating, true) <==> Placed(segments, lines, floating)
    decreases |segments|
  {
    if segments != [] {
      forall k: nat | k <= |lines| && At(segments[0], lines, k)
        ensures Filled(segments[1..], lines[k + |segments[0]|..], true, true)
           <==> Placed(segments[1..], lines[k + |segments[0]|..], true)
      {
        OpenIsPlaced(segments[1..], lines[k + |segments[0]|..], true);
      }
    }
  }

  lemma AtSuffix(segment: seq<string>, lines: seq<string>, i: nat, k: nat)
    requires i <= |lines| && i + k <= |lines|
    ensures At(segment, lines[i..], k) <==> At(segment, lines, i + k)
    ensures At(segment, lines[i..], k) ==> lines[i..][k + |segment|..] == lines[i + k + |segment|..]
  {
    if k + |segment| <= |lines| - i {
      assert lines[i..][k..k + |segment|] == lines[i + k..i + k + |segment|];
    }
  }

  /** A later suffix holding the segments is enough for an earlier one. */
  lemma {:induction false} PlacedEarlier(segments: seq<seq<string>>, lines: seq<string>, i: nat, j: nat)
    requires i <= j <= |lines|
    requires Placed(segments, lines[j..], true)
    ensures Placed(segments, lines[i..], true)
  {
    if segments != [] {
      var k: nat :| k <= |lines[j..]| && At(segments[0], lines[j..], k)
                 && Placed(segments[1..], lines[j..][k + |segments[0]|..], true);
      AtSuffix(segments[0], lines, j, k);
      AtSuffix(segments[0], lines, i, j - i + k);
    }
  }

  lemma AtPrefix(segment: seq<string>, lines: seq<string>, n: nat, k: nat)
    requires n <= |lines|
    ensures At(segment, lines[..n], k) <==> At(segment, lines, k) && k + |segment| <= n
    ensures At(segment, lines[..n], k) ==> lines[..n][k + |segment|..] == lines[k + |segment|..][..n - k - |segment|]
  {
    if k + |segment| <= n {
      assert lines[..n][k..k + |segment|] == lines[k..k + |segment|];
    }
  }

  /** The heart of the greedy step: with `k` the leftmost place of the first segment, the
      segments are placed in a prefix of `lines` exactly when that place fits into it and the
      other segments are placed behind it. */
  lemma LeftmostStep(segments: seq<seq<string>>, lines: seq<string>, floating: bool, k: nat, n: nat)
    requires segments != [] && n <= |lines|
    requires At(segments[0], lines, k) && (floating || k == 0)
    requires forall m: nat | m < k :: !At(segments[0], lines, m)
    ensures Placed(segments, lines[..n], floating)
       <==> k + |segments[0]| <= n && Placed(segments[1..], lines[k + |segments[0]|..][..n - k - |segments[0]|], true)
  {
    var head := segments[0];
    var b := lines[..n];
    AtPrefix(head, lines, n, k);
    if Placed(segments, b, floating) {
      var m: nat :| m <= |b| && (floating || m == 0) && At(head, b, m) && Placed(segments[1..], b[m + |head|..], true);
      AtPrefix(head, lines, n, m);
      assert k <= m;
      PlacedEarlier(segments[1..], b, k + |head|, m + |head|);
    }
  }

  // ---------------------------------------------------------------- meaning of segments

  lemma {:induction false} LiteralRun(run: seq<string>, shown: seq<string>, printed: seq<string>)
    requires ELISION !in run
    ensures Describes(run + shown, printed) <==> At(run, printed, 0) && Describes(shown, printed[|run|..])
  {
    if run == [] {
      assert run + shown == shown;
    } else {
      assert (run + shown)[1..] == run[1..] + shown;
      if printed != [] && printed[0] == run[0] {
        LiteralRun(run[1..], shown, printed[1..]);
        if |run| <= |printed| {
          assert printed[0..|run|] == [printed[0]] + printed[1..][0..|run| - 1];
          assert printed[1..][|run| - 1..] == printed[|run|..];
        }
        assert run == [run[0]] + run[1..];
      } else if |run| <= |printed| {
        assert printed[0..|run|][0] != run[0];
      }
    }
  }

  lemma {:induction false} AnchoredMeaning(lines: seq<string>, current: seq<string>, printed: seq<string>)
    requires ELISION !in current
    requires current == [] ==> lines != [] && lines[0] != ELISION
    ensures Describes(current + lines, printed)
       <==> Filled(SegmentsFrom(lines, current), printed, false, OpenEnd(lines))
    decreases |lines|, 2
  {
    if lines == [] {
      LiteralRun(current, [], printed);
      assert At(current, printed, 0) ==> (Filled([current], printed, false, false) <==> Filled([], printed[|current|..], true, false));
    } else if lines[0] == ELISION {
      LiteralRun(current, lines, printed);
      var tail := SegmentsFrom(lines[1..], []);
      assert ([current] + tail)[1..] == tail;
      if At(current, printed, 0) {
        FloatingMeaning(lines, printed[|current|..]);
      }
    } else {
      assert current + lines == (current + [lines[0]]) + lines[1..];
      AnchoredMeaning(lines[1..], current + [lines[0]], printed);
    }
  }

  lemma {:induction false} FloatingMeaning(lines: seq<string>, printed: seq<string>)
    requires lines != [] && lines[0] == ELISION
    ensures Describes(lines, printed)
       <==> Filled(SegmentsFrom(lines[1..], []), printed, true, OpenEnd(lines))
    decreases |lines|, 1
  {
    var rest := lines[1..];
    if rest == [] {
      assert Describes(rest, printed[|printed|..]);
    } else if rest[0] == ELISION {
      FloatingMeaning(rest, printed);
      ElisionAbsorbs(rest, printed);
      assert SegmentsFrom(rest, []) == SegmentsFrom(rest[1..], []);
    } else {
      var segments := SegmentsFrom(rest, []);
      NonEmptySegments(rest, []);
      forall k | 0 <= k <= |printed|
        ensures Describes(rest, printed[k..]) <==> Filled(segments, printed[k..], false, OpenEnd(rest))
      {
        AnchoredMeaning(rest, [], printed[k..]);
        assert [] + rest == rest;
      }
      FloatingIsSomewhere(segments, printed, OpenEnd(rest));
    }
  }

  lemma ElisionAbsorbs(shown: seq<string>, printed: seq<string>)
    requires shown != [] && shown[0] == ELISION
    ensures (exists k | 0 <= k <= |printed| :: Describes(shown, printed[k..])) <==> Describes(shown, printed)
  {
    assert printed[0..] == printed;
    forall k | 0 <= k <= |printed| && Describes(shown, printed[k..])
      ensures Describes(shown, printed)
    {
      var m :| 0 <= m <= |printed[k..]| && Describes(shown[1..], printed[k..][m..]);
      assert printed[k..][m..] == printed[k + m..];
    }
  }

  lemma {:induction false} NonEmptySegments(lines: seq<string>, current: seq<string>)
    requires ELISION !in current
    ensures current != [] || (lines != [] && lines[0] != ELISION) ==> SegmentsFrom(lines, current) != []
    ensures forall s | s in SegmentsFrom(lines, current) :: s != [] && ELISION !in s
    decreases |lines|
  {
    if lines != [] {
      if lines[0] == ELISION {
        NonEmptySegments(lines[1..], []);
      } else {
        NonEmptySegments(lines[1..], current + [lines[0]]);
      }
    }
  }

  lemma FloatingIsSomewhere(segments: seq<seq<string>>, lines: seq<string>, openEnd: bool)
    requires segments != []
    ensures Filled(segments, lines, true, openEnd)
       <==> exists k | 0 <= k <= |lines| :: Filled(segments, lines[k..], false, openEnd)
  {
    var head := segments[0];
    if Filled(segments, lines, true, openEnd) {
      var k: nat :| k <= |lines| && At(head, lines, k) && Filled(segments[1..], lines[k + |head|..], true, openEnd);
      AtSuffix(head, lines, k, 0);
      assert Filled(segments, lines[k..], false, openEnd);
    }
    forall k | 0 <= k <= |lines| && Filled(segments, lines[k..], false, openEnd)
      ensures Filled(segments, lines, true, openEnd)
    {
      AtSuffix(head, lines, k, 0);
    }
  }

  /** What the segments of a page say, for every page that shows a line. */
  lemma SegmentMeaning(shown: seq<string>, printed: seq<string>)
    requires shown != []
    ensures Describes(shown, printed)
       <==> Filled(SegmentsFrom(shown, []), printed, shown[0] == ELISION, OpenEnd(shown))
  {
    if shown[0] == ELISION {
      FloatingMeaning(shown, printed);
      assert SegmentsFrom(shown, []) == SegmentsFrom(shown[1..], []);
    } else {
      AnchoredMeaning(shown, [], printed);
      assert [] + shown == shown;
    }
  }

  // ---------------------------------------------------------------- closed ends

  /** A placement ends somewhere: it fills the prefix up to its end. */
  lemma {:induction false} PlacedFillsAPrefix(segments: seq<seq<string>>, lines: seq<string>, floating: bool) returns (n: nat)
    requires Placed(segments, lines, floating)
    ensures n <= |lines| && Filled(segments, lines[..n], floating, false)
  {
    if segments == [] {
      n := 0;
    } else {
      var head := segments[0];
      var k: nat :| k <= |lines| && (floating || k == 0) && At(head, lines, k)
                 && Placed(segments[1..], lines[k + |head|..], true);
      var m := PlacedFillsAPrefix(segments[1..], lines[k + |head|..], true);
      n := k + |head| + m;
      AtPrefix(head, lines, n, k);
    }
  }

  lemma {:induction false} FilledIsPlaced(segments: seq<seq<string>>, lines: seq<string>, floating: bool, openEnd: bool)
    requires Filled(segments, lines, floating, openEnd)
    ensures Placed(segments, lines, floating)
  {
    if segments != [] {
      var head := segments[0];
      var k: nat :| k <= |lines| && (floating || k == 0) && At(head, lines, k)
                 && Filled(segments[1..], lines[k + |head|..], true, openEnd);
      FilledIsPlaced(segments[1..], lines[k + |head|..], true, openEnd);
    }
  }

  /** When `cursor` is the earliest end of a placement, reaching the end of the output with it
      is the same as filling the output and no shorter prefix of it. */
  lemma EarliestEnd(segments: seq<seq<string>>, lines: seq<string>, floating: bool, cursor: nat)
    requires cursor <= |lines|
    requires forall n: nat | n <= |lines| :: Placed(segments, lines[..n], floating) <==> cursor <= n
    ensures cursor == |lines|
       <==> Filled(segments, lines, floating, false)
            && forall n | 0 <= n < |lines| :: !Filled(segments, lines[..n], floating, false)
  {
    assert lines[..|lines|] == lines;
    if cursor == |lines| {
      var n := PlacedFillsAPrefix(segments, lines, floating);
      forall m: nat | m <= |lines| && Filled(segments, lines[..m], floating, false) ensures m == |lines| {
        FilledIsPlaced(segments, lines[..m], floating, false);
      }
      assert n == |lines|;
    } else {
      var n := PlacedFillsAPrefix(segments, lines[..cursor], floating);
      assert lines[..cursor][..n] == lines[..n];
    }
  }

  // ---------------------------------------------------------------- the matcher

  /** The first index at or after `start` where `segment` occurs; only `start` when anchored. */
  method FindSegment(actual: seq<string>, segment: seq<string>, start: nat, anchored: bool) returns (found: int)
    requires start <= |actual|
    ensures found == -1 || start <= found
    ensures found >= 0 ==> At(segment, actual, found) && (anchored ==> found == start)
    ensures found >= 0 ==> forall m | start <= m < found :: !At(segment, actual, m)
    ensures found == -1 ==> forall m: nat | start <= m && (anchored ==> m == start) :: !At(segment, actual, m)
  {
    var last: int := if anchored then start else |actual| - |segment|;
    var index: int := start;
    while index < last + 1
      invariant start <= index && (anchored ==> index <= start + 1)
      invariant forall m | start <= m < index :: !At(segment, actual, m)
    {
      if At(segment, actual, index) {
        return index;
      }
      index := index + 1;
    }
    return -1;
  }

  method SplitAtElisions(lines: seq<string>) returns (segments: seq<seq<string>>)
    ensures segments == SegmentsFrom(lines, [])
  {
    segments := [];
    var current: seq<string> := [];
    var i := 0;
    while i < |lines|
      invariant i <= |lines|
      invariant segments + SegmentsFrom(lines[i..], current) == SegmentsFrom(lines, [])
    {
      if lines[i] == ELISION {
        if current != [] {
          segments := segments + [current];
          current := [];
        }
      } else {
        current := current + [lines[i]];
      }
      i := i + 1;
    }
    if current != [] {
      segments := segments + [current];
    }
  }

  method Normalize(lines: seq<string>) returns (normal: seq<string>)
    ensures normal == Normal(lines)
  {
    normal := StripAll(lines);
    while normal != [] && normal[|normal| - 1] == ""
      invariant DropBlankTail(normal) == DropBlankTail(StripAll(lines))
      decreases |normal|
    {
      normal := normal[..|normal| - 1];
    }
  }

  /** What the greedy walk knows after placing `position` segments up to `cursor`: for every
      prefix of the output, all segments are placed in it exactly when it reaches the cursor and
      the remaining segments are placed in what follows. */
  ghost predicate Greedy(segments: seq<seq<string>>, lines: seq<string>, openStart: bool, position: nat, cursor: nat)
    requires position <= |segments| && cursor <= |lines|
  {
    forall n: nat | n <= |lines| ::
      Placed(segments, lines[..n], openStart)
      <==> cursor <= n && Placed(segments[position..], lines[cursor..][..n - cursor], openStart || position > 0)
  }

  lemma NotPlaced(segments: seq<seq<string>>, lines: seq<string>, cursor: nat, floating: bool)
    requires segments != [] && cursor <= |lines|
    requires forall m: nat | cursor <= m && (!floating ==> m == cursor) :: !At(segments[0], lines, m)
    ensures !Placed(segments, lines[cursor..], floating)
  {
    forall k: nat | k <= |lines[cursor..]| && (floating || k == 0)
      ensures !At(segments[0], lines[cursor..], k)
    {
      AtSuffix(segments[0], lines, cursor, k);
    }
  }

  lemma GreedyStep(segments: seq<seq<string>>, lines: seq<string>, openStart: bool, position: nat, cursor: nat, found: nat)
    requires position < |segments| && cursor <= found && found + |segments[position]| <= |lines|
    requires At(segments[position], lines, found)
    requires !openStart && position == 0 ==> found == cursor
    requires forall m | cursor <= m < found :: !At(segments[position], lines, m)
    requires Greedy(segments, lines, openStart, position, cursor)
    ensures Greedy(segments, lines, openStart, position + 1, found + |segments[position]|)
  {
    var head := segments[position];
    var rest := lines[cursor..];
    var k := found - cursor;
    AtSuffix(head, lines, cursor, k);
    forall m: nat | m < k ensures !At(head, rest, m) {
      AtSuffix(head, lines, cursor, m);
    }
    assert segments[position..][1..] == segments[position + 1..];
    forall n: nat | n <= |lines|
      ensures Placed(segments, lines[..n], openStart)
         <==> found + |head| <= n && Placed(segments[position + 1..], lines[found + |head|..][..n - found - |head|], true)
    {
      if cursor <= n {
        LeftmostStep(segments[position..], rest, openStart || position > 0, k, n - cursor);
        assert rest[k + |head|..] == lines[found + |head|..];
      }
    }
  }

  /** The loop over the segments: the earliest end of a placement, or the segment it stops at. */
  method PlaceSegments(segments: seq<seq<string>>, printed: seq<string>, openStart: bool)
    returns (placed: bool, cursor: nat, position: nat)
    ensures cursor <= |printed| && position <= |segments|
    ensures placed ==> EarliestEndOf(segments, printed, openStart, cursor)
    ensures !placed ==> position < |segments| && !Placed(segments, printed, openStart)
    ensures !placed ==> !Placed(segments[..position + 1], printed, openStart)
                        && EarliestEndOf(segments[..position], printed, openStart, cursor)
  {
    hide Greedy;
    cursor, position := 0, 0;
    forall p: nat | p <= |segments| ensures Greedy(segments[..p], printed, openStart, 0, 0) {
      GreedyStart(segments[..p], printed, openStart);
    }
    while position < |segments|
      invariant position <= |segments| && cursor <= |printed|
      invariant forall p: nat | position <= p <= |segments| :: Greedy(segments[..p], printed, openStart, position, cursor)
    {
      var anchored := position == 0 && !openStart;
      var found := FindSegment(printed, segments[position], cursor, anchored);
      assert segments[..|segments|] == segments;
      if found == -1 {
        GreedyFails(segments[..position + 1], printed, openStart, position, cursor);
        GreedyFails(segments, printed, openStart, position, cursor);
        GreedyEnds(segments[..position], printed, openStart, cursor);
        return false, cursor, position;
      }
      forall p: nat | position < p <= |segments|
        ensures Greedy(segments[..p], printed, openStart, position + 1, found + |segments[position]|)
      {
        GreedyStep(segments[..p], printed, openStart, position, cursor, found);
      }
      cursor := found + |segments[position]|;
      position := position + 1;
    }
    assert segments[..|segments|] == segments;
    GreedyEnds(segments, printed, openStart, cursor);
    return true, cursor, position;
  }

  /** A prefix of the output holds the segments exactly when it reaches the cursor. */
  ghost predicate EarliestEndOf(segments: seq<seq<string>>, printed: seq<string>, openStart: bool, cursor: nat) {
    forall n: nat | n <= |printed| :: Placed(segments, printed[..n], openStart) <==> cursor <= n
  }

  lemma GreedyStart(segments: seq<seq<string>>, printed: seq<string>, openStart: bool)
    ensures Greedy(segments, printed, openStart, 0, 0)
  {
    assert segments[0..] == segments && printed[0..] == printed;
  }

  lemma GreedyEnds(segments: seq<seq<string>>, printed: seq<string>, openStart: bool, cursor: nat)
    requires cursor <= |printed| && Greedy(segments, printed, openStart, |segments|, cursor)
    ensures EarliestEndOf(segments, printed, openStart, cursor)
  {
  }

  lemma GreedyFails(segments: seq<seq<string>>, printed: seq<string>, openStart: bool, position: nat, cursor: nat)
    requires position < |segments| && cursor <= |printed| && Greedy(segments, printed, openStart, position, cursor)
    requires forall m: nat | cursor <= m && (position == 0 && !openStart ==> m == cursor) :: !At(segments[position], printed, m)
    ensures !Placed(segments, printed, openStart)
  {
    NotPlaced(segments[position..], printed, cursor, openStart || position > 0);
    assert printed[..|printed|] == printed;
    assert printed[cursor..][..|printed| - cursor] == printed[cursor..];
  }

  /** The segment that has no place: with those in front of it placed as early as they go, they end at
      `after`, and with it they have no placement. */
  ghost predicate FirstMissing(shown: seq<string>, printed: seq<string>, after: nat, line: string) {
    exists position :: 0 <= position < |SegmentsFrom(shown, [])| && shown != [] &&
      var segments, openStart := SegmentsFrom(shown, []), shown[0] == ELISION;
      && EarliestEndOf(segments[..position], printed, openStart, after)
      && !Placed(segments[..position + 1], printed, openStart)
      && segments[position] != [] && line == segments[position][0]
  }

  /** The matcher. The verdict is `Matches` exactly when the page describes the output and, unless
      the page ends in an elision, describes no shorter prefix of it. Every other verdict but
      `ExtraOutput` says that the page does not describe the output. */
  method MatchTranscript(expected: seq<string>, actual: seq<string>) returns (verdict: Verdict)
    ensures verdict.Matches? <==> Accepted(Normal(expected), Normal(actual))
    ensures verdict.MissingLine? || verdict.UnexpectedOutput? ==> !Describes(Normal(expected), Normal(actual))
    ensures verdict.MissingLine? ==> FirstMissing(Normal(expected), Normal(actual), verdict.after, verdict.line)
    ensures verdict.UnexpectedOutput? <==> Normal(expected) == [] && Normal(actual) != []
    ensures verdict.UnexpectedOutput? ==> verdict.printed == |Normal(actual)|
    ensures verdict.ExtraOutput? ==>
      && !OpenEnd(Normal(expected))
      && verdict.cursor < |Normal(actual)| && verdict.extra == |Normal(actual)| - verdict.cursor
      && Describes(Normal(expected), Normal(actual)[..verdict.cursor])
      && NothingShorter(Normal(expected), Normal(actual)[..verdict.cursor])
  {
    var shown := Normalize(expected);
    var printed := Normalize(actual);
    if shown == [] {
      return if printed != [] then UnexpectedOutput(|printed|) else Matches;
    }
    var openStart := shown[0] == ELISION;
    var openEnd := shown[|shown| - 1] == ELISION;
    var segments := SplitAtElisions(shown);
    var placed, cursor, position := PlaceSegments(segments, printed, openStart);
    SegmentMeaning(shown, printed);
    if !placed {
      if Describes(shown, printed) {
        FilledIsPlaced(segments, printed, openStart, openEnd);
      }
      NonEmptySegments(shown, []);
      assert FirstMissing(shown, printed, cursor, segments[position][0]);
      return MissingLine(cursor, segments[position][0]);
    }
    assert printed[..|printed|] == printed;
    if openEnd {
      OpenIsPlaced(segments, printed, openStart);
      return Matches;
    }
    ClosedVerdict(shown, printed, cursor);
    NothingBeforeTheEnd(shown, printed, cursor);
    return if cursor != |printed| then ExtraOutput(|printed| - cursor, cursor) else Matches;
  }

  /** With a shown last line, the earliest end of a placement decides the verdict. */
  lemma ClosedVerdict(shown: seq<string>, printed: seq<string>, cursor: nat)
    requires shown != [] && !OpenEnd(shown) && cursor <= |printed|
    requires forall n: nat | n <= |printed| ::
        Placed(SegmentsFrom(shown, []), printed[..n], shown[0] == ELISION) <==> cursor <= n
    ensures cursor == |printed| <==> Describes(shown, printed) && NothingShorter(shown, printed)
    ensures Describes(shown, printed[..cursor])
  {
    var segments, openStart := SegmentsFrom(shown, []), shown[0] == ELISION;
    EarliestEnd(segments, printed, openStart, cursor);
    SegmentMeaning(shown, printed);
    forall n | 0 <= n < |printed|
      ensures Describes(shown, printed[..n]) <==> Filled(segments, printed[..n], openStart, false)
    {
      SegmentMeaning(shown, printed[..n]);
    }
    forall n: nat | n <= cursor
      ensures Placed(segments, printed[..cursor][..n], openStart) <==> cursor <= n
    {
      assert printed[..cursor][..n] == printed[..n];
    }
    EarliestEnd(segments, printed[..cursor], openStart, cursor);
    SegmentMeaning(shown, printed[..cursor]);
  }

  /** No shorter output than the one up to the cursor is described. */
  lemma NothingBeforeTheEnd(shown: seq<string>, printed: seq<string>, cursor: nat)
    requires shown != [] && !OpenEnd(shown) && cursor <= |printed|
    requires EarliestEndOf(SegmentsFrom(shown, []), printed, shown[0] == ELISION, cursor)
    ensures NothingShorter(shown, printed[..cursor])
  {
    hide Placed, Describes;
    var short := printed[..cursor];
    forall n: nat | n <= cursor ensures Placed(SegmentsFrom(shown, []), short[..n], shown[0] == ELISION) <==> cursor <= n {
      assert short[..n] == printed[..n];
    }
    ClosedVerdict(shown, short, cursor);
  }

  // ---------------------------------------------------------------- what the verdict decides

  /** A page without elisions describes one output only, so the verdict is exact on it. */
  lemma {:induction false} NoElisionIsExact(shown: seq<string>, printed: seq<string>)
    requires !HasElision(shown)
    ensures Describes(shown, printed) <==> shown == printed
    ensures Describes(shown, printed) ==> NothingShorter(shown, printed)
  {
    forall p: seq<string> ensures Describes(shown, p) <==> shown == p {
      LiteralRun(shown, [], p);
      assert shown + [] == shown;
    }
  }

  /** What the matcher decides is the meaning itself whenever the page ends in an elision or has none. */
  lemma VerdictIsExact(shown: seq<string>, printed: seq<string>)
    requires OpenEnd(shown) || !HasElision(shown)
    ensures Accepted(shown, printed) <==> Describes(shown, printed)
  {
    if !HasElision(shown) {
      NoElisionIsExact(shown, printed);
    }
  }

  // ---------------------------------------------------------------- pages on which it is exact

  /** The shown lines alone: what the page describes when its elisions stand for nothing. */
  function ShownLines(shown: seq<string>): seq<string> {
    if shown == [] then []
    else (if shown[0] == ELISION then [] else [shown[0]]) + ShownLines(shown[1..])
  }

  lemma {:induction false} ShownLinesAreDescribed(shown: seq<string>)
    ensures Describes(shown, ShownLines(shown))
  {
    if shown != [] {
      ShownLinesAreDescribed(shown[1..]);
      var rest := ShownLines(shown[1..]);
      if shown[0] == ELISION {
        assert ShownLines(shown) == rest && rest[0..] == rest;
      } else {
        assert ShownLines(shown)[1..] == rest;
      }
    }
  }

  lemma {:induction false} DescribedBoth(a: seq<string>, b: seq<string>, x: seq<string>, y: seq<string>)
    requires Describes(a, x) && Describes(b, y)
    ensures Describes(a + b, x + y)
    decreases |a|
  {
    if a == [] {
      assert a + b == b && x + y == y;
    } else {
      assert (a + b)[0] == a[0] && (a + b)[1..] == a[1..] + b;
      if a[0] == ELISION {
        var k :| 0 <= k <= |x| && Describes(a[1..], x[k..]);
        DescribedBoth(a[1..], b, x[k..], y);
        assert (x + y)[k..] == x[k..] + y;
      } else {
        DescribedBoth(a[1..], b, x[1..], y);
        assert (x + y)[1..] == x[1..] + y;
      }
    }
  }

  /** Where the last elision stands. */
  lemma {:induction false} LastElision(shown: seq<string>) returns (i: nat)
    requires HasElision(shown)
    ensures i < |shown| && shown[i] == ELISION && !HasElision(shown[i + 1..])
  {
    var last := |shown| - 1;
    if shown[last] == ELISION {
      i := last;
    } else {
      i := LastElision(shown[..last]);
      assert shown[i + 1..] == shown[..last][i + 1..] + [shown[last]];
    }
  }

  lemma ElisionTakes(lines: seq<string>)
    ensures Describes([ELISION], lines)
  {
    assert [ELISION][1..] == [] && lines[|lines|..] == [];
  }

  lemma {:induction false} ShownLinesAreShown(shown: seq<string>, line: string)
    requires line in ShownLines(shown)
    ensures line in shown
  {
    if line !in [shown[0]] {
      ShownLinesAreShown(shown[1..], line);
    }
  }

  /** Every page that ends in a shown line after an elision describes an output that the matcher
      rejects: its shown lines, and those behind its last elision once more. */
  lemma ClosedPageRejects(shown: seq<string>) returns (printed: seq<string>)
    requires HasElision(shown) && !OpenEnd(shown)
    ensures Describes(shown, printed) && !Accepted(shown, printed)
    ensures printed != [] && printed[|printed| - 1] == shown[|shown| - 1] && forall line | line in printed :: line in shown
  {
    hide Describes, Accepted;
    var i := LastElision(shown);
    var front, end := shown[..i], shown[i + 1..];
    var lines := ShownLines(front);
    printed := lines + (end + end);
    ShownLinesAreDescribed(front);
    NoElisionIsExact(end, end);
    ElisionTakes([]);
    ElisionTakes(end);
    ClosedPage(front, end, lines);
    assert shown == front + ([ELISION] + end);
    assert printed[..|lines + end|] == lines + end && end != [];
    ShorterIsRejected(shown, printed, |lines + end|);
    forall line | line in printed ensures line in shown {
      if line in lines {
        ShownLinesAreShown(front, line);
      }
    }
  }

  lemma ShorterIsRejected(shown: seq<string>, printed: seq<string>, n: nat)
    requires n < |printed| && !OpenEnd(shown) && Describes(shown, printed[..n])
    ensures !Accepted(shown, printed)
  {
  }

  lemma ClosedPage(front: seq<string>, end: seq<string>, lines: seq<string>)
    requires Describes(front, lines) && Describes(end, end) && Describes([ELISION], []) && Describes([ELISION], end)
    ensures Describes(front + ([ELISION] + end), lines + end)
    ensures Describes(front + ([ELISION] + end), lines + (end + end))
  {
    hide Describes;
    DescribedBoth([ELISION], end, [], end);
    assert [] + end == end;
    DescribedBoth(front, [ELISION] + end, lines, end);
    DescribedBoth([ELISION], end, end, end);
    DescribedBoth(front, [ELISION] + end, lines, end + end);
  }

  lemma {:induction false} StrippedStays(line: string)
    ensures RightStrip(RightStrip(line)) == RightStrip(line)
  {
    if line != [] && IsSpace(line[|line| - 1]) {
      StrippedStays(line[..|line| - 1]);
    }
  }

  lemma NormalLines(lines: seq<string>)
    ensures forall line | line in Normal(lines) :: RightStrip(line) == line
    ensures Normal(lines) != [] ==> Normal(lines)[|Normal(lines)| - 1] != ""
  {
    var r := StripAll(lines);
    forall line | line in Normal(lines) ensures RightStrip(line) == line {
      var i :| 0 <= i < |Normal(lines)| && Normal(lines)[i] == line;
      assert line == r[i];
      StrippedStays(lines[i]);
    }
  }

  lemma NormalStays(lines: seq<string>)
    requires (forall line | line in lines :: RightStrip(line) == line) && (lines != [] ==> lines[|lines| - 1] != "")
    ensures Normal(lines) == lines
  {
    assert forall i | 0 <= i < |lines| :: lines[i] in lines;
    assert StripAll(lines) == lines;
  }

  /** The matcher decides what a page means, on every output, exactly when the page ends in an elision
      or holds none. */
  lemma PageIsExact(expected: seq<string>)
    ensures (forall actual :: Accepted(Normal(expected), Normal(actual)) <==> Describes(Normal(expected), Normal(actual)))
       <==> OpenEnd(Normal(expected)) || !HasElision(Normal(expected))
  {
    hide Accepted, Describes, Normal;
    var shown := Normal(expected);
    if OpenEnd(shown) || !HasElision(shown) {
      forall actual ensures Accepted(shown, Normal(actual)) <==> Describes(shown, Normal(actual)) {
        VerdictIsExact(shown, Normal(actual));
      }
    } else {
      var printed := ClosedPageRejects(shown);
      NormalLines(expected);
      NormalStays(printed);
      assert Describes(shown, Normal(printed)) && !Accepted(shown, Normal(printed));
    }
  }

  /** A page that ends in a shown line after an elision can describe an output that the matcher
      rejects: the greedy placement stops at the first `A`. */
  lemma EndAnchorRejectsADescribedOutput()
    ensures Normal(["...", "A"]) == ["...", "A"] && Normal(["A", "B", "A"]) == ["A", "B", "A"]
    ensures Describes(["...", "A"], ["A", "B", "A"])
    ensures !Accepted(["...", "A"], ["A", "B", "A"])
    ensures HasElision(["...", "A"]) && !OpenEnd(["...", "A"])
  {
    hide Describes, Accepted, Normal, StripAll;
    var shown, printed := [ELISION, "A"], ["A", "B", "A"];
    NormalStays(shown);
    NormalStays(printed);
    NoElisionIsExact(["A"], ["A"]);
    ElisionTakes([]);
    ElisionTakes(["A", "B"]);
    DescribedBoth([ELISION], ["A"], [], ["A"]);
    DescribedBoth([ELISION], ["A"], ["A", "B"], ["A"]);
    assert [ELISION] + ["A"] == shown && ["A", "B"] + ["A"] == printed && [] + ["A"] == printed[..1];
    ShorterIsRejected(shown, printed, 1);
  }
}
