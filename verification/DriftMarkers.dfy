/** The hidden markers by which drift issues are found again: a fingerprint in the body of an issue,
    a digest of the signals in its body and in each comment. */
module DriftMarkers {
  import opened Text
  import opened Ordering

  /** What both markers start with. */
  const MARK: string := "<!-- gebra-drift-"

  const ISSUE_HEAD: string := "<!-- gebra-drift-issue: "
  const SIGNALS_HEAD: string := "<!-- gebra-drift-signals: "
  const TAIL: string := " -->"

  function FingerprintMarker(fingerprint: string): string {
    ISSUE_HEAD + fingerprint + TAIL
  }

  function SignalsMarker(digest: string): string {
    SIGNALS_HEAD + digest + TAIL
  }

  predicate HexChar(c: char) {
    '0' <= c <= '9' || 'a' <= c <= 'f'
  }

  predicate IsDigest(d: string) {
    d != "" && forall i | 0 <= i < |d| :: HexChar(d[i])
  }

  /** Fingerprints are words: no blank, no angle bracket. */
  predicate IsFingerprint(f: string) {
    forall i | 0 <= i < |f| :: f[i] != ' ' && f[i] != '<'
  }

  function HexRun(s: string, i: nat): (n: nat)
    requires i <= |s|
    ensures i + n <= |s| && forall j | i <= j < i + n :: HexChar(s[j])
    ensures i + n < |s| ==> !HexChar(s[i + n])
    decreases |s| - i
  {
    if i < |s| && HexChar(s[i]) then 1 + HexRun(s, i + 1) else 0
  }

  /** A signals marker at `i`: its head, a run of hexadecimal digits, its tail. */
  predicate SignalsAt(text: string, i: nat) {
    && OccursAt(text, SIGNALS_HEAD, i)
    && var n := HexRun(text, i + |SIGNALS_HEAD|);
       n > 0 && OccursAt(text, TAIL, i + |SIGNALS_HEAD| + n)
  }

  /** `findall`: the digests of a text, left to right. */
  function Digests(text: string, i: nat): seq<string>
    decreases |text| - i
  {
    if i >= |text| then []
    else if SignalsAt(text, i) then
      var n := HexRun(text, i + |SIGNALS_HEAD|);
      [text[i + |SIGNALS_HEAD|..i + |SIGNALS_HEAD| + n]] + Digests(text, i + |SIGNALS_HEAD| + n + |TAIL|)
    else Digests(text, i + 1)
  }

  // ---------------------------------------------------------------- the texts the tool writes

  function IssueBody(fingerprint: string, digest: string, rest: string): string {
    FingerprintMarker(fingerprint) + ("\n" + (SignalsMarker(digest) + rest))
  }

  function UpdateComment(digest: string, rest: string): string {
    SignalsMarker(digest) + rest
  }

  /** The text behind the markers brings no marker of its own. */
  predicate Clean(rest: string) {
    !Contains(rest, MARK)
  }

  lemma HeadsStartWithMark(text: string, i: nat)
    ensures OccursAt(text, SIGNALS_HEAD, i) ==> OccursAt(text, MARK, i)
    ensures OccursAt(text, ISSUE_HEAD, i) ==> OccursAt(text, MARK, i)
  {
    assert SIGNALS_HEAD[0..|MARK|] == MARK && ISSUE_HEAD[0..|MARK|] == MARK;
    if OccursAt(text, SIGNALS_HEAD, i) {
      OccursInside(text, SIGNALS_HEAD, MARK, i, 0);
    }
    if OccursAt(text, ISSUE_HEAD, i) {
      OccursInside(text, ISSUE_HEAD, MARK, i, 0);
    }
  }

  lemma HeadsDiffer(text: string, i: nat)
    ensures !(OccursAt(text, SIGNALS_HEAD, i) && OccursAt(text, ISSUE_HEAD, i))
  {
    Pointwise(text, SIGNALS_HEAD, i);
    Pointwise(text, ISSUE_HEAD, i);
    assert SIGNALS_HEAD[|MARK|] == 's' && ISSUE_HEAD[|MARK|] == 'i';
  }

  /** A mark can only begin at an angle bracket. */
  lemma MarkNeedsBracket(text: string, i: nat)
    requires OccursAt(text, MARK, i)
    ensures i < |text| && text[i] == '<'
  {
    Pointwise(text, MARK, i);
    assert text[i + 0] == MARK[0];
  }

  lemma SuffixOccurs(a: string, b: string, part: string, i: nat)
    requires i >= |a|
    ensures OccursAt(a + b, part, i) <==> OccursAt(b, part, i - |a|)
  {
    Pointwise(a + b, part, i);
    Pointwise(b, part, i - |a|);
    if i + |part| <= |a + b| {
      forall j | 0 <= j < |part| ensures (a + b)[i + j] == part[j] <==> b[i - |a| + j] == part[j] {
      }
    }
  }

  lemma PrefixOccurs(a: string, b: string, part: string, i: nat)
    requires OccursAt(a, part, i)
    ensures OccursAt(a + b, part, i)
  {
    Pointwise(a + b, part, i);
    Pointwise(a, part, i);
    forall j | 0 <= j < |part| ensures (a + b)[i + j] == part[j] {
      assert a[i + j] == part[j];
    }
  }

  predicate OneBracket(s: string) {
    s != "" && forall i | 0 < i < |s| :: s[i] != '<'
  }

  lemma MarkersHaveOneBracket(fingerprint: string, digest: string)
    requires IsFingerprint(fingerprint) && IsDigest(digest)
    ensures OneBracket(FingerprintMarker(fingerprint) + "\n") && OneBracket(SignalsMarker(digest))
  {
    var f, s := FingerprintMarker(fingerprint) + "\n", SignalsMarker(digest);
    forall i | 0 < i < |f| ensures f[i] != '<' {
      if i < |ISSUE_HEAD| {
        assert f[i] == ISSUE_HEAD[i];
      } else if i < |ISSUE_HEAD| + |fingerprint| {
        assert f[i] == fingerprint[i - |ISSUE_HEAD|];
      } else if i < |f| - 1 {
        assert f[i] == TAIL[i - |ISSUE_HEAD| - |fingerprint|];
      }
    }
    forall i | 0 < i < |s| ensures s[i] != '<' {
      if i < |SIGNALS_HEAD| {
        assert s[i] == SIGNALS_HEAD[i];
      } else if i < |SIGNALS_HEAD| + |digest| {
        assert s[i] == digest[i - |SIGNALS_HEAD|] && HexChar(digest[i - |SIGNALS_HEAD|]);
      } else {
        assert s[i] == TAIL[i - |SIGNALS_HEAD| - |digest|];
      }
    }
  }

  /** In front of clean text a piece with one bracket brings in one mark at most. */
  lemma MarksOfPrefixed(piece: string, rest: string, i: nat)
    requires OneBracket(piece) && OccursAt(piece + rest, MARK, i)
    ensures i == 0 || (i >= |piece| && OccursAt(rest, MARK, i - |piece|))
  {
    MarkNeedsBracket(piece + rest, i);
    if i >= |piece| {
      SuffixOccurs(piece, rest, MARK, i);
    }
  }

  lemma BodySplits(fingerprint: string, digest: string, rest: string)
    ensures IssueBody(fingerprint, digest, rest) == (FingerprintMarker(fingerprint) + "\n") + UpdateComment(digest, rest)
  {
  }

  function WordRun(s: string, i: nat): (n: nat)
    requires i <= |s|
    decreases |s| - i
  {
    if i < |s| && s[i] != ' ' then 1 + WordRun(s, i + 1) else 0
  }

  lemma {:induction false} WordRunIs(text: string, f: string, at: nat)
    requires IsFingerprint(f) && OccursAt(text, f + TAIL, at)
    ensures WordRun(text, at) == |f| && text[at..at + |f|] == f
  {
    Pointwise(text, f + TAIL, at);
    assert text[at + 0] == (f + TAIL)[0];
    if f != "" {
      var g := f[1..];
      assert (f + TAIL)[1..] == g + TAIL;
      Pointwise(text, g + TAIL, at + 1);
      forall j | 0 <= j < |g + TAIL| ensures text[at + 1 + j] == (g + TAIL)[j] {
        assert text[at + (1 + j)] == (f + TAIL)[1 + j];
      }
      WordRunIs(text, g, at + 1);
      assert text[at..at + |f|] == [text[at]] + text[at + 1..at + 1 + |g|];
    }
  }

  /** A word before a blank is determined by the text. */
  lemma WordsEnd(text: string, at: nat, f: string, g: string)
    requires IsFingerprint(f) && IsFingerprint(g)
    requires OccursAt(text, f + TAIL, at) && OccursAt(text, g + TAIL, at)
    ensures f == g
  {
    WordRunIs(text, f, at);
    WordRunIs(text, g, at);
  }

  /** A body carries its own fingerprint, and besides those that the texts shown in it carry. */
  lemma MarkersOfBody(fingerprint: string, digest: string, rest: string, other: string)
    requires IsFingerprint(fingerprint) && IsDigest(digest) && IsFingerprint(other)
    ensures Contains(IssueBody(fingerprint, digest, rest), FingerprintMarker(other))
       <==> other == fingerprint || Contains(rest, FingerprintMarker(other))
  {
    hide IssueBody, IsFingerprint, IsDigest, FingerprintMarker;
    var body, marker := IssueBody(fingerprint, digest, rest), FingerprintMarker(other);
    OwnMarkerStandsFirst(fingerprint, digest, rest);
    if i :| 0 <= i <= |body| && OccursAt(body, marker, i) {
      if i == 0 {
        MarkersOfOneText(body, fingerprint, other);
      } else {
        MarkerStandsInRest(fingerprint, digest, rest, other, i);
      }
    }
    if i :| 0 <= i <= |rest| && OccursAt(rest, marker, i) {
      RestStandsInBody(fingerprint, digest, rest, marker, i);
    }
  }

  lemma OwnMarkerStandsFirst(fingerprint: string, digest: string, rest: string)
    ensures OccursAt(IssueBody(fingerprint, digest, rest), FingerprintMarker(fingerprint), 0)
  {
    var body, m := IssueBody(fingerprint, digest, rest), FingerprintMarker(fingerprint);
    assert body[0..|m|] == m;
  }

  lemma RestStandsInBody(fingerprint: string, digest: string, rest: string, part: string, i: nat)
    requires i <= |rest| && OccursAt(rest, part, i)
    ensures Contains(IssueBody(fingerprint, digest, rest), part)
  {
    hide FingerprintMarker, SignalsMarker;
    var piece := FingerprintMarker(fingerprint) + "\n" + SignalsMarker(digest);
    BodySplits(fingerprint, digest, rest);
    assert IssueBody(fingerprint, digest, rest) == piece + rest;
    SuffixOccurs(piece, rest, part, |piece| + i);
  }

  lemma MarkerStandsInRest(fingerprint: string, digest: string, rest: string, other: string, i: nat)
    requires IsFingerprint(fingerprint) && IsDigest(digest) && i > 0
    requires OccursAt(IssueBody(fingerprint, digest, rest), FingerprintMarker(other), i)
    ensures Contains(rest, FingerprintMarker(other))
  {
    hide IssueBody, IsFingerprint, IsDigest, UpdateComment;
    var piece, comment, marker := FingerprintMarker(fingerprint) + "\n", UpdateComment(digest, rest), FingerprintMarker(other);
    BodySplits(fingerprint, digest, rest);
    MarkersHaveOneBracket(fingerprint, digest);
    HeadOfMarker(piece + comment, other, i);
    MarksOfPrefixed(piece, comment, i);
    SuffixOccurs(piece, comment, marker, i);
    var j := i - |piece|;
    HeadOfMarker(comment, other, j);
    CommentStartsWithSignals(digest, rest);
    HeadsDiffer(comment, 0);
    CommentSplits(digest, rest);
    MarksOfPrefixed(SignalsMarker(digest), rest, j);
    SuffixOccurs(SignalsMarker(digest), rest, marker, j);
    OccursEarly(rest, marker, j - |SignalsMarker(digest)|);
  }

  lemma CommentSplits(digest: string, rest: string)
    ensures UpdateComment(digest, rest) == SignalsMarker(digest) + rest
  {
  }

  lemma OccursEarly(text: string, part: string, i: nat)
    requires OccursAt(text, part, i)
    ensures Contains(text, part)
  {
    Pointwise(text, part, i);
  }

  lemma HeadOfMarker(text: string, other: string, i: nat)
    requires OccursAt(text, FingerprintMarker(other), i)
    ensures OccursAt(text, ISSUE_HEAD, i) && OccursAt(text, MARK, i)
  {
    var marker := FingerprintMarker(other);
    assert marker[0..|ISSUE_HEAD|] == ISSUE_HEAD;
    OccursInside(text, marker, ISSUE_HEAD, i, 0);
    HeadsStartWithMark(text, i);
  }

  lemma CommentStartsWithSignals(digest: string, rest: string)
    ensures OccursAt(UpdateComment(digest, rest), SIGNALS_HEAD, 0)
  {
    var comment := UpdateComment(digest, rest);
    assert comment[0..|SIGNALS_HEAD|] == SIGNALS_HEAD;
  }

  lemma CleanCarriesNothing(rest: string, other: string)
    requires Clean(rest)
    ensures !Contains(rest, FingerprintMarker(other))
  {
    if i :| 0 <= i <= |rest| && OccursAt(rest, FingerprintMarker(other), i) {
      HeadOfMarker(rest, other, i);
      OccursEarly(rest, MARK, i);
    }
  }

  /** The body an issue is created with carries its own fingerprint and, its texts being clean, no other. */
  lemma BodyCarriesOneFingerprint(fingerprint: string, digest: string, rest: string, other: string)
    requires IsFingerprint(fingerprint) && IsDigest(digest) && Clean(rest) && IsFingerprint(other)
    ensures Contains(IssueBody(fingerprint, digest, rest), FingerprintMarker(other)) <==> other == fingerprint
  {
    hide Clean, Contains;
    MarkersOfBody(fingerprint, digest, rest, other);
    CleanCarriesNothing(rest, other);
  }

  lemma MarkersOfOneText(text: string, f: string, g: string)
    requires IsFingerprint(f) && IsFingerprint(g)
    requires OccursAt(text, FingerprintMarker(f), 0) && OccursAt(text, FingerprintMarker(g), 0)
    ensures f == g
  {
    var m, n := FingerprintMarker(f), FingerprintMarker(g);
    assert m[|ISSUE_HEAD|..|m|] == f + TAIL && n[|ISSUE_HEAD|..|n|] == g + TAIL;
    OccursInside(text, m, f + TAIL, 0, |ISSUE_HEAD|);
    OccursInside(text, n, g + TAIL, 0, |ISSUE_HEAD|);
    WordsEnd(text, |ISSUE_HEAD|, f, g);
  }

  // ---------------------------------------------------------------- the digests found again

  lemma {:induction false} HexRunIs(text: string, d: string, i: nat)
    requires IsDigest(d) || d == ""
    requires OccursAt(text, d, i) && i + |d| < |text| && !HexChar(text[i + |d|])
    ensures HexRun(text, i) == |d|
  {
    if d != "" {
      Pointwise(text, d, i);
      Pointwise(text, d[1..], i + 1);
      assert text[i + 0] == d[0];
      forall j | 0 <= j < |d[1..]| ensures text[i + 1 + j] == d[1..][j] {
        assert text[i + (1 + j)] == d[1 + j];
      }
      HexRunIs(text, d[1..], i + 1);
    }
  }

  lemma MarkerParts(text: string, digest: string, at: nat)
    requires OccursAt(text, SignalsMarker(digest), at)
    ensures OccursAt(text, SIGNALS_HEAD, at) && OccursAt(text, digest, at + |SIGNALS_HEAD|)
    ensures OccursAt(text, TAIL, at + |SIGNALS_HEAD| + |digest|)
  {
    var m, h := SignalsMarker(digest), |SIGNALS_HEAD|;
    assert m[0..h] == SIGNALS_HEAD && m[h..h + |digest|] == digest;
    assert m[h + |digest|..h + |digest| + |TAIL|] == TAIL;
    OccursInside(text, m, SIGNALS_HEAD, at, 0);
    OccursInside(text, m, digest, at, h);
    OccursInside(text, m, TAIL, at, h + |digest|);
  }

  lemma TailStartsBlank(text: string, i: nat)
    requires OccursAt(text, TAIL, i)
    ensures i < |text| && text[i] == ' '
  {
    Pointwise(text, TAIL, i);
    assert text[i + 0] == TAIL[0];
  }

  lemma MarkerIsRead(text: string, digest: string, at: nat)
    requires IsDigest(digest) && OccursAt(text, SignalsMarker(digest), at)
    ensures OccursAt(text, SIGNALS_HEAD, at) && SignalsAt(text, at)
    ensures HexRun(text, at + |SIGNALS_HEAD|) == |digest|
    ensures text[at + |SIGNALS_HEAD|..at + |SIGNALS_HEAD| + |digest|] == digest
  {
    MarkerParts(text, digest, at);
    TailStartsBlank(text, at + |SIGNALS_HEAD| + |digest|);
    HexRunIs(text, digest, at + |SIGNALS_HEAD|);
  }

  lemma {:induction false} SuffixRun(a: string, b: string, i: nat)
    requires i <= |b|
    ensures HexRun(a + b, |a| + i) == HexRun(b, i)
    decreases |b| - i
  {
    if i < |b| {
      assert (a + b)[|a| + i] == b[i];
      SuffixRun(a, b, i + 1);
    }
  }

  lemma OccursWithin(text: string, part: string, i: nat)
    requires OccursAt(text, part, i)
    ensures i + |part| <= |text|
  {
    Pointwise(text, part, i);
  }

  lemma SuffixSignals(a: string, b: string, i: nat)
    requires i <= |b|
    ensures SignalsAt(a + b, |a| + i) <==> SignalsAt(b, i)
  {
    hide HexRun, OccursAt;
    SuffixOccurs(a, b, SIGNALS_HEAD, |a| + i);
    if OccursAt(b, SIGNALS_HEAD, i) {
      OccursWithin(b, SIGNALS_HEAD, i);
      SuffixRun(a, b, i + |SIGNALS_HEAD|);
      SuffixOccurs(a, b, TAIL, |a| + i + |SIGNALS_HEAD| + HexRun(b, i + |SIGNALS_HEAD|));
    }
  }

  /** Behind a prefix the digests are those of the rest. */
  lemma {:induction false} SuffixDigests(a: string, b: string, i: nat)
    ensures Digests(a + b, |a| + i) == Digests(b, i)
    decreases |b| - i
  {
    hide SignalsAt, HexRun;
    if i < |b| {
      SuffixSignals(a, b, i);
      if SignalsAt(b, i) {
        DigestIsInside(b, i);
        SuffixRun(a, b, i + |SIGNALS_HEAD|);
        var low, n := i + |SIGNALS_HEAD|, HexRun(b, i + |SIGNALS_HEAD|);
        assert (a + b)[|a| + low..|a| + low + n] == b[low..low + n];
        SuffixDigests(a, b, low + n + |TAIL|);
      } else {
        SuffixDigests(a, b, i + 1);
      }
    }
  }

  lemma DigestIsInside(b: string, i: nat)
    requires SignalsAt(b, i)
    ensures i + |SIGNALS_HEAD| + HexRun(b, i + |SIGNALS_HEAD|) <= |b|
  {
  }

  /** Where no marker stands in the first part, the digests are those of the rest. */
  lemma {:induction false} NoDigestsBefore(text: string, i: nat, n: nat)
    requires i <= n <= |text| && forall j: nat | i <= j < n :: !SignalsAt(text, j)
    ensures Digests(text, i) == Digests(text, n)
    decreases n - i
  {
    hide SignalsAt;
    if i < n {
      NoDigestsBefore(text, i + 1, n);
    }
  }

  /** From a comment its own digest is read, and then those of the texts shown in it. */
  lemma DigestsOfComment(digest: string, rest: string)
    requires IsDigest(digest)
    ensures Digests(UpdateComment(digest, rest), 0) == [digest] + Digests(rest, 0)
  {
    hide SignalsAt, HexRun, OccursAt, IsDigest;
    var text, m := UpdateComment(digest, rest), SignalsMarker(digest);
    CommentSplits(digest, rest);
    MarkerOccursFirst(m, rest);
    MarkerIsRead(text, digest, 0);
    assert |SIGNALS_HEAD| + |digest| + |TAIL| == |m|;
    SuffixDigests(m, rest, 0);
  }

  lemma MarkerOccursFirst(m: string, rest: string)
    ensures OccursAt(m + rest, m, 0)
  {
    assert (m + rest)[0..|m|] == m;
  }

  /** From a body likewise. */
  lemma DigestsOfBody(fingerprint: string, digest: string, rest: string)
    requires IsFingerprint(fingerprint) && IsDigest(digest)
    ensures Digests(IssueBody(fingerprint, digest, rest), 0) == [digest] + Digests(rest, 0)
  {
    hide SignalsAt, IsDigest, IsFingerprint, UpdateComment, FingerprintMarker, IssueBody;
    var piece, comment := FingerprintMarker(fingerprint) + "\n", UpdateComment(digest, rest);
    BodySplits(fingerprint, digest, rest);
    forall j: nat | j < |piece| ensures !SignalsAt(piece + comment, j) {
      NoSignalsInPiece(fingerprint, digest, comment, j);
    }
    NoDigestsBefore(piece + comment, 0, |piece|);
    SuffixDigests(piece, comment, 0);
    DigestsOfComment(digest, rest);
  }

  lemma NoSignalsInPiece(fingerprint: string, digest: string, comment: string, j: nat)
    requires IsFingerprint(fingerprint) && IsDigest(digest) && j < |FingerprintMarker(fingerprint)| + 1
    ensures !SignalsAt(FingerprintMarker(fingerprint) + "\n" + comment, j)
  {
    hide HexRun, IsDigest, IsFingerprint;
    var piece := FingerprintMarker(fingerprint) + "\n";
    var text := piece + comment;
    if OccursAt(text, SIGNALS_HEAD, j) {
      MarkersHaveOneBracket(fingerprint, digest);
      HeadsStartWithMark(text, j);
      MarksOfPrefixed(piece, comment, j);
      assert text[0..|ISSUE_HEAD|] == ISSUE_HEAD;
      HeadsDiffer(text, 0);
    }
  }

  lemma {:induction false} CleanHoldsNoDigest(rest: string, i: nat)
    requires Clean(rest)
    ensures Digests(rest, i) == []
    decreases |rest| - i
  {
    hide HexRun;
    if i < |rest| {
      if OccursAt(rest, SIGNALS_HEAD, i) {
        HeadsStartWithMark(rest, i);
        OccursEarly(rest, MARK, i);
      }
      CleanHoldsNoDigest(rest, i + 1);
    }
  }

  /** The one digest read from a comment with clean texts is its own. */
  lemma CommentCarriesItsDigest(digest: string, rest: string)
    requires IsDigest(digest) && Clean(rest)
    ensures Digests(UpdateComment(digest, rest), 0) == [digest]
  {
    DigestsOfComment(digest, rest);
    CleanHoldsNoDigest(rest, 0);
  }

  /** The one digest read from a body with clean texts is its own. */
  lemma BodyCarriesItsDigest(fingerprint: string, digest: string, rest: string)
    requires IsFingerprint(fingerprint) && IsDigest(digest) && Clean(rest)
    ensures Digests(IssueBody(fingerprint, digest, rest), 0) == [digest]
  {
    DigestsOfBody(fingerprint, digest, rest);
    CleanHoldsNoDigest(rest, 0);
  }

  // ---------------------------------------------------------------- the digest of a signal set

  function JoinLines(lines: seq<string>): string {
    if lines == [] then "" else Join(lines, '\n')
  }

  /** The digest of a run's signals; `hash` is the first sixteen hexadecimal digits of SHA-256. */
  function SignalsDigest(hash: string -> string, lines: seq<string>): string {
    hash(JoinLines(SortedSet(lines)))
  }

  /** The digest is a function of the set of lines: order and repetition do not matter. */
  lemma DigestIgnoresOrderAndRepetition(hash: string -> string, a: seq<string>, b: seq<string>)
    requires forall x :: x in a <==> x in b
    ensures SignalsDigest(hash, a) == SignalsDigest(hash, b)
  {
    SortedSetIsSorted(a);
    SortedSetIsSorted(b);
    SortedLinesAreUnique(SortedSet(a), SortedSet(b));
  }
}
