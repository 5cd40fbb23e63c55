/** What processing one payload does, told from the texts of the issues. */
module DriftSteps {
  import opened Options
  import opened Text
  import opened DriftMarkers
  import opened DriftIssues

  /** The issue that a payload looks for: open, no pull request, labelled, and marked in its body. */
  ghost predicate Tracks(issue: Issue, fingerprint: string) {
    && issue.isOpen && !issue.isPull && "drift" in issue.labels
    && exists front, back :: issue.body == front + ("<!-- gebra-drift-issue: " + fingerprint + " -->") + back
  }

  /** A signals marker with these hexadecimal digits stands at `i`. */
  ghost predicate DigestAt(text: string, i: nat, digest: string) {
    && digest != "" && (forall c | c in digest :: c in "0123456789abcdef")
    && var marker := "<!-- gebra-drift-signals: " + digest + " -->";
       i + |marker| <= |text| && text[i..i + |marker|] == marker
  }

  ghost predicate NoDigestFrom(text: string, i: nat) {
    forall j: nat, d | i <= j :: !DigestAt(text, j, d)
  }

  /** The last digest of the text from here on. */
  ghost predicate EndsFrom(text: string, i: nat, digest: string) {
    exists j: nat | i <= j :: DigestAt(text, j, digest) && NoDigestFrom(text, j + 1)
  }

  ghost predicate EndsOn(text: string, digest: string) {
    EndsFrom(text, 0, digest)
  }

  /** The last digest of the last text that has one. */
  ghost predicate ShownLast(texts: seq<string>, digest: string) {
    exists k: nat :: k < |texts| && EndsOn(texts[k], digest) && forall l | k < l < |texts| :: NoDigestFrom(texts[l], 0)
  }

  // ---------------------------------------------------------------- the digests of a text

  lemma HexIs(d: string)
    ensures IsDigest(d) <==> d != "" && forall c | c in d :: c in "0123456789abcdef"
  {
    forall c: char ensures HexChar(c) <==> c in "0123456789abcdef" {
      HexCharIs(c);
    }
  }

  lemma HexCharIs(c: char)
    ensures HexChar(c) <==> c in "0123456789abcdef"
  {
    var hex := "0123456789abcdef";
    if '0' <= c <= '9' {
      assert hex[c as int - '0' as int] == c;
    } else if 'a' <= c <= 'f' {
      assert hex[10 + (c as int - 'a' as int)] == c;
    }
  }

  lemma DigestAtIs(text: string, i: nat, d: string)
    ensures DigestAt(text, i, d) <==> IsDigest(d) && OccursAt(text, SignalsMarker(d), i)
  {
    hide IsDigest;
    HexIs(d);
  }

  lemma SignalsAreRead(text: string, i: nat)
    requires SignalsAt(text, i)
    ensures var n := HexRun(text, i + |SIGNALS_HEAD|); var d := text[i + |SIGNALS_HEAD|..i + |SIGNALS_HEAD| + n];
      |d| == n && DigestAt(text, i, d)
  {
    var h := |SIGNALS_HEAD|;
    var n := HexRun(text, i + h);
    var d := text[i + h..i + h + n];
    DigestAtIs(text, i, d);
    MarkerFromParts(text, i, d);
  }

  lemma MarkerFromParts(text: string, i: nat, d: string)
    requires OccursAt(text, SIGNALS_HEAD, i) && OccursAt(text, d, i + |SIGNALS_HEAD|)
    requires OccursAt(text, TAIL, i + |SIGNALS_HEAD| + |d|)
    ensures OccursAt(text, SignalsMarker(d), i)
  {
    var h, n := |SIGNALS_HEAD|, |d|;
    assert text[i..i + h + n + |TAIL|] == text[i..i + h] + text[i + h..i + h + n] + text[i + h + n..i + h + n + |TAIL|];
  }

  lemma NothingInside(text: string, i: nat, d: string, j: nat, e: string)
    requires DigestAt(text, i, d) && i < j < i + |SignalsMarker(d)|
    ensures !DigestAt(text, j, e)
  {
    hide IsDigest;
    DigestAtIs(text, i, d);
    DigestAtIs(text, j, e);
    MarkersHaveOneBracket("", d);
    assert text[j] == SignalsMarker(d)[j - i];
    BracketAt(text, j, e);
  }

  lemma BracketAt(text: string, i: nat, d: string)
    ensures DigestAt(text, i, d) ==> i < |text| && text[i] == '<'
  {
    if DigestAt(text, i, d) {
      assert text[i] == ("<!-- gebra-drift-signals: " + d + " -->")[0];
    }
  }

  lemma FirstDigest(text: string, i: nat) returns (d: string, next: nat)
    requires i < |text| && SignalsAt(text, i)
    ensures DigestAt(text, i, d) && i < next == i + |SignalsMarker(d)| <= |text|
    ensures Digests(text, i) == [d] + Digests(text, next)
  {
    hide SignalsAt, DigestAt, HexRun, Digests, SignalsMarker;
    SignalsAreRead(text, i);
    var n := HexRun(text, i + |SIGNALS_HEAD|);
    d := text[i + |SIGNALS_HEAD|..i + |SIGNALS_HEAD| + n];
    next := i + |SignalsMarker(d)|;
    MarkerLength(d);
    InsideText(text, i, d);
    DigestsStep(text, i);
  }

  lemma MarkerLength(d: string)
    ensures |SignalsMarker(d)| == |SIGNALS_HEAD| + |d| + |TAIL| > 0
  {
  }

  lemma DigestsStep(text: string, i: nat)
    requires i < |text| && SignalsAt(text, i)
    ensures var n := HexRun(text, i + |SIGNALS_HEAD|);
      Digests(text, i)
      == [text[i + |SIGNALS_HEAD|..i + |SIGNALS_HEAD| + n]] + Digests(text, i + |SIGNALS_HEAD| + n + |TAIL|)
  {
  }

  lemma {:induction false} DigestsAreRead(text: string, i: nat)
    ensures Digests(text, i) == [] <==> NoDigestFrom(text, i)
    ensures Digests(text, i) != [] ==> EndsFrom(text, i, Digests(text, i)[|Digests(text, i)| - 1])
    decreases |text| - i
  {
    hide SignalsAt, DigestAt, HexRun, NoDigestFrom, EndsFrom, SignalsMarker;
    if i >= |text| {
      BehindTheEnd(text, i);
    } else if SignalsAt(text, i) {
      var d, next := FirstDigest(text, i);
      DigestsAreRead(text, next);
      PastDigest(text, i, d, next);
    } else {
      DigestsAreRead(text, i + 1);
      PastNothing(text, i);
    }
  }

  lemma PastDigest(text: string, i: nat, d: string, next: nat)
    requires DigestAt(text, i, d) && next == i + |SignalsMarker(d)|
    ensures !NoDigestFrom(text, i)
    ensures NoDigestFrom(text, next) ==> EndsFrom(text, i, d)
    ensures forall e | EndsFrom(text, next, e) :: EndsFrom(text, i, e)
  {
    hide DigestAt;
    forall j: nat, e | i < j < next ensures !DigestAt(text, j, e) {
      NothingInside(text, i, d, j, e);
    }
    assert NoDigestFrom(text, next) ==> NoDigestFrom(text, i + 1);
  }

  lemma PastNothing(text: string, i: nat)
    requires !SignalsAt(text, i)
    ensures NoDigestFrom(text, i) <==> NoDigestFrom(text, i + 1)
    ensures forall e | EndsFrom(text, i + 1, e) :: EndsFrom(text, i, e)
  {
    hide DigestAt, SignalsAt;
    forall d ensures !DigestAt(text, i, d) {
      NotReadNotThere(text, i, d);
    }
  }

  lemma BehindTheEnd(text: string, i: nat)
    requires i >= |text|
    ensures NoDigestFrom(text, i)
  {
  }

  lemma InsideText(text: string, i: nat, d: string)
    requires DigestAt(text, i, d)
    ensures i + |SignalsMarker(d)| <= |text|
  {
    DigestAtIs(text, i, d);
  }

  lemma NotReadNotThere(text: string, i: nat, d: string)
    requires !SignalsAt(text, i)
    ensures !DigestAt(text, i, d)
  {
    hide SignalsAt, HexRun, OccursAt, IsDigest;
    DigestAtIs(text, i, d);
    if DigestAt(text, i, d) {
      MarkerIsRead(text, d, i);
    }
  }

  lemma OneDigestAt(text: string, i: nat, d: string, e: string)
    requires DigestAt(text, i, d) && DigestAt(text, i, e)
    ensures d == e
  {
    hide SignalsAt, HexRun, OccursAt, IsDigest;
    DigestAtIs(text, i, d);
    DigestAtIs(text, i, e);
    MarkerIsRead(text, d, i);
    MarkerIsRead(text, e, i);
  }

  /** The text read last decides, if it has a digest. */
  lemma LastOrIs(found: Option<string>, text: string, d: string)
    ensures LastOr(found, text) == Some(d) <==> EndsOn(text, d) || (NoDigestFrom(text, 0) && found == Some(d))
  {
    hide Digests, DigestAt;
    DigestsAreRead(text, 0);
    var digests := Digests(text, 0);
    if digests != [] {
      var last := digests[|digests| - 1];
      var j: nat :| DigestAt(text, j, last) && NoDigestFrom(text, j + 1);
      if EndsOn(text, d) {
        var i: nat :| DigestAt(text, i, d) && NoDigestFrom(text, i + 1);
        assert i == j by {
          assert i < j ==> i + 1 <= j;
          assert j < i ==> j + 1 <= i;
        }
        OneDigestAt(text, i, d, last);
      }
    } else {
      assert forall i: nat :: !DigestAt(text, i, d);
    }
  }

  lemma {:induction false} LatestIs(texts: seq<string>, d: string)
    ensures LatestDigest(texts) == Some(d) <==> ShownLast(texts, d)
    decreases |texts|
  {
    hide LastOr, EndsOn, NoDigestFrom;
    if texts != [] {
      var front, last := texts[..|texts| - 1], texts[|texts| - 1];
      assert texts == front + [last];
      LatestAppend(None, front, [last]);
      assert LatestDigest(texts) == LastOr(LatestDigest(front), last);
      LatestIs(front, d);
      LastOrIs(LatestDigest(front), last, d);
      ShownUnfolds(front, last, d);
    }
  }

  lemma ShownUnfolds(front: seq<string>, last: string, d: string)
    ensures ShownLast(front + [last], d) <==> EndsOn(last, d) || (NoDigestFrom(last, 0) && ShownLast(front, d))
  {
    hide EndsOn, NoDigestFrom;
    var texts := front + [last];
    assert texts[|front|] == last && forall l | 0 <= l < |front| :: texts[l] == front[l];
    if EndsOn(last, d) {
      assert EndsOn(texts[|front|], d);
    }
    if NoDigestFrom(last, 0) && ShownLast(front, d) {
      var k: nat :| k < |front| && EndsOn(front[k], d) && forall l | k < l < |front| :: NoDigestFrom(front[l], 0);
      assert EndsOn(texts[k], d);
    }
  }

  // ---------------------------------------------------------------- the step

  lemma CarriesIs(issue: Issue, f: string)
    ensures Carries(issue, f) <==> Tracks(issue, f)
  {
    var marker := "<!-- gebra-drift-issue: " + f + " -->";
    var body := issue.body;
    assert FingerprintMarker(f) == marker;
    if i: nat :| i <= |body| && OccursAt(body, marker, i) {
      assert body == body[..i] + marker + body[i + |marker|..];
    }
    if front, back :| body == front + marker + back {
      assert OccursAt(body, marker, |front|);
    }
  }

  lemma BodySpelled(p: Payload)
    ensures p.Body() == "<!-- gebra-drift-issue: " + p.fingerprint + " -->" + "\n" + "<!-- gebra-drift-signals: " + p.digest + " -->" + p.bodyRest
  {
    BodySplits(p.fingerprint, p.digest, p.bodyRest);
    CommentSplits(p.digest, p.bodyRest);
  }

  /** With no issue for it a payload opens one, in front of the others, with both markers. Otherwise
      the newest such issue has the last word: no change when it shows the digest last, and else one
      more comment on it. */
  lemma WhatAPayloadWrites(repo: Repo, p: Payload)
    ensures (forall x | x in repo.issues :: !Tracks(x, p.fingerprint)) ==>
      Step(repo, p) == Repo([Issue(repo.next, true, false, p.labels, p.title,
        "<!-- gebra-drift-issue: " + p.fingerprint + " -->" + "\n" + "<!-- gebra-drift-signals: " + p.digest + " -->" + p.bodyRest, [])]
        + repo.issues, repo.next + 1)
    ensures forall k | 0 <= k < |repo.issues| && Tracks(repo.issues[k], p.fingerprint)
                       && forall i | 0 <= i < k :: !Tracks(repo.issues[i], p.fingerprint) ::
      var issue := repo.issues[k];
      Step(repo, p) == if ShownLast([issue.body] + issue.comments, p.digest) then repo
                       else repo.(issues := repo.issues[k := issue.(comments :=
                              issue.comments + ["<!-- gebra-drift-signals: " + p.digest + " -->" + p.commentRest])])
  {
    hide Tracks, Carries, LatestDigest, ShownLast;
    forall issue ensures Carries(issue, p.fingerprint) <==> Tracks(issue, p.fingerprint) {
      CarriesIs(issue, p.fingerprint);
    }
    forall texts ensures LatestDigest(texts) == Some(p.digest) <==> ShownLast(texts, p.digest) {
      LatestIs(texts, p.digest);
    }
    BodySpelled(p);
    CommentSpelled(p);
  }

  lemma CommentSpelled(p: Payload)
    ensures p.Comment() == "<!-- gebra-drift-signals: " + p.digest + " -->" + p.commentRest
  {
  }

  // ---------------------------------------------------------------- the pages

  /** An item stands on one page, a hundred to a page, and that many pages are read to see it. */
  lemma ItemsArePaged<T>(items: seq<T>, k: nat, page: nat)
    requires k < |items| && page >= 1
    ensures 100 * (page - 1) <= k < 100 * page <==> page == PagesRead(k)
    ensures page == PagesRead(k) ==> k - 100 * (page - 1) < |PageOf(items, page)| && PageOf(items, page)[k - 100 * (page - 1)] == items[k]
  {
  }
}
