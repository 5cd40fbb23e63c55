/** A path rule can be read segment by segment: when this is what the compiled rule covers, and the
    paths on which the two part. */
module PathGlobReadings {
  import opened Text
  import opened PathGlob

  // ---------------------------------------------------------------- the reading by segments

  /** One path segment against one pattern segment: each `*` is any run of characters. */
  ghost predicate NameMatches(p: string, name: string) {
    if p == "" then name == ""
    else if p[0] == '*' then exists k | 0 <= k <= |name| :: NameMatches(p[1..], name[k..])
    else name != "" && name[0] == p[0] && NameMatches(p[1..], name[1..])
  }

  /** A pattern that ends in two stars. */
  predicate Open(p: string) {
    |p| >= 2 && p[|p| - 2] == '*' && p[|p| - 1] == '*'
  }

  /** What stands before that end. */
  function Stem(p: string): string
    requires Open(p)
  {
    p[..|p| - 2]
  }

  ghost predicate StartMatches(p: string, name: string) {
    exists k | 0 <= k <= |name| :: NameMatches(p, name[..k])
  }

  /** Segment by segment: `**` before others is zero or more whole directories, `**` at the end is
      whatever remains, and any other segment matches one segment. */
  ghost predicate GlobMatches(ps: seq<string>, names: seq<string>) {
    if ps == [] then names == []
    else if names == [] then false
    else if |ps| == 1 && Open(ps[0]) then StartMatches(Stem(ps[0]), names[0])
    else if ps[0] != "**" then NameMatches(ps[0], names[0]) && GlobMatches(ps[1..], names[1..])
    else exists k | 0 <= k < |names| :: GlobMatches(ps[1..], names[k..])
  }

  predicate PlainName(name: string) {
    name != "" && '/' !in name && '\n' !in name
  }

  predicate PlainNames(names: seq<string>) {
    forall i | 0 <= i < |names| :: PlainName(names[i])
  }

  predicate Segments(ps: seq<string>) {
    ps != [] && forall i | 0 <= i < |ps| :: '/' !in ps[i]
  }

  // ---------------------------------------------------------------- where the readings agree

  predicate NoDoubleStar(p: string) {
    forall i | 0 <= i < |p| - 1 :: !(p[i] == '*' && p[i + 1] == '*')
  }

  predicate AllStars(p: string) {
    forall i | 0 <= i < |p| :: p[i] == '*'
  }

  /** The stars a segment starts with. */
  function Lead(p: string): (n: nat)
    ensures n <= |p|
  {
    if p != "" && p[0] == '*' then 1 + Lead(p[1..]) else 0
  }

  /** The stars a segment ends with. */
  function Trail(p: string): (n: nat)
    ensures n <= |p|
  {
    if p != "" && p[|p| - 1] == '*' then 1 + Trail(p[..|p| - 1]) else 0
  }

  /** A segment between the stars at its ends. */
  function Core(p: string): string {
    if Lead(p) + Trail(p) <= |p| then p[Lead(p)..|p| - Trail(p)] else ""
  }

  /** The last of the stars takes the slash behind the segment with it. */
  predicate EndsEven(p: string) {
    Trail(p) >= 2 && Trail(p) % 2 == 0
  }

  /** Segments of stars lead to one that stands for any number of directories. */
  predicate Slack(ps: seq<string>)
    requires ps != []
  {
    if |ps| == 1 then AllStars(ps[0]) && |ps[0]| >= 2
    else AllStars(ps[0]) && ps[0] != "" && (ps[0] == "**" || Slack(ps[1..]))
  }

  /** Two stars that stand beside other characters of a segment can leave the segment; they do no harm
      where only segments of stars, one of them `**`, stand between them and the next character.
      `floating` says that this is so on the left of `ps`. */
  predicate Steady(ps: seq<string>, floating: bool)
    requires ps != []
  {
    var p := ps[0];
    if |ps| == 1 then AllStars(p) || (NoDoubleStar(Core(p)) && (Lead(p) < 2 || floating))
    else if p == "**" then Steady(ps[1..], true)
    else if EndsEven(p) then false
    else if AllStars(p) then (|p| < 2 || floating || Slack(ps[1..])) && Steady(ps[1..], floating)
    else
      NoDoubleStar(Core(p)) && (Lead(p) < 2 || floating) && (Trail(p) < 2 || Slack(ps[1..])) && Steady(ps[1..], false)
  }

  // ---------------------------------------------------------------- compiling segments

  function Run(k: nat): (s: string)
    ensures |s| == k && AllStars(s)
  {
    if k == 0 then "" else "*" + Run(k - 1)
  }

  function RunPieces(k: nat): seq<Piece> {
    if k >= 2 then [AnyRun] + RunPieces(k - 2) else if k == 1 then [AnyName] else []
  }

  /** The pieces of a segment without two stars side by side. */
  function NamePieces(p: string): seq<Piece> {
    if p == "" then [] else [if p[0] == '*' then AnyName else Literal(p[0])] + NamePieces(p[1..])
  }

  lemma {:induction false} StarsAreARun(p: string)
    requires AllStars(p)
    ensures p == Run(|p|)
  {
    if p != "" {
      assert forall i | 0 <= i < |p[1..]| :: p[1..][i] == p[1 + i];
      StarsAreARun(p[1..]);
    }
  }

  lemma {:induction false} RunGrows(k: nat)
    ensures Run(k + 1) == Run(k) + "*"
  {
    if k > 0 {
      RunGrows(k - 1);
    }
  }

  lemma {:induction false} LeadSplits(p: string)
    ensures p == Run(Lead(p)) + p[Lead(p)..]
    ensures Lead(p) < |p| ==> p[Lead(p)] != '*'
  {
    if p != "" && p[0] == '*' {
      LeadSplits(p[1..]);
      assert p == "*" + p[1..];
      assert p[1..][Lead(p[1..])..] == p[Lead(p)..];
    }
  }

  lemma {:induction false} LeadAreStars(p: string, i: nat)
    requires i < Lead(p)
    ensures p[i] == '*'
  {
    if i > 0 {
      LeadAreStars(p[1..], i - 1);
    }
  }

  lemma {:induction false} TrailAreStars(p: string, i: nat)
    requires |p| - Trail(p) <= i < |p|
    ensures p[i] == '*'
  {
    if i < |p| - 1 {
      TrailAreStars(p[..|p| - 1], i);
    }
  }

  lemma {:induction false} TrailStops(p: string)
    requires Trail(p) < |p|
    ensures p[|p| - Trail(p) - 1] != '*'
  {
    if p[|p| - 1] == '*' {
      TrailStops(p[..|p| - 1]);
    }
  }

  lemma StarsCutOff(p: string, n: nat)
    requires n <= |p| && AllStars(p[n..])
    ensures p == p[..n] + Run(|p| - n)
  {
    StarsAreARun(p[n..]);
  }

  lemma TrailSplits(p: string)
    ensures p == p[..|p| - Trail(p)] + Run(Trail(p))
    ensures Trail(p) < |p| ==> p[|p| - Trail(p) - 1] != '*'
  {
    hide Trail, Run;
    var n := |p| - Trail(p);
    forall i | 0 <= i < |p[n..]| ensures p[n..][i] == '*' {
      TrailAreStars(p, n + i);
    }
    StarsCutOff(p, n);
    if n > 0 {
      TrailStops(p);
    }
  }

  lemma TwoStars(s: string)
    requires |s| == 2 && s[0] == '*' && s[1] == '*'
    ensures s == "**"
  {
  }

  lemma EndsInTwoStars(p: string)
    requires Trail(p) >= 2
    ensures p == p[..|p| - 2] + "**"
  {
    hide Trail;
    var n := |p| - 2;
    TrailAreStars(p, n);
    TrailAreStars(p, n + 1);
    TwoStars(p[n..]);
  }

  lemma {:induction false} TrailOf(front: string, k: nat)
    requires front == "" || front[|front| - 1] != '*'
    ensures Trail(front + Run(k)) == k
  {
    if k > 0 {
      RunGrows(k - 1);
      var p := front + Run(k);
      assert p[|p| - 1] == '*' && p[..|p| - 1] == front + Run(k - 1);
      TrailOf(front, k - 1);
    } else {
      assert front + Run(0) == front;
    }
  }

  lemma EndsAreApart(p: string)
    requires !AllStars(p)
    ensures Lead(p) < |p| - Trail(p)
  {
    var i :| 0 <= i < |p| && p[i] != '*';
    if i < Lead(p) {
      LeadAreStars(p, i);
    }
    if |p| - Trail(p) <= i {
      TrailAreStars(p, i);
    }
  }

  /** A segment with other characters is stars, its core, and stars. */
  lemma EndsAndCore(p: string)
    requires !AllStars(p)
    ensures p == Run(Lead(p)) + (Core(p) + Run(Trail(p)))
    ensures Core(p) != "" && Core(p)[0] != '*' && Core(p)[|Core(p)| - 1] != '*'
  {
    hide Lead, Trail, Run, AllStars;
    EndsAreApart(p);
    LeadSplits(p);
    TrailSplits(p);
    var l, t := Lead(p), |p| - Trail(p);
    assert p[t..] == Run(Trail(p));
    assert p[l..] == p[l..t] + p[t..];
  }

  lemma TrailOfStars(p: string)
    requires AllStars(p)
    ensures Trail(p) == |p|
  {
    StarsAreARun(p);
    TrailOf("", |p|);
    assert "" + p == p;
  }

  lemma TrailOfTail(p: string, n: nat)
    requires n <= |p|
    ensures AllStars(p) ==> Trail(p) == |p| && Trail(p[n..]) == |p| - n
    ensures !AllStars(p) && Trail(p) <= |p| - n ==> Trail(p[n..]) == Trail(p)
  {
    hide Trail, Run;
    if AllStars(p) {
      TrailOfStars(p);
      TrailOfStars(p[n..]);
    } else if Trail(p) <= |p| - n {
      TrailSplits(p);
      TrailOfCut(p[..|p| - Trail(p)], Trail(p), n);
    }
  }

  lemma TrailOfCut(front: string, k: nat, n: nat)
    requires n <= |front| && (front == "" || front[|front| - 1] != '*')
    ensures Trail((front + Run(k))[n..]) == k
  {
    assert (front + Run(k))[n..] == front[n..] + Run(k);
    TrailOf(front[n..], k);
  }

  lemma {:induction false} CompileRun(k: nat, q: string)
    requires q == "" || (q[0] != '*' && q[0] != '/')
    ensures CompileFrom(Run(k) + q) == RunPieces(k) + CompileFrom(q)
  {
    hide CompileFrom, Run;
    if k < 2 {
      CompileShortRun(k, q);
    } else {
      RunStarts(k, q);
      CompileRun(k - 2, q);
      CompileFirst(Run(k) + q);
      assert [AnyRun] + (RunPieces(k - 2) + CompileFrom(q)) == RunPieces(k) + CompileFrom(q);
    }
  }

  lemma CompileFirst(s: string)
    requires s != "" && FirstPiece(s).1 <= |s|
    ensures CompileFrom(s) == [FirstPiece(s).0] + CompileFrom(s[FirstPiece(s).1..])
  {
  }

  lemma CompileShortRun(k: nat, q: string)
    requires k < 2 && (q == "" || (q[0] != '*' && q[0] != '/'))
    ensures CompileFrom(Run(k) + q) == RunPieces(k) + CompileFrom(q)
  {
    var s := Run(k) + q;
    if k == 0 {
      assert s == q;
    } else {
      assert Run(1) == "*" && s[1..] == q;
    }
  }

  lemma RunStarts(k: nat, q: string)
    requires k >= 2 && (q == "" || (q[0] != '*' && q[0] != '/'))
    ensures FirstPiece(Run(k) + q) == (AnyRun, 2) && (Run(k) + q)[2..] == Run(k - 2) + q
  {
    var s := Run(k) + q;
    assert Run(k) == "*" + ("*" + Run(k - 2));
    assert s[2..] == Run(k - 2) + q;
    assert |s| > 2 ==> s[2] == s[2..][0];
  }

  lemma {:induction false} CompileName(p: string, tail: string)
    requires NoDoubleStar(p) && (tail == "" || tail[0] != '*' || p == "" || p[|p| - 1] != '*')
    ensures CompileFrom(p + tail) == NamePieces(p) + CompileFrom(tail)
  {
    var s := p + tail;
    if p == "" {
      assert s == tail;
    } else {
      assert s[0] == p[0] && s[1..] == p[1..] + tail;
      assert |s| > 1 ==> s[1] == if |p| > 1 then p[1] else tail[0];
      assert !Stars(s) by { assert |p| > 1 ==> !(p[0] == '*' && p[0 + 1] == '*'); }
      assert |p| > 1 ==> p[1..][|p| - 2] == p[|p| - 1];
      CompileName(p[1..], tail);
      Regroup([NamePieces(p)[0]], NamePieces(p[1..]), CompileFrom(tail));
    }
  }

  lemma CompileStars(p: string)
    requires AllStars(p)
    ensures CompileFrom(p) == RunPieces(|p|)
  {
    StarsAreARun(p);
    CompileRun(|p|, "");
    assert Run(|p|) + "" == p;
    NothingCompiles();
  }

  lemma NothingCompiles()
    ensures CompileFrom("") == []
  {
  }

  lemma CompileParts(p: string)
    requires '/' !in p && !AllStars(p) && NoDoubleStar(Core(p))
    ensures CompileFrom(p) == RunPieces(Lead(p)) + (NamePieces(Core(p)) + RunPieces(Trail(p)))
  {
    hide CompileFrom, NamePieces, RunPieces, NoDoubleStar, Run, Core, Lead, Trail, AllStars;
    var core, end := Core(p), Run(Trail(p));
    EndsAndCore(p);
    assert core[0] in core && (core + end)[0] == core[0];
    assert core[0] in p;
    CompileRun(Lead(p), core + end);
    CompileName(core, end);
    CompileStars(end);
  }

  lemma {:induction false} CompileSegment(p: string, rest: string)
    requires '/' !in p
    ensures CompileFrom(p + ("/" + rest))
         == if EndsEven(p) then CompileFrom(p[..|p| - 2]) + ([AnyDirectories] + CompileFrom(rest))
            else CompileFrom(p) + ([Literal('/')] + CompileFrom(rest))
    decreases |p|
  {
    hide CompileFrom, FirstPiece, EndsEven;
    if p == "" || p == "**" {
      CompileShortSegment(p, rest);
    } else {
      var s, n := p + ("/" + rest), FirstPiece(p).1;
      SomeTaken(p);
      SegmentStep(p, rest);
      CompileSegment(p[n..], rest);
      SegmentEnd(p);
      CompileFirst(s);
      if EndsEven(p) {
        CompileFirst(p[..|p| - 2]);
        Regroup([FirstPiece(p).0], CompileFrom(p[..|p| - 2][n..]), [AnyDirectories] + CompileFrom(rest));
      } else {
        CompileFirst(p);
        Regroup([FirstPiece(p).0], CompileFrom(p[n..]), [Literal('/')] + CompileFrom(rest));
      }
    }
  }

  lemma CompileShortSegment(p: string, rest: string)
    requires p == "" || p == "**"
    ensures CompileFrom(p + ("/" + rest))
         == if EndsEven(p) then CompileFrom(p[..|p| - 2]) + ([AnyDirectories] + CompileFrom(rest))
            else CompileFrom(p) + ([Literal('/')] + CompileFrom(rest))
  {
    hide EndsEven;
    TwoStarsTakeTheSlash();
    NothingCompiles();
    var s := p + ("/" + rest);
    if p == "" {
      NoneIsNotEven();
      assert s[1..] == rest && FirstPiece(s) == (Literal('/'), 1);
    } else {
      assert s[3..] == rest && FirstPiece(s) == (AnyDirectories, 3);
    }
    CompileFirst(s);
  }

  lemma NoneIsNotEven()
    ensures !EndsEven("")
  {
  }

  lemma TwoStarsTakeTheSlash()
    ensures EndsEven("**") && CompileFrom("**"[..0]) == []
  {
    TrailOfStars("**");
  }

  lemma SomeTaken(p: string)
    requires p != ""
    ensures FirstPiece(p).1 > 0
  {
  }

  lemma SegmentStep(p: string, rest: string)
    requires '/' !in p && p != "" && p != "**"
    ensures var s, n := p + ("/" + rest), FirstPiece(p).1;
      n <= |p| && FirstPiece(s) == FirstPiece(p) && s[n..] == p[n..] + ("/" + rest)
  {
    var s := p + ("/" + rest);
    assert s[0] == p[0] && (|p| > 1 ==> s[1] == p[1]) && (|p| > 2 ==> s[2] == p[2] && p[2] in p);
    assert |p| == 1 ==> s[1] == '/';
    if |p| == 2 {
      assert p == [p[0], p[1]];
    }
  }

  /** Taking off the first piece changes nothing at the end of a segment. */
  lemma SegmentEnd(p: string)
    requires '/' !in p && p != "" && p != "**"
    ensures var n := FirstPiece(p).1; n <= |p| && (EndsEven(p[n..]) <==> EndsEven(p))
    ensures EndsEven(p) ==> |p| > 2
    ensures EndsEven(p) ==>
            var n, front := FirstPiece(p).1, p[..|p| - 2];
            front != "" && |front| >= n && FirstPiece(front) == FirstPiece(p) && front[n..] == p[n..][..|p[n..]| - 2]
  {
    var n := FirstPiece(p).1;
    assert |p| > 2 ==> p[2] in p;
    TrailSplits(p);
    TrailOfTail(p, n);
    if |p| == 2 {
      assert p == [p[0], p[1]];
    }
    if EndsEven(p) {
      FrontStartsAlike(p);
    }
  }

  lemma EvenIsLong(p: string)
    requires EndsEven(p) && p != "**"
    ensures |p| > 2 && p[|p| - 1] == '*' && p[|p| - 2] == '*' && (|p| == 3 ==> p[0] != '*')
  {
    TrailAreStars(p, |p| - 1);
    TrailAreStars(p, |p| - 2);
    if |p| == 2 {
      TwoStars(p);
    } else if |p| == 3 {
      TrailStops(p);
    }
  }

  lemma FrontStartsAlike(p: string)
    requires '/' !in p && p != "" && p != "**" && EndsEven(p)
    ensures |p| > 2
    ensures var n, front := FirstPiece(p).1, p[..|p| - 2];
            front != "" && |front| >= n && FirstPiece(front) == FirstPiece(p) && front[n..] == p[n..][..|p[n..]| - 2]
  {
    hide EndsEven;
    EvenIsLong(p);
    var front := p[..|p| - 2];
    assert p[2] in p && front[0] == p[0];
    if p[0] == '*' {
      assert |front| > 1 && front[1] == p[1];
      assert |front| > 2 ==> front[2] == p[2];
    }
  }

  // ---------------------------------------------------------------- accepting piece by piece

  lemma NothingTakes(s: string)
    requires Accepts([], s) && '\n' !in s
    ensures s == ""
  {
  }

  lemma NothingLeft()
    ensures Accepts([], "")
  {
  }

  lemma StarTakes(p: string, name: string) returns (k: nat)
    requires p != "" && p[0] == '*' && NameMatches(p, name)
    ensures k <= |name| && NameMatches(p[1..], name[k..])
  {
    k :| 0 <= k <= |name| && NameMatches(p[1..], name[k..]);
  }

  lemma LiteralTakes(p: string, name: string)
    requires p != "" && p[0] != '*' && NameMatches(p, name)
    ensures name != "" && name[0] == p[0] && NameMatches(p[1..], name[1..])
  {
  }

  /** What the first piece of a segment takes of a name the segment matches. */
  lemma FirstTakes(p: string, name: string) returns (k: nat)
    requires p != "" && '/' !in p && '/' !in name && '\n' !in name && NameMatches(p, name)
    ensures k <= |name| && FirstPiece(p).1 <= |p| && Fits(FirstPiece(p).0, name[..k]) && NameMatches(p[FirstPiece(p).1..], name[k..])
  {
    hide NameMatches, FirstPiece, Fits;
    FirstOfSegment(p);
    if p[0] != '*' {
      LiteralTakes(p, name);
      k := 1;
      FitsOne(p[0], name);
    } else {
      k := StarTakes(p, name);
      if Stars(p) {
        var j := SecondStarTakes(p, name[k..]);
        assert name[k..][j..] == name[k + j..];
        k := k + j;
      }
      FitsName(name, k);
    }
  }

  lemma FitsOne(c: char, name: string)
    requires name != "" && name[0] == c
    ensures Fits(Literal(c), name[..1])
  {
    assert name[..1] == [c];
  }

  lemma FitsName(name: string, k: nat)
    requires '/' !in name && '\n' !in name && k <= |name|
    ensures Fits(AnyName, name[..k]) && Fits(AnyRun, name[..k])
  {
    assert forall c | c in name[..k] :: c in name;
  }

  lemma FirstOfSegment(p: string)
    requires p != "" && '/' !in p
    ensures FirstPiece(p) == if Stars(p) then (AnyRun, 2) else if p[0] == '*' then (AnyName, 1) else (Literal(p[0]), 1)
  {
    assert |p| > 2 ==> p[2] in p;
  }

  lemma SecondStarTakes(p: string, name: string) returns (j: nat)
    requires Stars(p) && NameMatches(p[1..], name)
    ensures j <= |name| && NameMatches(p[2..], name[j..])
  {
    j := StarTakes(p[1..], name);
    assert p[1..][1..] == p[2..];
  }

  /** A first piece that takes `part`, in front of what accepts the rest. */
  lemma FirstAccepts(p: string, more: seq<Piece>, part: string, s: string)
    requires p != "" && FirstPiece(p).1 <= |p| && Fits(FirstPiece(p).0, part)
    requires Accepts(CompileFrom(p[FirstPiece(p).1..]) + more, s)
    ensures Accepts(CompileFrom(p) + more, part + s)
  {
    hide Accepts, Fits;
    var (piece, n) := FirstPiece(p);
    PieceAccepts(piece, CompileFrom(p[n..]) + more, part, s);
    assert [piece] + (CompileFrom(p[n..]) + more) == CompileFrom(p) + more;
  }

  /** Whatever a segment matches as a name, its pieces accept. */
  lemma {:induction false} NameIsAccepted(p: string, name: string, more: seq<Piece>, t: string)
    requires '/' !in p && '/' !in name && '\n' !in name && NameMatches(p, name) && Accepts(more, t)
    ensures Accepts(CompileFrom(p) + more, name + t)
    decreases |p|
  {
    hide Accepts, NameMatches, CompileFrom, FirstPiece, Fits;
    if p == "" {
      MatchesNothing(name);
      NothingCompiles();
      assert [] + more == more && name + t == t;
    } else {
      var n := FirstPiece(p).1;
      var k := FirstTakes(p, name);
      SomeTaken(p);
      NameIsAccepted(p[n..], name[k..], more, t);
      FirstAccepts(p, more, name[..k], name[k..] + t);
      assert name[..k] + (name[k..] + t) == name + t;
    }
  }

  /** Two stars inside a segment can take any run of a line. */
  lemma {:induction false} RunIsAccepted(u: string, w: string, a: string, y: string, b: string, more: seq<Piece>, t: string)
    requires '/' !in u && '/' !in w && '/' !in a && '\n' !in a && '\n' !in y && '/' !in b && '\n' !in b
    requires NameMatches(u, a) && NameMatches(w, b) && Accepts(more, t)
    ensures Accepts(CompileFrom(u + ("**" + w)) + more, a + (y + (b + t)))
    decreases |u|
  {
    hide Accepts, NameMatches, CompileFrom;
    var p := u + ("**" + w);
    assert '/' !in p;
    assert |p| > 2 ==> p[2] in p;
    if u == "" {
      assert p[2..] == w && FirstPiece(p) == (AnyRun, 2);
      MatchesNothing(a);
      NameIsAccepted(w, b, more, t);
      FirstAccepts(p, more, y, b + t);
      assert a + (y + (b + t)) == y + (b + t);
    } else if u == "*" {
      assert p[2..] == "*" + w && FirstPiece(p) == (AnyRun, 2);
      StarTakesNothing(w, b);
      NameIsAccepted("*" + w, b, more, t);
      FirstAccepts(p, more, a + y, b + t);
      Regroup(a, y, b + t);
    } else {
      var n := FirstPiece(u).1;
      SameFirst(u, w);
      var k := FirstTakes(u, a);
      assert p[n..] == u[n..] + ("**" + w);
      RunIsAccepted(u[n..], w, a[k..], y, b, more, t);
      FirstAccepts(p, more, a[..k], a[k..] + (y + (b + t)));
      Regroup(a[..k], a[k..], y + (b + t));
      assert a[..k] + a[k..] == a;
    }
  }

  lemma SameFirst(u: string, w: string)
    requires '/' !in u && '/' !in w && u != "" && u != "*"
    ensures FirstPiece(u + ("**" + w)) == FirstPiece(u) && FirstPiece(u).1 <= |u|
  {
    var p := u + ("**" + w);
    assert p[0] == u[0] && (|u| > 1 ==> p[1] == u[1]);
    assert p[2] in p;
    assert |u| > 2 ==> u[2] in u;
    assert |u| == 1 ==> u == [u[0]];
  }

  lemma MatchesNothing(a: string)
    requires NameMatches("", a)
    ensures a == ""
  {
  }

  lemma StarTakesNothing(w: string, b: string)
    requires NameMatches(w, b)
    ensures NameMatches("*" + w, b)
  {
    assert ("*" + w)[1..] == w && b[0..] == b;
  }

  // ---------------------------------------------------------------- the glob is covered

  lemma StarMatches(p: string, name: string, k: nat)
    requires p != "" && p[0] == '*' && k <= |name| && NameMatches(p[1..], name[k..])
    ensures NameMatches(p, name)
  {
  }

  lemma LiteralMatches(p: string, name: string)
    requires p != "" && p[0] != '*' && name != "" && name[0] == p[0] && NameMatches(p[1..], name[1..])
    ensures NameMatches(p, name)
  {
  }

  lemma {:induction false} MatchesBoth(p: string, q: string, a: string, b: string)
    requires NameMatches(p, a) && NameMatches(q, b)
    ensures NameMatches(p + q, a + b)
    decreases |p|
  {
    hide NameMatches;
    if p == "" {
      MatchesNothing(a);
      assert p + q == q && a + b == b;
    } else {
      assert (p + q)[0] == p[0] && (p + q)[1..] == p[1..] + q;
      if p[0] == '*' {
        var k := StarTakes(p, a);
        MatchesBoth(p[1..], q, a[k..], b);
        assert (a + b)[k..] == a[k..] + b;
        StarMatches(p + q, a + b, k);
      } else {
        LiteralTakes(p, a);
        MatchesBoth(p[1..], q, a[1..], b);
        assert (a + b)[1..] == a[1..] + b && (a + b)[0] == a[0];
        LiteralMatches(p + q, a + b);
      }
    }
  }

  lemma {:induction false} MatchedApart(p: string, q: string, name: string) returns (k: nat)
    requires NameMatches(p + q, name)
    ensures k <= |name| && NameMatches(p, name[..k]) && NameMatches(q, name[k..])
    decreases |p|
  {
    hide NameMatches;
    if p == "" {
      k := 0;
      EmptyMatches();
      assert p + q == q && name[0..] == name && name[..0] == "";
    } else {
      assert (p + q)[0] == p[0] && (p + q)[1..] == p[1..] + q;
      if p[0] == '*' {
        var i := StarTakes(p + q, name);
        var j := MatchedApart(p[1..], q, name[i..]);
        k := i + j;
        assert name[..k][i..] == name[i..][..j] && name[i..][j..] == name[k..];
        StarMatches(p, name[..k], i);
      } else {
        LiteralTakes(p + q, name);
        var j := MatchedApart(p[1..], q, name[1..]);
        k := 1 + j;
        assert name[..k][1..] == name[1..][..j] && name[1..][j..] == name[k..];
        LiteralMatches(p, name[..k]);
      }
    }
  }

  lemma {:induction false} RunMatches(k: nat, s: string)
    requires k > 0 || s == ""
    ensures NameMatches(Run(k), s)
  {
    if k > 0 {
      assert Run(k)[1..] == Run(k - 1);
      if k > 1 {
        RunMatches(k - 1, s);
        assert s[0..] == s;
      } else {
        assert s[|s|..] == "";
      }
    }
  }

  /** The path behind its first segment. */
  function Behind(names: seq<string>): string
    requires names != []
  {
    if |names| == 1 then "" else "/" + Join(names[1..], '/')
  }

  lemma FirstAndBehind(names: seq<string>)
    requires names != []
    ensures Join(names, '/') == names[0] + Behind(names)
  {
  }

  lemma {:induction false} NoNewline(names: seq<string>)
    requires names != [] && PlainNames(names)
    ensures '\n' !in Join(names, '/')
  {
    assert PlainName(names[0]);
    if |names| > 1 {
      TailIsPlain(names, 1);
      NoNewline(names[1..]);
    }
  }

  lemma TailIsPlain(names: seq<string>, k: nat)
    requires PlainNames(names) && k <= |names|
    ensures PlainNames(names[k..])
  {
    forall i | 0 <= i < |names| - k ensures PlainName(names[k..][i]) {
      assert names[k..][i] == names[k + i];
    }
  }

  lemma TailIsSegments(ps: seq<string>)
    requires Segments(ps) && |ps| > 1
    ensures '/' !in ps[0] && Segments(ps[1..])
  {
  }

  /** Behind a slash of a joined path stand whole segments. */
  lemma {:induction false} SlashesCutSegments(names: seq<string>, at: nat) returns (k: nat)
    requires names != [] && PlainNames(names)
    requires at < |Join(names, '/')| && Join(names, '/')[at] == '/'
    ensures 0 < k < |names| && Join(names, '/')[at + 1..] == Join(names[k..], '/')
    ensures at == |names[0]| ==> k == 1
  {
    var s, name := Join(names, '/'), names[0];
    assert PlainName(name) && forall i | 0 <= i < |name| :: name[i] in name;
    k := 1;
    if |names| > 1 {
      var rest := Join(names[1..], '/');
      assert s == name + "/" + rest;
      if at > |name| {
        TailIsPlain(names, 1);
        var j := SlashesCutSegments(names[1..], at - |name| - 1);
        k := j + 1;
        assert names[1..][j..] == names[k..];
        assert s[at + 1..] == rest[at - |name|..];
      } else {
        assert at == |name| && s[at + 1..] == rest;
      }
    }
  }

  /** Before each later segment stands a run of directories. */
  lemma {:induction false} DirectoriesBefore(names: seq<string>, k: nat) returns (part: string)
    requires names != [] && PlainNames(names) && k < |names|
    ensures Join(names, '/') == part + Join(names[k..], '/') && Fits(AnyDirectories, part)
  {
    if k == 0 {
      part := "";
      assert names[0..] == names;
    } else {
      TailIsPlain(names, 1);
      assert PlainName(names[0]) && names[1..][k - 1..] == names[k..];
      var rest := DirectoriesBefore(names[1..], k - 1);
      part := names[0] + "/" + rest;
    }
  }

  /** Every rule covers at least what its segments match. */
  lemma {:induction false} GlobIsCovered(ps: seq<string>, names: seq<string>)
    requires Segments(ps) && names != [] && PlainNames(names) && GlobMatches(ps, names)
    ensures Accepts(CompileFrom(Join(ps, '/')), Join(names, '/'))
    decreases |ps|
  {
    hide Accepts, Fits, NameMatches, EndsEven;
    var p := ps[0];
    FirstAndBehind(names);
    assert PlainName(names[0]);
    if |ps| == 1 {
      LastIsCovered(p, names);
    } else {
      TailIsSegments(ps);
      var rest := Join(ps[1..], '/');
      assert Join(ps, '/') == p + ("/" + rest);
      CompileSegment(p, rest);
      if p == "**" {
        var k :| 0 <= k < |names| && GlobMatches(ps[1..], names[k..]);
        TailIsPlain(names, k);
        GlobIsCovered(ps[1..], names[k..]);
        var part := DirectoriesBefore(names, k);
        PieceAccepts(AnyDirectories, CompileFrom(rest), part, Join(names[k..], '/'));
        TwoStarsTakeTheSlash();
      } else {
        assert names[1..] != [];
        TailIsPlain(names, 1);
        GlobIsCovered(ps[1..], names[1..]);
        SegmentIsCovered(p, names[0], CompileFrom(rest), Join(names[1..], '/'));
      }
    }
  }

  lemma LastIsCovered(p: string, names: seq<string>)
    requires '/' !in p && names != [] && PlainNames(names) && GlobMatches([p], names)
    ensures Accepts(CompileFrom(p), Join(names, '/'))
  {
    hide Accepts, NameMatches, CompileFrom, StartMatches;
    var name := names[0];
    assert PlainName(name);
    FirstAndBehind(names);
    NoNewline(names);
    NothingLeft();
    assert CompileFrom(p) + [] == CompileFrom(p);
    if Open(p) {
      OpenIsCovered(p, name, Behind(names));
    } else {
      assert [p][1..] == [];
      LastNameOnly(names);
      NameIsAccepted(p, name, [], "");
      assert name + "" == Join(names, '/');
    }
  }

  lemma OpenIsCovered(p: string, name: string, tail: string)
    requires Open(p) && '/' !in p && StartMatches(Stem(p), name) && '/' !in name && '\n' !in name + tail
    ensures Accepts(CompileFrom(p) + [], name + tail)
  {
    hide Accepts, NameMatches, CompileFrom;
    var k :| 0 <= k <= |name| && NameMatches(Stem(p), name[..k]);
    assert p == Stem(p) + ("**" + "");
    var y := name[k..] + tail;
    assert name[..k] + y == name + tail && y + ("" + "") == y;
    EmptyMatches();
    NothingLeft();
    RunIsAccepted(Stem(p), "", name[..k], y, "", [], "");
  }

  lemma LastNameOnly(names: seq<string>)
    requires names != [] && GlobMatches([], names[1..])
    ensures Behind(names) == ""
  {
  }

  lemma EmptyMatches()
    ensures NameMatches("", "")
  {
  }

  lemma SegmentIsCovered(p: string, name: string, more: seq<Piece>, s: string)
    requires '/' !in p && PlainName(name) && NameMatches(p, name) && Accepts(more, s)
    ensures Accepts(if EndsEven(p) then CompileFrom(p[..|p| - 2]) + ([AnyDirectories] + more)
                    else CompileFrom(p) + ([Literal('/')] + more), name + ("/" + s))
  {
    hide Accepts, NameMatches;
    if EndsEven(p) {
      var front := p[..|p| - 2];
      EndsInTwoStars(p);
      assert p[0] in p && forall c | c in front :: c in p;
      var k := MatchedApart(front, "**", name);
      var part := name[k..] + "/";
      PieceAccepts(AnyDirectories, more, part, s);
      NameIsAccepted(front, name[..k], [AnyDirectories] + more, part + s);
      assert name[..k] + (part + s) == name + ("/" + s);
    } else {
      PieceAccepts(Literal('/'), more, "/", s);
      NameIsAccepted(p, name, [Literal('/')] + more, "/" + s);
    }
  }
}
