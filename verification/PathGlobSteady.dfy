/** A steady path rule covers no more than its segments match. */
module PathGlobSteady {
  import opened Text
  import opened PathGlob
  import opened PathGlobReadings

  lemma {:induction false} RunTakes(k: nat, more: seq<Piece>, s: string) returns (i: nat)
    requires Accepts(RunPieces(k) + more, s)
    ensures i <= |s| && Accepts(more, s[i..]) && (k < 2 ==> '/' !in s[..i]) && (k == 0 ==> i == 0)
  {
    hide Accepts;
    if k == 0 {
      i := 0;
      assert [] + more == more && s[0..] == s;
    } else if k == 1 {
      assert RunPieces(1) == [AnyName];
      i := PieceTakes(AnyName, more, s);
    } else {
      assert RunPieces(k) + more == [AnyRun] + (RunPieces(k - 2) + more);
      var a := PieceTakes(AnyRun, RunPieces(k - 2) + more, s);
      var b := RunTakes(k - 2, more, s[a..]);
      i := a + b;
      assert s[a..][b..] == s[i..];
    }
  }

  /** The pieces of a segment without two stars side by side stay in a name. */
  lemma {:induction false} NameTakes(q: string, more: seq<Piece>, name: string, tail: string) returns (k: nat)
    requires '/' !in q && '/' !in name && (tail == "" || tail[0] == '/')
    requires Accepts(NamePieces(q) + more, name + tail)
    ensures k <= |name| && NameMatches(q, name[..k]) && Accepts(more, name[k..] + tail)
    decreases |q|
  {
    hide Accepts, NameMatches;
    var s := name + tail;
    if q == "" {
      k := 0;
      EmptyMatches();
      assert [] + more == more && name[..0] == "" && name[0..] == name;
    } else {
      assert q[0] in q;
      var piece := if q[0] == '*' then AnyName else Literal(q[0]);
      assert NamePieces(q) + more == [piece] + (NamePieces(q[1..]) + more);
      var i := PieceTakes(piece, NamePieces(q[1..]) + more, s);
      StaysInName(piece, name, tail, i);
      assert s[i..] == name[i..] + tail;
      var j := NameTakes(q[1..], more, name[i..], tail);
      k := i + j;
      assert name[i..][..j] == name[..k][i..] && name[i..][j..] == name[k..];
      if q[0] == '*' {
        StarMatches(q, name[..k], i);
      } else {
        assert s[..1][0] == name[0];
        LiteralMatches(q, name[..k]);
      }
    }
  }

  lemma StaysInName(piece: Piece, name: string, tail: string, i: nat)
    requires '/' !in name && (tail == "" || tail[0] == '/') && i <= |name + tail| && Fits(piece, (name + tail)[..i])
    requires piece.AnyName? || (piece.Literal? && piece.c != '/')
    ensures i <= |name| && (piece.Literal? ==> i == 1)
  {
    if tail != "" {
      assert (name + tail)[|name|] == '/';
      if piece.AnyName? {
        NoSlashBefore(name + tail, i, |name|);
      }
    }
    if piece.Literal? {
      assert (name + tail)[0] == (name + tail)[..i][0];
    }
  }

  lemma NoSlashBefore(s: string, i: nat, at: nat)
    requires i <= |s| && at < |s| && s[at] == '/' && '/' !in s[..i]
    ensures i <= at
  {
    assert forall l | 0 <= l < i :: s[l] in s[..i];
  }

  /** A rest of a path is a rest of one of its segments with what stands behind. */
  lemma {:induction false} RestOfAPath(names: seq<string>, i: nat) returns (j: nat, c: nat)
    requires names != [] && i <= |Join(names, '/')|
    ensures j < |names| && c <= |names[j]| && Join(names, '/')[i..] == names[j][c..] + Behind(names[j..])
    ensures i <= |names[0]| ==> j == 0 && c == i
  {
    FirstAndBehind(names);
    if i <= |names[0]| {
      j, c := 0, i;
      assert names[0..] == names;
    } else {
      var rest := names[1..];
      j, c := RestOfAPath(rest, i - |names[0]| - 1);
      assert Join(names, '/')[i..] == Join(rest, '/')[i - |names[0]| - 1..];
      assert rest[j..] == names[j + 1..];
      j := j + 1;
    }
  }

  /** The pieces of a segment up to its last characters, and where they end. */
  lemma SegmentLands(p: string, more: seq<Piece>, names: seq<string>, floating: bool) returns (j: nat, k: nat)
    requires '/' !in p && !AllStars(p) && (Lead(p) < 2 || floating) && names != [] && PlainNames(names)
    requires Accepts(RunPieces(Lead(p)) + (NamePieces(Core(p)) + more), Join(names, '/'))
    ensures j < |names| && k <= |names[j]| && (!floating ==> j == 0)
    ensures NameMatches(Run(Lead(p)) + Core(p), names[j][..k]) && Accepts(more, names[j][k..] + Behind(names[j..]))
  {
    hide Accepts, NameMatches, NamePieces, RunPieces, Run, Core, Lead, Trail, AllStars;
    var s := Join(names, '/');
    var i := RunTakes(Lead(p), NamePieces(Core(p)) + more, s);
    if Lead(p) < 2 {
      BeforeTheSlash(names, i);
    }
    var c;
    j, c := RestOfAPath(names, i);
    assert PlainName(names[j]);
    EndsAndCore(p);
    var l := NameTakes(Core(p), more, names[j][c..], Behind(names[j..]));
    k := c + l;
    assert names[j][c..][l..] == names[j][k..] && names[j][..c] + names[j][c..][..l] == names[j][..k];
    assert names[j][..0] == "";
    RunMatches(Lead(p), names[j][..c]);
    MatchesBoth(Run(Lead(p)), Core(p), names[j][..c], names[j][c..][..l]);
  }

  lemma BeforeTheSlash(names: seq<string>, i: nat)
    requires names != [] && i <= |Join(names, '/')| && '/' !in Join(names, '/')[..i]
    ensures i <= |names[0]|
  {
    FirstAndBehind(names);
    if |names| > 1 {
      NoSlashBefore(Join(names, '/'), i, |names[0]|);
    }
  }

  /** Behind a segment the path goes on with a later one, with the next unless two stars stand at its
      end. */
  lemma NextSegment(t: nat, more: seq<Piece>, names: seq<string>, k: nat) returns (m: nat)
    requires names != [] && PlainNames(names) && k <= |names[0]|
    requires Accepts(RunPieces(t) + ([Literal('/')] + more), names[0][k..] + Behind(names))
    ensures 0 < m < |names| && Accepts(more, Join(names[m..], '/'))
    ensures (t < 2 ==> m == 1) && (t == 0 ==> k == |names[0]|)
  {
    hide Accepts, RunPieces;
    var s, name := names[0][k..] + Behind(names), names[0];
    var i := RunTakes(t, [Literal('/')] + more, s);
    var one := PieceTakes(Literal('/'), more, s[i..]);
    assert s[i..][..one][0] == s[i];
    FirstAndBehind(names);
    var whole := Join(names, '/');
    assert whole[k..] == s && whole[k + i] == s[i];
    m := SlashesCutSegments(names, k + i);
    assert s[i..][one..] == whole[k + i + 1..];
    assert PlainName(name);
    if t < 2 {
      SlashEndsName(name[k..], Behind(names), i);
    }
  }

  lemma SlashEndsName(name: string, tail: string, i: nat)
    requires '/' !in name && (tail == "" || tail[0] == '/') && i < |name + tail| && (name + tail)[i] == '/'
    requires '/' !in (name + tail)[..i]
    ensures i == |name|
  {
    var s := name + tail;
    assert s[|name|..] == tail;
    assert forall l | 0 <= l < |name| :: s[l] in name;
    assert forall l | 0 <= l < i :: s[l] in s[..i];
  }

  lemma LastSegment(t: nat, names: seq<string>, k: nat)
    requires names != [] && PlainNames(names) && k <= |names[0]| && t < 2
    requires Accepts(RunPieces(t), names[0][k..] + Behind(names))
    ensures |names| == 1 && (t == 0 ==> k == |names[0]|)
  {
    hide Accepts, RunPieces;
    var s := names[0][k..] + Behind(names);
    assert RunPieces(t) + [] == RunPieces(t);
    FirstAndBehind(names);
    NoNewline(names);
    assert s == Join(names, '/')[k..];
    var i := RunTakes(t, [], s);
    NothingTakes(s[i..]);
    assert s[..i] == s;
    SlashBehind(names);
  }

  lemma SlashBehind(names: seq<string>)
    requires names != []
    ensures |names| > 1 ==> '/' in Behind(names)
  {
    assert |names| > 1 ==> Behind(names)[0] == '/';
  }

  lemma WholeSegmentMatches(p: string, name: string, k: nat)
    requires !AllStars(p) && k <= |name| && NameMatches(Run(Lead(p)) + Core(p), name[..k])
    requires Trail(p) == 0 ==> k == |name|
    ensures NameMatches(p, name)
    ensures Trail(p) >= 2 ==> Open(p) && NameMatches(Stem(p), name[..k])
    ensures Trail(p) < 2 ==> !Open(p)
  {
    hide NameMatches, Run, Core, Lead, Trail, AllStars;
    EndsAndCore(p);
    var front, t := Run(Lead(p)) + Core(p), Trail(p);
    Regroup(Run(Lead(p)), Core(p), Run(t));
    RunMatches(t, name[k..]);
    MatchesBoth(front, Run(t), name[..k], name[k..]);
    assert name[..k] + name[k..] == name;
    if t >= 2 {
      RunOfTwoMore(t - 2);
      assert Stem(p) == front + Run(t - 2);
      RunMatches(t - 2, "");
      MatchesBoth(front, Run(t - 2), name[..k], "");
      assert name[..k] + "" == name[..k];
    } else {
      ShortRun(t);
      assert front[|front| - 1] != '*';
    }
  }

  lemma RunOfTwoMore(k: nat)
    ensures Run(k + 2) == Run(k) + "**"
  {
    RunGrows(k);
    RunGrows(k + 1);
  }

  lemma ShortRun(t: nat)
    requires t < 2
    ensures Run(t) == if t == 0 then "" else "*"
  {
  }

  /** Segments of stars that lead to `**` match however many directories stand in front. */
  lemma {:induction false} SlackShifts(ps: seq<string>, names: seq<string>, j: nat)
    requires ps != [] && Slack(ps) && j < |names| && GlobMatches(ps, names[j..])
    ensures GlobMatches(ps, names)
    decreases |ps|
  {
    hide NameMatches, Run;
    var p := ps[0];
    if |ps| == 1 {
      StarsMatch(p, names[0]);
    } else if p == "**" {
      var k :| 0 <= k < |names[j..]| && GlobMatches(ps[1..], names[j..][k..]);
      assert names[j..][k..] == names[j + k..];
    } else {
      StarsMatch(p, names[0]);
      assert names[j..][1..] == names[1..][j..];
      assert ps[1..] != [] && names[1..][j..] != [];
      SlackShifts(ps[1..], names[1..], j);
    }
  }

  lemma StarsMatch(p: string, name: string)
    requires AllStars(p) && p != ""
    ensures NameMatches(p, name)
    ensures |p| >= 2 ==> Open(p) && StartMatches(Stem(p), name)
  {
    StarsAreARun(p);
    RunMatches(|p|, name);
    if |p| >= 2 {
      StarsAreARun(Stem(p));
      RunMatches(|p| - 2, name[..0]);
    }
  }

  lemma DirectoriesTake(more: seq<Piece>, names: seq<string>) returns (j: nat)
    requires names != [] && PlainNames(names) && Accepts([AnyDirectories] + more, Join(names, '/'))
    ensures j < |names| && Accepts(more, Join(names[j..], '/'))
  {
    hide Accepts;
    var s := Join(names, '/');
    var k := PieceTakes(AnyDirectories, more, s);
    if k == 0 {
      j := 0;
      assert s[0..] == s && names[0..] == names;
    } else {
      assert s[..k][k - 1] == s[k - 1];
      j := SlashesCutSegments(names, k - 1);
    }
  }

  lemma StarsTake(p: string, more: seq<Piece>, names: seq<string>) returns (m: nat)
    requires names != [] && PlainNames(names)
    requires Accepts(RunPieces(|p|) + ([Literal('/')] + more), Join(names, '/'))
    ensures 0 < m < |names| && Accepts(more, Join(names[m..], '/')) && (|p| < 2 ==> m == 1) && p != ""
  {
    hide Accepts, RunPieces;
    FirstAndBehind(names);
    assert PlainName(names[0]) && names[0][0..] == names[0];
    m := NextSegment(|p|, more, names, 0);
  }

  lemma GlobDirectories(ps: seq<string>, names: seq<string>, k: nat)
    requires |ps| > 1 && ps[0] == "**" && k < |names| && GlobMatches(ps[1..], names[k..])
    ensures GlobMatches(ps, names)
  {
  }

  /** A segment of stars, where the rest matches behind the next name, or may be shifted there. */
  lemma GlobStars(ps: seq<string>, names: seq<string>, m: nat)
    requires |ps| > 1 && AllStars(ps[0]) && ps[0] != "**" && ps[0] != "" && 0 < m < |names| && GlobMatches(ps[1..], names[m..])
    requires m == 1 || Slack(ps[1..])
    ensures GlobMatches(ps, names)
  {
    hide NameMatches;
    StarsMatch(ps[0], names[0]);
    assert names[1..][m - 1..] == names[m..];
    if m > 1 {
      SlackShifts(ps[1..], names[1..], m - 1);
    }
  }

  lemma GlobSegment(ps: seq<string>, names: seq<string>, m: nat)
    requires |ps| > 1 && ps[0] != "**" && 0 < m < |names| && NameMatches(ps[0], names[0]) && GlobMatches(ps[1..], names[m..])
    requires m == 1 || Slack(ps[1..])
    ensures GlobMatches(ps, names)
  {
    hide NameMatches;
    assert names[1..][m - 1..] == names[m..];
    if m > 1 {
      SlackShifts(ps[1..], names[1..], m - 1);
    }
  }

  lemma SegmentGoesOn(p: string, more: seq<Piece>, names: seq<string>, floating: bool) returns (j: nat, c: nat, m: nat)
    requires '/' !in p && !AllStars(p) && (Lead(p) < 2 || floating) && names != [] && PlainNames(names)
    requires Accepts(RunPieces(Lead(p)) + (NamePieces(Core(p)) + RunPieces(Trail(p))) + ([Literal('/')] + more), Join(names, '/'))
    ensures j < |names| && 0 < m < |names[j..]| && (!floating ==> j == 0) && (Trail(p) < 2 ==> m == 1)
    ensures NameMatches(p, names[j]) && Accepts(more, Join(names[j..][m..], '/'))
  {
    hide Accepts, NameMatches, Core, Lead, Trail, AllStars, RunPieces, Run, NamePieces;
    var a, b, t, slash := RunPieces(Lead(p)), NamePieces(Core(p)), RunPieces(Trail(p)), [Literal('/')] + more;
    assert a + (b + t) + slash == a + (b + (t + slash));
    j, c := SegmentLands(p, t + slash, names, floating);
    TailIsPlain(names, j);
    m := NextSegment(Trail(p), more, names[j..], c);
    WholeSegmentMatches(p, names[j], c);
  }

  lemma NarrowLast(p: string, names: seq<string>, floating: bool) returns (k: nat)
    requires '/' !in p && Steady([p], floating) && names != [] && PlainNames(names)
    requires Accepts(CompileFrom(p), Join(names, '/'))
    ensures k < |names| && GlobMatches([p], names[k..]) && (!floating ==> k == 0)
  {
    hide Accepts, CompileFrom, NameMatches, Core, Lead, Trail, AllStars, RunPieces, Run, NamePieces;
    FirstAndBehind(names);
    assert names[0..] == names && names[0][0..] == names[0];
    if AllStars(p) {
      k := 0;
      CompileStars(p);
      if |p| < 2 {
        LastSegment(|p|, names, 0);
      }
      LastStars(p, names);
    } else {
      CompileParts(p);
      var c;
      k, c := SegmentLands(p, RunPieces(Trail(p)), names, floating);
      TailIsPlain(names, k);
      if Trail(p) < 2 {
        LastSegment(Trail(p), names[k..], c);
      }
      WholeSegmentMatches(p, names[k], c);
      LastMatches(p, names[k..], c);
    }
  }

  lemma LastStars(p: string, names: seq<string>)
    requires AllStars(p) && names != [] && PlainNames(names) && (|p| < 2 ==> |names| == 1 && (p == "" ==> names[0] == ""))
    ensures GlobMatches([p], names)
  {
    hide NameMatches;
    assert PlainName(names[0]) && [p][1..] == [] && (|p| < 2 ==> names[1..] == []);
    StarsMatch(p, names[0]);
  }

  lemma LastMatches(p: string, names: seq<string>, k: nat)
    requires names != [] && k <= |names[0]|
    requires Open(p) ==> NameMatches(Stem(p), names[0][..k])
    requires !Open(p) ==> |names| == 1 && NameMatches(p, names[0])
    ensures GlobMatches([p], names)
  {
    hide NameMatches;
    assert [p][1..] == [] && (|names| == 1 ==> names[1..] == []);
  }

  /** A steady rule covers a path only where its segments match the path, or, behind `**`, an end of it. */
  lemma {:induction false} Narrow(ps: seq<string>, names: seq<string>, floating: bool) returns (k: nat)
    requires Segments(ps) && Steady(ps, floating) && names != [] && PlainNames(names)
    requires Accepts(CompileFrom(Join(ps, '/')), Join(names, '/'))
    ensures k < |names| && GlobMatches(ps, names[k..]) && (!floating ==> k == 0)
    decreases |ps|
  {
    hide Accepts, CompileFrom, NameMatches, GlobMatches, EndsEven, Core, Lead, Trail, Slack, AllStars;
    var p := ps[0];
    if |ps| == 1 {
      assert ps == [p];
      k := NarrowLast(p, names, floating);
    } else {
      TailIsSegments(ps);
      var rest := Join(ps[1..], '/');
      assert Join(ps, '/') == p + ("/" + rest);
      CompileSegment(p, rest);
      var more := CompileFrom(rest);
      if p == "**" {
        TwoStarsTakeTheSlash();
        assert [] + ([AnyDirectories] + more) == [AnyDirectories] + more;
        var j := DirectoriesTake(more, names);
        TailIsPlain(names, j);
        var i := Narrow(ps[1..], names[j..], true);
        assert names[j..][i..] == names[j + i..];
        GlobDirectories(ps, names, j + i);
        k := 0;
      } else if AllStars(p) {
        CompileStars(p);
        var m := StarsTake(p, more, names);
        TailIsPlain(names, m);
        var i := Narrow(ps[1..], names[m..], floating);
        assert names[m..][i..] == names[m + i..];
        if floating {
          k := m + i - 1;
          GlobStars(ps, names[k..], 1);
          assert names[k..][1..] == names[m + i..];
        } else {
          GlobStars(ps, names, m);
          k := 0;
        }
      } else {
        CompileParts(p);
        var j, c, m := SegmentGoesOn(p, more, names, floating);
        TailIsPlain(names, j);
        TailIsPlain(names[j..], m);
        var i := Narrow(ps[1..], names[j..][m..], false);
        assert names[j..][m..][0..] == names[j..][m..];
        GlobSegment(ps, names[j..], m);
        k := j;
      }
      assert names[0..] == names;
    }
  }
}
