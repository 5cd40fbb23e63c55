/** Where a path rule and its reading by segments part: a path on which they do, for every rule that is
    not steady, and so the exact condition under which they agree. */
module PathGlobPartings {
  import opened Text
  import opened PathGlob
  import opened PathGlobReadings
  import opened PathGlobSteady

  // ---------------------------------------------------------------- counting

  /** How many characters are not `x`. */
  function Others(s: string, x: char): nat {
    if s == "" then 0 else (if s[0] == x then 0 else 1) + Others(s[1..], x)
  }

  function AllOthers(names: seq<string>, x: char): nat {
    if names == [] then 0 else Others(names[0], x) + AllOthers(names[1..], x)
  }

  lemma {:induction false} OthersAdd(a: string, b: string, x: char)
    ensures Others(a + b, x) == Others(a, x) + Others(b, x)
  {
    if a == "" {
      assert a + b == b;
    } else {
      assert (a + b)[1..] == a[1..] + b;
      OthersAdd(a[1..], b, x);
    }
  }

  lemma {:induction false} SomeOther(s: string, x: char, i: nat)
    requires i < |s| && s[i] != x
    ensures Others(s, x) > 0
  {
    if i > 0 {
      SomeOther(s[1..], x, i - 1);
    }
  }

  lemma {:induction false} NoOther(s: string, x: char)
    requires forall i | 0 <= i < |s| :: s[i] == x
    ensures Others(s, x) == 0
  {
    if s != "" {
      NoOther(s[1..], x);
    }
  }

  lemma {:induction false} FewerOthers(names: seq<string>, k: nat, x: char)
    requires k <= |names|
    ensures AllOthers(names[k..], x) <= AllOthers(names, x)
  {
    if k == 0 {
      assert names[0..] == names;
    } else {
      FewerOthers(names[1..], k - 1, x);
      assert names[1..][k - 1..] == names[k..];
    }
  }

  /** A character with which the stars of a pattern can be filled without confusion. */
  predicate Filler(x: char) {
    x != '*' && x != '/' && x != '\n'
  }

  predicate Fresh(ps: seq<string>, x: char) {
    Filler(x) && forall i | 0 <= i < |ps| :: x !in ps[i]
  }

  /** A name has the characters of the segment it matches. */
  lemma {:induction false} MatchNeeds(p: string, name: string, x: char)
    requires x !in p && NameMatches(p, name)
    ensures Others(p, '*') <= Others(name, x)
    decreases |p|
  {
    hide NameMatches;
    if p != "" {
      assert p[0] in p;
      if p[0] == '*' {
        var k := StarTakes(p, name);
        MatchNeeds(p[1..], name[k..], x);
        OthersAdd(name[..k], name[k..], x);
        assert name == name[..k] + name[k..];
      } else {
        LiteralTakes(p, name);
        MatchNeeds(p[1..], name[1..], x);
      }
    }
  }

  lemma OpenNeeds(p: string, name: string, x: char)
    requires Open(p) && x !in p && StartMatches(Stem(p), name)
    ensures Others(p, '*') <= Others(name, x)
  {
    hide NameMatches;
    var k :| 0 <= k <= |name| && NameMatches(Stem(p), name[..k]);
    MatchNeeds(Stem(p), name[..k], x);
    assert name == name[..k] + name[k..];
    OthersAdd(name[..k], name[k..], x);
    TwoStars(p[|p| - 2..]);
    assert p == Stem(p) + "**";
    OthersAdd(Stem(p), "**", '*');
    NoOther("**", '*');
  }

  /** The first name answers the first segment. */
  lemma FirstNeeds(ps: seq<string>, names: seq<string>, x: char)
    requires ps != [] && Fresh(ps, x) && (|ps| == 1 || ps[0] != "**") && GlobMatches(ps, names)
    ensures names != [] && Others(ps[0], '*') <= Others(names[0], x)
  {
    hide NameMatches, StartMatches;
    assert x !in ps[0];
    if |ps| == 1 && Open(ps[0]) {
      OpenNeeds(ps[0], names[0], x);
    } else {
      MatchNeeds(ps[0], names[0], x);
    }
  }

  /** The names a rule needs at least. */
  function Least(ps: seq<string>): nat
    requires ps != []
  {
    if |ps| == 1 then 1 else (if ps[0] == "**" then 0 else 1) + Least(ps[1..])
  }

  lemma {:induction false} GlobNeeds(ps: seq<string>, names: seq<string>, x: char)
    requires ps != [] && Fresh(ps, x) && GlobMatches(ps, names)
    ensures AllOthers(ps, '*') <= AllOthers(names, x) && Least(ps) <= |names|
    decreases |ps|
  {
    hide NameMatches, StartMatches, Others;
    if |ps| == 1 {
      FirstNeeds(ps, names, x);
      assert ps[1..] == [];
    } else if ps[0] == "**" {
      var k :| 0 <= k < |names| && GlobMatches(ps[1..], names[k..]);
      GlobNeeds(ps[1..], names[k..], x);
      FewerOthers(names, k, x);
      NoOther("**", '*');
    } else {
      FirstNeeds(ps, names, x);
      GlobNeeds(ps[1..], names[1..], x);
    }
  }

  // ---------------------------------------------------------------- filling the stars

  function Filled(p: string, x: char): (name: string)
    ensures |name| == |p|
  {
    if p == "" then "" else [if p[0] == '*' then x else p[0]] + Filled(p[1..], x)
  }

  lemma {:induction false} FilledHas(p: string, x: char, c: char)
    requires c in Filled(p, x)
    ensures c == x || c in p
  {
    if c != Filled(p, x)[0] {
      FilledHas(p[1..], x, c);
    }
  }

  lemma FilledIsPlain(p: string, x: char)
    requires Filler(x) && '/' !in p && '\n' !in p
    ensures '/' !in Filled(p, x) && '\n' !in Filled(p, x)
  {
    if '/' in Filled(p, x) {
      FilledHas(p, x, '/');
    }
    if '\n' in Filled(p, x) {
      FilledHas(p, x, '\n');
    }
  }

  lemma {:induction false} FilledMatches(p: string, x: char)
    ensures NameMatches(p, Filled(p, x))
  {
    hide NameMatches;
    if p == "" {
      EmptyMatches();
    } else {
      FilledMatches(p[1..], x);
      var name := Filled(p, x);
      assert name[1..] == Filled(p[1..], x);
      if p[0] == '*' {
        StarMatches(p, name, 1);
      } else {
        LiteralMatches(p, name);
      }
    }
  }

  lemma {:induction false} OthersOfFilled(p: string, x: char)
    requires x !in p && Filler(x)
    ensures Others(Filled(p, x), x) == Others(p, '*')
  {
    if p != "" {
      assert p[0] in p && Filled(p, x)[1..] == Filled(p[1..], x);
      OthersOfFilled(p[1..], x);
    }
  }

  lemma {:induction false} FilledStart(p: string, k: nat, x: char)
    requires k <= |p|
    ensures Filled(p, x)[..k] == Filled(p[..k], x)
  {
    if k > 0 {
      FilledStart(p[1..], k - 1, x);
      assert p[..k][1..] == p[1..][..k - 1];
      assert Filled(p, x)[..k] == [Filled(p, x)[0]] + Filled(p[1..], x)[..k - 1];
    }
  }

  /** The least path a rule's segments match, every star filled. */
  function Filling(ps: seq<string>, x: char): seq<string>
    requires ps != []
  {
    if |ps| == 1 then [Filled(ps[0], x)]
    else if ps[0] == "**" then Filling(ps[1..], x)
    else [Filled(ps[0], x)] + Filling(ps[1..], x)
  }

  predicate PlainRule(ps: seq<string>, x: char) {
    ps != [] && PlainNames(ps) && Fresh(ps, x)
  }

  lemma PlainTail(ps: seq<string>, x: char)
    requires PlainRule(ps, x) && |ps| > 1
    ensures PlainName(ps[0]) && x !in ps[0] && PlainRule(ps[1..], x) && Segments(ps)
  {
    assert forall i | 0 <= i < |ps| :: PlainName(ps[i]);
  }

  lemma PlainFirst(ps: seq<string>, x: char)
    requires PlainRule(ps, x)
    ensures PlainName(ps[0]) && x !in ps[0] && Filler(x) && Segments(ps)
    ensures Others(Filled(ps[0], x), x) == Others(ps[0], '*') && PlainName(Filled(ps[0], x))
  {
    assert forall i | 0 <= i < |ps| :: PlainName(ps[i]);
    FilledIsPlain(ps[0], x);
    OthersOfFilled(ps[0], x);
  }

  lemma {:induction false} FillingMatches(ps: seq<string>, x: char)
    requires PlainRule(ps, x)
    ensures PlainNames(Filling(ps, x)) && |Filling(ps, x)| == Least(ps) > 0
    ensures AllOthers(Filling(ps, x), x) == AllOthers(ps, '*')
    ensures GlobMatches(ps, Filling(ps, x))
    decreases |ps|
  {
    hide NameMatches, Others, Filled;
    var p, names := ps[0], Filling(ps, x);
    PlainFirst(ps, x);
    if |ps| == 1 {
      assert ps[1..] == [] && names[1..] == [];
      FilledMatches(p, x);
      if Open(p) {
        FilledStart(p, |p| - 2, x);
        FilledMatches(Stem(p), x);
      }
    } else {
      PlainTail(ps, x);
      FillingMatches(ps[1..], x);
      if p == "**" {
        NoOther("**", '*');
        assert names[0..] == names;
      } else {
        FilledMatches(p, x);
        assert names[1..] == Filling(ps[1..], x);
      }
    }
  }

  lemma FillingIsCovered(ps: seq<string>, x: char)
    requires PlainRule(ps, x)
    ensures Filling(ps, x) != [] && Accepts(CompileFrom(Join(ps, '/')), Join(Filling(ps, x), '/'))
  {
    hide GlobMatches, Accepts, CompileFrom;
    PlainFirst(ps, x);
    FillingMatches(ps, x);
    GlobIsCovered(ps, Filling(ps, x));
  }

  // ---------------------------------------------------------------- paths on which the readings part

  /** The segments match neither the path nor, where `floating`, an end of it. */
  ghost predicate Shuns(ps: seq<string>, names: seq<string>, floating: bool) {
    && !GlobMatches(ps, names)
    && (floating ==> forall k | 0 <= k <= |names| :: !GlobMatches(ps, names[k..]))
  }

  /** The rule covers the path and its segments shun it. */
  ghost predicate Parts(ps: seq<string>, names: seq<string>, floating: bool, x: char)
    requires ps != []
  {
    && names != [] && PlainNames(names) && AllOthers(names, x) <= AllOthers(ps, '*')
    && Accepts(CompileFrom(Join(ps, '/')), Join(names, '/'))
    && Shuns(ps, names, floating)
  }

  /** Behind the first name too few characters are left. */
  lemma TooFewLeft(ps: seq<string>, names: seq<string>, x: char)
    requires ps != [] && Fresh(ps, x) && names != [] && !GlobMatches(ps, names)
    requires AllOthers(names[1..], x) < AllOthers(ps, '*')
    ensures Shuns(ps, names, true)
  {
    hide GlobMatches;
    forall k | 0 <= k <= |names| ensures !GlobMatches(ps, names[k..]) {
      assert names[0..] == names;
      if k > 0 {
        FewerOthers(names[1..], k - 1, x);
        assert names[1..][k - 1..] == names[k..];
        if GlobMatches(ps, names[k..]) {
          GlobNeeds(ps, names[k..], x);
        }
      }
    }
  }

  /** The path on which two stars inside the first segment have taken a slash. */
  function Broken(ps: seq<string>, u: string, w: string, x: char): seq<string>
    requires ps != []
  {
    [Filled(u, x) + [x], [x] + Filled(w, x)] + (if |ps| == 1 then [] else Filling(ps[1..], x))
  }

  lemma BrokenIsPlain(ps: seq<string>, u: string, w: string, x: char)
    requires PlainRule(ps, x) && ps[0] == u + ("**" + w)
    ensures PlainNames(Broken(ps, u, w, x)) && Others(ps[0], '*') == Others(u, '*') + Others(w, '*')
    ensures Others(Filled(u, x) + [x], x) == Others(u, '*') && Others([x] + Filled(w, x), x) == Others(w, '*')
    ensures AllOthers(Broken(ps, u, w, x)[1..], x) == Others(w, '*') + AllOthers(ps[1..], '*')
  {
    hide Filled, Filling, Others;
    PlainFirst(ps, x);
    assert forall c | c in u || c in w :: c in ps[0];
    FilledIsPlain(u, x);
    FilledIsPlain(w, x);
    OthersOfFilled(u, x);
    OthersOfFilled(w, x);
    NoOther([x], x);
    NoOther("**", '*');
    OthersAdd(Filled(u, x), [x], x);
    OthersAdd([x], Filled(w, x), x);
    OthersAdd(u, "**" + w, '*');
    OthersAdd("**", w, '*');
    var names := Broken(ps, u, w, x);
    if |ps| > 1 {
      PlainTail(ps, x);
      FillingMatches(ps[1..], x);
      assert names[1..][1..] == Filling(ps[1..], x);
    } else {
      assert names[1..][1..] == [] && ps[1..] == [];
    }
  }

  lemma BrokenIsCovered(ps: seq<string>, u: string, w: string, x: char)
    requires PlainRule(ps, x) && ps[0] == u + ("**" + w) && (|ps| > 1 ==> !EndsEven(ps[0]))
    ensures Accepts(CompileFrom(Join(ps, '/')), Join(Broken(ps, u, w, x), '/'))
  {
    hide Filled, Filling, Others, Accepts, CompileFrom, EndsEven, NameMatches;
    var a, b := Filled(u, x) + [x], [x] + Filled(w, x);
    PlainFirst(ps, x);
    PlainSides(ps[0], u, w);
    if |ps| == 1 {
      NothingLeft();
      BreakAccepts(u, w, x, [], "");
      assert CompileFrom(ps[0]) + [] == CompileFrom(ps[0]);
      NothingBehind(b);
      JoinOfTwo(a, b);
      assert [a, b] + [] == [a, b];
    } else {
      PlainTail(ps, x);
      FillingIsCovered(ps[1..], x);
      BrokenGoesOn(ps, u, w, x, Filling(ps[1..], x));
    }
  }

  lemma PlainSides(p: string, u: string, w: string)
    requires PlainName(p) && p == u + ("**" + w)
    ensures '/' !in u && '\n' !in u && '/' !in w && '\n' !in w
  {
    assert forall c | c in u || c in w :: c in p;
  }

  lemma JoinOfTwo(a: string, b: string)
    ensures Join([a, b], '/') == a + ("/" + b)
  {
    assert [a, b][1..] == [b];
  }

  lemma BrokenGoesOn(ps: seq<string>, u: string, w: string, x: char, names: seq<string>)
    requires |ps| > 1 && ps[0] == u + ("**" + w) && !EndsEven(ps[0]) && Filler(x) && names != []
    requires '/' !in u && '\n' !in u && '/' !in w && '\n' !in w
    requires Accepts(CompileFrom(Join(ps[1..], '/')), Join(names, '/'))
    ensures Accepts(CompileFrom(Join(ps, '/')), Join([Filled(u, x) + [x], [x] + Filled(w, x)] + names, '/'))
  {
    hide Filled, Accepts, CompileFrom, EndsEven, NameMatches;
    var rest, t := Join(ps[1..], '/'), Join(names, '/');
    var a, b := Filled(u, x) + [x], [x] + Filled(w, x);
    PieceAccepts(Literal('/'), CompileFrom(rest), "/", t);
    BreakAccepts(u, w, x, [Literal('/')] + CompileFrom(rest), "/" + t);
    CompileSegment(ps[0], rest);
    assert Join(ps, '/') == ps[0] + ("/" + rest);
    JoinTwo(a, b, names);
  }

  lemma JoinTwo(a: string, b: string, names: seq<string>)
    requires names != []
    ensures Join([a, b] + names, '/') == a + ("/" + (b + ("/" + Join(names, '/'))))
  {
    assert ([a, b] + names)[1..] == [b] + names && ([b] + names)[1..] == names;
  }

  lemma BreakAccepts(u: string, w: string, x: char, more: seq<Piece>, t: string)
    requires Filler(x) && '/' !in u && '\n' !in u && '/' !in w && '\n' !in w && Accepts(more, t)
    ensures Accepts(CompileFrom(u + ("**" + w)) + more, Filled(u, x) + [x] + ("/" + ([x] + Filled(w, x) + t)))
  {
    hide Filled, Accepts, CompileFrom, NameMatches;
    FilledIsPlain(u, x);
    FilledIsPlain(w, x);
    FilledMatches(u, x);
    FilledMatches(w, x);
    var y := [x] + "/" + [x];
    RunIsAccepted(u, w, Filled(u, x), y, Filled(w, x), more, t);
    assert Filled(u, x) + (y + (Filled(w, x) + t)) == Filled(u, x) + [x] + ("/" + ([x] + Filled(w, x) + t));
  }

  /** Two stars between other characters. */
  lemma InnerStars(p: string) returns (u: string, w: string)
    requires !AllStars(p) && !NoDoubleStar(Core(p))
    ensures p == u + ("**" + w) && Others(u, '*') > 0 && Others(w, '*') > 0
  {
    hide AllStars, Lead, Trail, Run, Core, Others;
    EndsAndCore(p);
    var core, start, end := Core(p), Run(Lead(p)), Run(Trail(p));
    var a, b := StarsBetween(core);
    u, w := start + a, b + end;
    assert start + (a + ("**" + b) + end) == u + ("**" + w);
    OthersAdd(start, a, '*');
    OthersAdd(b, end, '*');
  }

  lemma StarsBetween(core: string) returns (a: string, b: string)
    requires core != "" && core[0] != '*' && core[|core| - 1] != '*' && !NoDoubleStar(core)
    ensures core == a + ("**" + b) && Others(a, '*') > 0 && Others(b, '*') > 0
  {
    var i :| 0 <= i < |core| - 1 && core[i] == '*' && core[i + 1] == '*';
    a, b := core[..i], core[i + 2..];
    TwoStars(core[i..i + 2]);
    assert core == a + (core[i..i + 2] + b);
    SomeOther(a, '*', 0);
    assert b[|b| - 1] == core[|core| - 1];
    SomeOther(b, '*', |b| - 1);
  }

  lemma InnerStarsPart(ps: seq<string>, floating: bool, x: char) returns (names: seq<string>)
    requires PlainRule(ps, x) && !AllStars(ps[0]) && !NoDoubleStar(Core(ps[0])) && (|ps| > 1 ==> !EndsEven(ps[0]))
    ensures Parts(ps, names, floating, x)
  {
    hide Accepts, CompileFrom, EndsEven, AllStars, Core, NoDoubleStar, Others, Filled, GlobMatches;
    var u, w := InnerStars(ps[0]);
    names := Broken(ps, u, w, x);
    BrokenIsPlain(ps, u, w, x);
    BrokenIsCovered(ps, u, w, x);
    NotOnlyStars(ps[0]);
    if GlobMatches(ps, names) {
      FirstNeeds(ps, names, x);
    }
    TooFewLeft(ps, names, x);
  }

  lemma NotOnlyStars(p: string)
    requires !AllStars(p)
    ensures p != "**" && Others(p, '*') > 0
  {
    var i :| 0 <= i < |p| && p[i] != '*';
    SomeOther(p, '*', i);
  }

  lemma LeadIsStars(p: string)
    requires Lead(p) >= 2
    ensures p == "" + ("**" + p[2..])
  {
    LeadAreStars(p, 0);
    LeadAreStars(p, 1);
    TwoStars(p[..2]);
    assert p == p[..2] + p[2..];
  }

  /** Two stars at the start of a segment, nothing loose in front of it. */
  lemma LeadingStarsPart(ps: seq<string>, x: char) returns (names: seq<string>)
    requires PlainRule(ps, x) && !AllStars(ps[0]) && Lead(ps[0]) >= 2 && (|ps| > 1 ==> !EndsEven(ps[0]))
    ensures Parts(ps, names, false, x)
  {
    hide Accepts, CompileFrom, EndsEven, AllStars, Others, Filled, GlobMatches, Lead;
    var w := ps[0][2..];
    LeadIsStars(ps[0]);
    names := Broken(ps, "", w, x);
    BrokenIsPlain(ps, "", w, x);
    BrokenIsCovered(ps, "", w, x);
    NotOnlyStars(ps[0]);
    NoOther("", '*');
    if GlobMatches(ps, names) {
      FirstNeeds(ps, names, x);
    }
  }

  /** A name without the pattern's characters cannot be put in front of its least path, unless its
      stars are slack. */
  lemma {:induction false} NoSlackNoShift(ps: seq<string>, name: string, x: char)
    requires PlainRule(ps, x) && !Slack(ps) && Others(name, x) == 0
    ensures !GlobMatches(ps, [name] + Filling(ps, x))
    decreases |ps|
  {
    hide NameMatches, StartMatches, Others, Filled, AllStars;
    var p, names := ps[0], [name] + Filling(ps, x);
    PlainFirst(ps, x);
    assert names[1..] == Filling(ps, x);
    if !AllStars(p) {
      NotOnlyStars(p);
      if GlobMatches(ps, names) {
        FirstNeeds(ps, names, x);
      }
    } else if |ps| == 1 {
      assert ps[1..] == [] && |names[1..]| == 1;
    } else {
      PlainTail(ps, x);
      OthersOfStars(p);
      NoSlackNoShift(ps[1..], Filled(p, x), x);
    }
  }

  lemma OthersOfStars(p: string)
    requires AllStars(p)
    ensures Others(p, '*') == 0
  {
    NoOther(p, '*');
  }

  /** Two stars at the end of a segment, or alone in it, with no slack behind. */
  lemma TrailingStarsPart(ps: seq<string>, u: string, w: string, floating: bool, x: char) returns (names: seq<string>)
    requires PlainRule(ps, x) && |ps| > 1 && !EndsEven(ps[0]) && ps[0] != "**" && !Slack(ps[1..])
    requires ps[0] == u + ("**" + w) && Others(w, '*') == 0 && (floating ==> Others(u, '*') > 0)
    ensures Parts(ps, names, floating, x)
  {
    hide Accepts, CompileFrom, EndsEven, AllStars, Others, Filled, GlobMatches, Slack;
    names := Broken(ps, u, w, x);
    BrokenIsPlain(ps, u, w, x);
    BrokenIsCovered(ps, u, w, x);
    PlainTail(ps, x);
    NoSlackNoShift(ps[1..], [x] + Filled(w, x), x);
    assert names[1..] == [[x] + Filled(w, x)] + Filling(ps[1..], x);
    if GlobMatches(ps, names) {
      GlobGoesOn(ps, names);
    }
    if floating {
      TooFewLeft(ps, names, x);
    }
  }

  lemma GlobGoesOn(ps: seq<string>, names: seq<string>)
    requires |ps| > 1 && ps[0] != "**" && GlobMatches(ps, names)
    ensures names != [] && GlobMatches(ps[1..], names[1..])
  {
  }

  /** Two stars that take the slash behind their segment: the path has a name too few. */
  lemma EvenStarsPart(ps: seq<string>, floating: bool, x: char) returns (names: seq<string>)
    requires PlainRule(ps, x) && |ps| > 1 && EndsEven(ps[0]) && ps[0] != "**"
    ensures Parts(ps, names, floating, x)
  {
    hide Accepts, CompileFrom, Others, Filled, GlobMatches, Filling, Trail;
    var p := ps[0];
    PlainFirst(ps, x);
    PlainTail(ps, x);
    FillingMatches(ps[1..], x);
    FillingIsCovered(ps[1..], x);
    EndsInTwoStars(p);
    var front, fill := p[..|p| - 2], Filling(ps[1..], x);
    assert forall c | c in front :: c in p;
    names := [Filled(front, x) + fill[0]] + fill[1..];
    EvenStarsAccept(p, front, ps[1..], fill, x);
    assert Join(ps, '/') == p + ("/" + Join(ps[1..], '/'));
    FilledIsPlain(front, x);
    OthersOfFilled(front, x);
    OthersAdd(front, "**", '*');
    OthersAdd(Filled(front, x), fill[0], x);
    assert names[1..] == fill[1..];
    forall k | 0 <= k <= |names| ensures !GlobMatches(ps, names[k..]) {
      if GlobMatches(ps, names[k..]) {
        GlobNeeds(ps, names[k..], x);
      }
    }
    assert names[0..] == names;
  }

  lemma EvenStarsAccept(p: string, front: string, rest: seq<string>, names: seq<string>, x: char)
    requires EndsEven(p) && p == front + "**" && '/' !in p && '\n' !in p && Filler(x) && rest != [] && names != []
    requires Accepts(CompileFrom(Join(rest, '/')), Join(names, '/'))
    ensures Accepts(CompileFrom(p + ("/" + Join(rest, '/'))), Join([Filled(front, x) + names[0]] + names[1..], '/'))
  {
    hide Accepts, CompileFrom, EndsEven, NameMatches;
    var more, s := CompileFrom(Join(rest, '/')), Join(names, '/');
    CompileSegment(p, Join(rest, '/'));
    assert p[..|p| - 2] == front;
    assert forall c | c in front :: c in p;
    PieceAccepts(AnyDirectories, more, "", s);
    assert "" + s == s;
    FilledIsPlain(front, x);
    FilledMatches(front, x);
    NameIsAccepted(front, Filled(front, x), [AnyDirectories] + more, s);
    JoinFirst(Filled(front, x), names, '/');
  }

  /** In front of a parting path a filled segment goes unharmed. */
  lemma FilledInFront(ps: seq<string>, ns: seq<string>, rest: bool, x: char)
    requires PlainRule(ps, x) && |ps| > 1 && !EndsEven(ps[0]) && Parts(ps[1..], ns, rest, x)
    ensures var names := [Filled(ps[0], x)] + ns;
      && PlainNames(names) && AllOthers(names, x) <= AllOthers(ps, '*')
      && Accepts(CompileFrom(Join(ps, '/')), Join(names, '/')) && !GlobMatches(ps, names)
  {
    hide Accepts, CompileFrom, Others, Filled, EndsEven, NameMatches;
    var p, names := ps[0], [Filled(ps[0], x)] + ns;
    PlainFirst(ps, x);
    FilledMatches(p, x);
    SegmentIsCovered(p, Filled(p, x), CompileFrom(Join(ps[1..], '/')), Join(ns, '/'));
    CompileSegment(p, Join(ps[1..], '/'));
    assert names[1..] == ns;
    assert Join(ps, '/') == p + ("/" + Join(ps[1..], '/'));
    assert Join(names, '/') == Filled(p, x) + ("/" + Join(ns, '/'));
    TwoStarsTakeTheSlash();
    if GlobMatches(ps, names) {
      GlobGoesOn(ps, names);
    }
  }

  lemma SegmentInFront(ps: seq<string>, ns: seq<string>, floating: bool, x: char) returns (names: seq<string>)
    requires PlainRule(ps, x) && |ps| > 1 && !EndsEven(ps[0]) && !AllStars(ps[0]) && Parts(ps[1..], ns, false, x)
    ensures Parts(ps, names, floating, x)
  {
    hide Accepts, CompileFrom, Others, Filled, EndsEven, GlobMatches, AllStars, PlainNames;
    names := [Filled(ps[0], x)] + ns;
    FilledInFront(ps, ns, false, x);
    NotOnlyStars(ps[0]);
    assert names[1..] == ns;
    TooFewLeft(ps, names, x);
  }

  lemma StarsInFront(ps: seq<string>, ns: seq<string>, floating: bool, x: char) returns (names: seq<string>)
    requires PlainRule(ps, x) && |ps| > 1 && !EndsEven(ps[0]) && Parts(ps[1..], ns, floating, x)
    ensures Parts(ps, names, floating, x)
  {
    hide Accepts, CompileFrom, Others, Filled, EndsEven, GlobMatches, PlainNames;
    names := [Filled(ps[0], x)] + ns;
    FilledInFront(ps, ns, floating, x);
    TwoStarsTakeTheSlash();
    assert names[0..] == names;
    forall k | 0 < k <= |names| && floating ensures !GlobMatches(ps, names[k..]) {
      assert names[k..] == ns[k - 1..];
      assert k < |names| ==> names[k..][1..] == ns[k..];
      if GlobMatches(ps, names[k..]) {
        GlobGoesOn(ps, names[k..]);
      }
    }
  }

  lemma DirectoriesInFront(ps: seq<string>, ns: seq<string>, floating: bool, x: char)
    requires PlainRule(ps, x) && |ps| > 1 && ps[0] == "**" && Parts(ps[1..], ns, true, x)
    ensures Parts(ps, ns, floating, x)
  {
    hide Accepts, CompileFrom, Others;
    var rest := Join(ps[1..], '/');
    assert Join(ps, '/') == "**" + ("/" + rest);
    CompileSegment("**", rest);
    TwoStarsTakeTheSlash();
    PieceAccepts(AnyDirectories, CompileFrom(rest), "", Join(ns, '/'));
    assert "" + Join(ns, '/') == Join(ns, '/');
    assert [] + ([AnyDirectories] + CompileFrom(rest)) == [AnyDirectories] + CompileFrom(rest);
    NoOther("**", '*');
    forall k | 0 <= k <= |ns| ensures !GlobMatches(ps, ns[k..]) {
      assert forall j | 0 <= j < |ns[k..]| :: ns[k..][j..] == ns[k + j..];
    }
    assert ns[0..] == ns;
  }

  /** A rule that is not steady covers a path that its segments do not match. */
  lemma {:induction false} Parting(ps: seq<string>, floating: bool, x: char) returns (names: seq<string>)
    requires PlainRule(ps, x) && !Steady(ps, floating)
    ensures Parts(ps, names, floating, x)
    decreases |ps|
  {
    hide Parts, EndsEven, AllStars, Core, NoDoubleStar, Lead, Trail, Slack;
    var p := ps[0];
    if |ps| == 1 {
      if !NoDoubleStar(Core(p)) {
        names := InnerStarsPart(ps, floating, x);
      } else {
        names := LeadingStarsPart(ps, x);
      }
    } else {
      PlainTail(ps, x);
      if p == "**" {
        names := Parting(ps[1..], true, x);
        DirectoriesInFront(ps, names, floating, x);
      } else if EndsEven(p) {
        names := EvenStarsPart(ps, floating, x);
      } else if AllStars(p) {
        if Steady(ps[1..], floating) {
          StarsSplit(p);
          names := TrailingStarsPart(ps, "", p[2..], floating, x);
        } else {
          var ns := Parting(ps[1..], floating, x);
          names := StarsInFront(ps, ns, floating, x);
        }
      } else if !NoDoubleStar(Core(p)) {
        names := InnerStarsPart(ps, floating, x);
      } else if Lead(p) >= 2 && !floating {
        names := LeadingStarsPart(ps, x);
      } else if Trail(p) >= 2 && !Slack(ps[1..]) {
        TrailSplit(p);
        names := TrailingStarsPart(ps, p[..|p| - 2], "", floating, x);
      } else {
        var ns := Parting(ps[1..], false, x);
        names := SegmentInFront(ps, ns, floating, x);
      }
    }
  }

  lemma StarsSplit(p: string)
    requires AllStars(p) && |p| >= 2
    ensures p == "" + ("**" + p[2..]) && Others(p[2..], '*') == 0
  {
    TwoStars(p[..2]);
    assert p == p[..2] + p[2..];
    NoOther(p[2..], '*');
  }

  lemma TrailSplit(p: string)
    requires Trail(p) >= 2 && !AllStars(p)
    ensures |p| >= 2 && p == p[..|p| - 2] + ("**" + "") && Others(p[..|p| - 2], '*') > 0 && Others("", '*') == 0
  {
    hide Others, Trail, AllStars;
    EndsInTwoStars(p);
    NotOnlyStars(p);
    OthersAdd(p[..|p| - 2], "**", '*');
    NoOther("**", '*');
    NoOther("", '*');
    NothingBehind("**");
  }

  lemma NothingBehind(s: string)
    ensures s + "" == s
  {
  }

  // ---------------------------------------------------------------- the exact condition

  /** A path of whole segments on one line. */
  predicate PlainPath(path: string) {
    '\n' !in path && "" !in Split(path, '/')
  }

  /** The compiled rule covers a plain path exactly when its segments match. */
  ghost predicate ReadsBySegments(pattern: string) {
    forall path | PlainPath(path) :: Accepts(CompileFrom(pattern), path) <==> GlobMatches(Split(pattern, '/'), Split(path, '/'))
  }

  lemma PathIsPlain(path: string)
    requires PlainPath(path)
    ensures PlainNames(Split(path, '/')) && Join(Split(path, '/'), '/') == path
  {
    PartsAreClean(path, '/');
    JoinOfSplit(path, '/');
    var names := Split(path, '/');
    forall i | 0 <= i < |names| ensures PlainName(names[i]) {
      assert names[i] in names;
    }
  }

  lemma PatternIsCut(pattern: string)
    ensures Segments(Split(pattern, '/')) && Join(Split(pattern, '/'), '/') == pattern
  {
    PartsAreClean(pattern, '/');
    JoinOfSplit(pattern, '/');
    var ps := Split(pattern, '/');
    assert forall i | 0 <= i < |ps| :: ps[i] in ps;
  }

  /** Every rule covers the plain paths its segments match. */
  lemma CoversItsGlob(pattern: string, path: string)
    requires PlainPath(path) && GlobMatches(Split(pattern, '/'), Split(path, '/'))
    ensures Accepts(CompileFrom(pattern), path)
  {
    hide GlobMatches, Accepts, CompileFrom;
    PatternIsCut(pattern);
    PathIsPlain(path);
    GlobIsCovered(Split(pattern, '/'), Split(path, '/'));
  }

  /** A steady rule covers no others. */
  lemma CompiledMeansGlob(pattern: string)
    requires Steady(Split(pattern, '/'), false)
    ensures ReadsBySegments(pattern)
  {
    hide GlobMatches, Accepts, CompileFrom, Steady;
    PatternIsCut(pattern);
    forall path | PlainPath(path)
      ensures Accepts(CompileFrom(pattern), path) <==> GlobMatches(Split(pattern, '/'), Split(path, '/'))
    {
      var names := Split(path, '/');
      PathIsPlain(path);
      if GlobMatches(Split(pattern, '/'), names) {
        CoversItsGlob(pattern, path);
      }
      if Accepts(CompileFrom(pattern), path) {
        var k := Narrow(Split(pattern, '/'), names, false);
        assert names[0..] == names;
      }
    }
  }

  /** A rule of whole segments reads by segments exactly when it is steady; `x` is any character it does
      not hold. */
  lemma ReadsBySegmentsExactly(pattern: string, x: char)
    requires PlainPath(pattern) && Filler(x) && x !in pattern
    ensures ReadsBySegments(pattern) <==> Steady(Split(pattern, '/'), false)
  {
    hide GlobMatches, Accepts, CompileFrom, Steady;
    var ps := Split(pattern, '/');
    if Steady(ps, false) {
      CompiledMeansGlob(pattern);
    } else {
      PathIsPlain(pattern);
      PartsAreClean(pattern, '/');
      assert forall i | 0 <= i < |ps| :: ps[i] in ps;
      var names := Parting(ps, false, x);
      PartingPath(pattern, names);
    }
  }

  lemma PartingPath(pattern: string, names: seq<string>)
    requires names != [] && PlainNames(names)
    requires Accepts(CompileFrom(pattern), Join(names, '/')) && !GlobMatches(Split(pattern, '/'), names)
    ensures !ReadsBySegments(pattern)
  {
    hide GlobMatches, Accepts, CompileFrom;
    assert forall n | n in names :: PlainName(n);
    SplitOfJoin(names, '/');
    NoNewline(names);
    assert PlainPath(Join(names, '/'));
  }

  // ---------------------------------------------------------------- rules that are steady, and rules that are not

  /** Two stars stand only as a segment of their own, or at the end of the rule. */
  predicate WellPlaced(ps: seq<string>) {
    forall i | 0 <= i < |ps| ::
      ps[i] == "**" || NoDoubleStar(ps[i]) || (i == |ps| - 1 && Open(ps[i]) && NoDoubleStar(ps[i][..|ps[i]| - 1]))
  }

  lemma SingleStars(p: string)
    requires NoDoubleStar(p)
    ensures Lead(p) < 2 && Trail(p) < 2 && NoDoubleStar(Core(p)) && (AllStars(p) ==> |p| < 2)
  {
    if Lead(p) >= 2 {
      LeadAreStars(p, 0);
      LeadAreStars(p, 0 + 1);
    }
    if Trail(p) >= 2 {
      TrailAreStars(p, |p| - 2);
      TrailAreStars(p, |p| - 2 + 1);
    }
    CoreIsInside(p, |p|);
    assert p[..|p|] == p;
  }

  lemma PieceHasNoDoubleStar(s: string, i: nat, j: nat)
    requires NoDoubleStar(s)
    ensures i <= j <= |s| ==> NoDoubleStar(s[i..j])
  {
    if i <= j <= |s| {
      forall l | 0 <= l < j - i - 1 ensures !(s[i..j][l] == '*' && s[i..j][l + 1] == '*') {
        assert !(s[i + l] == '*' && s[i + l + 1] == '*');
      }
    }
  }

  lemma CoreIsInside(p: string, n: nat)
    requires n <= |p| && |p| - Trail(p) <= n && NoDoubleStar(p[..n])
    ensures NoDoubleStar(Core(p))
  {
    hide Lead, Trail;
    PieceHasNoDoubleStar(p[..n], Lead(p), |p| - Trail(p));
    assert Lead(p) + Trail(p) <= |p| ==> Core(p) == p[..n][Lead(p)..|p| - Trail(p)];
  }

  lemma OpenEnd(p: string)
    requires Open(p) && NoDoubleStar(p[..|p| - 1])
    ensures AllStars(p) || (Lead(p) < 2 && NoDoubleStar(Core(p)))
  {
    var n := |p| - 1;
    if Trail(p) == 0 {
      TrailStops(p);
    }
    CoreIsInside(p, n);
    assert |p| > 2 ==> p[..n][0] == p[0] && p[..n][0 + 1] == p[1];
    if Lead(p) >= 2 {
      LeadAreStars(p, 0);
      LeadAreStars(p, 1);
      if |p| == 2 {
        TwoStars(p);
      }
    }
  }

  /** In particular rules whose two stars are well placed are steady. */
  lemma {:induction false} WellPlacedIsSteady(ps: seq<string>, floating: bool)
    requires ps != [] && WellPlaced(ps)
    ensures Steady(ps, floating)
    decreases |ps|
  {
    hide Lead, Trail, Core, NoDoubleStar;
    var p := ps[0];
    if p == "**" {
      assert AllStars(p);
    } else if NoDoubleStar(p) {
      SingleStars(p);
    } else {
      OpenEnd(p);
    }
    if |ps| > 1 {
      forall i | 0 <= i < |ps| - 1
        ensures var q := ps[1..][i]; q == "**" || NoDoubleStar(q) || (i == |ps| - 2 && Open(q) && NoDoubleStar(q[..|q| - 1]))
      {
        assert ps[1..][i] == ps[i + 1];
      }
      WellPlacedIsSteady(ps[1..], true);
      WellPlacedIsSteady(ps[1..], floating);
      WellPlacedIsSteady(ps[1..], false);
    }
  }

  /** `***`, and `**` before `**b` or before `***`, are steady without being well placed; `a**` before
      `b`, and `**b` before `c`, are not steady. */
  lemma SteadyAndNot()
    ensures Steady(["***"], false) && Steady(["**", "**b"], false) && Steady(["**", "***", "b"], false)
    ensures !Steady(["a**", "b"], false) && !Steady(["**b", "c"], false)
  {
    assert AllStars("***") && AllStars("**");
    EndsOfExamples();
    assert ["**", "**b"][1..] == ["**b"] && ["**", "***", "b"][1..] == ["***", "b"] && ["***", "b"][1..] == ["b"];
  }

  lemma EndsOfExamples()
    ensures !AllStars("**b") && Lead("**b") == 2 && Trail("**b") == 0 && NoDoubleStar(Core("**b"))
    ensures Trail("***") == 3 && !AllStars("b") && Lead("b") == 0 && Trail("b") == 0 && NoDoubleStar(Core("b"))
    ensures !AllStars("a**") && Trail("a**") == 2
  {
    LeadOfExample();
    assert "a**"[0] == 'a' && "**b"[2] == 'b' && "b"[0] == 'b';
    TrailOfStars("***");
    TrailOf("a", 2);
    assert "a" + Run(2) == "a**" by { StarsAreARun("**"); }
    assert |Core("**b")| == 1;
  }

  lemma LeadOfExample()
    ensures Lead("**b") == 2
  {
    assert "**b"[1..] == "*b" && "*b"[1..] == "b";
  }
}
