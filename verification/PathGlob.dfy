/** The path rules of the review routing: a glob is compiled, character by character, to a regular
    expression, and matched against a repository-relative path. */
module PathGlob {
  import opened Text

  /** The pieces of regular expression the compiler emits: `(?:.*\/)?`, `.*`, `[^\/]*` and an escaped
      character. */
  datatype Piece = AnyDirectories | AnyRun | AnyName | Literal(c: char)

  predicate Stars(s: string) {
    |s| >= 2 && s[0] == '*' && s[1] == '*'
  }

  predicate StarsSlash(s: string) {
    Stars(s) && |s| >= 3 && s[2] == '/'
  }

  /** The piece a pattern starts with, and how many of its characters it stands for. */
  function FirstPiece(s: string): (Piece, nat)
    requires s != ""
  {
    if StarsSlash(s) then (AnyDirectories, 3)
    else if Stars(s) then (AnyRun, 2)
    else if s[0] == '*' then (AnyName, 1)
    else (Literal(s[0]), 1)
  }

  function CompileFrom(pattern: string): seq<Piece> {
    if pattern == "" then []
    else [FirstPiece(pattern).0] + CompileFrom(pattern[FirstPiece(pattern).1..])
  }

  method Compile(pattern: string) returns (pieces: seq<Piece>)
    ensures pieces == CompileFrom(pattern)
  {
    pieces := [];
    var index := 0;
    while index < |pattern|
      invariant index <= |pattern|
      invariant pieces + CompileFrom(pattern[index..]) == CompileFrom(pattern)
    {
      ghost var rest, before := pattern[index..], pieces;
      if StarsSlash(pattern[index..]) {
        pieces := pieces + [AnyDirectories];
        index := index + 3;
      } else if Stars(pattern[index..]) {
        pieces := pieces + [AnyRun];
        index := index + 2;
      } else if pattern[index] == '*' {
        pieces := pieces + [AnyName];
        index := index + 1;
      } else {
        pieces := pieces + [Literal(pattern[index])];
        index := index + 1;
      }
      assert rest[FirstPiece(rest).1..] == pattern[index..];
      Regroup(before, [FirstPiece(rest).0], CompileFrom(pattern[index..]));
    }
  }

  // ---------------------------------------------------------------- what the expression accepts

  /** The pieces, anchored at both ends, match `s`. A dot matches no newline, and the end anchor
      also holds before a final newline. */
  ghost predicate Accepts(pieces: seq<Piece>, s: string) {
    if pieces == [] then s == "" || s == "\n"
    else match pieces[0]
         case Literal(c) => s != "" && s[0] == c && Accepts(pieces[1..], s[1..])
         case AnyName => exists k | 0 <= k <= |s| :: '/' !in s[..k] && Accepts(pieces[1..], s[k..])
         case AnyRun => exists k | 0 <= k <= |s| :: '\n' !in s[..k] && Accepts(pieces[1..], s[k..])
         case AnyDirectories =>
           || Accepts(pieces[1..], s)
           || exists k | 0 <= k < |s| :: '\n' !in s[..k] && s[k] == '/' && Accepts(pieces[1..], s[k + 1..])
  }

  // ---------------------------------------------------------------- the meaning of every pattern

  // What each piece stands for: a character for itself, `*` for a run that stays in a directory, `**`
  // for any run of a line, and `**/` for nothing or a run of a line that ends in a slash.
  predicate Fits(piece: Piece, part: string) {
    match piece
    case Literal(c) => part == [c]
    case AnyName => '/' !in part
    case AnyRun => '\n' !in part
    case AnyDirectories => part == "" || ('\n' !in part && part[|part| - 1] == '/')
  }

  function Concat(parts: seq<string>): string {
    if parts == [] then "" else parts[0] + Concat(parts[1..])
  }

  ghost predicate Divides(parts: seq<string>, pieces: seq<Piece>, s: string) {
    |parts| == |pieces| && Concat(parts) == s && forall i | 0 <= i < |parts| :: Fits(pieces[i], parts[i])
  }

  /** The string divides into one part for each piece. */
  ghost predicate Reads(pieces: seq<Piece>, s: string) {
    exists parts :: Divides(parts, pieces, s)
  }

  lemma NothingReads(s: string)
    ensures Reads([], s) <==> s == ""
  {
    if s == "" {
      assert Divides([], [], s);
    }
  }

  lemma ReadsStep(pieces: seq<Piece>, s: string)
    requires pieces != []
    ensures Reads(pieces, s) <==> exists k | 0 <= k <= |s| :: Fits(pieces[0], s[..k]) && Reads(pieces[1..], s[k..])
  {
    hide Fits;
    if parts :| Divides(parts, pieces, s) {
      var k := |parts[0]|;
      assert s[..k] == parts[0] && s[k..] == Concat(parts[1..]);
      assert Divides(parts[1..], pieces[1..], s[k..]);
    }
    if k :| 0 <= k <= |s| && Fits(pieces[0], s[..k]) && Reads(pieces[1..], s[k..]) {
      var rest :| Divides(rest, pieces[1..], s[k..]);
      var parts := [s[..k]] + rest;
      assert parts[1..] == rest && Concat(parts) == s;
      assert Divides(parts, pieces, s);
    }
  }

  /** The first piece takes a part of the string it fits, the others accept the rest. */
  lemma AcceptsStep(pieces: seq<Piece>, s: string)
    requires pieces != []
    ensures Accepts(pieces, s) <==> exists k | 0 <= k <= |s| :: Fits(pieces[0], s[..k]) && Accepts(pieces[1..], s[k..])
  {
    var more := pieces[1..];
    match pieces[0] {
      case Literal(c) =>
        if s != "" && s[0] == c {
          assert s[..1] == [c];
        }
        forall k | 0 <= k <= |s| && Fits(pieces[0], s[..k]) ensures k == 1 && s[0] == c {
          assert |s[..k]| == 1 && s[..k][0] == s[0];
        }
      case AnyDirectories => DirectoriesStep(pieces, s);
      case _ =>
    }
  }

  lemma DirectoriesStep(pieces: seq<Piece>, s: string)
    requires pieces != [] && pieces[0].AnyDirectories?
    ensures Accepts(pieces, s) <==> exists k | 0 <= k <= |s| :: Fits(AnyDirectories, s[..k]) && Accepts(pieces[1..], s[k..])
  {
    var more := pieces[1..];
    DirectoriesUnfold(pieces, s);
    hide Accepts;
    assert s[..0] == "" && s[0..] == s && Fits(AnyDirectories, s[..0]);
    forall k | 0 <= k < |s| ensures Fits(AnyDirectories, s[..k + 1]) <==> '\n' !in s[..k] && s[k] == '/' {
      assert s[..k + 1] == s[..k] + [s[k]];
    }
    hide Fits;
    if k :| 0 <= k < |s| && '\n' !in s[..k] && s[k] == '/' && Accepts(more, s[k + 1..]) {
      assert Fits(AnyDirectories, s[..k + 1]);
    }
    if k :| 0 <= k <= |s| && Fits(AnyDirectories, s[..k]) && Accepts(more, s[k..]) {
      if k > 0 {
        assert Fits(AnyDirectories, s[..k - 1 + 1]) && s[k - 1 + 1..] == s[k..];
      }
    }
  }

  lemma DirectoriesUnfold(pieces: seq<Piece>, s: string)
    requires pieces != [] && pieces[0].AnyDirectories?
    ensures Accepts(pieces, s) <==>
            || Accepts(pieces[1..], s)
            || exists k | 0 <= k < |s| :: '\n' !in s[..k] && s[k] == '/' && Accepts(pieces[1..], s[k + 1..])
  {
  }

  lemma PieceAccepts(piece: Piece, more: seq<Piece>, part: string, s: string)
    requires Fits(piece, part) && Accepts(more, s)
    ensures Accepts([piece] + more, part + s)
  {
    var pieces, whole := [piece] + more, part + s;
    assert pieces[1..] == more && whole[..|part|] == part && whole[|part|..] == s;
    AcceptsStep(pieces, whole);
  }

  lemma PieceTakes(piece: Piece, more: seq<Piece>, s: string) returns (k: nat)
    requires Accepts([piece] + more, s)
    ensures k <= |s| && Fits(piece, s[..k]) && Accepts(more, s[k..])
  {
    var pieces := [piece] + more;
    assert pieces[1..] == more;
    AcceptsStep(pieces, s);
    k :| 0 <= k <= |s| && Fits(piece, s[..k]) && Accepts(more, s[k..]);
  }

  /** Without the newline at its end. */
  function Chopped(s: string): string
    requires s != ""
  {
    s[..|s| - 1]
  }

  predicate EndsLine(s: string) {
    s != "" && s[|s| - 1] == '\n'
  }

  lemma FitsBeforeTheEnd(pieces: seq<Piece>, s: string, k: nat)
    requires k < |s| && EndsLine(s)
    ensures Chopped(s)[..k] == s[..k] && Chopped(s)[k..] == Chopped(s[k..]) && EndsLine(s[k..])
  {
  }

  /** What a pattern means, whatever it holds: its pieces divide the path among them, where a newline
      at the very end of the path may be left over. */
  lemma {:induction false} AcceptsMeansReads(pieces: seq<Piece>, s: string)
    ensures Accepts(pieces, s) <==> Reads(pieces, s) || (EndsLine(s) && Reads(pieces, Chopped(s)))
    decreases |pieces|
  {
    hide Accepts, Reads, Fits;
    if pieces == [] {
      NothingReads(s);
      if s != "" { NothingReads(Chopped(s)); }
      NothingAccepts(s);
    } else {
      AcceptsStep(pieces, s);
      ReadsStep(pieces, s);
      forall k | 0 <= k <= |s|
        ensures Accepts(pieces[1..], s[k..]) <==> Reads(pieces[1..], s[k..]) || (EndsLine(s[k..]) && Reads(pieces[1..], Chopped(s[k..])))
      {
        AcceptsMeansReads(pieces[1..], s[k..]);
      }
      if EndsLine(s) {
        ReadsStep(pieces, Chopped(s));
        forall k | 0 <= k < |s|
          ensures Chopped(s)[..k] == s[..k] && Chopped(s)[k..] == Chopped(s[k..]) && EndsLine(s[k..])
        {
          FitsBeforeTheEnd(pieces, s, k);
        }
      }
    }
  }

  lemma NothingAccepts(s: string)
    ensures Accepts([], s) <==> s == "" || (EndsLine(s) && Chopped(s) == "")
  {
  }

  // ---------------------------------------------------------------- how a pattern is cut

  function Spelling(piece: Piece): string {
    match piece
    case Literal(c) => [c]
    case AnyName => "*"
    case AnyRun => "**"
    case AnyDirectories => "**/"
  }

  function Spell(pieces: seq<Piece>): string {
    if pieces == [] then "" else Spelling(pieces[0]) + Spell(pieces[1..])
  }

  /** Each piece is the longest that can stand where it stands. */
  ghost predicate Longest(pieces: seq<Piece>) {
    forall i | 0 <= i < |pieces| ::
      && pieces[i] != Literal('*')
      && (pieces[i].AnyName? && i + 1 < |pieces| ==> pieces[i + 1].Literal?)
      && (pieces[i].AnyRun? && i + 1 < |pieces| ==> pieces[i + 1] != Literal('/'))
  }

  /** A pattern is cut into the longest pieces from its start, and into nothing else. */
  lemma {:induction false} CutLongestFirst(pattern: string, pieces: seq<Piece>)
    ensures pieces == CompileFrom(pattern) <==> Spell(pieces) == pattern && Longest(pieces)
    decreases |pattern|
  {
    if pieces == CompileFrom(pattern) {
      CompiledIsLongest(pattern);
    }
    if Spell(pieces) == pattern && Longest(pieces) {
      LongestIsCompiled(pieces);
    }
  }

  lemma {:induction false} CompiledIsLongest(pattern: string)
    ensures Spell(CompileFrom(pattern)) == pattern && Longest(CompileFrom(pattern))
    decreases |pattern|
  {
    if pattern != "" {
      var (piece, n) := FirstPiece(pattern);
      var rest := CompileFrom(pattern[n..]);
      CompiledIsLongest(pattern[n..]);
      assert Spelling(piece) == pattern[..n] && pattern == pattern[..n] + pattern[n..];
      var all := CompileFrom(pattern);
      assert all[0] == piece && all[1..] == rest;
      forall i | 0 <= i < |all|
        ensures all[i] != Literal('*')
        ensures all[i].AnyName? && i + 1 < |all| ==> all[i + 1].Literal?
        ensures all[i].AnyRun? && i + 1 < |all| ==> all[i + 1] != Literal('/')
      {
        if i > 0 {
          assert all[i] == rest[i - 1];
          assert i + 1 < |all| ==> all[i + 1] == rest[i - 1 + 1];
        } else if |all| > 1 {
          assert all[1] == FirstPiece(pattern[n..]).0;
        }
      }
    }
  }

  lemma {:induction false} LongestIsCompiled(pieces: seq<Piece>)
    requires Longest(pieces)
    ensures CompileFrom(Spell(pieces)) == pieces
    decreases |pieces|
  {
    if pieces != [] {
      var rest := pieces[1..];
      forall i | 0 <= i < |rest|
        ensures rest[i] != Literal('*')
        ensures rest[i].AnyName? && i + 1 < |rest| ==> rest[i + 1].Literal?
        ensures rest[i].AnyRun? && i + 1 < |rest| ==> rest[i + 1] != Literal('/')
      {
        assert rest[i] == pieces[i + 1];
        assert i + 1 < |rest| ==> rest[i + 1] == pieces[i + 1 + 1];
      }
      LongestIsCompiled(rest);
      var s, t := Spell(pieces), Spell(rest);
      assert s == Spelling(pieces[0]) + t;
      assert rest != [] ==> rest[0] == pieces[0 + 1] && t[0] == Spelling(rest[0])[0];
      assert FirstPiece(s) == (pieces[0], |Spelling(pieces[0])|);
      assert s[|Spelling(pieces[0])|..] == t;
    }
  }

  // ---------------------------------------------------------------- the newline at the end

  /** A path ending in a newline is covered by every rule that covers the path without it. */
  lemma {:induction false} TrailingNewlineIsCovered(pieces: seq<Piece>, path: string)
    requires '\n' !in path && Accepts(pieces, path)
    ensures Accepts(pieces, path + "\n")
    decreases |pieces|
  {
    hide Accepts;
    if pieces == [] {
      NothingForgives(path);
    } else {
      assert pieces == [pieces[0]] + pieces[1..];
      var k := PieceTakes(pieces[0], pieces[1..], path);
      TrailingNewlineIsCovered(pieces[1..], path[k..]);
      PieceAccepts(pieces[0], pieces[1..], path[..k], path[k..] + "\n");
      assert path[..k] + (path[k..] + "\n") == path + "\n";
    }
  }

  lemma NothingForgives(path: string)
    requires '\n' !in path && Accepts([], path)
    ensures Accepts([], path + "\n")
  {
    assert path == "";
  }
}
