/** Strings in code point order, and lists sorted in it. */
module Ordering {

  /** Strings by code points, as Python compares them. */
  predicate Before(a: string, b: string) {
    b != "" && (a == "" || a[0] < b[0] || (a[0] == b[0] && Before(a[1..], b[1..])))
  }

  ghost predicate LessAt(a: string, b: string, n: nat) {
    n <= |a| && n < |b| && a[..n] == b[..n] && (n == |a| || a[n] < b[n])
  }

  lemma LessAtStep(a: string, b: string, n: nat)
    requires a != "" && b != "" && a[0] == b[0]
    ensures LessAt(a, b, n + 1) <==> LessAt(a[1..], b[1..], n)
  {
    if n < |a| && n < |b| {
      var x, y := a[1..], b[1..];
      assert a[..n + 1] == [a[0]] + x[..n] && b[..n + 1] == [b[0]] + y[..n];
      assert a[..n + 1] == b[..n + 1] ==> x[..n] == a[..n + 1][1..] && y[..n] == b[..n + 1][1..];
    }
  }

  /** The first difference decides, and a string stands behind its proper prefixes. */
  lemma {:induction false} FirstDifferenceDecides(a: string, b: string)
    ensures Before(a, b) <==> exists n: nat :: LessAt(a, b, n)
  {
    if a == "" || b == "" || a[0] != b[0] {
      assert LessAt(a, b, 0) <==> Before(a, b);
      assert forall n: nat | 0 < n <= |a| && n < |b| :: a[..n][0] == a[0] && b[..n][0] == b[0];
    } else {
      hide LessAt;
      FirstDifferenceDecides(a[1..], b[1..]);
      NotLessAtFront(a, b);
      if n: nat :| LessAt(a, b, n) {
        var m: nat := n - 1;
        LessAtStep(a, b, m);
      }
      if n: nat :| LessAt(a[1..], b[1..], n) {
        LessAtStep(a, b, n);
      }
    }
  }

  lemma NotLessAtFront(a: string, b: string)
    requires a != "" && b != "" && a[0] == b[0]
    ensures !LessAt(a, b, 0)
  {
  }

  lemma {:induction false} NotBeforeItself(a: string)
    ensures !Before(a, a)
  {
    if a != "" { NotBeforeItself(a[1..]); }
  }

  lemma {:induction false} BeforeIsTotal(a: string, b: string)
    ensures a == b || Before(a, b) || Before(b, a)
    ensures !(Before(a, b) && Before(b, a))
  {
    if a != "" && b != "" {
      BeforeIsTotal(a[1..], b[1..]);
      assert a == [a[0]] + a[1..] && b == [b[0]] + b[1..];
    }
  }

  lemma {:induction false} BeforeIsTransitive(a: string, b: string, c: string)
    requires Before(a, b) && Before(b, c)
    ensures Before(a, c)
  {
    if a != "" && a[0] == b[0] && b[0] == c[0] {
      BeforeIsTransitive(a[1..], b[1..], c[1..]);
    }
  }

  predicate StrictlySorted(lines: seq<string>) {
    forall i, j | 0 <= i < j < |lines| :: Before(lines[i], lines[j])
  }

  function InsertLine(line: string, lines: seq<string>): (r: seq<string>)
    ensures forall x :: x in r <==> x == line || x in lines
  {
    if lines == [] then [line]
    else
      assert forall x :: x in lines <==> x == lines[0] || x in lines[1..];
      if line == lines[0] then lines
      else if Before(line, lines[0]) then [line] + lines
      else [lines[0]] + InsertLine(line, lines[1..])
  }

  /** `sorted(set(lines))`. */
  function SortedSet(lines: seq<string>): (r: seq<string>)
    ensures forall x :: x in r <==> x in lines
  {
    if lines == [] then []
    else
      assert forall x :: x in lines <==> x == lines[0] || x in lines[1..];
      InsertLine(lines[0], SortedSet(lines[1..]))
  }

  lemma {:induction false} InsertKeepsOrder(line: string, lines: seq<string>)
    requires StrictlySorted(lines)
    ensures StrictlySorted(InsertLine(line, lines))
  {
    if lines != [] && line != lines[0] {
      BeforeIsTotal(line, lines[0]);
      if Before(line, lines[0]) {
        forall j | 0 < j < |lines| ensures Before(line, lines[j]) {
          BeforeIsTransitive(line, lines[0], lines[j]);
        }
      } else {
        InsertKeepsOrder(line, lines[1..]);
        var rest := InsertLine(line, lines[1..]);
        forall i | 0 <= i < |rest| ensures Before(lines[0], rest[i]) {
          assert rest[i] in rest;
        }
      }
    }
  }

  lemma {:induction false} SortedSetIsSorted(lines: seq<string>)
    ensures StrictlySorted(SortedSet(lines))
  {
    if lines != [] {
      SortedSetIsSorted(lines[1..]);
      InsertKeepsOrder(lines[0], SortedSet(lines[1..]));
    }
  }

  lemma {:induction false} SortedLinesAreUnique(a: seq<string>, b: seq<string>)
    requires StrictlySorted(a) && StrictlySorted(b) && forall x :: x in a <==> x in b
    ensures a == b
    decreases |a| + |b|
  {
    assert a != [] ==> a[0] in a;
    assert b != [] ==> b[0] in b;
    if a != [] {
      var i :| 0 <= i < |a| && a[i] == b[0];
      var j :| 0 <= j < |b| && b[j] == a[0];
      BeforeIsTotal(a[0], b[0]);
      assert a[0] == b[0];
      NotBeforeItself(a[0]);
      forall x ensures x in a[1..] <==> x in b[1..] {
        if x in a[1..] {
          assert x in a && x != a[0];
        }
        if x in b[1..] {
          assert x in b && x != b[0];
        }
      }
      SortedLinesAreUnique(a[1..], b[1..]);
    }
  }

  // ---------------------------------------------------------------- sorting that keeps repetitions

  function InsertAny(line: string, lines: seq<string>): (r: seq<string>)
    ensures multiset(r) == multiset(lines) + multiset{line}
  {
    if lines == [] then [line]
    else if Before(lines[0], line) then
      assert lines == [lines[0]] + lines[1..];
      [lines[0]] + InsertAny(line, lines[1..])
    else [line] + lines
  }

  /** `sorted(lines)`. */
  function SortedList(lines: seq<string>): (r: seq<string>)
    ensures multiset(r) == multiset(lines)
  {
    if lines == [] then []
    else
      assert lines == [lines[0]] + lines[1..];
      InsertAny(lines[0], SortedList(lines[1..]))
  }

  lemma SortedListHas(lines: seq<string>, line: string)
    ensures line in SortedList(lines) <==> line in lines
  {
    assert line in SortedList(lines) <==> line in multiset(SortedList(lines));
  }
}
