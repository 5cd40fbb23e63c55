/** Lists without repetition, and selecting from a list. */
module Lists {

  ghost predicate Distinct<T>(s: seq<T>) {
    forall i, j | 0 <= i < j < |s| :: s[i] != s[j]
  }

  lemma {:induction false} DistinctIsSmall<T>(list: seq<T>, all: set<T>)
    requires Distinct(list) && forall x | x in list :: x in all
    ensures |list| <= |all|
  {
    if list != [] {
      forall x | x in list[1..] ensures x in all - {list[0]} {
        var i :| 0 <= i < |list[1..]| && list[1..][i] == x;
        assert list[1 + i] == x && list[0] in list;
      }
      assert list[0] in list;
      DistinctIsSmall(list[1..], all - {list[0]});
    }
  }

  /** The members that satisfy `p`, in order. */
  function Keep<A(!new)>(xs: seq<A>, p: A -> bool): (r: seq<A>)
    ensures forall x :: x in r <==> x in xs && p(x)
  {
    if xs == [] then []
    else
      assert xs == [xs[0]] + xs[1..];
      (if p(xs[0]) then [xs[0]] else []) + Keep(xs[1..], p)
  }

  lemma {:induction false} KeepSplits<A(!new)>(xs: seq<A>, p: A -> bool, q: A -> bool)
    requires forall x :: q(x) == !p(x)
    ensures multiset(Keep(xs, p)) + multiset(Keep(xs, q)) == multiset(xs)
    ensures |Keep(xs, p)| + |Keep(xs, q)| == |xs|
  {
    hide Keep;
    KeepStep(xs, p);
    KeepStep(xs, q);
    if xs != [] {
      KeepSplits(xs[1..], p, q);
      assert multiset(xs) == multiset([xs[0]] + xs[1..]) by { assert xs == [xs[0]] + xs[1..]; }
    }
  }

  /** What is kept is kept as often as it stands there. */
  lemma {:induction false} KeepCounted<A(!new)>(xs: seq<A>, p: A -> bool, x: A)
    ensures multiset(Keep(xs, p))[x] == if p(x) then multiset(xs)[x] else 0
  {
    if xs != [] {
      KeepCounted(xs[1..], p, x);
      assert xs == [xs[0]] + xs[1..];
    }
  }

  lemma KeepStep<A(!new)>(xs: seq<A>, p: A -> bool)
    ensures Keep(xs, p) == if xs == [] then [] else (if p(xs[0]) then [xs[0]] else []) + Keep(xs[1..], p)
  {
  }

  lemma {:induction false} KeepOfBoth<A(!new)>(a: seq<A>, b: seq<A>, p: A -> bool)
    ensures Keep(a + b, p) == Keep(a, p) + Keep(b, p)
  {
    if a == [] {
      assert a + b == b;
    } else {
      assert (a + b)[1..] == a[1..] + b;
      KeepOfBoth(a[1..], b, p);
    }
  }

  /** Selecting twice is selecting once by both. */
  lemma {:induction false} KeepTwice<A(!new)>(xs: seq<A>, p: A -> bool, q: A -> bool, both: A -> bool)
    requires forall x :: both(x) == (p(x) && q(x))
    ensures Keep(Keep(xs, p), q) == Keep(xs, both)
  {
    if xs != [] {
      KeepTwice(xs[1..], p, q, both);
      KeepOfBoth(if p(xs[0]) then [xs[0]] else [], Keep(xs[1..], p), q);
    }
  }

  /** Selecting by the same measure gives the same list. */
  lemma {:induction false} KeepAlike<A(!new)>(xs: seq<A>, p: A -> bool, q: A -> bool)
    requires forall x | x in xs :: p(x) == q(x)
    ensures Keep(xs, p) == Keep(xs, q)
  {
    if xs != [] {
      assert xs[0] in xs;
      KeepAlike(xs[1..], p, q);
    }
  }
}
