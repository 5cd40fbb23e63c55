/** The comparator of the canonical serialization, section 3.2.3 of RFC 8785: strings ordered by
    their UTF-16 code units, here as the bytes of the big-endian encoding, and where this order
    leaves the order by code points. */
module Utf16Order {
  import opened Ordering

  function CharUnits(c: char): (u: seq<nat>)
    ensures u != [] && forall i | 0 <= i < |u| :: u[i] < 0x10000
  {
    if (c as int) < 0x10000 then [c as int]
    else var n := c as int - 0x10000; [0xd800 + n / 0x400, 0xdc00 + n % 0x400]
  }

  function Units(s: string): (u: seq<nat>)
    ensures forall i | 0 <= i < |u| :: u[i] < 0x10000
  {
    if s == "" then [] else CharUnits(s[0]) + Units(s[1..])
  }

  function UnitBytes(units: seq<nat>): seq<nat> {
    if units == [] then [] else [units[0] / 0x100, units[0] % 0x100] + UnitBytes(units[1..])
  }

  /** `encode("utf-16-be")`. */
  function Encode(s: string): seq<nat> {
    UnitBytes(Units(s))
  }

  /** Sequences of numbers in dictionary order, as byte strings compare. */
  predicate SeqLess(a: seq<nat>, b: seq<nat>) {
    b != [] && (a == [] || a[0] < b[0] || (a[0] == b[0] && SeqLess(a[1..], b[1..])))
  }

  predicate Utf16Less(a: string, b: string) {
    SeqLess(Encode(a), Encode(b))
  }

  // ---------------------------------------------------------------- a total order

  lemma {:induction false} NotLessThanItself(a: seq<nat>)
    ensures !SeqLess(a, a)
  {
    if a != [] {
      NotLessThanItself(a[1..]);
    }
  }

  lemma {:induction false} LessOneWay(a: seq<nat>, b: seq<nat>)
    ensures a == b || SeqLess(a, b) || SeqLess(b, a)
    ensures !(SeqLess(a, b) && SeqLess(b, a))
  {
    if a != [] && b != [] {
      LessOneWay(a[1..], b[1..]);
      assert a == [a[0]] + a[1..] && b == [b[0]] + b[1..];
    }
  }

  lemma {:induction false} LessIsTransitive(a: seq<nat>, b: seq<nat>, c: seq<nat>)
    requires SeqLess(a, b) && SeqLess(b, c)
    ensures SeqLess(a, c)
  {
    if a != [] && a[0] == b[0] && b[0] == c[0] {
      LessIsTransitive(a[1..], b[1..], c[1..]);
    }
  }

  // ---------------------------------------------------------------- bytes, units, characters

  lemma {:induction false} BytesOrderUnits(a: seq<nat>, b: seq<nat>)
    requires (forall i | 0 <= i < |a| :: a[i] < 0x10000) && forall i | 0 <= i < |b| :: b[i] < 0x10000
    ensures SeqLess(UnitBytes(a), UnitBytes(b)) <==> SeqLess(a, b)
  {
    if a != [] && b != [] {
      BytesOrderUnits(a[1..], b[1..]);
      var p, q := UnitBytes(a), UnitBytes(b);
      assert p[1..][0] == a[0] % 0x100 && q[1..][0] == b[0] % 0x100;
      assert p[1..][1..] == UnitBytes(a[1..]) && q[1..][1..] == UnitBytes(b[1..]);
    }
  }

  /** One character above the basic plane, one in its top range: the pair code units put the wrong
      way round. */
  predicate Straddles(c: char, d: char) {
    || (c as int >= 0x10000 && 0xe000 <= d as int < 0x10000)
    || (d as int >= 0x10000 && 0xe000 <= c as int < 0x10000)
  }

  lemma CharactersDecide(c: char, d: char, s: seq<nat>, t: seq<nat>)
    requires c != d
    ensures SeqLess(CharUnits(c) + s, CharUnits(d) + t) <==> ((c < d) != Straddles(c, d))
  {
    var x, y := CharUnits(c) + s, CharUnits(d) + t;
    assert x[0] == CharUnits(c)[0] && y[0] == CharUnits(d)[0];
    if c as int >= 0x10000 && d as int >= 0x10000 {
      assert x[1..][0] == CharUnits(c)[1] && y[1..][0] == CharUnits(d)[1];
      assert (c as int - 0x10000) == 0x400 * ((c as int - 0x10000) / 0x400) + (c as int - 0x10000) % 0x400;
      assert (d as int - 0x10000) == 0x400 * ((d as int - 0x10000) / 0x400) + (d as int - 0x10000) % 0x400;
    }
  }

  lemma {:induction false} SharedUnits(u: seq<nat>, s: seq<nat>, t: seq<nat>)
    ensures SeqLess(u + s, u + t) <==> SeqLess(s, t)
  {
    if u == [] {
      assert u + s == s && u + t == t;
    } else {
      SharedUnits(u[1..], s, t);
      assert (u + s)[1..] == u[1..] + s && (u + t)[1..] == u[1..] + t;
    }
  }

  /** Where two strings first differ; the length of the shorter one when they do not. */
  function FirstDifference(a: string, b: string): (i: nat)
    ensures i <= |a| && i <= |b|
    ensures i < |a| && i < |b| ==> a[i] != b[i]
    ensures a[..i] == b[..i]
  {
    if a == "" || b == "" || a[0] != b[0] then 0 else 1 + FirstDifference(a[1..], b[1..])
  }

  /** The first characters to differ straddle the surrogate range. */
  predicate Exceptional(a: string, b: string) {
    var i := FirstDifference(a, b);
    i < |a| && i < |b| && Straddles(a[i], b[i])
  }

  lemma {:induction false} UnitsAgainstCodePoints(a: string, b: string)
    requires a != b
    ensures SeqLess(Units(a), Units(b)) <==> (Before(a, b) != Exceptional(a, b))
  {
    if a != "" && b != "" {
      if a[0] == b[0] {
        assert a == [a[0]] + a[1..] && b == [b[0]] + b[1..];
        UnitsAgainstCodePoints(a[1..], b[1..]);
        SharedUnits(CharUnits(a[0]), Units(a[1..]), Units(b[1..]));
        var i := FirstDifference(a[1..], b[1..]);
        assert i < |a[1..]| ==> a[1..][i] == a[i + 1];
        assert i < |b[1..]| ==> b[1..][i] == b[i + 1];
      } else {
        CharactersDecide(a[0], b[0], Units(a[1..]), Units(b[1..]));
      }
    }
  }

  /** The byte order agrees with the order by code points for all strings, except exactly when the
      first characters to differ are one at or above U+10000 and one in U+E000..U+FFFF. */
  lemma OrdersPartExactlyAtSurrogates(a: string, b: string)
    requires a != b
    ensures Utf16Less(a, b) <==> (Before(a, b) != Exceptional(a, b))
    ensures (Utf16Less(a, b) <==> Before(a, b)) <==> !Exceptional(a, b)
  {
    BytesOrderUnits(Units(a), Units(b));
    UnitsAgainstCodePoints(a, b);
  }

  /** The byte order on strings is a strict total order. */
  lemma Utf16OrderIsTotal(a: string, b: string)
    ensures a == b || Utf16Less(a, b) || Utf16Less(b, a)
    ensures !(Utf16Less(a, b) && Utf16Less(b, a)) && !Utf16Less(a, a)
  {
    LessOneWay(Encode(a), Encode(b));
    NotLessThanItself(Encode(a));
    if a != b {
      OrdersPartExactlyAtSurrogates(a, b);
      OrdersPartExactlyAtSurrogates(b, a);
      BeforeIsTotal(a, b);
      ExceptionalIsSymmetric(a, b);
    }
  }

  lemma {:induction false} ExceptionalIsSymmetric(a: string, b: string)
    ensures Exceptional(a, b) <==> Exceptional(b, a)
  {
    SameDifference(a, b);
  }

  lemma {:induction false} SameDifference(a: string, b: string)
    ensures FirstDifference(a, b) == FirstDifference(b, a)
  {
    if a != "" && b != "" && a[0] == b[0] {
      SameDifference(a[1..], b[1..]);
    }
  }

  lemma Utf16IsTransitive(a: string, b: string, c: string)
    requires Utf16Less(a, b) && Utf16Less(b, c)
    ensures Utf16Less(a, c)
  {
    LessIsTransitive(Encode(a), Encode(b), Encode(c));
  }
}
