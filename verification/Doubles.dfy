/** The numbers of binary64, section 3.4 of IEEE 754-2019: the one a decimal number is read as. */
module Doubles {

  function Pow2(n: nat): (p: nat)
    ensures p > 0
  {
    if n == 0 then 1 else 2 * Pow2(n - 1)
  }

  /** How often a number is halved until it is below two. */
  function Halvings(x: real): nat
    decreases x.Floor
  {
    if x < 2.0 then 0 else 1 + Halvings(x / 2.0)
  }

  /** How often a number is doubled until it is at least one, `limit` times at most. */
  function Doublings(x: real, limit: nat): nat
    decreases limit
  {
    if x >= 1.0 || limit == 0 then 0 else 1 + Doublings(x * 2.0, limit - 1)
  }

  const SMALLEST_EXPONENT: nat := 1022
  const FRACTION_BITS: nat := 52

  /** The distance of the doubles around a positive number. */
  function Spacing(x: real): (d: real)
    ensures d > 0.0
  {
    if x >= 1.0 then Pow2(Halvings(x)) as real / Pow2(FRACTION_BITS) as real
    else 1.0 / Pow2(Doublings(x, SMALLEST_EXPONENT) + FRACTION_BITS) as real
  }

  /** The nearest integer, the even one of two. */
  function RoundEven(q: real): (n: int)
    ensures -0.5 <= n as real - q <= 0.5
    ensures n as real - q == 0.5 || n as real - q == -0.5 ==> n % 2 == 0
  {
    var below := q.Floor;
    var rest := q - below as real;
    if rest < 0.5 || (rest == 0.5 && below % 2 == 0) then below else below + 1
  }

  /** The double a number is read as; numbers beyond the largest one are not cut off. */
  function ToDouble(x: real): real {
    if x == 0.0 then 0.0
    else if x < 0.0 then -(RoundEven(-x / Spacing(-x)) as real * Spacing(-x))
    else RoundEven(x / Spacing(x)) as real * Spacing(x)
  }

  lemma RoundsWhole(n: int)
    ensures RoundEven(n as real) == n
  {
  }

  lemma Cancels(x: real, d: real)
    requires d > 0.0
    ensures x / d * d == x
  {
  }

  /** A number that is a whole count of spacings is a double. */
  lemma CountsAreDoubles(x: real, n: int)
    requires x > 0.0 && x / Spacing(x) == n as real
    ensures ToDouble(x) == x
  {
    RoundsWhole(n);
    Cancels(x, Spacing(x));
  }

  /** The double is no farther away than half a spacing. */
  lemma NearestDouble(x: real)
    requires x > 0.0
    ensures -0.5 * Spacing(x) <= ToDouble(x) - x <= 0.5 * Spacing(x)
  {
    hide Spacing, RoundEven;
    var d, q := Spacing(x), x / Spacing(x);
    var n := RoundEven(q) as real;
    Cancels(x, d);
    assert x == Times(q, d) && ToDouble(x) == Times(n, d);
    ScaledBounds(x, ToDouble(x), n, q, d);
  }

  function Times(a: real, d: real): real {
    a * d
  }

  lemma ScaledBounds(x: real, y: real, n: real, q: real, d: real)
    requires d > 0.0 && -0.5 <= n - q <= 0.5 && x == Times(q, d) && y == Times(n, d)
    ensures -Times(0.5, d) <= y - x <= Times(0.5, d)
  {
    hide Times;
    Grows(q - 0.5, n, d);
    Grows(n, q + 0.5, d);
    Spreads(q - 0.5, 0.5, d);
    Spreads(q, 0.5, d);
  }

  lemma Grows(a: real, b: real, d: real)
    requires d > 0.0 && a <= b
    ensures Times(a, d) <= Times(b, d)
  {
  }

  lemma Spreads(a: real, b: real, d: real)
    ensures Times(a + b, d) == Times(a, d) + Times(b, d)
  {
  }

  lemma OneIsADouble()
    ensures ToDouble(1.0) == 1.0
  {
    var p := Pow2(FRACTION_BITS);
    assert Halvings(1.0) == 0 && Pow2(0) == 1;
    Inverse(p as real);
    CountsAreDoubles(1.0, p);
  }

  lemma Inverse(p: real)
    requires p > 0.0
    ensures 1.0 / (1.0 / p) == p
  {
  }

  // ---------------------------------------------------------------- between powers of two

  lemma {:induction false} Pow2Add(a: nat, b: nat)
    ensures Pow2(a + b) == Pow2(a) * Pow2(b)
  {
    if a > 0 {
      Pow2Add(a - 1, b);
      assert 2 * (Pow2(a - 1) * Pow2(b)) == 2 * Pow2(a - 1) * Pow2(b);
    }
  }

  lemma {:induction false} HalvingsBetween(x: real, e: nat)
    requires Pow2(e) as real <= x < 2.0 * Pow2(e) as real
    ensures Halvings(x) == e
  {
    if e > 0 {
      HalvingsBetween(x / 2.0, e - 1);
    }
  }

  lemma LargePowers()
    ensures Pow2(76) == 75557863725914323419136 && Pow2(52) == 4503599627370496
  {
    assert Pow2(13) == 8192;
    assert Pow2(19) == 524288 by { Pow2Add(13, 6); assert Pow2(6) == 64; }
    Pow2Add(13, 13);
    Pow2Add(26, 26);
    Pow2Add(19, 19);
    Pow2Add(38, 38);
  }

  /** Ten to the twenty-third is no double: it lies halfway between two. */
  lemma TenTo23IsNoDouble()
    ensures ToDouble(100000000000000000000000.0) == 99999999999999991611392.0
  {
    var x := 100000000000000000000000.0;
    LargePowers();
    HalvingsBetween(x, 76);
    hide Pow2, Halvings;
    assert Spacing(x) == 16777216.0;
    assert x / Spacing(x) == 5960464477539062.5;
    assert RoundEven(5960464477539062.5) == 5960464477539062;
  }
}
