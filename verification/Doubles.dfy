/**
 Addition and subtraction of integers held in IEEE 754 doubles: the exact result rounded to the
 nearest double, ties to the even one. Sums here stay far below the overflow to infinity.
 */
module Doubles {

  /** Up to 2^53 every integer is a double. */
  const EXACT: nat := 0x20_0000_0000_0000

  /** Distance between neighbouring doubles at a magnitude. */
  function Spacing(n: nat): (u: nat)
    ensures u >= 1 && n / u < EXACT
  {
    if n < EXACT then 1
    else
      var u := Spacing(n / 2);
      HalvesDivide(n, u);
      2 * u
  }

  lemma HalvesDivide(n: nat, u: nat)
    requires u >= 1
    ensures n / (2 * u) == n / 2 / u
  {
    var q := n / (2 * u);
    var r := n % (2 * u);
    assert n == q * (2 * u) + r;
    assert n / 2 == q * u + r / 2;
    assert r / 2 < u;
    QuotientIs(n / 2, u, q, r / 2);
  }

  lemma SmallMultiple(x: int, u: nat)
    requires -(u as int) < x * u < u
    ensures x == 0
  {
    if x >= 1 {
      assert x * u == (x - 1) * u + u;
      Product(x - 1, u);
    } else if x <= -1 {
      assert x * u == -((-x - 1) * u) - u;
      Product(-x - 1, u);
    }
  }

  lemma Product(a: nat, b: nat)
    ensures a * b >= 0
  {
  }

  lemma QuotientIs(n: nat, u: nat, q: nat, r: nat)
    requires u >= 1 && n == q * u + r && r < u
    ensures n / u == q
  {
    var p, s := n / u, n % u;
    assert n == p * u + s && 0 <= s < u;
    assert (p - q) * u == p * u - q * u;
    SmallMultiple(p - q, u);
  }

  /** The even one of two neighbours at the same distance, the nearer one otherwise. */
  function Nearest(q: nat, r: nat, u: nat): (m: nat)
    ensures m == q || m == q + 1
  {
    if 2 * r < u || (2 * r == u && q % 2 == 0) then q else q + 1
  }

  /** The nearest multiple of a spacing. */
  function RoundTo(n: nat, u: nat): nat
    requires u >= 1
  {
    var m := Nearest(n / u, n % u, u);
    Product(m, u);
    m * u
  }

  function RoundMagnitude(n: nat): nat {
    RoundTo(n, Spacing(n))
  }

  function Round(n: int): int {
    if n < 0 then -(RoundMagnitude(-n) as int) else RoundMagnitude(n)
  }

  function Magnitude(n: int): nat {
    if n < 0 then -n else n
  }

  /** A magnitude whose significand has at most 53 bits. */
  predicate IsDouble(m: nat, u: nat, n: nat) {
    m <= EXACT && n == m * u
  }

  predicate TieIsEven(m: nat, u: nat, error: int) {
    2 * Magnitude(error) == u ==> m % 2 == 0
  }

  lemma NearestIsNear(n: nat, u: nat, q: nat, r: nat)
    requires n == q * u + r && r < u
    ensures -(u as int) <= 2 * (Nearest(q, r, u) * u - n) <= u
    ensures 2 * Magnitude(Nearest(q, r, u) * u - n) == u ==> Nearest(q, r, u) % 2 == 0
  {
    assert (q + 1) * u == q * u + u;
  }

  lemma MagnitudeIsNearest(n: nat)
    ensures exists m: nat :: IsDouble(m, Spacing(n), RoundMagnitude(n)) && TieIsEven(m, Spacing(n), RoundMagnitude(n) - n)
    ensures -(Spacing(n) as int) <= 2 * (RoundMagnitude(n) - n) <= Spacing(n)
  {
    hide Nearest, Spacing;
    var u := Spacing(n);
    var m := Nearest(n / u, n % u, u);
    assert RoundMagnitude(n) == m * u;
    MultipleIsNear(n, u, m);
    assert IsDouble(m, u, RoundMagnitude(n));
  }

  lemma MultipleIsNear(n: nat, u: nat, m: nat)
    requires u >= 1 && m == Nearest(n / u, n % u, u)
    ensures -(u as int) <= 2 * (m * u - n) <= u
    ensures 2 * Magnitude(m * u - n) == u ==> m % 2 == 0
  {
    hide Nearest;
    Remainder(n, u);
    NearestIsNear(n, u, n / u, n % u);
  }

  lemma Remainder(n: nat, u: nat)
    requires u >= 1
    ensures n == n / u * u + n % u && 0 <= n % u < u
  {
  }

  predicate IsRounded(n: int, m: nat) {
    IsDouble(m, Spacing(Magnitude(n)), Magnitude(Round(n))) && TieIsEven(m, Spacing(Magnitude(n)), Round(n) - n)
  }

  /** The rounded number is a double, no multiple of the spacing is nearer, and a tie goes to the even one. */
  lemma RoundIsNearest(n: int)
    ensures exists m: nat :: IsRounded(n, m)
    ensures 2 * Magnitude(Round(n) - n) <= Spacing(Magnitude(n))
  {
    hide RoundMagnitude, Spacing, IsDouble;
    MagnitudeIsNearest(Magnitude(n));
    var u, r := Spacing(Magnitude(n)), RoundMagnitude(Magnitude(n));
    var m: nat :| IsDouble(m, u, r) && TieIsEven(m, u, r - Magnitude(n));
    assert IsRounded(n, m);
  }

  /** Up to 2^53 nothing is rounded. */
  lemma RoundIsExact(n: int)
    requires -(EXACT as int) <= n <= EXACT
    ensures Round(n) == n
  {
    if Magnitude(n) == EXACT {
      assert Spacing(EXACT / 2) == 1;
      assert Spacing(EXACT) == 2;
    }
  }

  /** 2^53 + 1 lies between two doubles; the even one is below. */
  lemma TieGoesDown()
    ensures Round(EXACT + 1) == EXACT
  {
    assert Spacing(EXACT / 2) == 1;
    assert Spacing(EXACT + 1) == 2;
  }
}
