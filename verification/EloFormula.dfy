/** The Elo formula of the rating service over the reals, and its agreement with the integer gain. */
module EloFormula {
  import opened Elo

  const FACTOR: real := K_FACTOR as real

  function RealPow(base: real, exponent: nat): real {
    if exponent == 0 then 1.0 else base * RealPow(base, exponent - 1)
  }

  // t is ten to the power (y / 400): the positive real whose 400-th power is 10^y.
  ghost predicate IsTenToThe(t: real, y: int) {
    && t > 0.0
    && if y >= 0 then RealPow(t, SCALE) == RealPow(10.0, y) else RealPow(t, SCALE) * RealPow(10.0, -y) == 1.0
  }

  // Nearest integer, halves away from zero.
  function Round(r: real): int {
    if r >= 0.0 then (r + 0.5).Floor else -((0.5 - r).Floor)
  }

  // Expected score of a player, where t is ten to the power (opponent - self) / 400.
  function ExpectedScore(t: real): real
    requires t > 0.0
  {
    1.0 / (1.0 + t)
  }

  function ApplyElo(rating: int, expected: real, score: real): int {
    Round(rating as real + FACTOR * (score - expected))
  }

  lemma {:induction false} RealPowPositive(b: real, e: nat)
    requires b > 0.0
    ensures RealPow(b, e) > 0.0
  {
    if e == 0 {
    } else {
      RealPowPositive(b, e - 1);
    }
  }

  lemma {:induction false} RealPowStrict(a: real, b: real, e: nat)
    requires 0.0 < a < b && e > 0
    ensures RealPow(a, e) < RealPow(b, e)
  {
    if e <= 1 {
    } else {
      RealPowStrict(a, b, e - 1);
    }
    var p, q := RealPow(a, e - 1), RealPow(b, e - 1);
    RealPowPositive(a, e - 1);
    assert p <= q;
    assert a * p < b * p;
    assert b * p <= b * q;
  }

  lemma {:induction false} RealPowOfProduct(a: real, b: real, e: nat)
    ensures RealPow(a * b, e) == RealPow(a, e) * RealPow(b, e)
  {
    if e == 0 {
    } else {
      RealPowOfProduct(a, b, e - 1);
      RealPowStep(a * b, e);
      RealPowStep(a, e);
      RealPowStep(b, e);
      hide RealPow;
      RealInterchange(a, b, RealPow(a, e - 1), RealPow(b, e - 1));
    }
  }

  lemma RealPowStep(b: real, e: nat)
    requires e > 0
    ensures RealPow(b, e) == b * RealPow(b, e - 1)
  {
  }

  lemma RealInterchange(a: real, b: real, p: real, q: real)
    ensures (a * b) * (p * q) == (a * p) * (b * q)
  {
    assert b * (p * q) == p * (b * q);
    assert (a * b) * (p * q) == a * (b * (p * q));
    assert (a * p) * (b * q) == a * (p * (b * q));
  }

  lemma {:induction false} RealPowOfNat(n: nat, e: nat)
    ensures RealPow(n as real, e) == Pow(n, e) as real
  {
    if e == 0 {
    } else {
      RealPowOfNat(n, e - 1);
      assert n as real * Pow(n, e - 1) as real == (n * Pow(n, e - 1)) as real;
    }
  }

  lemma RealScale(a: real, b: real, w: real)
    requires w > 0.0
    ensures a > b <==> a * w > b * w
    ensures a == b <==> a * w == b * w
  {
    if a > b {
      assert (a - b) * w > 0.0;
    } else if a < b {
      assert (b - a) * w > 0.0;
    }
  }

  // Over a common denominator: the weights of the integer gain are those powers of ten.
  lemma TenInWeights(t: real, y: int)
    requires t > 0.0
    ensures IsTenToThe(t, y) <==> RealPow(t, SCALE) * Weight(-y) as real == Weight(y) as real
  {
    TenToTheNat(if y >= 0 then y else -y);
    WeightIsPow(y);
    WeightIsPow(-y);
    hide RealPow, Weight, Pow;
    if y < 0 {
      assert RealPow(10.0, -y) == Weight(-y) as real && Weight(y) == 1;
    } else {
      assert RealPow(10.0, y) == Weight(y) as real && Weight(-y) == 1;
    }
  }

  lemma TenToTheNat(n: nat)
    ensures RealPow(10.0, n) == Pow(10, n) as real
  {
    RealPowOfNat(10, n);
  }

  lemma WeightIsPow(x: int)
    ensures Weight(x) == if x > 0 then Pow(10, x) else 1
  {
  }

  lemma SameFactor(p: real, q: real, w: real, v: real)
    requires w > 0.0 && p * w == v && q * w == v
    ensures p == q
  {
    RealScale(p, q, w);
  }

  // There is only one ten to the power (y / 400).
  lemma TenToTheIsUnique(t: real, u: real, y: int)
    requires IsTenToThe(t, y) && IsTenToThe(u, y)
    ensures t == u
  {
    TenInWeights(t, y);
    TenInWeights(u, y);
    hide RealPow, Weight, IsTenToThe;
    WeightMonotone(-y, -y);
    SameFactor(RealPow(t, SCALE), RealPow(u, SCALE), Weight(-y) as real, Weight(y) as real);
    if t < u {
      RealPowStrict(t, u, SCALE);
    }
    if u < t {
      RealPowStrict(u, t, SCALE);
    }
  }

  // At the multiples of 400 it is the plain power of ten.
  lemma TenToTheMultiples(n: nat)
    ensures IsTenToThe(Pow(10, n) as real, SCALE * n)
  {
    hide RealPow;
    PowPositive(10, n);
    RealPowOfNat(Pow(10, n), SCALE);
    PowMul(10, n, SCALE);
    assert n * SCALE == SCALE * n;
    TenToTheNat(SCALE * n);
  }

  // Comparing c * t with d is comparing their e-th powers, which clears the fractional exponent of t.
  lemma RootComparison(l: real, c: real, d: real, t: real, e: nat)
    requires c > 0.0 && d > 0.0 && t > 0.0 && e > 0 && l == c * t
    ensures l > d <==> RealPow(c, e) * RealPow(t, e) > RealPow(d, e)
    ensures l == d <==> RealPow(c, e) * RealPow(t, e) == RealPow(d, e)
  {
    PositiveProduct(c, t);
    RealPowOfProduct(c, t, e);
    if l > d { RealPowStrict(d, l, e); } else if l < d { RealPowStrict(l, d, e); }
  }

  lemma PositiveProduct(a: real, b: real)
    requires a > 0.0 && b > 0.0
    ensures a * b > 0.0
  {
  }

  lemma ScaledComparison(p: nat, q: nat, s: real, w: nat, v: nat)
    requires w > 0 && s * w as real == v as real
    ensures p as real * s > q as real <==> v * p > w * q
    ensures p as real * s == q as real <==> v * p == w * q
  {
    RealScale(p as real * s, q as real, w as real);
    assert (p as real * s) * w as real == p as real * (s * w as real);
    CastProduct(v, p);
    CastProduct(w, q);
  }

  lemma CastProduct(a: nat, b: nat)
    ensures a as real * b as real == (a * b) as real
  {
  }

  lemma RaiseComparison(l: real, c: nat, d: nat, t: real, e: nat, w: nat, v: nat)
    requires c > 0 && d > 0 && t > 0.0 && e > 0 && l == c as real * t
    requires w > 0 && RealPow(t, e) * w as real == v as real
    ensures l > d as real <==> v * Pow(c, e) > w * Pow(d, e)
    ensures l == d as real <==> v * Pow(c, e) == w * Pow(d, e)
  {
    hide RealPow, Pow;
    RootComparison(l, c as real, d as real, t, e);
    RealPowOfNat(c, e);
    RealPowOfNat(d, e);
    ScaledComparison(Pow(c, e), Pow(d, e), RealPow(t, e), w, v);
  }

  lemma HalfPointAlgebra(g: real, t: real, k: real)
    requires t > 0.0 && g == FACTOR * (1.0 - ExpectedScore(t))
    ensures g > k - 0.5 <==> (65.0 - 2.0 * k) * t > 2.0 * k - 1.0
    ensures g == k - 0.5 <==> (65.0 - 2.0 * k) * t == 2.0 * k - 1.0
  {
    var u := 1.0 + t;
    assert (1.0 / u) * u == 1.0;
    assert g * u == 32.0 * t;
    RealScale(g, k - 0.5, u);
    assert (k - 0.5) * u == k + k * t - 0.5 - 0.5 * t;
    assert (65.0 - 2.0 * k) * t == 65.0 * t - 2.0 * (k * t);
  }

  // The exact gain 32 * (1 - expected) lies above k - 1/2 exactly for the reached k, and never on it.
  lemma HalfPoint(t: real, x: int, y: int, k: nat)
    requires 1 <= k <= 32 && y == -x && IsTenToThe(t, y)
    ensures FACTOR * (1.0 - ExpectedScore(t)) > k as real - 0.5 <==> Reaches(x, k)
    ensures FACTOR * (1.0 - ExpectedScore(t)) != k as real - 0.5
  {
    hide RealPow, Pow, Weight, ExpectedScore;
    var c, d := 65 - 2 * k, 2 * k - 1;
    var l := c as real * t;
    WeightMonotone(x, x);
    TenInWeights(t, y);
    RaiseComparison(l, c, d, t, SCALE, Weight(x), Weight(y));
    NoTie(x, k);
    assert c as real == 65.0 - 2.0 * k as real && d as real == 2.0 * k as real - 1.0;
    HalfPointAlgebra(FACTOR * (1.0 - ExpectedScore(t)), t, k as real);
  }

  lemma ExactGainIsNear(t: real, x: int, y: int)
    requires y == -x && IsTenToThe(t, y)
    ensures Gain(x) as real - 0.5 < FACTOR * (1.0 - ExpectedScore(t)) < Gain(x) as real + 0.5
  {
    var g := Gain(x);
    GainThreshold(x, 1);
    assert 0.0 < ExpectedScore(t) < 1.0 by {
      assert (1.0 / (1.0 + t)) * (1.0 + t) == 1.0;
    }
    if g > 0 {
      GainThreshold(x, g);
      HalfPoint(t, x, y, g);
    }
    if g < 32 {
      GainThreshold(x, g + 1);
      HalfPoint(t, x, y, g + 1);
    }
  }

  // For every pair of ratings the rounded formula moves exactly Gain(winner - loser) points from the loser to the
  // winner. s and t are the powers of ten of the two expected scores.
  lemma FormulaMovesTheGain(winner: int, loser: int, s: real, t: real)
    requires IsTenToThe(s, loser - winner) && IsTenToThe(t, winner - loser)
    ensures ApplyElo(winner, ExpectedScore(s), 1.0) == winner + Gain(winner - loser)
    ensures ApplyElo(loser, ExpectedScore(t), 0.0) == loser - Gain(winner - loser)
  {
    WinnerSide(winner, winner - loser, s);
    LoserSide(loser, winner - loser, t);
  }

  lemma WinnerSide(rating: int, x: int, t: real)
    requires IsTenToThe(t, -x)
    ensures ApplyElo(rating, ExpectedScore(t), 1.0) == rating + Gain(x)
  {
    ExactGainIsNear(t, x, -x);
    RoundNear(rating, FACTOR * (1.0 - ExpectedScore(t)), Gain(x));
  }

  // When the other side would gain h = 32 - g, the loser drops g.
  lemma LoserStep(rating: int, e: real, g: int, h: int)
    requires g + h == 32
    requires h as real - 0.5 < FACTOR * (1.0 - e) < h as real + 0.5
    ensures ApplyElo(rating, e, 0.0) == rating - g
  {
    assert FACTOR * (0.0 - e) == FACTOR * (1.0 - e) - FACTOR;
    RoundNear(rating, FACTOR * (0.0 - e), -g);
  }

  lemma LoserSide(rating: int, x: int, t: real)
    requires IsTenToThe(t, x)
    ensures ApplyElo(rating, ExpectedScore(t), 0.0) == rating - Gain(x)
  {
    hide Gain, Weight, RealPow, ExpectedScore, ApplyElo;
    ExactGainIsNear(t, -x, x);
    GainSymmetry(x);
    LoserStep(rating, ExpectedScore(t), Gain(x), Gain(-x));
  }

  lemma RoundNear(rating: int, delta: real, step: int)
    requires step as real - 0.5 < delta < step as real + 0.5
    ensures Round(rating as real + delta) == rating + step
  {
    var n := rating + step;
    var r := rating as real + delta;
    assert n as real - 0.5 < r < n as real + 0.5;
  }
}
