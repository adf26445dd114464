/** Elo arithmetic of the rating service, stated over the integers without rounding error. */
module Elo {

  // The denominator of the Elo exponent: ten to the power (difference / 400).
  const SCALE: nat := 400

  const K_FACTOR: nat := 32

  function Pow(base: nat, exponent: nat): nat {
    if exponent == 0 then 1 else base * Pow(base, exponent - 1)
  }

  // Ten to the power x for positive x, and one otherwise; Weight(x) / Weight(-x) is ten to the power x for every x.
  function Weight(x: int): nat {
    Pow(10, if x > 0 then x else 0)
  }

  // With x = winner - loser, the exact gain is 32 / (1 + 10^(x/400)). It exceeds k - 1/2 exactly when
  // (65 - 2k)^400 > 10^x * (2k - 1)^400.
  predicate Reaches(x: int, k: nat)
    requires 1 <= k <= 32
  {
    Weight(-x) * Pow(65 - 2 * k, SCALE) > Weight(x) * Pow(2 * k - 1, SCALE)
  }

  function CountReached(x: int, k: nat): nat
    requires k <= 32
  {
    if k == 0 then 0 else CountReached(x, k - 1) + if Reaches(x, k) then 1 else 0
  }

  // The rounded number of points the winner gains when it led the loser by x points.
  function Gain(x: int): nat {
    CountReached(x, K_FACTOR)
  }

  // ---- Powers ----

  lemma {:induction false} PowPositive(b: nat, e: nat)
    requires b > 0
    ensures Pow(b, e) > 0
  {
    if e == 0 {
    } else {
      PowPositive(b, e - 1);
    }
  }

  lemma {:induction false} PowMonotoneInBase(a: nat, b: nat, e: nat)
    requires a <= b
    ensures Pow(a, e) <= Pow(b, e)
  {
    if e == 0 {
    } else {
      PowMonotoneInBase(a, b, e - 1);
      MulLe(a, b, Pow(a, e - 1), Pow(b, e - 1));
    }
  }

  lemma {:induction false} PowStrictInBase(a: nat, b: nat, e: nat)
    requires a < b && e > 0
    ensures Pow(a, e) < Pow(b, e)
  {
    PowMonotoneInBase(a, b, e - 1);
    PowPositive(b, e - 1);
    MulLe(a, a, Pow(a, e - 1), Pow(b, e - 1));
    assert a * Pow(b, e - 1) < b * Pow(b, e - 1);
  }

  lemma MulLe(a: nat, b: nat, c: nat, d: nat)
    requires a <= b && c <= d
    ensures a * c <= b * d
  {
    assert a * c <= b * c <= b * d;
  }

  lemma {:induction false} PowAdd(b: nat, m: nat, n: nat)
    ensures Pow(b, m + n) == Pow(b, m) * Pow(b, n)
  {
    if m == 0 {
    } else {
      PowAdd(b, m - 1, n);
      assert Pow(b, m + n) == b * (Pow(b, m - 1) * Pow(b, n)) == (b * Pow(b, m - 1)) * Pow(b, n);
    }
  }

  lemma {:induction false} PowMul(b: nat, m: nat, n: nat)
    ensures Pow(b, m * n) == Pow(Pow(b, m), n)
  {
    if n == 0 {
    } else {
      PowMul(b, m, n - 1);
      assert m * n == m + m * (n - 1);
      PowAdd(b, m, m * (n - 1));
    }
  }

  lemma {:induction false} PowOfProduct(a: nat, b: nat, e: nat)
    ensures Pow(a * b, e) == Pow(a, e) * Pow(b, e)
  {
    if e == 0 {
    } else {
      PowOfProduct(a, b, e - 1);
      Interchange(a, b, Pow(a, e - 1), Pow(b, e - 1));
    }
  }

  lemma Interchange(a: int, b: int, p: int, q: int)
    ensures (a * b) * (p * q) == (a * p) * (b * q)
  {
    assert b * (p * q) == p * (b * q);
    assert (a * b) * (p * q) == a * (b * (p * q));
    assert (a * p) * (b * q) == a * (p * (b * q));
  }

  lemma {:induction false} PowMonotoneInExponent(b: nat, m: nat, n: nat)
    requires b > 0 && m <= n
    ensures Pow(b, m) <= Pow(b, n)
  {
    PowAdd(b, m, n - m);
    PowPositive(b, n - m);
    MulLe(Pow(b, m), Pow(b, m), 1, Pow(b, n - m));
  }

  lemma {:induction false} PowOdd(b: nat, e: nat)
    requires b % 2 == 1
    ensures Pow(b, e) % 2 == 1
  {
    if e == 0 {
    } else {
      PowOdd(b, e - 1);
      OddTimesOdd(b, Pow(b, e - 1));
    }
  }

  lemma OddTimesOdd(a: nat, b: nat)
    requires a % 2 == 1 && b % 2 == 1
    ensures (a * b) % 2 == 1
  {
    var i, j := a / 2, b / 2;
    assert a * b == 2 * (2 * i * j + i + j) + 1;
  }

  lemma EvenTimes(a: nat, b: nat)
    requires a % 2 == 0
    ensures (a * b) % 2 == 0
  {
    assert a * b == 2 * ((a / 2) * b);
  }

  // ---- Shape of the gain ----

  lemma WeightMonotone(x: int, y: int)
    requires x <= y
    ensures 0 < Weight(x) <= Weight(y)
  {
    PowPositive(10, if x > 0 then x else 0);
    PowMonotoneInExponent(10, if x > 0 then x else 0, if y > 0 then y else 0);
  }

  lemma WeightIsEven(x: int)
    requires x > 0
    ensures Weight(x) % 2 == 0
  {
    EvenTimes(10, Pow(10, x - 1));
  }

  lemma WeightIsOne(x: int)
    requires x <= 0
    ensures Weight(x) == 1
  {
  }

  lemma ParityDiffers(one: nat, even: nat, p: nat, q: nat)
    requires one == 1 && even % 2 == 0 && p % 2 == 1
    ensures one * p != even * q
  {
    assert one * p == p;
    EvenTimes(even, q);
  }

  lemma OnesDiffer(one: nat, uno: nat, p: nat, q: nat)
    requires one == 1 && uno == 1 && p != q
    ensures one * p != uno * q
  {
  }

  lemma OddPowersDiffer(k: nat)
    requires 1 <= k <= 32
    ensures Pow(65 - 2 * k, SCALE) != Pow(2 * k - 1, SCALE)
  {
    hide Pow;
    if 65 - 2 * k < 2 * k - 1 {
      PowStrictInBase(65 - 2 * k, 2 * k - 1, SCALE);
    } else {
      PowStrictInBase(2 * k - 1, 65 - 2 * k, SCALE);
    }
  }

  // No rounding tie exists for any integer difference: one side of the comparison is odd and the other even.
  lemma NoTie(x: int, k: nat)
    requires 1 <= k <= 32
    ensures Weight(-x) * Pow(65 - 2 * k, SCALE) != Weight(x) * Pow(2 * k - 1, SCALE)
  {
    hide Pow, Weight;
    var p, q := Pow(65 - 2 * k, SCALE), Pow(2 * k - 1, SCALE);
    if x > 0 {
      PowOdd(65 - 2 * k, SCALE);
      WeightIsOne(-x);
      WeightIsEven(x);
      ParityDiffers(Weight(-x), Weight(x), p, q);
    } else if x < 0 {
      PowOdd(2 * k - 1, SCALE);
      WeightIsOne(x);
      WeightIsEven(-x);
      ParityDiffers(Weight(x), Weight(-x), q, p);
    } else {
      WeightIsOne(x);
      WeightIsOne(-x);
      OddPowersDiffer(k);
      OnesDiffer(Weight(-x), Weight(x), p, q);
    }
  }

  // A larger lead never reaches more half points.
  lemma ReachesAntitoneInLead(x: int, y: int, k: nat)
    requires 1 <= k <= 32 && x <= y && Reaches(y, k)
    ensures Reaches(x, k)
  {
    WeightMonotone(x, y);
    WeightMonotone(-y, -x);
    MulLe(Weight(-y), Weight(-x), Pow(65 - 2 * k, SCALE), Pow(65 - 2 * k, SCALE));
    MulLe(Weight(x), Weight(y), Pow(2 * k - 1, SCALE), Pow(2 * k - 1, SCALE));
  }

  // The reached half points form an initial segment of 1..32.
  lemma ReachesDownward(x: int, j: nat, k: nat)
    requires 1 <= j <= k <= 32 && Reaches(x, k)
    ensures Reaches(x, j)
  {
    PowMonotoneInBase(65 - 2 * k, 65 - 2 * j, SCALE);
    PowMonotoneInBase(2 * j - 1, 2 * k - 1, SCALE);
    MulLe(Weight(-x), Weight(-x), Pow(65 - 2 * k, SCALE), Pow(65 - 2 * j, SCALE));
    MulLe(Weight(x), Weight(x), Pow(2 * j - 1, SCALE), Pow(2 * k - 1, SCALE));
  }

  lemma {:induction false} CountIsThreshold(x: int, k: nat, n: nat)
    requires 1 <= k <= n <= 32
    ensures CountReached(x, n) <= n
    ensures Reaches(x, k) <==> k <= CountReached(x, n)
    decreases n
  {
    if n == 1 {
      assert CountReached(x, 0) == 0;
    } else if Reaches(x, n) {
      ReachesDownward(x, n - 1, n);
      CountIsThreshold(x, n - 1, n - 1);
      ReachesDownward(x, k, n);
    } else if k < n {
      CountIsThreshold(x, k, n - 1);
    } else {
      CountIsThreshold(x, n - 1, n - 1);
    }
  }

  // The gain is the largest k whose half point k - 1/2 lies below the exact gain.
  lemma GainThreshold(x: int, k: nat)
    requires 1 <= k <= 32
    ensures Gain(x) <= 32
    ensures Reaches(x, k) <==> k <= Gain(x)
  {
    CountIsThreshold(x, k, 32);
  }

  lemma GainNeverRises(x: int, y: int)
    requires x <= y
    ensures Gain(y) <= Gain(x) <= 32
  {
    GainThreshold(x, 1);
    GainThreshold(y, 1);
    if Gain(y) > Gain(x) {
      GainThreshold(y, Gain(y));
      ReachesAntitoneInLead(x, y, Gain(y));
      GainThreshold(x, Gain(y));
    }
  }

  // What one side of a pairing would win, the other side would win the rest of the 32 points.
  lemma GainSymmetry(x: int)
    ensures Gain(x) + Gain(-x) == 32
    ensures Gain(0) == 16
  {
    Complement(x, Gain(x), Gain(-x));
    Complement(0, Gain(0), Gain(-0));
  }

  lemma Complement(x: int, g: nat, h: nat)
    requires g == Gain(x) && h == Gain(-x)
    ensures g + h == 32
  {
    hide Gain, Pow, Weight;
    GainThreshold(x, 1);
    GainThreshold(-x, 1);
    assert -(-x) == x;
    if g > 0 {
      GainThreshold(x, g);
      NoTie(x, g);
      GainThreshold(-x, 33 - g);
      assert !Reaches(-x, 33 - g);
    }
    if g < 32 {
      GainThreshold(x, g + 1);
      NoTie(x, g + 1);
      GainThreshold(-x, 32 - g);
      assert Reaches(-x, 32 - g);
    }
  }

  // ---- The cut-off ----

  // A strict comparison of m-th powers stays strict for (m * n)-th powers.
  lemma RaiseStrict(a: nat, m: nat, c: nat, n: nat)
    requires n > 0 && Pow(a, m) < c
    ensures Pow(a, m * n) < Pow(c, n)
  {
    PowMul(a, m, n);
    PowStrictInBase(Pow(a, m), c, n);
  }

  // 63^5 < 10^9, so 63^400 < 10^720.
  lemma FirstHalfPointOutOfReach()
    ensures !Reaches(720, 1)
  {
    var n := SCALE / 5;
    RaiseStrict(63, 5, Pow(10, 9), n);
    PowMul(10, 9, n);
    hide Pow;
    OnePow(SCALE);
    WeightIsOne(-720);
  }

  // 61^5 < 10^7 * 3^5, so 61^400 < 10^560 * 3^400.
  lemma SecondHalfPointOutOfReach()
    ensures !Reaches(560, 2)
  {
    var n := SCALE / 5;
    RaiseStrict(61, 5, Pow(10, 7) * Pow(3, 5), n);
    PowOfProduct(Pow(10, 7), Pow(3, 5), n);
    PowMul(10, 7, n);
    PowMul(3, 5, n);
    assert Weight(-560) == 1;
  }

  lemma RaiseAbove(a: nat, m: nat, c: nat, p: nat, n: nat)
    requires n > 0 && c * Pow(10, p) < Pow(a, m)
    ensures Pow(c, n) * Pow(10, p * n) < Pow(a, m * n)
  {
    PowMul(a, m, n);
    PowMul(10, p, n);
    PowOfProduct(c, Pow(10, p), n);
    PowStrictInBase(c * Pow(10, p), Pow(a, m), n);
  }

  // 63^4 > 1575 * 10^4, 1575^3 > 39 * 10^8 and 39^7 > 10^11, so 63^84 > 10^151.
  lemma SixtyThreeToThe84()
    ensures Pow(10, 151) < Pow(63, 84)
  {
    RaiseAbove(63, 4, 1575, 4, 21);
    RaiseAbove(1575, 3, 39, 8, 7);
    PowAdd(10, 11, 56);
    PowAdd(10, 67, 84);
    MulLe(Pow(10, 11), Pow(39, 7), Pow(10, 56), Pow(10, 56));
    MulLe(Pow(10, 67), Pow(1575, 21), Pow(10, 84), Pow(10, 84));
  }

  lemma RaiseLe(a: nat, d: nat, b: nat, s: nat, r: nat)
    requires Pow(a, d) <= Pow(b, s)
    ensures Pow(a, d * r) <= Pow(b, s * r)
  {
    PowMul(a, d, r);
    PowMul(b, s, r);
    PowMonotoneInBase(Pow(a, d), Pow(b, s), r);
  }

  // 63^84 > 10^151, so 63^8400 > 10^15100 > (10^719)^21 and therefore 63^400 > 10^719.
  lemma FirstHalfPointJustInReach()
    ensures Reaches(719, 1)
  {
    hide Pow;
    SixtyThreeToThe84();
    var n, r := 100, 21;
    RaiseAboveOne(63, 84, 151, n);
    PowMonotoneInExponent(10, 719 * r, 151 * n);
    if Pow(63, SCALE) <= Pow(10, 719) {
      RaiseLe(63, SCALE, 10, 719, r);
      assert false;
    }
    OnePow(SCALE);
    WeightIsOne(-719);
    assert Weight(719) == Pow(10, 719);
  }

  lemma RaiseAboveOne(a: nat, m: nat, p: nat, n: nat)
    requires n > 0 && Pow(10, p) < Pow(a, m)
    ensures Pow(10, p * n) < Pow(a, m * n)
  {
    hide Pow;
    PowMul(a, m, n);
    PowMul(10, p, n);
    PowStrictInBase(Pow(10, p), Pow(a, m), n);
  }

  lemma {:induction false} OnePow(e: nat)
    ensures Pow(1, e) == 1
  {
    if e == 0 {
    } else {
      OnePow(e - 1);
    }
  }

  // The favourite wins nothing exactly from a lead of 720 points on.
  lemma NoGainExactlyFrom720(x: int)
    ensures Gain(x) == 0 <==> x >= 720
    ensures Gain(x) == 32 <==> x <= -720
  {
    hide Gain, Reaches;
    FirstHalfPointOutOfReach();
    FirstHalfPointJustInReach();
    GainThreshold(720, 1);
    GainThreshold(719, 1);
    if x >= 720 { GainNeverRises(720, x); } else { GainNeverRises(x, 719); }
    if -x >= 720 { GainNeverRises(720, -x); } else { GainNeverRises(-x, 719); }
    GainSymmetry(x);
  }

  // A win never pushes the winner's lead over that loser beyond 721 points, unless the lead was already larger.
  lemma LeadBound(x: int)
    ensures x + 2 * Gain(x) <= if x > 721 then x else 721
  {
    NoGainExactlyFrom720(x);
    GainThreshold(x, 1);
    if 560 <= x < 720 {
      SecondHalfPointOutOfReach();
      GainThreshold(560, 2);
      GainNeverRises(560, x);
    }
  }
}
