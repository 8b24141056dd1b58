/** What the missing lower end costs, in terms of the float f * 2^e and the estimate exp10. */
module LowerEndInputs {
  import opened Powers
  import opened Decimal
  import opened DragonSetup
  import opened DragonShortest
  import opened LowerEnd

  // Divisibility by odd numbers.

  lemma HalfDivides(x: int, p: nat)
    requires p % 2 == 1 && (2 * x) % p == 0
    ensures x % p == 0
  {
    var q := (2 * x) / p;
    assert 2 * x == p * q;
    OddFactor(p, q, x);
    DivModUnique(x, p, q / 2, 0);
  }

  lemma OddFactor(p: int, q: int, x: int)
    requires p % 2 == 1 && p * q == 2 * x
    ensures q % 2 == 0 && x == (q / 2) * p
  {
    var a, b := p / 2, q / 2;
    assert p == 2 * a + 1;
    PlusTimes(2 * a, 1, q);
    Assoc(2, a, q);
    assert q == 2 * (x - a * q);
    assert q == 2 * b;
    Assoc(2, b, p);
    Swap(p, 2, b);
  }

  lemma {:induction false} OddDivides(x: int, p: nat, e: nat)
    requires p % 2 == 1 && (x * Pow(2, e)) % p == 0
    ensures x % p == 0
    decreases e
  {
    if e > 0 {
      Swap(x, 2, Pow(2, e - 1));
      Assoc(2, x, Pow(2, e - 1));
      OddDivides(2 * x, p, e - 1);
      HalfDivides(x, p);
    } else {
      assert Pow(2, 0) == 1;
    }
  }

  // The leading digit.

  /** For an even significand the first digit overflows or not regardless of the lower end: a 9 with the remainder on
      the lower end would make c * f - 1 one of 9, 18 and 27. */
  lemma OverflowIgnoresLowerEnd(f: nat, e: nat, closer: bool, exp10: nat)
    requires f > 0 && f % 2 == 0
    ensures var n0, d := Numer(f, e, exp10) * ScaleFactor(closer), Denom(e, exp10) * ScaleFactor(closer);
      var upper := if closer then 2 * Unit(e, exp10) else Unit(e, exp10);
      d > 0 && (FirstDigitOverflows(n0, d, Unit(e, exp10), upper, true, true)
                <==> FirstDigitOverflows(n0, d, Unit(e, exp10), upper, false, true))
  {
    hide Pow, Unit;
    var unit, c, d0 := Unit(e, exp10), ScaleFactor(closer), Denom(e, exp10);
    var n0, d := f * unit * c, d0 * c;
    MulStrict(c, 0, d0);
    var q, r := n0 / d, n0 % d;
    assert n0 == d * q + r;
    if q == 9 && r == unit && d <= r + (if closer then 2 * unit else unit) {
      SwapLast(f, unit, c);
      PlusTimes(f * c, -1, unit);
      assert (f * c - 1) * unit == 9 * d;
      NineDivides(f * c - 1, e, exp10, d);
      NineTimes((f * c - 1) / 9, unit, d, if closer then 3 else 2);
    }
  }

  lemma NineDivides(x: int, e: nat, exp10: nat, d: nat)
    requires x * Unit(e, exp10) == 9 * d
    ensures x % 9 == 0
  {
    assert Pow(10, 0) == 1;
    DivModUnique(9 * d, 9, d, 0);
    OddDivides(x, 9, e);
  }

  lemma NineTimes(t: int, unit: nat, d: nat, limit: nat)
    requires (9 * t) * unit == 9 * d && 0 < d <= limit * unit
    ensures 0 < t <= limit
  {
    Assoc(9, t, unit);
    assert t * unit == d;
    if t > limit {
      MulStrictLeft(limit, t, unit, d);
    }
    if t <= 0 {
      ProductOrder(t, 0, unit);
    }
  }

  lemma MulStrictLeft(x: int, y: int, unit: nat, d: nat)
    requires x < y && d > 0 && y * unit == d
    ensures x * unit < d
  {
    if unit == 0 {
      assert false;
    } else {
      MulStrict(unit, x, y);
    }
  }

  // The nearest decimal.

  lemma TooLarge(a: int, p: int, t: int)
    requires a >= 2 && 0 < p && t <= p
    ensures a * p != t
  {
    ProductOrder(2, a, p);
  }

  lemma NotEqualTimes(a: int, b: int, p: int, t: int)
    requires a != b && p > 0 && t == b * p
    ensures a * p != t
  {
    MulCancel(p, a, b);
  }

  lemma TwoModFive(two: int, ten: int)
    requires two % 5 != 0 && ten % 5 == 0
    ensures two != ten
  {
  }

  /** A power of ten with more factors of two is not a power of ten. */
  lemma NoPowerOfTen(e: nat, i: nat, exp10: nat)
    requires e > 0
    ensures Pow(2, e) * Pow(10, i) != Pow(10, exp10)
  {
    TwoAtLeast(e);
    hide Pow;
    PowPositive(10, i);
    if i >= exp10 {
      PowMonotone(10, exp10, i);
      TooLarge(Pow(2, e), Pow(10, i), Pow(10, exp10));
    } else {
      var m := exp10 - i;
      PowAdd(10, m, i);
      PowOfTwoModFive(e);
      TenModFive(m);
      TwoModFive(Pow(2, e), Pow(10, m));
      NotEqualTimes(Pow(2, e), Pow(10, m), Pow(10, i), Pow(10, exp10));
    }
  }

  lemma TwoAtLeast(e: nat)
    requires e > 0
    ensures Pow(2, e) >= 2
  {
    PowPositive(2, e - 1);
  }

  lemma TenModFive(m: nat)
    requires m > 0
    ensures Pow(10, m) % 5 == 0
  {
    DivModUnique(Pow(10, m), 5, 2 * Pow(10, m - 1), 0);
  }

  lemma WholeUnits(e: nat, exp10: nat)
    ensures Unit(e, exp10) == Pow(2, e) && Denom(e, exp10) == Pow(10, exp10)
  {
    assert Pow(10, 0) == 1 && Pow(2, 0) == 1;
  }

  /** With equal distances, the decimal on the lower end can only be as near as the one taken. */
  lemma AwayIsHalfway(n0: nat, d: nat, unit: nat, i: nat, k: int)
    requires d > 0 && unit * Pow(10, i) > 0
    requires InInterval(n0, d, unit, unit, i, k, false, true)
    requires IsClosest(n0, d, unit, unit, i, k, false, true)
    requires RoundsAway(n0, d, unit, i)
    ensures 2 * (unit * Pow(10, i)) == d
  {
    hide Pow;
    var m := (n0 * Pow(10, i)) / d;
    assert n0 * Pow(10, i) == m * d + unit * Pow(10, i);
    PlusTimes(m, 1, d);
  }

  /** When both distances are equal, the nearest decimal is never lost. */
  lemma NeverRoundsAway(f: nat, e: nat, exp10: nat, i: nat, k: int)
    requires f > 0 && e > 0
    requires var n0, d, unit := Numer(f, e, exp10) * 2, Denom(e, exp10) * 2, Unit(e, exp10);
      && InInterval(n0, d, unit, unit, i, k, false, true)
      && IsClosest(n0, d, unit, unit, i, k, false, true)
    ensures !RoundsAway(Numer(f, e, exp10) * 2, Denom(e, exp10) * 2, Unit(e, exp10), i)
  {
    hide RoundsAway, IsClosest, InInterval, Unit, Denom, Numer;
    var n0, d, unit := Numer(f, e, exp10) * 2, Denom(e, exp10) * 2, Unit(e, exp10);
    WholeUnits(e, exp10);
    PowPositive(2, e);
    PositiveTimes(unit, i);
    NoPowerOfTen(e, i, exp10);
    if RoundsAway(n0, d, unit, i) {
      AwayIsHalfway(n0, d, unit, i, k);
    }
  }

  // The shorter decimal.

  /** The condition in whole numbers: 2 * f - 1 has factors of five enough to make up for those of the power of ten, and
      the float's unit is less than one at that place. */
  ghost predicate LosesShorterOf(f: nat, e: nat, exp10: nat) {
    exists j: nat :: LosesAt(f, e, exp10, j)
  }

  ghost predicate LosesAt(f: nat, e: nat, exp10: nat, j: nat) {
    && j < exp10
    && (PowPositive(5, exp10 - j); (2 * f - 1) % Pow(5, exp10 - j) == 0)
    && Pow(2, e) * Pow(10, j) < Pow(10, exp10)
  }

  lemma CancelMultiple(x: int, d: nat, p: nat)
    requires d > 0 && p > 0
    ensures d * p > 0 && ((x * p) % (d * p) == 0 <==> x % d == 0)
  {
    MulStrict(d, 0, p);
    var q := (x * p) / (d * p);
    assert x * p == (d * p) * q + (x * p) % (d * p);
    SwapLast(d, p, q);
    if (x * p) % (d * p) == 0 {
      MulCancel(p, x, d * q);
      DivModUnique(x, d, q, 0);
    }
    if x % d == 0 {
      var t := x / d;
      assert x == d * t;
      SwapLast(d, t, p);
      DivModUnique(x * p, d * p, t, 0);
    }
  }

  lemma FivesNeeded(x: int, e: nat, m: nat)
    requires Pow(5, m) > 0 && Pow(10, m) == Pow(5, m) * Pow(2, m) > 0
    requires (x * Pow(2, e)) % (2 * Pow(10, m)) == 0
    ensures x % Pow(5, m) == 0
  {
    hide Pow;
    PowOfFiveIsOdd(m);
    var five, y := Pow(5, m), x * Pow(2, e);
    var q := y / (2 * Pow(10, m));
    assert y == (2 * Pow(10, m)) * q;
    FiveFactor(five, Pow(2, m), q);
    DivModUnique(y, five, (2 * Pow(2, m)) * q, 0);
    OddDivides(x, five, e);
  }

  lemma FiveFactor(five: int, two: int, q: int)
    ensures (2 * (five * two)) * q == ((2 * two) * q) * five
  {
    Swap(2, five, two);
    Assoc(five, 2 * two, q);
  }

  /** With enough factors of two around, only the factors of five count. */
  lemma OnlyFivesCount(x: int, e: nat, m: nat)
    requires e > m
    ensures Pow(5, m) > 0 && Pow(10, m) > 0
    ensures (x * Pow(2, e)) % (2 * Pow(10, m)) == 0 <==> x % Pow(5, m) == 0
  {
    PowPositive(5, m);
    PowPositive(10, m);
    PowProduct(5, 2, m);
    PowAdd(2, m + 1, e - m - 1);
    assert Pow(2, m + 1) == 2 * Pow(2, m);
    hide Pow;
    if (x * Pow(2, e)) % (2 * Pow(10, m)) == 0 {
      FivesNeeded(x, e, m);
    }
    if x % Pow(5, m) == 0 {
      FivesSuffice(x, Pow(5, m), x / Pow(5, m), Pow(2, m), Pow(2, e - m - 1), Pow(10, m));
    }
  }

  lemma FivesSuffice(x: int, five: int, t: int, two: int, rest: int, ten: int)
    requires x == five * t && ten == five * two && ten > 0
    ensures (x * ((2 * two) * rest)) % (2 * ten) == 0
  {
    assert x * ((2 * two) * rest) == (2 * ten) * (t * rest) by {
      FourProduct(five, t, two, rest);
    }
    DivModUnique(x * ((2 * two) * rest), 2 * ten, t * rest, 0);
  }

  lemma FourProduct(five: int, t: int, two: int, rest: int)
    ensures (five * t) * ((2 * two) * rest) == (2 * (five * two)) * (t * rest)
  {
    FourFactors(five, t, 2 * two, rest);
    Swap(five, 2, two);
  }

  lemma PlaceBelow(e: nat, exp10: nat, j: nat)
    requires Pow(2, e) * Pow(10, j) < Pow(10, exp10)
    ensures j < exp10
  {
    PowPositive(2, e);
    PowPositive(10, j);
    if j >= exp10 {
      PowMonotone(10, exp10, j);
      ProductOrder(1, Pow(2, e), Pow(10, j));
    }
  }

  lemma OnePlace(f: nat, e: nat, exp10: nat, j: nat)
    requires f > 0 && e > exp10
    ensures var n0, d, unit := Numer(f, e, exp10) * 2, Denom(e, exp10) * 2, Unit(e, exp10);
      OnLowerEnd(n0, d, unit, j) && unit * Pow(10, j) + unit * Pow(10, j) < d <==> LosesAt(f, e, exp10, j)
  {
    hide Pow, Unit, Denom;
    WholeUnits(e, exp10);
    var two, ten := Pow(2, e), Pow(10, j);
    if two * ten < Pow(10, exp10) {
      PlaceBelow(e, exp10, j);
      var m := exp10 - j;
      OnlyFivesCount(2 * f - 1, e, m);
      PowAdd(10, m, j);
      PowPositive(10, j);
      Assoc(2, Pow(10, m), ten);
      CancelMultiple((2 * f - 1) * two, 2 * Pow(10, m), ten);
      LowerEndProduct(f, two, ten);
    }
  }

  lemma LowerEndProduct(f: nat, two: int, ten: int)
    ensures ((f * two) * 2) * ten - two * ten == ((2 * f - 1) * two) * ten
  {
    PlusTimes(2 * f, -1, two);
    PlusTimes((2 * f) * two, -two, ten);
    SwapLast(f, two, 2);
    Swap(2, f, two);
  }

  /** For equal distances, the loss in whole numbers. */
  lemma LosesShorterMeaning(f: nat, e: nat, exp10: nat)
    requires f > 0 && e > exp10
    ensures LosesShorter(Numer(f, e, exp10) * 2, Denom(e, exp10) * 2, Unit(e, exp10), Unit(e, exp10))
            <==> LosesShorterOf(f, e, exp10)
  {
    hide OnLowerEnd, LosesAt, Numer, Denom, Unit;
    var n0, d, unit := Numer(f, e, exp10) * 2, Denom(e, exp10) * 2, Unit(e, exp10);
    if LosesShorter(n0, d, unit, unit) {
      var j: nat :| OnLowerEnd(n0, d, unit, j) && unit * Pow(10, j) + unit * Pow(10, j) < d;
      OnePlace(f, e, exp10, j);
    }
    if LosesShorterOf(f, e, exp10) {
      var j: nat :| LosesAt(f, e, exp10, j);
      OnePlace(f, e, exp10, j);
    }
  }

  // A closer predecessor.

  lemma CloserPlace(e: nat, exp10: nat, j: nat)
    requires e >= 2 && Pow(2, e) * Pow(10, j) < Pow(10, exp10) * 4
    ensures j < exp10
  {
    PowPositive(10, j);
    PowPositive(2, e - 2);
    assert Pow(2, e) == 2 * Pow(2, e - 1) == 4 * Pow(2, e - 2);
    hide Pow;
    if j >= exp10 {
      PowMonotone(10, exp10, j);
      ProductOrder(4, Pow(2, e), Pow(10, j));
    }
  }

  lemma CloserProduct(f: nat, two: int, ten: int)
    ensures ((f * two) * 4) * ten - two * ten == ((4 * f - 1) * two) * ten
  {
    PlusTimes(4 * f, -1, two);
    PlusTimes((4 * f) * two, -two, ten);
    SwapLast(f, two, 4);
    Swap(4, f, two);
  }

  lemma FiveDivides(x: int, e: nat, m: nat)
    requires m > 0 && Pow(10, m) > 0 && (x * Pow(2, e)) % (4 * Pow(10, m)) == 0
    ensures x % 5 == 0
  {
    var y, q := x * Pow(2, e), (x * Pow(2, e)) / (4 * Pow(10, m));
    var tens := Pow(10, m - 1);
    assert Pow(10, m) == 10 * tens;
    hide Pow;
    assert y == (40 * tens) * q;
    Assoc(40, tens, q);
    DivModUnique(y, 5, 8 * (tens * q), 0);
    OddDivides(x, 5, e);
  }

  /** When the predecessor is closer, a decimal on the lower end makes 4 * f - 1 a multiple of 5. */
  lemma FiveOnLowerEnd(f: nat, e: nat, exp10: nat, j: nat)
    requires f > 0 && e >= 2
    requires var n0, d, unit := Numer(f, e, exp10) * 4, Denom(e, exp10) * 4, Unit(e, exp10);
      OnLowerEnd(n0, d, unit, j) && unit * Pow(10, j) < d
    ensures (4 * f - 1) % 5 == 0
  {
    WholeUnits(e, exp10);
    CloserPlace(e, exp10, j);
    hide Pow, Unit, Denom;
    var two, ten, m := Pow(2, e), Pow(10, j), exp10 - j;
    PowAdd(10, m, j);
    PowPositive(10, j);
    PowPositive(10, m);
    Assoc(4, Pow(10, m), ten);
    CloserProduct(f, two, ten);
    CancelMultiple((4 * f - 1) * two, 4 * Pow(10, m), ten);
    FiveDivides(4 * f - 1, e, m);
  }

  lemma PowTimes(b: nat, m: nat, n: nat, x: nat, y: nat)
    requires Pow(b, m) == x && Pow(b, n) == y
    ensures Pow(b, m + n) == x * y
  {
    PowAdd(b, m, n);
  }

  lemma ExamplePowers()
    ensures Pow(2, 40) == 0x100_0000_0000 && Pow(10, 27) == 1_000_000_000_000_000_000_000_000_000
    ensures Pow(10, 5) == 100_000 && Pow(5, 22) == 2_384_185_791_015_625
  {
    assert Pow(2, 1) == 2 && Pow(2, 2) == 4 && Pow(2, 3) == 8 && Pow(2, 4) == 16 && Pow(2, 5) == 32;
    PowTimes(2, 5, 5, 32, 32);
    PowTimes(2, 10, 10, 0x400, 0x400);
    PowTimes(2, 20, 20, 0x10_0000, 0x10_0000);
    assert Pow(10, 1) == 10 && Pow(10, 2) == 100 && Pow(10, 3) == 1000;
    PowTimes(10, 2, 3, 100, 1000);
    PowTimes(10, 3, 3, 1000, 1000);
    PowTimes(10, 6, 6, 1_000_000, 1_000_000);
    PowTimes(10, 12, 12, 1_000_000_000_000, 1_000_000_000_000);
    PowTimes(10, 24, 3, 1_000_000_000_000_000_000_000_000, 1000);
    assert Pow(5, 1) == 5 && Pow(5, 2) == 25 && Pow(5, 3) == 125;
    PowTimes(5, 2, 3, 25, 125);
    PowTimes(5, 5, 5, 3125, 3125);
    PowTimes(5, 10, 1, 9_765_625, 5);
    PowTimes(5, 11, 11, 48_828_125, 48_828_125);
  }

  /** 917504 * 10^22 is half a unit below 8344650268554688 * 2^40, and so it is in the interval of this even
      significand. The decimal found in its place has more than its six digits. */
  lemma LowerEndExample()
    ensures var f, e, exp10 := 8344650268554688, 40, 27;
      var n0, d, unit := Numer(f, e, exp10) * 2, Denom(e, exp10) * 2, Unit(e, exp10);
      && f % 2 == 0 && !UnitIsLow(e, exp10) && Numer(f, e, exp10) < 10 * Denom(e, exp10)
      && LosesShorterOf(f, e, exp10)
      && InInterval(n0, d, unit, unit, 5, 917504, true, true)
      && forall buf, exp :: IsShortest(n0, d, unit, unit, false, true, exp10, buf, exp) ==> |buf| > 6
  {
    ExampleRange();
    ExampleLoses();
    ExampleOnEnd();
    ExampleIsLonger();
  }

  lemma ExampleRange()
    ensures Numer(8344650268554688, 40, 27) < 10 * Denom(40, 27)
  {
    ExamplePowers();
    WholeUnits(40, 27);
  }

  lemma ExampleLoses()
    ensures LosesAt(8344650268554688, 40, 27, 5)
  {
    ExamplePowers();
  }

  lemma ExampleOnEnd()
    ensures InInterval(Numer(8344650268554688, 40, 27) * 2, Denom(40, 27) * 2, Unit(40, 27), Unit(40, 27),
                       5, 917504, true, true)
  {
    ExamplePowers();
    WholeUnits(40, 27);
  }

  lemma ExampleIsLonger()
    ensures var n0, d, unit := Numer(8344650268554688, 40, 27) * 2, Denom(40, 27) * 2, Unit(40, 27);
      forall buf, exp :: IsShortest(n0, d, unit, unit, false, true, 27, buf, exp) ==> |buf| > 6
  {
    hide Unit, Denom, Numer, OnLowerEnd, LosesAt;
    var n0, d, unit := Numer(8344650268554688, 40, 27) * 2, Denom(40, 27) * 2, Unit(40, 27);
    ExampleLoses();
    OnePlace(8344650268554688, 40, 27, 5);
    WholeUnitPositive(40, 27);
    forall buf, exp | IsShortest(n0, d, unit, unit, false, true, 27, buf, exp)
      ensures |buf| > 6
    {
      LostIsShorter(n0, d, unit, unit, |buf| - 1, Spelled(buf), 5);
    }
  }

  lemma WholeUnitPositive(e: nat, exp10: nat)
    ensures Unit(e, exp10) > 0
  {
    WholeUnits(e, exp10);
    PowPositive(2, e);
  }
}
