/** format_dragon from its inputs: the float f * 2^e and an estimate exp10 of its decimal exponent. */
module FormatDragon {
  import opened Powers
  import opened Bignum
  import opened Decimal
  import opened DragonSetup
  import opened Dragon
  import opened DragonShortest
  import opened LowerEnd
  import opened LowerEndInputs

  /** Distance to the upper boundary: twice the lower one when the predecessor is closer. */
  ghost function UpperUnit(e: int, closer: bool, exp10: int): nat {
    if closer then 2 * Unit(e, exp10) else Unit(e, exp10)
  }

  /** The ends of the rounding interval belong to it, as is right for an even significand. */
  ghost predicate IsIdeal(f: nat, e: int, closer: bool, exp10: int, buf: seq<char>, exp: int) {
    ShortestWith(f, e, closer, exp10, f % 2 == 0, buf, exp)
  }

  ghost predicate ShortestWith(f: nat, e: int, closer: bool, exp10: int, lowEnd: bool, buf: seq<char>, exp: int) {
    IsShortest(Numer(f, e, exp10) * ScaleFactor(closer), PositiveProduct(Denom(e, exp10), ScaleFactor(closer)),
               Unit(e, exp10), UpperUnit(e, closer, exp10), lowEnd, f % 2 == 0, exp10, buf, exp)
  }

  /** A shorter decimal on the lower end is lost. LosesShorterMeaning has the condition in whole numbers. */
  ghost predicate LosesDigits(f: nat, e: int, closer: bool, exp10: int) {
    LosesShorter(Numer(f, e, exp10) * ScaleFactor(closer), PositiveProduct(Denom(e, exp10), ScaleFactor(closer)),
                 Unit(e, exp10), UpperUnit(e, closer, exp10))
  }

  /** The decimal on the lower end would have been the one of the shortest length to round to. */
  ghost predicate LosesNearer(f: nat, e: int, closer: bool, exp10: int) {
    LosesNearest(Numer(f, e, exp10) * ScaleFactor(closer), PositiveProduct(Denom(e, exp10), ScaleFactor(closer)),
                 Unit(e, exp10), UpperUnit(e, closer, exp10))
  }

  /** In whole numbers, for a predecessor that is not closer: which inputs get more digits than they need. */
  ghost predicate GetsMoreDigits(f: nat, e: int, exp10: int) {
    f % 2 == 0 && e >= 0 && exp10 >= 0 && !UnitIsLow(e, exp10) && LosesShorterOf(f, e, exp10)
  }

  /**
   The callers give an exponent estimate that is not too small: the number is below
   10^(exp10 + 1). A negative numDigits asks for the shortest form. That form is ideal unless
   the significand is even, its unit is too high for the comparison with the lower end, and
   a decimal lies on that end in one of two ways. With a closer predecessor that takes a
   significand unlike those for which the callers say so (OnlyImplicitBit).
   */
  method Format(f: U64, e: I32, closer: bool, numDigits: I32, exp10: I32) returns (buf: seq<char>, exp: int)
    requires 0 < f && f * ScaleFactor(closer) < 0x1_0000_0000_0000_0000
    requires -0x4000_0000 < e < 0x4000_0000 && -0x4000_0000 < exp10 < 0x4000_0000
    requires e >= 0 ==> exp10 >= 0
    requires Numer(f, e, exp10) < 10 * Denom(e, exp10)
    ensures numDigits >= 0 ==>
      IsRounding(Numer(f, e, exp10), Denom(e, exp10), numDigits, exp10, buf, exp)
    ensures numDigits < 0 ==>
      |buf| > 0 && ShortestWith(f, e, closer, exp10, f % 2 == 0 && UnitIsLow(e, exp10), buf, exp)
    ensures numDigits < 0 ==>
      (IsIdeal(f, e, closer, exp10, buf, exp) <==>
        f % 2 != 0 || UnitIsLow(e, exp10)
        || (!LosesDigits(f, e, closer, exp10) && !(closer && LosesNearer(f, e, closer, exp10))))
    ensures numDigits < 0 && !closer ==> (IsIdeal(f, e, closer, exp10, buf, exp) <==> !GetsMoreDigits(f, e, exp10))
    ensures numDigits < 0 && closer && (4 * f - 1) % 5 != 0 ==> IsIdeal(f, e, closer, exp10, buf, exp)
  {
    hide IsShortest, Numer, Denom, Unit, LosesShorter, LosesNearest;
    var n := new Bigint();
    var d := new Bigint();
    var lower := new Bigint();
    var upperStore := new Bigint();
    ghost var t := SetUp(f, e, closer, exp10, n, d, lower, upperStore);
    ghost var n0, d0, c := Numer(f, e, exp10), Denom(e, exp10), ScaleFactor(closer);
    ReadyToDivide(n, d, lower, upperStore, f, e, closer, exp10, t);
    if numDigits < 0 {
      var upper := if closer then upperStore else lower;
      buf, exp := ShortestDigits(n, d, lower, upper, t, f % 2 == 0, exp10, UnitIsLow(e, exp10));
      NotEmpty(n0 * c, d0 * c, Unit(e, exp10), UpperUnit(e, closer, exp10), f % 2 == 0 && UnitIsLow(e, exp10),
               f % 2 == 0, exp10, buf, exp);
      if f % 2 == 0 && !UnitIsLow(e, exp10) {
        IdealIff(f, e, closer, exp10, buf, exp);
        LossInNumbers(f, e, closer, exp10);
      }
      return;
    }
    buf, exp := FixedDigits(n, d, t, numDigits, exp10);
    UnscaleRounding(n0, d0, c, numDigits, exp10, buf, exp);
  }

  lemma NotEmpty(n0: nat, d: nat, lower0: nat, upper0: nat, lowEnd: bool, even: bool, exp10: int,
                 buf: seq<char>, exp: int)
    requires d > 0 && IsShortest(n0, d, lower0, upper0, lowEnd, even, exp10, buf, exp)
    ensures |buf| > 0
  {
  }

  lemma IdealIff(f: nat, e: int, closer: bool, exp10: int, buf: seq<char>, exp: int)
    requires f > 0 && f % 2 == 0 && e >= 0 && exp10 >= 0 && !UnitIsLow(e, exp10)
    requires |buf| > 0 && ShortestWith(f, e, closer, exp10, false, buf, exp)
    ensures IsIdeal(f, e, closer, exp10, buf, exp) <==>
            !LosesDigits(f, e, closer, exp10) && !(closer && LosesNearer(f, e, closer, exp10))
  {
    hide Numer, Denom, Unit, LosesShorter, LosesNearest, RoundsAway, FirstDigitOverflows, NoShorter, IsClosest;
    OverflowIgnoresLowerEnd(f, e, closer, exp10);
    UnitPositive(f, e, exp10);
    ShortestLostIff(Numer(f, e, exp10) * ScaleFactor(closer), PositiveProduct(Denom(e, exp10), ScaleFactor(closer)),
                    Unit(e, exp10), UpperUnit(e, closer, exp10), exp10, buf, exp);
    AtShortestLength(Numer(f, e, exp10) * ScaleFactor(closer),
                     PositiveProduct(Denom(e, exp10), ScaleFactor(closer)),
                     Unit(e, exp10), UpperUnit(e, closer, exp10), |buf| - 1, Spelled(buf));
    if !closer {
      NeverRoundsAway(f, e, exp10, |buf| - 1, Spelled(buf));
    }
  }

  /** The two ways of losing a decimal, in whole numbers. */
  lemma LossInNumbers(f: nat, e: int, closer: bool, exp10: int)
    requires f > 0 && f % 2 == 0 && e >= 0 && exp10 >= 0 && !UnitIsLow(e, exp10)
    ensures !closer ==> (LosesDigits(f, e, closer, exp10) <==> GetsMoreDigits(f, e, exp10))
    ensures closer && (LosesDigits(f, e, closer, exp10) || LosesNearer(f, e, closer, exp10)) ==> (4 * f - 1) % 5 == 0
  {
    hide Numer, Denom, Unit, OnLowerEnd, RoundsAway, LosesShorterOf, NoShorter, HasDecimal;
    if !closer {
      LosesShorterMeaning(f, e, exp10);
    } else {
      var n0, d, unit := Numer(f, e, exp10) * 4, PositiveProduct(Denom(e, exp10), 4), Unit(e, exp10);
      if LosesDigits(f, e, closer, exp10) {
        var j: nat :| OnLowerEnd(n0, d, unit, j) && unit * Pow(10, j) + (2 * unit) * Pow(10, j) < d;
        Assoc(2, unit, Pow(10, j));
        PositiveUnit(f, e, exp10, j);
        FiveOnLowerEnd(f, e, exp10, j);
      }
      if LosesNearer(f, e, closer, exp10) {
        var i: nat :| RoundsAwayAt(n0, d, unit, 2 * unit, i);
        AwayIsOnEnd(n0, d, unit, i);
        FiveOnLowerEnd(f, e, exp10, i);
      }
    }
  }

  lemma PositiveUnit(f: nat, e: int, exp10: int, j: nat)
    requires f > 0
    ensures Unit(e, exp10) * Pow(10, j) > 0
  {
    UnitPositive(f, e, exp10);
    PositiveTimes(Unit(e, exp10), j);
  }

  lemma AwayIsOnEnd(n0: nat, d: nat, lower0: nat, i: nat)
    requires d > 0 && RoundsAway(n0, d, lower0, i)
    ensures OnLowerEnd(n0, d, lower0, i) && lower0 * Pow(10, i) < d
  {
    hide Pow, RoundHalfEven;
    var x := n0 * Pow(10, i);
    DivModUnique(x - lower0 * Pow(10, i), d, x / d, 0);
  }

  /** The predecessor is closer for the smallest significand of 53 or 24 bits only, and there nothing is lost. */
  lemma OnlyImplicitBit(k: nat)
    requires k == 52 || k == 23
    ensures (4 * Pow(2, k) - 1) % 5 != 0
  {
    PowTimes(2, 2, 2, 4, 4);
    PowTimes(2, 4, 4, 16, 16);
    PowTimes(2, 8, 8, 0x100, 0x100);
    PowTimes(2, 16, 16, 0x1_0000, 0x1_0000);
    PowTimes(2, 32, 16, 0x1_0000_0000, 0x1_0000);
    PowTimes(2, 48, 4, 0x1_0000_0000_0000, 16);
    PowTimes(2, 16, 4, 0x1_0000, 16);
    PowTimes(2, 20, 2, 0x10_0000, 4);
    PowTimes(2, 22, 1, 0x40_0000, 2);
  }

  ghost function PositiveProduct(a: nat, b: nat): (p: nat)
    requires a > 0 && b > 0
    ensures p > 0
  {
    MulStrict(a, 0, b);
    a * b
  }

  lemma ReadyToDivide(n: Bigint, d: Bigint, lower: Bigint, upper: Bigint,
                      f: nat, e: int, closer: bool, exp10: int, t: nat)
    requires Distinct(n, d, lower, upper) && 0 < f
    requires IsSetUp(n, d, lower, upper, f, e, closer, exp10, t)
    requires (e >= 0 ==> exp10 >= 0) && Numer(f, e, exp10) < 10 * Denom(e, exp10)
    ensures Dividing(n, d, t)
    ensures Boundaries(n, d, lower, if closer then upper else lower)
    ensures TieCase(n, d, lower, UnitIsLow(e, exp10))
  {
    UnitPositive(f, e, exp10);
    UnitAndDenomExp(f, e, closer, exp10);
    AboveUnit(f, Unit(e, exp10), ScaleFactor(closer));
    var n0, d0, c := Numer(f, e, exp10), Denom(e, exp10), ScaleFactor(closer);
    MulStrict(c, 0, n0);
    MulStrict(c, 0, d0);
    MulStrict(c, n0, 10 * d0);
    Digits.ScaledZero(n.bigits, n.exp);
    Digits.ScaledZero(d.bigits, d.exp);
  }

  lemma AboveUnit(f: nat, unit: nat, c: nat)
    requires f > 0 && unit > 0 && c > 1
    ensures (f * unit) * c > unit
  {
    ProductOrder(1, f, unit);
    MulStrict(f * unit, 1, c);
  }

  lemma UnitPositive(f: nat, e: int, exp10: int)
    requires f > 0
    ensures Unit(e, exp10) > 0 && Numer(f, e, exp10) > 0
  {
    PowPositive(2, Max(e, 0));
    PowPositive(10, Max(-exp10, 0));
    MulStrict(Pow(2, Max(e, 0)), 0, Pow(10, Max(-exp10, 0)));
    MulStrict(Unit(e, exp10), 0, f);
  }

  lemma UnscaleRounding(n0: nat, d0: nat, c: nat, numDigits: nat, exp10: int, buf: seq<char>, exp: int)
    requires d0 > 0 && c > 0 && d0 * c > 0
    requires IsRounding(n0 * c, d0 * c, numDigits, exp10, buf, exp)
    ensures IsRounding(n0, d0, numDigits, exp10, buf, exp)
  {
    if numDigits == 0 {
      RoundScaled(n0, 10 * d0, c);
      Assoc(10, d0, c);
    } else {
      var p := Pow(10, numDigits - 1);
      RoundScaled(n0 * p, d0, c);
      SwapLast(n0, c, p);
    }
  }
}
