/**
 The start of format_dragon: the number to print as an exact ratio of big numbers.
 The ratio is numerator / denominator times ten to the power exp10.
 */
module DragonSetup {
  import opened Powers
  import opened Digits
  import opened Bignum

  /** One unit in the last place of the significand, as a numerator. */
  ghost function Unit(e: int, exp10: int): nat {
    PowPositive(2, Max(e, 0));
    PowPositive(10, Max(-exp10, 0));
    Pow(2, Max(e, 0)) * Pow(10, Max(-exp10, 0))
  }

  ghost function Numer(f: nat, e: int, exp10: int): nat {
    f * Unit(e, exp10)
  }

  /** f * 2^e == Numer / Denom * 10^exp10, as the lemma ExactRatio says. */
  ghost function Denom(e: int, exp10: int): (d: nat)
    ensures d > 0
  {
    PowPositive(2, Max(-e, 0));
    PowPositive(10, Max(exp10, 0));
    MulStrict(Pow(2, Max(-e, 0)), 0, Pow(10, Max(exp10, 0)));
    Pow(2, Max(-e, 0)) * Pow(10, Max(exp10, 0))
  }

  /** Clearing the denominators of f * 2^e == Numer / Denom * 10^exp10. */
  lemma ExactRatio(f: nat, e: int, exp10: int)
    ensures f * Pow(2, Max(e, 0)) * Pow(10, Max(-exp10, 0)) * Denom(e, exp10)
      == Numer(f, e, exp10) * Pow(10, Max(exp10, 0)) * Pow(2, Max(-e, 0))
  {
    var a, b, c, d := Pow(2, Max(e, 0)), Pow(10, Max(-exp10, 0)), Pow(2, Max(-e, 0)), Pow(10, Max(exp10, 0));
    Assoc(f, a, b);
    Assoc(Numer(f, e, exp10), d, c);
  }

  /** The extra factor that makes the distances to the neighbouring boundaries whole. */
  function ScaleShift(closer: bool): nat {
    if closer then 2 else 1
  }

  function ScaleFactor(closer: bool): nat {
    if closer then 4 else 2
  }

  /** Why comparing before aligning is safe: the exponents are in order, or a number t divides
      one operand but not the other, so they cannot be equal. */
  ghost predicate CannotTie(n: Bigint, d: Bigint, t: nat)
    reads n, d
  {
    n.exp <= d.exp || Separates(t, n.Value(), d.Value())
  }

  ghost predicate Separates(t: nat, n: nat, d: nat) {
    t > 0 && n % t == 0 && d % t != 0
  }

  ghost predicate Distinct(n: Bigint, d: Bigint, lower: Bigint, upper: Bigint) {
    n != d && n != lower && n != upper && d != lower && d != upper && lower != upper
  }

  ghost predicate IsSetUp(n: Bigint, d: Bigint, lower: Bigint, upper: Bigint,
                          f: nat, e: int, closer: bool, exp10: int, t: nat)
    reads n, d, lower, upper
  {
    && n.IsTrimmed() && d.IsTrimmed() && lower.IsTrimmed()
    && n.Value() == Numer(f, e, exp10) * ScaleFactor(closer)
    && d.Value() == Denom(e, exp10) * ScaleFactor(closer)
    && lower.Value() == Unit(e, exp10)
    && (closer ==> upper.IsTrimmed() && upper.Value() == 2 * Unit(e, exp10))
    && CannotTie(n, d, t)
    && n.exp == lower.exp == UnitExp(e, exp10) && d.exp == DenomExp(e, closer, exp10)
  }

  /** The exponents of the big numbers after the set-up: implicit zero digits. */
  function UnitExp(e: int, exp10: int): nat {
    if e >= 0 then e / 32 else if exp10 < 0 then -exp10 / 32 else 0
  }

  function DenomExp(e: int, closer: bool, exp10: int): nat {
    if e >= 0 then Max(exp10, 0) / 32
    else if exp10 < 0 then (ScaleShift(closer) - e) / 32
    else exp10 / 32 + (ScaleShift(closer) - e) / 32
  }

  /** Whether the distance to the boundaries has no more implicit zero digits than the denominator. */
  predicate UnitIsLow(e: int, exp10: int) {
    !(e >= 0 && e / 32 > exp10 / 32)
  }

  lemma UnitAndDenomExp(f: nat, e: int, closer: bool, exp10: int)
    requires f > 0 && (e >= 0 ==> exp10 >= 0) && Numer(f, e, exp10) < 10 * Denom(e, exp10)
    ensures UnitExp(e, exp10) <= DenomExp(e, closer, exp10) <==> UnitIsLow(e, exp10)
  {
    if e < 0 && exp10 < 0 {
      SmallEstimate(f, -e, -exp10);
      assert Unit(e, exp10) == Pow(10, -exp10) by {
        SmallValues(f, e, closer, exp10);
      }
      assert Pow(10, 0) == 1;
    }
  }

  /** A small number's decimal exponent is no larger than its binary one. */
  lemma SmallEstimate(f: nat, m: nat, k: nat)
    requires f > 0 && k > 0 && f * Pow(10, k) < 10 * Pow(2, m)
    ensures k <= m
  {
    ProductOrder(1, f, Pow(10, k));
    assert Pow(10, k) == 10 * Pow(10, k - 1);
    if k > m {
      PowMonotone(10, m, k - 1);
      PowBases(m);
    }
  }

  lemma {:induction false} PowBases(m: nat)
    ensures Pow(2, m) <= Pow(10, m)
  {
    if m > 0 {
      PowBases(m - 1);
      PowPositive(2, m - 1);
    }
  }

  method SetUp(f: U64, e: I32, closer: bool, exp10: I32,
               n: Bigint, d: Bigint, lower: Bigint, upper: Bigint) returns (ghost t: nat)
    requires Distinct(n, d, lower, upper)
    requires 0 < f && f * ScaleFactor(closer) < 0x1_0000_0000_0000_0000
    requires -0x4000_0000 < e < 0x4000_0000 && -0x4000_0000 < exp10 < 0x4000_0000
    requires e >= 0 ==> exp10 >= 0
    modifies n, d, lower, upper
    ensures IsSetUp(n, d, lower, upper, f, e, closer, exp10, t)
  {
    if e >= 0 {
      t := SetUpWhole(f, e, closer, exp10, n, d, lower, upper);
    } else if exp10 < 0 {
      t := SetUpSmall(f, e, closer, exp10, n, d, lower, upper);
    } else {
      t := SetUpFraction(f, e, closer, exp10, n, d, lower, upper);
    }
  }

  method SetUpWhole(f: U64, e: I32, closer: bool, exp10: I32,
                    n: Bigint, d: Bigint, lower: Bigint, upper: Bigint) returns (ghost t: nat)
    requires Distinct(n, d, lower, upper)
    requires 0 < f && f * ScaleFactor(closer) < 0x1_0000_0000_0000_0000
    requires 0 <= e < 0x4000_0000 && 0 <= exp10 < 0x4000_0000
    modifies n, d, lower, upper
    ensures IsSetUp(n, d, lower, upper, f, e, closer, exp10, t)
  {
    hide Scaled, Pow, Unit, Numer, Denom;
    var shift := ScaleShift(closer);
    n.AssignWord(f * ScaleFactor(closer));
    n.ShiftLeft(e);
    lower.AssignWord(1);
    lower.ShiftLeft(e);
    if shift != 1 {
      upper.AssignWord(1);
      upper.ShiftLeft(e + 1);
    }
    d.AssignPow10(exp10);
    d.ShiftLeft(shift);
    t := Pow(2, e + shift);
    WholeValues(f, e, closer, exp10);
    if e / 32 > exp10 / 32 {
      WholeCannotTie(f, e, closer, exp10);
    }
  }

  method SetUpSmall(f: U64, e: I32, closer: bool, exp10: I32,
                    n: Bigint, d: Bigint, lower: Bigint, upper: Bigint) returns (ghost t: nat)
    requires Distinct(n, d, lower, upper)
    requires 0 < f && f * ScaleFactor(closer) < 0x1_0000_0000_0000_0000
    requires -0x4000_0000 < e < 0 && -0x4000_0000 < exp10 < 0
    modifies n, d, lower, upper
    ensures IsSetUp(n, d, lower, upper, f, e, closer, exp10, t)
  {
    hide Scaled, Pow, Unit, Numer, Denom;
    var shift := ScaleShift(closer);
    n.AssignPow10(-exp10);
    lower.Assign(n);
    if shift != 1 {
      upper.Assign(n);
      upper.ShiftLeft(1);
    }
    n.Multiply64(f * ScaleFactor(closer));
    d.AssignWord(1);
    d.ShiftLeft(shift - e);
    t := 5;
    SmallValues(f, e, closer, exp10);
    SmallCannotTie(f, e, closer, exp10);
  }

  method SetUpFraction(f: U64, e: I32, closer: bool, exp10: I32,
                       n: Bigint, d: Bigint, lower: Bigint, upper: Bigint) returns (ghost t: nat)
    requires Distinct(n, d, lower, upper)
    requires 0 < f && f * ScaleFactor(closer) < 0x1_0000_0000_0000_0000
    requires -0x4000_0000 < e < 0 && 0 <= exp10 < 0x4000_0000
    modifies n, d, lower, upper
    ensures IsSetUp(n, d, lower, upper, f, e, closer, exp10, t)
  {
    hide Scaled, Pow, Unit, Numer, Denom;
    var shift := ScaleShift(closer);
    n.AssignWord(f * ScaleFactor(closer));
    d.AssignPow10(exp10);
    d.ShiftLeft(shift - e);
    lower.AssignWord(1);
    if shift != 1 {
      upper.AssignWord(2);
    }
    t := 1;
    FractionValues(f, e, closer, exp10);
  }

  lemma ScaleIsPower(closer: bool)
    ensures Pow(2, ScaleShift(closer)) == ScaleFactor(closer)
  {
    assert Pow(2, 1) == 2;
    assert Pow(2, 2) == 4;
  }

  lemma WholeValues(f: nat, e: nat, closer: bool, exp10: nat)
    ensures f * ScaleFactor(closer) * Pow(2, e) == Numer(f, e, exp10) * ScaleFactor(closer)
    ensures Pow(10, exp10) * Pow(2, ScaleShift(closer)) == Denom(e, exp10) * ScaleFactor(closer)
    ensures Unit(e, exp10) == Pow(2, e) && Pow(2, e + 1) == 2 * Pow(2, e)
  {
    ScaleIsPower(closer);
    assert Pow(10, 0) == 1 && Pow(2, 0) == 1;
    SwapLast(f, ScaleFactor(closer), Pow(2, e));
  }

  lemma SmallValues(f: nat, e: int, closer: bool, exp10: int)
    requires e < 0 && exp10 < 0
    ensures Pow(10, -exp10) * (f * ScaleFactor(closer)) == Numer(f, e, exp10) * ScaleFactor(closer)
    ensures Pow(2, ScaleShift(closer) - e) == Denom(e, exp10) * ScaleFactor(closer)
    ensures Unit(e, exp10) == Pow(10, -exp10) && Pow(2, 1) == 2
  {
    ScaleIsPower(closer);
    PowAdd(2, -e, ScaleShift(closer));
    assert Pow(10, 0) == 1 && Pow(2, 0) == 1;
    Swap(Pow(10, -exp10), f, ScaleFactor(closer));
    Assoc(f, Pow(10, -exp10), ScaleFactor(closer));
  }

  lemma FractionValues(f: nat, e: int, closer: bool, exp10: nat)
    requires e < 0
    ensures f * ScaleFactor(closer) == Numer(f, e, exp10) * ScaleFactor(closer)
    ensures Pow(10, exp10) * Pow(2, ScaleShift(closer) - e) == Denom(e, exp10) * ScaleFactor(closer)
    ensures Unit(e, exp10) == 1
  {
    ScaleIsPower(closer);
    PowAdd(2, -e, ScaleShift(closer));
    assert Pow(10, 0) == 1 && Pow(2, 0) == 1;
    LeadSwap(Pow(10, exp10), Pow(2, -e), ScaleFactor(closer));
  }

  lemma LeadSwap(a: int, b: int, c: int)
    ensures a * (b * c) == (b * a) * c
  {
  }

  lemma SwapLast(a: int, b: int, c: int)
    ensures (a * b) * c == (a * c) * b
  {
  }

  /** A multiple of t, times anything, is a multiple of t. */
  lemma MultipleOf(t: nat, m: nat)
    requires t > 0
    ensures (m * t) % t == 0
  {
    DivModUnique(m * t, t, m, 0);
  }

  lemma {:induction false} PowOfFiveIsOdd(k: nat)
    ensures Pow(5, k) % 2 == 1
  {
    if k > 0 {
      PowOfFiveIsOdd(k - 1);
    }
  }

  lemma {:induction false} PowOfTwoModFive(k: nat)
    ensures Pow(2, k) % 5 != 0
  {
    if k > 0 {
      PowOfTwoModFive(k - 1);
    }
  }

  /** Equal exponents aside, a whole number has more factors of two than the power of ten. */
  lemma WholeCannotTie(f: nat, e: nat, closer: bool, exp10: nat)
    requires e > exp10
    ensures var t := Pow(2, e + ScaleShift(closer));
      && t > 0
      && (f * ScaleFactor(closer) * Pow(2, e)) % t == 0
      && (Pow(10, exp10) * Pow(2, ScaleShift(closer))) % t != 0
  {
    var s := ScaleShift(closer);
    var t := Pow(2, e + s);
    PowPositive(2, e + s);
    ScaleIsPower(closer);
    PowAdd(2, s, e);
    Assoc(f, ScaleFactor(closer), Pow(2, e));
    MultipleOf(t, f);
    PowProduct(5, 2, exp10);
    PowAdd(2, exp10, s);
    Assoc(Pow(5, exp10), Pow(2, exp10), Pow(2, s));
    PowAdd(2, e - exp10, exp10 + s);
    OddTimesPower(exp10, e - exp10, exp10 + s);
  }

  lemma OddTimesPower(k: nat, j: nat, m: nat)
    requires j > 0
    ensures Pow(2, j) * Pow(2, m) > 0
    ensures (Pow(5, k) * Pow(2, m)) % (Pow(2, j) * Pow(2, m)) != 0
  {
    PowPositive(2, j);
    PowPositive(2, m);
    PowOfFiveIsOdd(k);
    OddNotMultiple(Pow(5, k), Pow(2, j - 1), Pow(2, m));
  }

  lemma OddNotMultiple(x: nat, h: nat, b: nat)
    requires x % 2 == 1 && h > 0 && b > 0
    ensures (2 * h) * b > 0 && (x * b) % ((2 * h) * b) != 0
  {
    MulStrict(2 * h, 0, b);
    if (x * b) % ((2 * h) * b) == 0 {
      DivisorCancels(x, 2 * h, b);
      Assoc(2, h, (x * b) / ((2 * h) * b));
    }
  }

  lemma DivisorCancels(x: nat, a: nat, b: nat)
    requires b > 0 && a * b > 0 && (x * b) % (a * b) == 0
    ensures x == a * ((x * b) / (a * b))
  {
    var n, d := x * b, a * b;
    var q := n / d;
    assert n == d * q;
    SwapLast(a, b, q);
    MulCancel(b, x, a * q);
  }

  lemma SmallCannotTie(f: nat, e: int, closer: bool, exp10: int)
    requires e < 0 && exp10 < 0
    ensures (Pow(10, -exp10) * (f * ScaleFactor(closer))) % 5 == 0
    ensures Pow(2, ScaleShift(closer) - e) % 5 != 0
  {
    PowOfTwoModFive(ScaleShift(closer) - e);
    var p, x := Pow(10, -exp10 - 1), f * ScaleFactor(closer);
    assert Pow(10, -exp10) == 10 * p;
    assert (10 * p) * x == (2 * (p * x)) * 5;
    MultipleOf(5, 2 * (p * x));
  }
}
