/**
 The lower end of the rounding interval. When the distance to the boundaries has more implicit zero digits than the
 denominator, the comparison never calls a remainder equal to it, and the search does as if the lower end of an even
 significand did not belong to the interval. Here is what that costs, exactly.
 */
module LowerEnd {
  import opened Powers
  import opened Decimal
  import opened DragonSetup
  import opened DragonShortest

  /** The lower boundary is itself a decimal with j + 1 digits. */
  ghost predicate OnLowerEnd(n0: nat, d: nat, lower0: nat, j: nat)
    requires d > 0
  {
    (n0 * Pow(10, j) - lower0 * Pow(10, j)) % d == 0
  }

  /** The lower boundary is a decimal with some number of digits, and the whole interval is narrower than one unit of
      its last digit. */
  ghost predicate LosesShorter(n0: nat, d: nat, lower0: nat, upper0: nat)
    requires d > 0
  {
    exists j: nat :: OnLowerEnd(n0, d, lower0, j) && lower0 * Pow(10, j) + upper0 * Pow(10, j) < d
  }

  lemma Times(x: int, p: int, j: nat, i: nat)
    requires i <= j && p == Pow(10, j - i)
    ensures x * Pow(10, j) == (x * Pow(10, i)) * p
  {
    PowAdd(10, i, j - i);
    Assoc(x, Pow(10, i), p);
  }

  /** A decimal above the lower boundary stays so when both are written with more digits. */
  lemma LongerStillInside(n0: nat, d: nat, lower0: nat, upper0: nat, i: nat, j: nat, k: int)
    requires d > 0 && i <= j && InInterval(n0, d, lower0, upper0, i, k, false, true)
    ensures InInterval(n0, d, lower0, upper0, j, k * Pow(10, j - i), false, true)
  {
    var p := Pow(10, j - i);
    PowPositive(10, j - i);
    Times(n0, p, j, i);
    Times(lower0, p, j, i);
    Times(upper0, p, j, i);
    var x, lo, up := n0 * Pow(10, i), lower0 * Pow(10, i), upper0 * Pow(10, i);
    PlusTimes(x - lo, lo, p);
    PlusTimes(x, up, p);
    MulStrict(p, x - lo, k * d);
    ProductOrder(k * d, x + up, p);
    SwapLast(k, d, p);
    Swap(p, 1, x - lo);
    Swap(p, 1, k * d);
  }

  /** With a decimal on the lower boundary, the next one of its length is in the interval unless that is too narrow. */
  lemma NextToLowerEnd(n0: nat, d: nat, lower0: nat, upper0: nat, j: nat)
    requires d > 0 && OnLowerEnd(n0, d, lower0, j) && lower0 * Pow(10, j) > 0
    ensures var q := (n0 * Pow(10, j) - lower0 * Pow(10, j)) / d;
      && InInterval(n0, d, lower0, upper0, j, q, true, true)
      && (InInterval(n0, d, lower0, upper0, j, q + 1, false, true)
          <==> d <= lower0 * Pow(10, j) + upper0 * Pow(10, j))
      && (forall k: int :: InInterval(n0, d, lower0, upper0, j, k, false, true) ==> k >= q + 1)
  {
    hide Pow;
    var x := n0 * Pow(10, j) - lower0 * Pow(10, j);
    var q := x / d;
    assert x == d * q;
    PlusTimes(q, 1, d);
    forall k: int | InInterval(n0, d, lower0, upper0, j, k, false, true)
      ensures k >= q + 1
    {
      if k <= q {
        ProductOrder(k, q, d);
      }
    }
  }

  /** Without the lower end, a shorter decimal is lost exactly when one lies on the lower end of a narrow interval. */
  lemma ShorterLostIff(n0: nat, d: nat, lower0: nat, upper0: nat, i: nat, k: int)
    requires d > 0 && lower0 > 0
    requires InInterval(n0, d, lower0, upper0, i, k, false, true)
    requires NoShorter(n0, d, lower0, upper0, i, false, true)
    ensures NoShorter(n0, d, lower0, upper0, i, true, true) <==> !LosesShorter(n0, d, lower0, upper0)
  {
    if LosesShorter(n0, d, lower0, upper0) {
      var j: nat :| OnLowerEnd(n0, d, lower0, j) && lower0 * Pow(10, j) + upper0 * Pow(10, j) < d;
      PositiveTimes(lower0, j);
      LostIsShorter(n0, d, lower0, upper0, i, k, j);
      NextToLowerEnd(n0, d, lower0, upper0, j);
    } else if !NoShorter(n0, d, lower0, upper0, i, true, true) {
      var j: nat, q: int :| j < i && InInterval(n0, d, lower0, upper0, j, q, true, true);
      assert !InInterval(n0, d, lower0, upper0, j, q, false, true);
      PositiveTimes(lower0, j);
      DivModUnique(n0 * Pow(10, j) - lower0 * Pow(10, j), d, q, 0);
      NextToLowerEnd(n0, d, lower0, upper0, j);
    }
  }

  lemma PositiveTimes(x: nat, j: nat)
    requires x > 0
    ensures x * Pow(10, j) > 0
  {
    PowPositive(10, j);
    MulStrict(x, 0, Pow(10, j));
  }

  /** What is found in place of the lost decimal is longer. */
  lemma LostIsShorter(n0: nat, d: nat, lower0: nat, upper0: nat, i: nat, k: int, j: nat)
    requires d > 0 && lower0 > 0 && InInterval(n0, d, lower0, upper0, i, k, false, true)
    requires OnLowerEnd(n0, d, lower0, j) && lower0 * Pow(10, j) + upper0 * Pow(10, j) < d
    ensures j < i
  {
    if i <= j {
      PositiveTimes(lower0, j);
      LongerStillInside(n0, d, lower0, upper0, i, j, k);
      NextToLowerEnd(n0, d, lower0, upper0, j);
      var q := (n0 * Pow(10, j) - lower0 * Pow(10, j)) / d;
      PlusTimes(q, 1, d);
      ProductOrder(q + 1, k * Pow(10, j - i), d);
    }
  }

  /** The decimal just below is on the lower end, and is the one to round to. */
  ghost predicate RoundsAway(n0: nat, d: nat, lower0: nat, i: nat)
    requires d > 0
  {
    var x := n0 * Pow(10, i);
    x % d == lower0 * Pow(10, i) && RoundHalfEven(x, d) == x / d
  }

  /** Without the lower end, the result is not the nearest one exactly when it should have been rounded down to it. */
  lemma NearestLostIff(n0: nat, d: nat, lower0: nat, upper0: nat, i: nat, k: int)
    requires d > 0 && lower0 > 0
    requires InInterval(n0, d, lower0, upper0, i, k, false, true)
    requires IsClosest(n0, d, lower0, upper0, i, k, false, true)
    ensures IsClosest(n0, d, lower0, upper0, i, k, true, true) <==> !RoundsAway(n0, d, lower0, i)
  {
    PositiveTimes(lower0, i);
    if (n0 * Pow(10, i)) % d == lower0 * Pow(10, i) {
      NearestAtLowerEnd(n0, d, lower0, upper0, i, k);
    } else {
      NearestOffLowerEnd(n0, d, lower0, upper0, i, k);
    }
  }

  /** With the lower end, the interval has its decimals of before and one on the lower boundary, if there is one. */
  lemma EndAdded(n0: nat, d: nat, lower0: nat, upper0: nat, i: nat, j: int)
    requires lower0 * Pow(10, i) > 0
    ensures InInterval(n0, d, lower0, upper0, i, j, true, true)
       <==> InInterval(n0, d, lower0, upper0, i, j, false, true) || j * d == n0 * Pow(10, i) - lower0 * Pow(10, i)
  {
    hide Pow;
  }

  lemma NearestOffLowerEnd(n0: nat, d: nat, lower0: nat, upper0: nat, i: nat, k: int)
    requires d > 0 && lower0 * Pow(10, i) > 0 && (n0 * Pow(10, i)) % d != lower0 * Pow(10, i)
    requires IsClosest(n0, d, lower0, upper0, i, k, false, true)
    ensures IsClosest(n0, d, lower0, upper0, i, k, true, true)
  {
    hide Pow, InInterval;
    var x, lo := n0 * Pow(10, i), lower0 * Pow(10, i);
    var m := x / d;
    assert x == m * d + x % d;
    PlusTimes(m, 1, d);
    EndAdded(n0, d, lower0, upper0, i, m);
    EndAdded(n0, d, lower0, upper0, i, m + 1);
    forall j: int | InInterval(n0, d, lower0, upper0, i, j, true, true)
      ensures Abs(k * d - x) <= Abs(j * d - x)
    {
      EndAdded(n0, d, lower0, upper0, i, j);
      if !InInterval(n0, d, lower0, upper0, i, j, false, true) {
        NextMultiple(m, j, d);
        FartherBelow(x, m * d, d, lo, j * d, k * d);
      }
    }
  }

  lemma NextMultiple(m: int, j: int, d: int)
    requires d > 0 && m != j
    ensures j * d <= m * d - d || j * d >= m * d + d
  {
    PlusTimes(m, 1, d);
    PlusTimes(m, -1, d);
    if j < m {
      ProductOrder(j, m - 1, d);
    } else {
      ProductOrder(m + 1, j, d);
    }
  }

  lemma FartherBelow(x: int, c: int, d: int, lo: int, y: int, z: int)
    requires 0 <= x - c < d && y == x - lo && lo > 0 && (z == c || z == c + d)
    requires y <= c - d || y >= c + d
    ensures Abs(z - x) <= Abs(y - x)
  {
  }

  lemma NearestAtLowerEnd(n0: nat, d: nat, lower0: nat, upper0: nat, i: nat, k: int)
    requires d > 0 && lower0 * Pow(10, i) > 0 && (n0 * Pow(10, i)) % d == lower0 * Pow(10, i)
    requires InInterval(n0, d, lower0, upper0, i, k, false, true)
    requires IsClosest(n0, d, lower0, upper0, i, k, false, true)
    ensures IsClosest(n0, d, lower0, upper0, i, k, true, true)
            <==> RoundHalfEven(n0 * Pow(10, i), d) != (n0 * Pow(10, i)) / d
  {
    hide Pow, InInterval, RoundHalfEven, Abs;
    var x, lo := n0 * Pow(10, i), lower0 * Pow(10, i);
    var m := x / d;
    assert x == m * d + lo;
    EndAdded(n0, d, lower0, upper0, i, m);
    EndAdded(n0, d, lower0, upper0, i, m + 1);
    EndLeftOut(n0, d, lower0, upper0, i, m);
    assert k == m + 1;
    AtEnd(x, d, lo, m);
    if RoundHalfEven(x, d) == m + 1 {
      forall j: int | InInterval(n0, d, lower0, upper0, i, j, true, true)
        ensures Abs(k * d - x) <= Abs(j * d - x)
      {
        if j != m {
          EndAdded(n0, d, lower0, upper0, i, j);
          NextMultiple(m, j, d);
        }
      }
    }
  }

  lemma EndLeftOut(n0: nat, d: nat, lower0: nat, upper0: nat, i: nat, m: int)
    requires m * d == n0 * Pow(10, i) - lower0 * Pow(10, i)
    ensures !InInterval(n0, d, lower0, upper0, i, m, false, true)
  {
    hide Pow;
  }

  /** Between the two neighbours of x, the upper one is as near as the lower one unless x rounds down. */
  lemma AtEnd(x: nat, d: nat, lo: int, m: int)
    requires d > 0 && m == x / d && x == m * d + lo
    ensures RoundHalfEven(x, d) == m || RoundHalfEven(x, d) == m + 1
    ensures (m + 1) * d == m * d + d
    ensures RoundHalfEven(x, d) == m + 1 ==> Abs(m * d + d - x) <= Abs(m * d - x)
  {
    PlusTimes(m, 1, d);
  }

  ghost predicate HasDecimal(n0: nat, d: nat, lower0: nat, upper0: nat, i: nat) {
    exists k: int :: InInterval(n0, d, lower0, upper0, i, k, false, true)
  }

  /** Without the lower end the shortest decimals have i + 1 digits, and the one on it is the nearest of that length. */
  ghost predicate RoundsAwayAt(n0: nat, d: nat, lower0: nat, upper0: nat, i: nat)
    requires d > 0
  {
    && NoShorter(n0, d, lower0, upper0, i, false, true) && HasDecimal(n0, d, lower0, upper0, i)
    && RoundsAway(n0, d, lower0, i)
  }

  ghost predicate LosesNearest(n0: nat, d: nat, lower0: nat, upper0: nat)
    requires d > 0
  {
    exists i: nat :: RoundsAwayAt(n0, d, lower0, upper0, i)
  }

  /** There is only one such length, that of the result. */
  lemma AtShortestLength(n0: nat, d: nat, lower0: nat, upper0: nat, i: nat, k: int)
    requires d > 0 && InInterval(n0, d, lower0, upper0, i, k, false, true)
    requires NoShorter(n0, d, lower0, upper0, i, false, true)
    ensures LosesNearest(n0, d, lower0, upper0) <==> RoundsAway(n0, d, lower0, i)
  {
    hide InInterval, RoundsAway;
    assert HasDecimal(n0, d, lower0, upper0, i);
    if RoundsAway(n0, d, lower0, i) {
      assert RoundsAwayAt(n0, d, lower0, upper0, i);
    }
    if j: nat :| RoundsAwayAt(n0, d, lower0, upper0, j) {
      var l: int :| InInterval(n0, d, lower0, upper0, j, l, false, true);
    }
  }

  /** What the search without the lower end finds is the shortest and nearest with it, but for these two cases. */
  lemma ShortestLostIff(n0: nat, d: nat, lower0: nat, upper0: nat, exp10: int, buf: seq<char>, exp: int)
    requires d > 0 && lower0 > 0
    requires IsShortest(n0, d, lower0, upper0, false, true, exp10, buf, exp)
    requires FirstDigitOverflows(n0, d, lower0, upper0, true, true)
             <==> FirstDigitOverflows(n0, d, lower0, upper0, false, true)
    ensures IsShortest(n0, d, lower0, upper0, true, true, exp10, buf, exp)
            <==> !LosesShorter(n0, d, lower0, upper0) && !LosesNearest(n0, d, lower0, upper0)
  {
    hide NoShorter, IsClosest, LosesShorter, RoundsAway, FirstDigitOverflows, LosesNearest;
    AtShortestLength(n0, d, lower0, upper0, |buf| - 1, Spelled(buf));
    ShorterLostIff(n0, d, lower0, upper0, |buf| - 1, Spelled(buf));
    NearestLostIff(n0, d, lower0, upper0, |buf| - 1, Spelled(buf));
  }
}
