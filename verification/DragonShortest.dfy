/**
 The shortest form of format_dragon: digits are produced until the decimal written so far, or the
 one just above it, lies inside the interval of numbers that read back as the same float.
 The interval reaches from lower below the number to upper above it, all over one denominator;
 its ends belong to it when the significand is even.
 */
module DragonShortest {
  import opened Powers
  import opened Digits
  import opened BigArithmetic
  import opened Bignum
  import opened Decimal
  import opened DragonSetup
  import opened Dragon

  /** x comes before y; y itself counts when the ends are included. */
  ghost predicate Before(x: int, y: int, even: bool) {
    x < y || (even && x == y)
  }

  /** The decimal k, at i + 1 digits, lies in the interval around n0 / d. lowEnd and highEnd say which ends belong. */
  ghost predicate InInterval(n0: nat, d: nat, lower0: nat, upper0: nat, i: nat, k: int, lowEnd: bool, highEnd: bool) {
    && Before(n0 * Pow(10, i) - lower0 * Pow(10, i), k * d, lowEnd)
    && Before(k * d, n0 * Pow(10, i) + upper0 * Pow(10, i), highEnd)
  }

  /** No decimal with i digits or fewer lies in the interval. */
  ghost predicate NoShorter(n0: nat, d: nat, lower0: nat, upper0: nat, i: nat, lowEnd: bool, highEnd: bool) {
    forall j: nat, k: int :: j < i ==> !InInterval(n0, d, lower0, upper0, j, k, lowEnd, highEnd)
  }

  /** The first digit is a 9 that gets rounded up: it becomes the character after '9'. */
  ghost predicate FirstDigitOverflows(n0: nat, d: nat, lower0: nat, upper0: nat, lowEnd: bool, highEnd: bool)
    requires d > 0
  {
    var q, r := n0 / d, n0 % d;
    q == 9 && Before(d, r + upper0, highEnd) && (!Before(r, lower0, lowEnd) || 2 * r >= d)
  }

  /** The shortest decimal in the interval, the nearest of those with its length, in ASCII digits. */
  ghost predicate IsShortest(n0: nat, d: nat, lower0: nat, upper0: nat, lowEnd: bool, highEnd: bool, exp10: int,
                             buf: seq<char>, exp: int)
    requires d > 0
  {
    && |buf| > 0 && exp == exp10 - (|buf| - 1)
    && InInterval(n0, d, lower0, upper0, |buf| - 1, Spelled(buf), lowEnd, highEnd)
    && NoShorter(n0, d, lower0, upper0, |buf| - 1, lowEnd, highEnd)
    && IsClosest(n0, d, lower0, upper0, |buf| - 1, Spelled(buf), lowEnd, highEnd)
    && (AllDigits(buf) || buf == [':'])
    && (AllDigits(buf) <==> !FirstDigitOverflows(n0, d, lower0, upper0, lowEnd, highEnd))
  }

  /** k is next to the number, no decimal of that length in the interval is nearer, and a tie goes to the even one. */
  ghost predicate IsClosest(n0: nat, d: nat, lower0: nat, upper0: nat, i: nat, k: int, lowEnd: bool, highEnd: bool)
    requires d > 0
  {
    var m := (n0 * Pow(10, i)) / d;
    && (k == m || k == m + 1)
    && (forall j: int :: InInterval(n0, d, lower0, upper0, i, j, lowEnd, highEnd) ==>
          Abs(k * d - n0 * Pow(10, i)) <= Abs(j * d - n0 * Pow(10, i)))
    && (InInterval(n0, d, lower0, upper0, i, m, lowEnd, highEnd) ==>
          InInterval(n0, d, lower0, upper0, i, m + 1, lowEnd, highEnd) ==> k == RoundHalfEven(n0 * Pow(10, i), d))
  }

  ghost predicate Apart(n: Bigint, d: Bigint, lower: Bigint, upper: Bigint) {
    n != d && n != lower && n != upper && d != lower && d != upper
  }

  /** What the loop keeps about the two boundary distances. lower and upper may be one object. */
  ghost predicate Boundaries(n: Bigint, d: Bigint, lower: Bigint, upper: Bigint)
    reads n, d, lower, upper
  {
    && Apart(n, d, lower, upper)
    && lower.IsTrimmed() && upper.IsTrimmed()
    && lower.Value() > 0 && upper.Value() > 0
    && n.exp <= lower.exp
  }

  /** Whether an equal comparison of remainder and lower distance comes out as equal: their exponents stay the same, or
      they differ from the first digit on, and before that the two cannot be equal. */
  ghost predicate TieCase(n: Bigint, d: Bigint, lower: Bigint, seen: bool)
    reads n, d, lower
  {
    if seen then n.exp == lower.exp <= d.exp
    else d.exp < lower.exp && (n.exp <= d.exp || n.Value() > lower.Value())
  }

  method ShortestDigits(n: Bigint, d: Bigint, lower: Bigint, upper: Bigint, ghost t: nat, even: bool, exp10: int,
                        ghost seen: bool) returns (buf: seq<char>, exp: int)
    requires Dividing(n, d, t) && Boundaries(n, d, lower, upper) && TieCase(n, d, lower, seen)
    modifies n, lower, upper
    ensures d.Value() > 0
    ensures IsShortest(old(n.Value()), d.Value(), old(lower.Value()), old(upper.Value()), even && seen, even,
                       exp10, buf, exp)
  {
    hide Searching, IsShortest, Scaled, CannotTie;
    ghost var n0, lower0, upper0 := n.Value(), lower.Value(), upper.Value();
    ghost var dv, lowEnd := d.Value(), even && seen;
    ScaledTop(d.bigits, d.exp);
    buf := [];
    SearchStarts(n0, dv, lower0, upper0, lowEnd, even);
    while true
      invariant Dividing(n, d, t) && Boundaries(n, d, lower, upper) && TieCase(n, d, lower, seen)
      invariant Searching(n0, dv, lower0, upper0, lowEnd, even, buf, n.Value(), lower.Value(), upper.Value())
      decreases dv - upper.Value()
    {
      ghost var before, left, lo, up := buf, n.Value(), lower.Value(), upper.Value();
      var digit, low, high := DigitAndTests(n, d, lower, upper, t, even, seen);
      buf := buf + [DigitChar(digit)];
      if low || high {
        var bump := RoundShortest(n, d, digit, low, high);
        SearchEnds(n0, dv, lower0, upper0, lowEnd, even, exp10, before, left, lo, up, digit, n.Value(),
                   low, high, bump);
        if bump {
          buf := buf[|buf| - 1 := DigitChar(digit + 1)];
          assert buf == before + [DigitChar(digit + 1)];
        }
        exp := exp10 - (|buf| - 1);
        return;
      }
      SearchGoesOn(n0, dv, lower0, upper0, lowEnd, even, before, left, lo, up, digit, n.Value());
      TenfoldAll(n, d, lower, upper, t, seen);
    }
  }

  method TenfoldAll(n: Bigint, d: Bigint, lower: Bigint, upper: Bigint, ghost t: nat, ghost seen: bool)
    requires Dividing(n, d, t) && Boundaries(n, d, lower, upper) && n.Value() < d.Value()
    requires TieCase(n, d, lower, seen)
    modifies n, lower, upper
    ensures Dividing(n, d, t) && Boundaries(n, d, lower, upper) && TieCase(n, d, lower, seen)
    ensures n.Value() == 10 * old(n.Value())
    ensures lower.Value() == 10 * old(lower.Value()) && upper.Value() == 10 * old(upper.Value())
  {
    TimesTen(n, d, t);
    lower.Multiply32(10);
    if upper != lower {
      upper.Multiply32(10);
    }
  }

  /** The state of the search after the digits in buf. */
  ghost predicate Searching(n0: nat, d: nat, lower0: nat, upper0: nat, lowEnd: bool, even: bool,
                            buf: seq<char>, left: nat, lower: nat, upper: nat)
    requires d > 0
  {
    && AllDigits(buf) && Expanded(n0, d, |buf|, Spelled(buf), left)
    && lower == lower0 * Pow(10, |buf|) && upper == upper0 * Pow(10, |buf|)
    && NoShorter(n0, d, lower0, upper0, |buf|, lowEnd, even)
    && (buf != [] ==> !Before(10 * d, left + upper, even))
    && (buf != [] ==> !FirstDigitOverflows(n0, d, lower0, upper0, lowEnd, even))
  }

  lemma SearchStarts(n0: nat, d: nat, lower0: nat, upper0: nat, lowEnd: bool, even: bool)
    requires d > 0
    ensures Searching(n0, d, lower0, upper0, lowEnd, even, [], n0, lower0, upper0)
  {
    assert Pow(10, 0) == 1;
  }

  lemma SearchGoesOn(n0: nat, d: nat, lower0: nat, upper0: nat, lowEnd: bool, even: bool,
                     buf: seq<char>, left: nat, lower: nat, upper: nat, digit: int, r: nat)
    requires d > 0 && Searching(n0, d, lower0, upper0, lowEnd, even, buf, left, lower, upper)
    requires 0 <= digit <= 9 && left == digit * d + r && r < d
    requires !Before(r, lower, lowEnd) && !Before(d, r + upper, even)
    ensures Searching(n0, d, lower0, upper0, lowEnd, even, buf + [DigitChar(digit)], 10 * r, 10 * lower, 10 * upper)
  {
    ExpandDigit(n0, d, |buf|, Spelled(buf), left, digit, r);
    SpelledSnoc(buf, DigitChar(digit));
    SpelledRange(buf);
    NextBoundary(lower0, |buf|);
    NextBoundary(upper0, |buf|);
    NeitherIsInside(n0, d, lower0, upper0, |buf|, 10 * Spelled(buf) + digit, r, lowEnd, even);
    FirstStaysBelow(n0, d, lower0, upper0, |buf|, 10 * Spelled(buf) + digit, r, lowEnd, even);
  }

  lemma SearchEnds(n0: nat, d: nat, lower0: nat, upper0: nat, lowEnd: bool, even: bool, exp10: int,
                   before: seq<char>, left: nat, lower: nat, upper: nat, digit: int, r: nat,
                   low: bool, high: bool, bump: bool)
    requires d > 0 && lower > 0 && upper > 0
    requires Searching(n0, d, lower0, upper0, lowEnd, even, before, left, lower, upper)
    requires 0 <= digit <= 9 && left == digit * d + r && r < d
    requires low || high
    requires low <==> Before(r, lower, lowEnd)
    requires high <==> Before(d, r + upper, even)
    requires bump == (!low || (high && (2 * r > d || (2 * r == d && digit % 2 != 0))))
    ensures IsShortest(n0, d, lower0, upper0, lowEnd, even, exp10,
                       before + [DigitChar(if bump then digit + 1 else digit)], exp10 - |before|)
  {
    hide NoShorter, IsClosest, InInterval, FirstDigitOverflows, Spelled, Pow, Divided, Expanded;
    ExpandDigit(n0, d, |before|, Spelled(before), left, digit, r);
    SpelledSnoc(before, DigitChar(if bump then digit + 1 else digit));
    AppendedParity(before, digit);
    var q := 10 * Spelled(before) + digit;
    assert q % 2 == digit % 2;
    StopsInside(n0, d, lower0, upper0, |before|, q, r, lowEnd, even, low, high, bump);
    FirstDigit(n0, d, lower0, upper0, |before|, before, digit, r, lowEnd, even, low, high, bump);
  }

  /** One digit, and whether the interval is reached from below or from above. */
  method DigitAndTests(n: Bigint, d: Bigint, lower: Bigint, upper: Bigint, ghost t: nat, even: bool, ghost seen: bool)
    returns (digit: I32, low: bool, high: bool)
    requires Dividing(n, d, t) && Boundaries(n, d, lower, upper) && TieCase(n, d, lower, seen)
    modifies n
    ensures Dividing(n, d, t) && Boundaries(n, d, lower, upper) && n.Value() < d.Value()
    ensures TieCase(n, d, lower, seen)
    ensures 0 <= digit <= 9 && old(n.Value()) == digit * d.Value() + n.Value()
    ensures low <==> Before(n.Value(), lower.Value(), even && seen)
    ensures high <==> Before(d.Value(), n.Value() + upper.Value(), even)
  {
    hide Scaled;
    digit := NextDigit(n, d, t);
    var c := Bigint.Compare(n, lower);
    LowTest(n.bigits, n.exp, lower.bigits, lower.exp);
    low := c - (if even then 1 else 0) < 0;
    ScaledZero(upper.bigits, upper.exp);
    var h := Bigint.AddCompare(n, upper, d);
    high := h + (if even then 1 else 0) > 0;
  }

  /** The comparison with lower: an equal pair is called equal exactly when the exponents are, and greater otherwise. */
  lemma LowTest(n: Bigits, a: nat, l: Bigits, b: nat)
    requires Trimmed(n) && Trimmed(l) && Scaled(l, b) > 0 && a <= b
    ensures Verdict(n, a, l, b) < 0 <==> Scaled(n, a) < Scaled(l, b)
    ensures Verdict(n, a, l, b) == 0 <==> Scaled(n, a) == Scaled(l, b) && a == b
  {
    ScaledZero(n, a);
    ScaledZero(l, b);
  }

  method RoundShortest(n: Bigint, d: Bigint, digit: I32, low: bool, high: bool) returns (bump: bool)
    requires n.IsTrimmed() && d.IsTrimmed() && d.bigits != [0] && (n.bigits == [0] ==> n.exp <= d.exp)
    requires low || high
    ensures bump == (!low || (high && (2 * n.Value() > d.Value() || (2 * n.Value() == d.Value() && digit % 2 != 0))))
  {
    bump := false;
    if !low {
      bump := true;
    } else if high {
      var result := Bigint.AddCompare(n, n, d);
      if result > 0 || (result == 0 && digit % 2 != 0) {
        bump := true;
      }
    }
  }

  lemma NextBoundary(x: nat, i: nat)
    ensures x * Pow(10, i + 1) == (x * Pow(10, i)) * 10
  {
    assert Pow(10, i + 1) == 10 * Pow(10, i);
  }

  /** The decimal the loop stops at is inside the interval, and the nearest one there. */
  lemma StopsInside(n0: nat, d: nat, lower0: nat, upper0: nat, i: nat, q: int, r: nat,
                    lowEnd: bool, even: bool, low: bool, high: bool, bump: bool)
    requires d > 0 && Divided(n0, d, i, q, r) && r < d && q >= 0
    requires lower0 * Pow(10, i) > 0 && upper0 * Pow(10, i) > 0
    requires low || high
    requires low <==> Before(r, lower0 * Pow(10, i), lowEnd)
    requires high <==> Before(d, r + upper0 * Pow(10, i), even)
    requires bump == (!low || (high && (2 * r > d || (2 * r == d && q % 2 != 0))))
    ensures InInterval(n0, d, lower0, upper0, i, if bump then q + 1 else q, lowEnd, even)
    ensures IsClosest(n0, d, lower0, upper0, i, if bump then q + 1 else q, lowEnd, even)
  {
    hide Pow, Abs;
    PlusTimes(q, 1, d);
    DivModUnique(n0 * Pow(10, i), d, q, r);
    forall j: int | InInterval(n0, d, lower0, upper0, i, j, lowEnd, even)
      ensures Abs((if bump then q + 1 else q) * d - n0 * Pow(10, i)) <= Abs(j * d - n0 * Pow(10, i))
    {
      NoneNearer(n0 * Pow(10, i), d, q, r, lower0 * Pow(10, i), upper0 * Pow(10, i), j, lowEnd, even, low, high, bump);
    }
  }

  /** The decimal j is in the interval around x, but not nearer to it than the one chosen. */
  lemma NoneNearer(x: int, d: nat, q: int, r: nat, lower: int, upper: int, j: int,
                   lowEnd: bool, even: bool, low: bool, high: bool, bump: bool)
    requires d > 0 && x == q * d + r && r < d
    requires Before(x - lower, j * d, lowEnd) && Before(j * d, x + upper, even)
    requires low <==> Before(r, lower, lowEnd)
    requires high <==> Before(d, r + upper, even)
    requires !low || (high && 2 * r > d) ==> bump
    requires bump ==> !low || (high && 2 * r >= d)
    ensures Abs((if bump then q + 1 else q) * d - x) <= Abs(j * d - x)
  {
    hide Before, Abs;
    PlusTimes(q, 1, d);
    if j <= q {
      ProductOrder(j, q, d);
    } else {
      ProductOrder(q + 1, j, d);
    }
    NotNearer(x, q * d, d, r, lower, upper, j * d, lowEnd, even, low, high, bump);
  }

  /** y, another multiple of d than the one chosen, is in the interval around x but not nearer to it. */
  lemma NotNearer(x: int, c: int, d: int, r: int, lower: int, upper: int, y: int,
                  lowEnd: bool, even: bool, low: bool, high: bool, bump: bool)
    requires x == c + r && 0 <= r < d && (y <= c || y >= c + d)
    requires Before(x - lower, y, lowEnd) && Before(y, x + upper, even)
    requires low <==> Before(r, lower, lowEnd)
    requires high <==> Before(d, r + upper, even)
    requires !low || (high && 2 * r > d) ==> bump
    requires bump ==> !low || (high && 2 * r >= d)
    ensures Abs((if bump then c + d else c) - x) <= Abs(y - x)
  {
  }

  /** When neither test succeeds, no decimal of this length is inside. */
  lemma NeitherIsInside(n0: nat, d: nat, lower0: nat, upper0: nat, i: nat, q: int, r: nat, lowEnd: bool, even: bool)
    requires d > 0 && Divided(n0, d, i, q, r)
    requires !Before(r, lower0 * Pow(10, i), lowEnd) && !Before(d, r + upper0 * Pow(10, i), even)
    requires NoShorter(n0, d, lower0, upper0, i, lowEnd, even)
    ensures NoShorter(n0, d, lower0, upper0, i + 1, lowEnd, even)
  {
    forall j: nat, k: int | j < i + 1
      ensures !InInterval(n0, d, lower0, upper0, j, k, lowEnd, even)
    {
      if j == i {
        if k <= q {
          ProductOrder(k, q, d);
        } else {
          ProductOrder(q + 1, k, d);
          PlusTimes(q, 1, d);
        }
      }
    }
  }

  lemma FirstStaysBelow(n0: nat, d: nat, lower0: nat, upper0: nat, i: nat, q: int, r: nat, lowEnd: bool, even: bool)
    requires d > 0 && Divided(n0, d, i, q, r) && r < d && q >= 0
    requires !Before(d, r + upper0 * Pow(10, i), even)
    ensures i == 0 ==> !FirstDigitOverflows(n0, d, lower0, upper0, lowEnd, even)
  {
    if i == 0 {
      assert Pow(10, 0) == 1;
      DivModUnique(n0, d, q, r);
    }
  }

  /** Only the very first digit can be a 9 that is rounded up, and exactly when it overflows. */
  lemma FirstDigit(n0: nat, d: nat, lower0: nat, upper0: nat, i: nat, before: seq<char>, digit: int, r: nat,
                   lowEnd: bool, even: bool, low: bool, high: bool, bump: bool)
    requires d > 0 && |before| == i && AllDigits(before) && 0 <= digit <= 9
    requires Divided(n0, d, i, 10 * Spelled(before) + digit, r) && r < d
    requires i > 0 ==> !FirstDigitOverflows(n0, d, lower0, upper0, lowEnd, even)
    requires i > 0 ==> !Before(10 * d, digit * d + r + upper0 * Pow(10, i), even)
    requires low || high
    requires low <==> Before(r, lower0 * Pow(10, i), lowEnd)
    requires high <==> Before(d, r + upper0 * Pow(10, i), even)
    requires bump == (!low || (high && (2 * r > d || (2 * r == d && digit % 2 != 0))))
    ensures var buf := before + [DigitChar(if bump then digit + 1 else digit)];
      && (AllDigits(buf) || buf == [':'])
      && (AllDigits(buf) <==> !FirstDigitOverflows(n0, d, lower0, upper0, lowEnd, even))
  {
    var buf := before + [DigitChar(if bump then digit + 1 else digit)];
    assert Pow(10, 0) == 1;
    if i == 0 {
      assert before == [];
      DivModUnique(n0, d, digit, r);
      assert AllDigits(buf) <==> IsDigit(buf[0]);
    } else {
      hide Divided, FirstDigitOverflows, Spelled, Pow;
      NineStays(d, digit, r, upper0 * Pow(10, i), even);
      assert AllDigits(buf);
    }
  }

  /** A later 9 has no room above it. */
  lemma NineStays(d: nat, digit: int, r: int, upper: int, even: bool)
    requires !Before(10 * d, digit * d + r + upper, even)
    ensures digit == 9 ==> !Before(d, r + upper, even)
  {
  }

  /** No overflow where the number and its upper boundary are below ten units, as with an exact exponent. */
  lemma NoOverflow(n0: nat, d: nat, lower0: nat, upper0: nat, lowEnd: bool, even: bool)
    requires d > 0 && n0 + upper0 < 10 * d
    ensures !FirstDigitOverflows(n0, d, lower0, upper0, lowEnd, even)
  {
  }

  /** The float nearest to 1e23, 5960464477539062 * 2^24, with the exponent 22 that its own value has: ten units are
      the end of its interval, so the first digit, a 9, is rounded up to the character after '9'. */
  lemma OverflowExample()
    ensures var f, unit, d := 5960464477539062, 0x100_0000, 10_000_000_000_000_000_000_000;
      && f * unit < 10 * d
      && FirstDigitOverflows(f * unit * 2, d * 2, unit, unit, true, true)
  {
    var n, d := 5960464477539062 * 0x100_0000 * 2, 10_000_000_000_000_000_000_000 * 2;
    DivModUnique(n, d, 9, n - 9 * d);
  }
}
