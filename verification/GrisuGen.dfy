/** grisu_gen_digits: digits of a scaled 64-bit value, first the integral part, then the fraction. */
module GrisuGen {
  import opened Powers
  import opened Decimal
  import opened Grisu

  datatype Outcome = Returned(result: DigitsResult) | NumberTooBig

  /** The exponents the callers normalise to: one is a power of two between 2^32 and 2^60. */
  lemma OneRange(e: int)
    requires -60 <= e <= -32
    ensures 0x1_0000_0000 <= Pow(2, -e) <= 0x1000_0000_0000_0000
  {
    Pow2Literals();
    PowMonotone(2, 32, -e);
    PowMonotone(2, -e, 60);
  }

  /** The weight of the integral part: 1 shifted left by -e. */
  function One(e: int): (one: nat)
    requires -60 <= e <= -32
    ensures 0x1_0000_0000 <= one <= 0x1000_0000_0000_0000
  {
    OneRange(e);
    Pow(2, -e)
  }

  lemma Pow2Literals()
    ensures Pow(2, 32) == 0x1_0000_0000 && Pow(2, 60) == 0x1000_0000_0000_0000
  {
    PowAdd(2, 4, 4);
    PowAdd(2, 8, 8);
    PowAdd(2, 16, 16);
    PowAdd(2, 8, 4);
    PowAdd(2, 12, 16);
    PowAdd(2, 28, 32);
    assert Pow(2, 4) == 16;
  }

  /** A number that leading zeros round away stays undecided up to a hundred units around half a place: a tenth of the
      number is compared, but with ten times the error. */
  ghost predicate AroundHalf(f: nat, one: nat, total: nat)
    requires total > 0
  {
    2 * (f / 10 - 10) < Tens(one, total - 1) < 2 * (f / 10 + 10)
  }

  /** A finished row has the digits asked for. After a carry out of the front, where it is a one and zeros, it has one
      more in fixed notation, and the exponent is raised otherwise. */
  ghost predicate HasDigits(row: seq<char>, digits: nat, shift: int, fixed: bool)
    requires digits > 0
  {
    || (|row| == digits && shift == 0)
    || (fixed && |row| == digits + 1 && shift == 0 && Spelled(row) == Pow(10, digits))
    || (!fixed && |row| == digits && shift == 1 && Spelled(row) == Pow(10, digits - 1))
  }

  lemma RoundedHasDigits(was: seq<char>, bump: nat, now: seq<char>, shift: int, fixed: bool)
    requires was != [] && Rounded(was, bump, now, shift, fixed)
    ensures HasDigits(now, |was|, shift, fixed)
  {
    if shift == 1 {
      assert Tens(Spelled(now), 1) == 10 * Tens(Spelled(now), 0);
    }
  }

  /** What both phases promise when they stop. A finished row ends at the place asked for. They give up only where the
      digits settle nothing, and then the digits written and the exponent still tell where the first digit stands;
      format_dragon starts from that. */
  ghost predicate Stopped(f: nat, one: nat, total: nat, result: DigitsResult, exp: int,
                          row: seq<char>, precision: int, shift: int, fixed: bool)
    requires total > 0
  {
    && result != More && 0 <= shift <= 1
    && (result == Done ==>
          && AllDigits(row) && Nearest(f, one, row, shift, exp)
          && HasDigits(row, Max(precision, 1), shift, fixed)
          && exp == total - (if fixed then precision else Max(precision, 1)))
    && (result == Error ==>
          && exp + |row| == total && shift == 0
          && (Undecided(f, one, row, exp, precision)
              || (precision == 0 && row == [] && AroundHalf(f, one, total))))
  }

  /** A digit from the integral part: the power of ten below it and what remains. */
  lemma IntegralStep(f: nat, one: nat, exp: nat, row: seq<char>, integral: nat, fractional: nat)
    requires integral < Tens(1, exp + 1) && fractional < one
    requires Generated(f, one, exp + 1, row, integral * one + fractional)
    ensures var p := Tens(1, exp);
      && p > 0 && 0 <= integral / p <= 9 && 0 <= integral % p < p
      && 0 <= (integral % p) * one + fractional < Place(exp, one)
      && Generated(f, one, exp, row + [DigitChar(integral / p)], (integral % p) * one + fractional)
  {
    var p := Tens(1, exp);
    TensOrder(1, 0, exp);
    DigitBelowTen(integral, p);
    var d, r := integral / p, integral % p;
    TensIsProduct(one, exp);
    TensIsProduct(1, exp);
    WorthSnoc(row, DigitChar(d), Place(exp, one));
    WorthOfTenfold(row, Place(exp, one));
    SplitPlace(p, one, d, r);
    BelowPlace(r, p, one, fractional);
  }

  lemma DigitBelowTen(n: nat, p: nat)
    requires p > 0 && n < 10 * p
    ensures 0 <= n / p <= 9 && n == p * (n / p) + n % p
  {
    var q := n / p;
    if q >= 10 {
      ProductOrder(10, q, p);
    }
  }

  lemma SplitPlace(p: int, one: int, d: int, r: int)
    ensures (p * d + r) * one == d * (one * p) + r * one
  {
    PlusTimes(p * d, r, one);
    assert (p * d) * one == d * (one * p);
  }

  lemma BelowPlace(r: nat, p: nat, one: nat, fractional: nat)
    requires r < p && fractional < one
    ensures 0 <= r * one + fractional < one * p
  {
    PlusTimes(r, 1, one);
    ProductOrder(r + 1, p, one);
  }

  lemma PlacesFit(f: nat, one: nat, total: nat)
    requires one > 0 && total == CountDigits(f / one) && f / one > 0
    ensures f / one < Tens(1, total) && Place(total - 1, one) <= f
  {
    var n := f / one;
    CountDigitsBracket(n);
    TensTimes(1, one, total - 1);
    ProductOrder(Tens(1, total - 1), n, one);
    DivideBack(f, one);
  }

  lemma DivideBack(f: nat, one: nat)
    requires one > 0
    ensures (f / one) * one <= f && f == (f / one) * one + f % one
  {
  }

  /** Before the first digit everything is left. */
  lemma GenerationStarts(f: nat, one: nat, total: nat)
    requires one > 0
    ensures Generated(f, one, total, [], (f / one) * one + f % one)
  {
    DivideBack(f, one);
  }

  /** A digit count of a 32-bit number. */
  lemma TotalIsSmall(n: nat)
    requires 0 < n < 0x1_0000_0000
    ensures 0 < CountDigits(n) <= 10
  {
    CountDigitsBracket(n);
    if CountDigits(n) > 10 {
      TensLonger(1, 10, CountDigits(n) - 1);
      TenDigits();
    }
  }

  lemma TenDigits()
    ensures Tens(1, 10) == 10_000_000_000
  {
    assert Tens(1, 5) == 100_000;
  }

  /** The first loop, over the integral part. More means there is room for fraction digits. */
  method IntegralDigits(f: U64, one: U64, h: GenDigitsHandler, total: nat) returns (result: DigitsResult, exp: int)
    requires 0x1_0000_0000 <= one && f / one > 0
    requires h.Valid() && h.size == 0 && h.buf.Length >= 30
    requires total == CountDigits(f / one) && 0 < total <= 10 && (h.fixed ==> h.precision > 0)
    modifies h`size, h`exp10, h.buf
    ensures h.Valid()
    ensures result == More ==>
      && exp == 0 && h.size == total && h.size < h.precision && h.exp10 == old(h.exp10)
      && Generated(f, one, 0, h.buf[..h.size], f % one)
    ensures result != More ==>
      Stopped(f, one, total, result, exp, h.buf[..h.size], h.precision, h.exp10 - old(h.exp10), h.fixed)
  {
    hide Generated, Stopped, Tens, Place;
    var integral, fractional := f / one, f % one;
    exp := total;
    PlacesFit(f, one, total);
    GenerationStarts(f, one, total);
    assert h.buf[..h.size] == [];
    while true
      invariant h.Valid() && 0 < exp <= total && h.size == total - exp && h.exp10 == old(h.exp10)
      invariant h.size > 0 ==> h.size < h.precision
      invariant 0 <= integral < Tens(1, exp)
      invariant Generated(f, one, exp, h.buf[..h.size], integral * one + fractional)
      decreases exp
    {
      exp := exp - 1;
      result, integral := IntegralDigit(f, one, h, total, exp, integral, fractional);
      if result != More {
        return;
      }
      if exp == 0 {
        NothingIntegral(integral, one, fractional);
        break;
      }
    }
  }

  /** Below the first place nothing of the integral part is left. */
  lemma NothingIntegral(integral: nat, one: nat, fractional: nat)
    requires integral < Tens(1, 0)
    ensures integral * one + fractional == fractional
  {
  }

  /** One digit of the integral part, at the place exp. */
  method IntegralDigit(f: U64, one: U64, h: GenDigitsHandler, ghost total: nat, exp: nat,
                       integral: nat, fractional: nat)
    returns (result: DigitsResult, rest: nat)
    requires 0x1_0000_0000 <= one && exp < total && Place(total - 1, one) <= f
    requires h.fixed ==> h.precision > 0
    requires h.Valid() && h.size + 2 <= h.buf.Length && h.size == total - (exp + 1)
    requires h.size > 0 ==> h.size < h.precision
    requires integral < Tens(1, exp + 1) && fractional < one
    requires Generated(f, one, exp + 1, h.buf[..h.size], integral * one + fractional)
    modifies h`size, h`exp10, h.buf
    ensures h.Valid() && rest < Tens(1, exp)
    ensures result == More ==>
      && h.size == old(h.size) + 1 && h.size < h.precision && h.exp10 == old(h.exp10)
      && Generated(f, one, exp, h.buf[..h.size], rest * one + fractional)
    ensures result != More ==>
      Stopped(f, one, total, result, exp, h.buf[..h.size], h.precision, h.exp10 - old(h.exp10), h.fixed)
  {
    ghost var row := h.buf[..h.size];
    IntegralStep(f, one, exp, row, integral, fractional);
    TensLonger(one, exp, total - 1);
    var divisor := Tens(1, exp);
    var digit := integral / divisor;
    rest := integral % divisor;
    result := PutDigit(f, one, h, total, exp, digit, Tens(one, exp), rest * one + fractional, 1, true);
  }

  lemma GivenUp(f: nat, one: nat, exp: int, row: seq<char>, place: U64, left: U64, error: U64, precision: int,
                integral: bool)
    requires Generated(f, one, exp, row, left) && left < place == Place(exp, one) && error == Tens(1, Max(-exp, 0)) > 0
    requires row != [] && AllDigits(row) && if integral then error == 1 && place > 2 else exp < 0
    requires GenDigitsHandler.Verdict(place, left, error, integral, |row| >= precision) == Error
    ensures Undecided(f, one, row, exp, precision)
  {
  }

  /** Hands one digit to the handler and reads its answer as a statement about the number. */
  method PutDigit(ghost f: U64, ghost one: U64, h: GenDigitsHandler, ghost total: nat, ghost exp: int,
                  digit: int, place: U64, left: U64, error: U64, integral: bool) returns (result: DigitsResult)
    requires 0 <= digit <= 9 && place == Place(exp, one) && left < place && error == Tens(1, Max(-exp, 0)) > 0
    requires h.Valid() && h.size + 2 <= h.buf.Length && h.size == total - (exp + 1)
    requires h.size > 0 ==> h.size < h.precision
    requires total > 0 && (h.fixed ==> h.precision > 0)
    requires if integral then error == 1 && place > 2 else exp < 0
    requires Generated(f, one, exp, h.buf[..h.size] + [DigitChar(digit)], left)
    modifies h`size, h`exp10, h.buf
    ensures h.Valid()
    ensures result == More ==>
      && h.size == old(h.size) + 1 && h.size < h.precision && h.exp10 == old(h.exp10)
      && Generated(f, one, exp, h.buf[..h.size], left)
      && (!integral ==> error < left)
    ensures result != More ==>
      Stopped(f, one, total, result, exp, h.buf[..h.size], h.precision, h.exp10 - old(h.exp10), h.fixed)
  {
    hide Nearest, HasDigits, Undecided, Generated, Place, Tens, Rounded;
    ghost var row := h.buf[..h.size] + [DigitChar(digit)];
    result := h.OnDigit(DigitChar(digit), place, left, error, integral);
    if result == Done {
      SettledIsNearest(f, one, exp, row, left, h.buf[..h.size], h.exp10 - old(h.exp10), h.fixed);
      RoundedHasDigits(row, if 2 * (left + error) <= place then 0 else 1, h.buf[..h.size], h.exp10 - old(h.exp10),
                       h.fixed);
    } else if result == Error {
      GivenUp(f, one, exp, row, place, left, error, h.precision, integral);
    }
  }

  /** Ten times the fraction: its integral part is the next digit. */
  lemma FractionStep(f: nat, one: nat, exp: int, row: seq<char>, fractional: nat)
    requires exp <= 0 && fractional < one && Generated(f, one, exp, row, fractional)
    ensures 0 <= 10 * fractional / one <= 9 && 0 <= 10 * fractional % one < one
    ensures Generated(f, one, exp - 1, row + [DigitChar(10 * fractional / one)], 10 * fractional % one)
  {
    DigitBelowTen(10 * fractional, one);
    WorthSnoc(row, DigitChar(10 * fractional / one), one);
  }

  /** An error that is still below 2^60 has not been multiplied by ten 19 times. */
  lemma ErrorDepth(m: nat)
    requires Tens(1, m) < 0x1000_0000_0000_0000
    ensures m <= 18
  {
    if m > 18 {
      NineteenDigits();
      TensLonger(1, 19, m);
    }
  }

  lemma NineteenDigits()
    ensures Tens(1, 19) == 10_000_000_000_000_000_000
  {
    TenDigits();
    assert Tens(1, 15) == 1_000_000_000_000_000;
  }

  /** The second loop. The error grows tenfold and overtakes the remainder before 64 bits overflow. */
  method FractionDigits(ghost f: U64, one: U64, h: GenDigitsHandler, ghost total: nat, fraction: U64)
    returns (result: DigitsResult, exp: int)
    requires 0x1_0000_0000 <= one <= 0x1000_0000_0000_0000 && fraction < one
    requires h.Valid() && 0 < h.size == total <= 10 && h.size < h.precision && h.buf.Length >= 30
    requires Generated(f, one, 0, h.buf[..h.size], fraction)
    modifies h`size, h`exp10, h.buf
    ensures h.Valid()
    ensures Stopped(f, one, total, result, exp, h.buf[..h.size], h.precision, h.exp10 - old(h.exp10), h.fixed)
  {
    var fractional, error: U64 := fraction, 1;
    exp := 0;
    while true
      invariant exp <= 0 && error == Tens(1, -exp) > 0 && error < 0x1000_0000_0000_0000
      invariant h.Valid() && h.size == total - exp && h.size < h.precision && h.exp10 == old(h.exp10)
      invariant 0 <= fractional < one && Generated(f, one, exp, h.buf[..h.size], fractional)
      decreases 19 + exp
    {
      ErrorDepth(-exp);
      FractionStep(f, one, exp, h.buf[..h.size], fractional);
      var scaled: U64 := fractional * 10;
      error := error * 10;
      var digit := scaled / one;
      fractional := scaled % one;
      exp := exp - 1;
      result := PutDigit(f, one, h, total, exp, digit, one, fractional, error, false);
      if result != More {
        return;
      }
    }
  }

  lemma PlaceIsTens(one: nat, exp: nat)
    ensures Place(exp, one) == Tens(one, exp)
  {
  }

  /** The one digit written for the whole number, by which side of half a place it is on. */
  lemma OneDigit(f: nat, one: nat, total: nat, c: char)
    requires one > 0 && total > 0 && f < Tens(one, total)
    requires var divisor := Tens(one, total - 1);
      if c == '1' then 2 * (f / 10 - 10) >= divisor else c == '0' && 2 * (f / 10 + 10) <= divisor
    ensures AllDigits([c]) && Nearest(f, one, [c], 0, total)
  {
    hide Tens;
    var divisor := Tens(one, total - 1);
    assert Tens(one, total) == 10 * divisor by {
      TensLast(one, total);
    }
    assert [c] == [] + [c];
    WorthSnoc([], c, Place(total, one));
    TensNone(f);
    TensNone(1);
    TensNone(Worth([c], Place(total, one)));
  }

  lemma TensLast(one: nat, total: nat)
    requires total > 0
    ensures Tens(one, total) == 10 * Tens(one, total - 1)
  {
  }

  lemma TensNone(n: int)
    ensures Tens(n, 0) == n
  {
  }

  /** Numbers within the error on both sides of half a place are among those around it, and these are close to it. */
  lemma AroundHalfMeans(f: nat, one: nat, total: nat)
    requires total > 0
    ensures 2 * (f - 1) < Tens(one, total) < 2 * (f + 1) ==> AroundHalf(f, one, total)
    ensures AroundHalf(f, one, total) ==> -200 < 2 * f - Tens(one, total) < 220
  {
    TensLast(one, total);
  }

  /** All numbers within the error of this one are above half a place, and still it is given up. */
  lemma GivenUpEarly()
    ensures var f, one := 0x5_0000_0032, 0x1_0000_0000;
      AroundHalf(f, one, 1) && CountDigits(f / one) == 1 && Tens(one, 1) < 2 * (f - 1)
  {
    assert Tens(0x1_0000_0000, 0) == 0x1_0000_0000;
  }

  /** The precision asked for is met by leading zeros: only the rounding of the whole number is left.
      The number and the place are compared a tenth of their size, so that nothing overflows. */
  method LeadingZeros(f: U64, one: U64, h: GenDigitsHandler, total: nat) returns (result: DigitsResult)
    requires 0x1_0000_0000 <= one && f / one > 0 && total == CountDigits(f / one)
    requires h.Valid() && h.size == 0 && h.precision == 0 && h.fixed && h.buf.Length >= 30
    modifies h`size, h.buf
    ensures h.Valid()
    ensures total > 0 && Stopped(f, one, total, result, total, h.buf[..h.size], 0, 0, h.fixed)
    ensures result == Error <==> AroundHalf(f, one, total)
  {
    PlacesFit(f, one, total);
    BelowTotal(f, one, total);
    TensLonger(one, 0, total - 1);
    TensLast(one, total);
    hide Tens, Nearest, Place;
    PlaceIsTens(one, total - 1);
    var divisor: U64 := Tens(one, total - 1);
    var dir := GetRoundDirection(divisor, f / 10, 10);
    if dir == Unknown {
      return Error;
    }
    h.buf[h.size] := if dir == Up then '1' else '0';
    h.size := h.size + 1;
    assert h.buf[..h.size] == [h.buf[0]];
    OneDigit(f, one, total, h.buf[0]);
    return Done;
  }

  lemma BelowTotal(f: nat, one: nat, total: nat)
    requires one > 0 && f / one < Tens(1, total)
    ensures f < Tens(one, total)
  {
    DivideBack(f, one);
    TensTimes(1, one, total);
    PlusTimes(f / one, 1, one);
    ProductOrder(f / one + 1, Tens(1, total), one);
  }

  /** grisu_gen_digits for the error of one unit that its caller passes. */
  method GenDigits(f: U64, e: I32, error: U64, h: GenDigitsHandler) returns (outcome: Outcome, exp: int)
    requires -60 <= e <= -32 && error == 1 && f / One(e) > 0
    requires h.Valid() && h.size == 0 && h.buf.Length >= 30
    modifies h, h.buf
    ensures h.Valid()
    ensures var offset := CountDigits(f / One(e)) + old(h.exp10);
      && (outcome.NumberTooBig? <==> h.fixed && offset > 0 && old(h.precision) > 0x7fff_ffff - offset)
      && (outcome.Returned? ==> h.precision == old(h.precision) + (if h.fixed then offset else 0))
    ensures outcome.Returned? && h.fixed && h.precision < 0 ==>
      outcome.result == Done && h.size == 0 && exp == CountDigits(f / One(e)) && h.exp10 == old(h.exp10)
    ensures outcome.NumberTooBig? ==> h.size == 0 && h.precision == old(h.precision) && h.exp10 == old(h.exp10)
    ensures outcome.Returned? && (!h.fixed || h.precision >= 0) ==>
      Stopped(f, One(e), CountDigits(f / One(e)), outcome.result, exp,
              h.buf[..h.size], h.precision, h.exp10 - old(h.exp10), h.fixed)
  {
    var one: U64 := One(e);
    var integral := f / one;
    IntegralIsWord(f, one);
    TotalIsSmall(integral);
    exp := CountDigits(integral);
    if h.fixed {
      var offset := exp + h.exp10;
      if offset > 0 && h.precision > 0x7fff_ffff - offset {
        return NumberTooBig, exp;
      }
      h.precision := h.precision + offset;
      if h.precision <= 0 {
        if h.precision < 0 {
          return Returned(Done), exp;
        }
        var zeros := LeadingZeros(f, one, h, exp);
        return Returned(zeros), exp;
      }
    }
    var total := exp;
    var result;
    result, exp := IntegralDigits(f, one, h, total);
    if result == More {
      result, exp := FractionDigits(f, one, h, total, f % one);
    }
    outcome := Returned(result);
  }

  lemma IntegralIsWord(f: U64, one: nat)
    requires one >= 0x1_0000_0000
    ensures f / one < 0x1_0000_0000
  {
    DivideBack(f, one);
    if f / one >= 0x1_0000_0000 {
      ProductOrder(0x1_0000_0000, f / one, one);
    }
  }
}
