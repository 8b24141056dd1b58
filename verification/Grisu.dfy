/**
 Digit generation in 64-bit fixed point with an error bound. When it answers Done, the digits
 are the nearest rounding of every real number within the error of the input.
 */
module Grisu {
  import opened Powers
  import opened Decimal

  datatype RoundDirection = Unknown | Up | Down

  datatype DigitsResult = More | Done | Error

  /** Rounding direction of v when v mod divisor is remainder, give or take error. */
  function GetRoundDirection(divisor: U64, remainder: U64, error: U64): (r: RoundDirection)
    requires remainder < divisor && error < divisor && error < divisor - error
    ensures r == Down <==> 2 * (remainder + error) <= divisor
    ensures r == Up ==> 2 * (remainder - error) >= divisor
    ensures r == Unknown <==> 2 * (remainder - error) < divisor < 2 * (remainder + error)
  {
    var up: U64 := divisor - remainder;
    if remainder <= up && (error as U64 * 2) as U64 <= divisor - remainder * 2 then Down
    else if remainder >= error && remainder - error >= divisor - (remainder - error) then Up
    else Unknown
  }

  /** Adding bump units in the last place carries through all the digits. */
  ghost predicate CarriesOut(was: seq<char>, bump: nat) {
    Spelled(was) + bump == Pow(10, |was|)
  }

  /** The digits was, with bump units added in the last place, are what the buffer now spells. A carry out of the front
      makes the row one digit longer in fixed notation, and raises the exponent otherwise. */
  ghost predicate Rounded(was: seq<char>, bump: nat, now: seq<char>, shift: int, fixed: bool) {
    && shift == (if CarriesOut(was, bump) && !fixed then 1 else 0)
    && |now| == |was| + (if CarriesOut(was, bump) && fixed then 1 else 0)
    && AllDigits(now) && Tens(Spelled(now), shift) == Spelled(was) + bump
  }

  class GenDigitsHandler {
    const buf: array<char>
    var size: nat
    var precision: int
    var exp10: int
    const fixed: bool

    constructor (buf: array<char>, precision: int, exp10: int, fixed: bool)
      ensures this.buf == buf && size == 0 && this.precision == precision
      ensures this.exp10 == exp10 && this.fixed == fixed
    {
      this.buf := buf;
      size := 0;
      this.precision := precision;
      this.exp10 := exp10;
      this.fixed := fixed;
    }

    ghost predicate Valid()
      reads this, buf
    {
      size <= buf.Length && AllDigits(buf[..size])
    }

    /** Whether a digit row of this length is settled: too uncertain, or rounded one way. */
    static ghost function Verdict(divisor: U64, remainder: U64, error: U64, integral: bool, last: bool): DigitsResult
      requires remainder < divisor && error > 0
    {
      if !integral && error >= remainder then Error
      else if !last then More
      else if 2 * error >= divisor then Error
      else if 2 * (remainder - error) < divisor < 2 * (remainder + error) then Error
      else Done
    }

    method OnDigit(digit: char, divisor: U64, remainder: U64, error: U64, integral: bool) returns (result: DigitsResult)
      requires Valid() && size + 2 <= buf.Length && IsDigit(digit)
      requires remainder < divisor && error > 0
      requires integral ==> error == 1 && divisor > 2
      modifies this`size, this`exp10, buf
      ensures Valid()
      ensures result == Verdict(divisor, remainder, error, integral, old(size) + 1 >= precision)
      ensures result != Done ==>
        buf[..size] == old(buf[..size]) + [digit] && exp10 == old(exp10)
      ensures result == Done ==>
        Rounded(old(buf[..size]) + [digit], if 2 * (remainder + error) <= divisor then 0 else 1,
                buf[..size], exp10 - old(exp10), fixed)
    {
      buf[size] := digit;
      size := size + 1;
      ghost var row := buf[..size];
      assert row == old(buf[..size]) + [digit];
      SpelledRange(row);
      if !integral && error >= remainder {
        return Error;
      }
      if size < precision {
        return More;
      }
      if !integral {
        if error >= divisor || error >= divisor - error {
          return Error;
        }
      }
      var dir := GetRoundDirection(divisor, remainder, error);
      if dir != Up {
        return if dir == Down then Done else Error;
      }
      RoundUp();
      return Done;
    }

    /** Adds one unit in the last place, carrying through the nines. */
    method RoundUp()
      requires Valid() && 0 < size < buf.Length
      modifies this`size, this`exp10, buf
      ensures Valid() && Rounded(old(buf[..size]), 1, buf[..size], exp10 - old(exp10), fixed)
    {
      ghost var row := buf[..size];
      BumpLast(row);
      buf[size - 1] := (buf[size - 1] as int + 1) as char;
      assert buf[..size] == row[size - 1 := buf[size - 1]];
      CarryNines();
      FrontTells(buf[..size]);
      FixFront();
    }

    /** Every character after '9' becomes a zero and one more unit on its left. */
    method CarryNines()
      requires 0 < size < buf.Length && AllDigits(buf[..size - 1])
      requires IsDigit(buf[size - 1]) || buf[size - 1] == ':'
      modifies buf
      ensures Spelled(buf[..size]) == old(Spelled(buf[..size]))
      ensures AllDigits(buf[..size]) || (buf[0] == ':' && forall k :: 0 < k < size ==> buf[k] == '0')
    {
      hide Spelled;
      var i := size - 1;
      while i > 0 && buf[i] > '9'
        invariant 0 <= i < size
        invariant Spelled(buf[..size]) == old(Spelled(buf[..size]))
        invariant IsDigit(buf[i]) || buf[i] == ':'
        invariant AllDigits(buf[..i])
        invariant forall k :: i < k < size ==> buf[k] == '0'
      {
        ghost var pre := buf[..size];
        assert buf[..i][i - 1] == pre[i - 1] && IsDigit(buf[..i][i - 1]);
        CarryKeepsValue(pre, i);
        buf[i] := '0';
        buf[i - 1] := (buf[i - 1] as int + 1) as char;
        assert buf[..size] == pre[i := '0'][i - 1 := (pre[i - 1] as int + 1) as char];
        assert buf[..i - 1] == pre[..i - 1];
        i := i - 1;
      }
    }

    /** A carry out of the first digit: 10...0 is one digit longer, or one exponent up. */
    method FixFront()
      requires 0 < size < buf.Length
      requires AllDigits(buf[..size]) || (buf[0] == ':' && forall k :: 0 < k < size ==> buf[k] == '0')
      modifies this`size, this`exp10, buf
      ensures Valid() && size == old(size) + (if old(buf[0]) == ':' && fixed then 1 else 0)
      ensures exp10 == old(exp10) + (if old(buf[0]) == ':' && !fixed then 1 else 0)
      ensures Tens(Spelled(buf[..size]), exp10 - old(exp10)) == old(Spelled(buf[..size]))
    {
      ghost var pre := buf[..size];
      FrontIsPower(pre);
      if buf[0] > '9' {
        buf[0] := '1';
        assert buf[..size] == pre[0 := '1'];
        if fixed {
          buf[size] := '0';
          assert buf[..size + 1] == pre[0 := '1'] + ['0'];
          size := size + 1;
        } else {
          exp10 := exp10 + 1;
        }
      } else {
        assert pre[0] == buf[0];
      }
    }
  }

  /** Ten units in the first place are a one and a zero, or a one with the exponent raised. */
  lemma FrontIsPower(row: seq<char>)
    requires |row| > 0
    requires AllDigits(row) || (row[0] == ':' && forall k :: 0 < k < |row| ==> row[k] == '0')
    ensures row[0] == ':' ==>
      && AllDigits(row[0 := '1']) && Tens(Spelled(row[0 := '1']), 1) == Spelled(row)
      && AllDigits(row[0 := '1'] + ['0']) && Spelled(row[0 := '1'] + ['0']) == Spelled(row)
    ensures row[0] != ':' ==> AllDigits(row)
  {
    if row[0] == ':' {
      SpelledZeros(row);
      SpelledZeros(row[0 := '1']);
      SpelledSnoc(row[0 := '1'], '0');
    }
  }

  lemma BumpLast(row: seq<char>)
    requires |row| > 0 && IsDigit(row[|row| - 1])
    ensures Spelled(row[|row| - 1 := (row[|row| - 1] as int + 1) as char]) == Spelled(row) + 1
  {
    var n := |row| - 1;
    assert row[n := (row[n] as int + 1) as char][..n] == row[..n];
  }

  /** Number of decimal digits. */
  function CountDigits(n: nat): (k: nat)
    ensures k > 0
  {
    if n < 10 then 1 else 1 + CountDigits(n / 10)
  }

  lemma {:induction false} CountDigitsBracket(n: nat)
    requires n > 0
    ensures Tens(1, CountDigits(n) - 1) <= n < Tens(1, CountDigits(n))
  {
    if n >= 10 {
      CountDigitsBracket(n / 10);
    }
  }

  /** The places of ten: above the point by the exponent, below it by scaling the number. */
  ghost function Place(exp: int, one: nat): int {
    Tens(one, Max(exp, 0))
  }

  /** Every number within error 1 of f, scaled, lies within half a place of what the row is worth. */
  ghost predicate Nearest(f: nat, one: nat, row: seq<char>, shift: nat, exp: int) {
    var m, place := Max(-exp, 0), Place(exp, one);
    var worth := Tens(Worth(row, place), shift);
    2 * (Tens(f, m) + Tens(1, m) - worth) <= place && 2 * (worth - (Tens(f, m) - Tens(1, m))) <= place
  }

  /** What Nearest means for a real x within the error: half a place at most. */
  lemma NearestForReals(f: nat, one: nat, row: seq<char>, shift: nat, exp: int, x: real)
    requires Nearest(f, one, row, shift, exp)
    requires (f - 1) as real <= x <= (f + 1) as real
    ensures var place, scaled := Place(exp, one), TensReal(x, Max(-exp, 0));
      2.0 * RealAbs(scaled - Tens(Worth(row, place), shift) as real) <= place as real
  {
    var m := Max(-exp, 0);
    ScaledInterval(m, f, x);
    TensPlus(f, 1, m);
    TensPlus(f - 1, 1, m);
    var place := Place(exp, one);
    WithinHalf(TensReal(x, m), Tens(f - 1, m), Tens(f + 1, m), Tens(Worth(row, place), shift), place);
  }

  lemma WithinHalf(y: real, lo: int, hi: int, d: int, place: int)
    requires lo as real <= y <= hi as real
    requires 2 * (hi - d) <= place && 2 * (d - lo) <= place
    ensures 2.0 * RealAbs(y - d as real) <= place as real
  {
  }

  /** Half a place at most: no other multiple of the place is nearer. */
  lemma HalfPlaceIsNearest(y: real, row: seq<char>, shift: nat, place: nat, k: int)
    requires 2.0 * RealAbs(y - Tens(Worth(row, place), shift) as real) <= place as real
    ensures RealAbs(y - Tens(Worth(row, place), shift) as real) <= RealAbs(y - (k * place) as real)
  {
    WorthAtPlace(row, shift, place);
    OtherMultiple(k, Spelled(row) * Pow(10, shift), place);
    FartherIsFarther(y, Tens(Worth(row, place), shift), k * place, place);
  }

  lemma WorthAtPlace(row: seq<char>, shift: nat, place: int)
    ensures Tens(Worth(row, place), shift) == Spelled(row) * Pow(10, shift) * place
  {
    WorthIsProduct(row, place);
    TensIsProduct(Worth(row, place), shift);
    SwapFactors(Spelled(row), place, Pow(10, shift));
  }

  lemma SwapFactors(a: int, b: int, c: int)
    ensures (a * b) * c == (a * c) * b
  {
  }

  /** A real number times ten to the n. */
  function TensReal(x: real, n: nat): real {
    if n == 0 then x else 10.0 * TensReal(x, n - 1)
  }

  lemma {:induction false} ScaledInterval(m: nat, f: int, x: real)
    requires (f - 1) as real <= x <= (f + 1) as real
    ensures Tens(f - 1, m) as real <= TensReal(x, m) <= Tens(f + 1, m) as real
  {
    if m > 0 {
      ScaledInterval(m - 1, f, x);
    }
  }

  lemma OtherMultiple(k: int, d: int, place: nat)
    ensures k == d || k * place + place <= d * place || d * place + place <= k * place
  {
    PlusTimes(k, 1, place);
    PlusTimes(d, 1, place);
    if k < d {
      ProductOrder(k + 1, d, place);
    } else if k > d {
      ProductOrder(d + 1, k, place);
    }
  }

  lemma FartherIsFarther(y: real, d: int, k: int, place: int)
    requires 2.0 * RealAbs(y - d as real) <= place as real
    requires k == d || k + place <= d || d + place <= k
    ensures RealAbs(y - d as real) <= RealAbs(y - k as real)
  {
  }

  function RealAbs(x: real): real {
    if x < 0.0 then -x else x
  }

  /** Why a row of digits settles nothing: the error of the fraction has reached what is left, or at the digit asked for
      the numbers within the error lie on both sides of half a place. */
  ghost predicate Undecided(f: nat, one: nat, row: seq<char>, exp: int, precision: int) {
    var m, place := Max(-exp, 0), Place(exp, one);
    var left, error := Tens(f, m) - Worth(row, place), Tens(1, m);
    && row != [] && AllDigits(row) && 0 <= left < place
    && ((exp < 0 && error >= left) || (|row| >= precision && 2 * (left - error) < place < 2 * (left + error)))
  }

  /** Such a row settles nothing indeed: one number within the error is not above the row, or one is nearer to the row
      and another one is nearer to the row with one more unit. */
  lemma UndecidedNumbers(f: nat, one: nat, row: seq<char>, exp: int, precision: int)
    requires Undecided(f, one, row, exp, precision)
    ensures var m, place := Max(-exp, 0), Place(exp, one);
      var low, high := Tens(f - 1, m), Tens(f + 1, m);
      var worth := Worth(row, place);
      || (exp < 0 && low <= worth <= high)
      || (|row| >= precision && 2 * (low - worth) < place && 2 * (high - worth) > place)
  {
    var m := Max(-exp, 0);
    TensPlus(f, 1, m);
    TensPlus(f - 1, 1, m);
    TensOrder(0, 1, m);
  }

  /** A settled row is nearest at its place. */
  lemma SettledIsNearest(f: nat, one: nat, exp: int, row: seq<char>, left: nat, now: seq<char>, shift: int,
                         fixed: bool)
    requires Generated(f, one, exp, row, left) && left < Place(exp, one)
    requires var error, place := Tens(1, Max(-exp, 0)), Place(exp, one);
      && 2 * error < place
      && !(2 * (left - error) < place < 2 * (left + error))
      && Rounded(row, if 2 * (left + error) <= place then 0 else 1, now, shift, fixed)
    ensures Nearest(f, one, now, shift, exp)
  {
    var place := Place(exp, one);
    var bump := Tens(Spelled(now), shift) - Spelled(row);
    WorthIsProduct(row, place);
    WorthIsProduct(now, place);
    TensIsProduct(Spelled(now) * place, shift);
    TensIsProduct(Spelled(now), shift);
    SwapFactors(Spelled(now), place, Pow(10, shift));
    PlusTimes(Spelled(row), bump, place);
  }

  /** Digits written so far: they, and what is left, make up the number at the current place. */
  ghost predicate Generated(f: nat, one: nat, exp: int, row: seq<char>, left: nat) {
    Tens(f, Max(-exp, 0)) == Worth(row, Place(exp, one)) + left
  }
}
