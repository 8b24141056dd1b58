/**
 format_dragon: decimal digits of an exact ratio, by big-number division. One form rounds
 at a given number of digits, the other stops at the first decimal inside the rounding interval.
 */
module Dragon {
  import opened Powers
  import opened Digits
  import opened BigArithmetic
  import opened Bignum
  import opened Decimal
  import opened DragonSetup

  /** Between two division steps: the next comparison is right and one step gives a digit. */
  ghost predicate Dividing(n: Bigint, d: Bigint, t: nat)
    reads n, d
  {
    && n != d && n.IsTrimmed() && d.IsTrimmed() && d.bigits != [0]
    && CannotTie(n, d, t)
    && (n.bigits == [0] ==> n.exp <= d.exp)
    && n.Value() < 10 * d.Value()
  }

  method NextDigit(n: Bigint, d: Bigint, ghost t: nat) returns (digit: I32)
    requires Dividing(n, d, t)
    modifies n
    ensures Dividing(n, d, t) && n.Value() < d.Value()
    ensures 0 <= digit <= 9 && old(n.Value()) == digit * d.Value() + n.Value()
    ensures n.exp == if digit == 0 then old(n.exp) else Min(old(n.exp), d.exp)
    ensures digit == 0 ==> n.bigits == old(n.bigits)
  {
    OneDigitFits(n.bigits, n.exp, d.bigits, d.exp);
    digit := n.DivmodAssign(d);
    QuotientIsDigit(old(n.Value()), digit, d.Value(), n.Value());
  }

  /** Less than ten divisors: at most one digit longer, and a quotient below ten. */
  lemma OneDigitFits(n: Bigits, a: nat, d: Bigits, b: nat)
    requires Trimmed(n) && Trimmed(d) && d != [0]
    requires n == [0] ==> a <= b
    requires Scaled(n, a) < 10 * Scaled(d, b)
    ensures |n| + a <= |d| + b + 1
    ensures Scaled(d, b) > 0 && Scaled(n, a) / Positive(Scaled(d, b)) < 10
  {
    ScaledTop(d, b);
    ScaledBound(d, b);
    DivBelow(Scaled(n, a), Scaled(d, b), 10);
    if n != [0] {
      ScaledTop(n, a);
      if |n| + a > |d| + b + 1 {
        PMonotone(|d| + b + 1, |n| + a - 1);
      }
    }
  }

  lemma DivBelow(n: nat, d: nat, c: nat)
    requires d > 0 && n < c * d
    ensures n / d < c
  {
    var q := n / d;
    assert n == d * q + n % d;
    if q >= c {
      ProductOrder(c, q, d);
    }
  }

  lemma QuotientIsDigit(n: nat, q: nat, d: nat, r: nat)
    requires n == q * d + r && n < 10 * d
    ensures q <= 9
  {
    if q >= 10 {
      ProductOrder(10, q, d);
    }
  }

  /** Times ten, keeping what the next division step needs. */
  method TimesTen(n: Bigint, d: Bigint, ghost t: nat)
    requires Dividing(n, d, t) && n.Value() < d.Value()
    modifies n
    ensures Dividing(n, d, t) && n.Value() == 10 * old(n.Value()) && n.exp == old(n.exp)
  {
    StillSeparates(t, n.Value(), d.Value(), 10);
    ScaledZero(n.bigits, n.exp);
    n.Multiply32(10);
    ScaledZero(n.bigits, n.exp);
  }

  lemma StillSeparates(t: nat, n: nat, d: nat, c: nat)
    ensures Separates(t, n, d) ==> Separates(t, n * c, d)
  {
    if Separates(t, n, d) {
      MultipleTimes(t, n, c);
    }
  }

  lemma MultipleTimes(t: nat, n: nat, c: nat)
    requires t > 0 && n % t == 0
    ensures (n * c) % t == 0
  {
    var q := n / t;
    assert n == t * q;
    MultipleScaled(t, q, c);
  }

  lemma MultipleScaled(t: nat, q: nat, c: nat)
    requires t > 0
    ensures ((t * q) * c) % t == 0
  {
    Assoc(t, q, c);
    var x := q * c;
    DivModUnique((t * q) * c, t, x, 0);
  }

  /** After i digits: what they spell, and what is left to divide. */
  ghost predicate Expanded(n0: nat, d: nat, i: nat, spelled: int, left: nat) {
    n0 * Pow(10, i) == (10 * spelled) * d + left
  }

  /** The scaled number divided: quotient and rest. */
  ghost predicate Divided(n0: nat, d: nat, i: nat, quotient: int, rest: nat) {
    n0 * Pow(10, i) == quotient * d + rest
  }

  lemma ExpandDigit(n0: nat, d: nat, i: nat, spelled: int, left: nat, digit: int, rest: nat)
    requires Expanded(n0, d, i, spelled, left) && left == digit * d + rest
    ensures Divided(n0, d, i, 10 * spelled + digit, rest)
    ensures Expanded(n0, d, i + 1, 10 * spelled + digit, 10 * rest)
  {
    PlusTimes(10 * spelled, digit, d);
    Swap(n0, 10, Pow(10, i));
    Assoc(10, 10 * spelled + digit, d);
  }

  /** What the fixed form returns: the ratio rounded half to even at the last digit. The exponent goes up exactly when
      that takes one digit more. */
  ghost predicate IsRounding(n0: nat, d0: nat, numDigits: nat, exp10: int, buf: seq<char>, exp: int)
    requires d0 > 0
  {
    var rounded := if numDigits == 0 then RoundHalfEven(n0, 10 * d0)
                   else RoundHalfEven(n0 * Pow(10, numDigits - 1), d0);
    var carried := exp - (exp10 - numDigits + 1);
    && |buf| == Max(numDigits, 1) && AllDigits(buf)
    && carried == (if numDigits > 0 && rounded == Pow(10, numDigits) then 1 else 0)
    && Spelled(buf) * Pow(10, carried) == rounded
  }

  method FixedDigits(n: Bigint, d: Bigint, ghost t: nat, numDigits: I32, exp10: int)
    returns (buf: seq<char>, exp: int)
    requires numDigits >= 0 && Dividing(n, d, t)
    modifies n, d
    ensures old(d.Value()) > 0
    ensures IsRounding(old(n.Value()), old(d.Value()), numDigits, exp10, buf, exp)
  {
    ghost var n0, d0 := n.Value(), d.Value();
    ScaledTop(d.bigits, d.exp);
    exp := exp10 - (numDigits - 1);
    if numDigits == 0 {
      buf := NoDigit(n, d);
      return;
    }
    var digit: I32;
    ghost var head;
    buf, digit, head := AllButRounding(n, d, t, numDigits);
    var result := Bigint.AddCompare(n, n, d);
    AppendedParity(head, digit);
    RoundingOf(n0, numDigits - 1, d0, 10 * Spelled(head) + digit, n.Value(), result, digit);
    buf, exp := RoundLast(buf, digit, result, exp);
  }

  lemma AppendedParity(s: seq<char>, digit: int)
    requires AllDigits(s) && digit >= 0
    ensures 10 * Spelled(s) + digit >= 0 && (10 * Spelled(s) + digit) % 2 == digit % 2
  {
    SpelledRange(s);
    assert 10 * Spelled(s) == 2 * (5 * Spelled(s));
  }

  /** Stores the last digit, rounded by the comparison of twice the remainder with the divisor. */
  method RoundLast(digits: seq<char>, last: I32, result: int, exp: int) returns (buf: seq<char>, newExp: int)
    requires |digits| > 0 && AllDigits(digits[..|digits| - 1]) && 0 <= last <= 9
    ensures |buf| == |digits| && AllDigits(buf)
    ensures var value := 10 * Spelled(digits[..|digits| - 1]) + last
                         + (if result > 0 || (result == 0 && last % 2 != 0) then 1 else 0);
      && newExp == exp + (if value == Pow(10, |digits|) then 1 else 0)
      && Spelled(buf) * Pow(10, newExp - exp) == value
  {
    assert Pow(10, 0) == 1;
    hide Spelled, Pow;
    ghost var head := digits[..|digits| - 1];
    var n, digit := |digits| - 1, last;
    newExp := exp;
    if result > 0 || (result == 0 && digit % 2 != 0) {
      if digit == 9 {
        buf := digits[n := ':'];
        assert buf == head + [':'];
        SpelledSnoc(head, ':');
        buf, newExp := CarryNines(buf, exp);
        return;
      }
      digit := digit + 1;
    }
    buf := digits[n := DigitChar(digit)];
    assert buf == head + [DigitChar(digit)];
    SpelledSnoc(head, DigitChar(digit));
    SpelledRange(buf);
  }

  /** No digit requested: one digit says whether the number rounds up to ten of its units. */
  method NoDigit(n: Bigint, d: Bigint) returns (buf: seq<char>)
    requires n != d && n.IsTrimmed() && d.IsTrimmed() && d.bigits != [0]
    requires n.Value() < 10 * d.Value() && (n.bigits == [0] ==> n.exp <= d.exp)
    modifies d
    ensures old(d.Value()) > 0
    ensures |buf| == 1 && AllDigits(buf)
    ensures Spelled(buf) == RoundHalfEven(n.Value(), 10 * old(d.Value()))
  {
    ScaledTop(d.bigits, d.exp);
    OneDigitFits(n.bigits, n.exp, d.bigits, d.exp);
    ghost var d0 := d.Value();
    d.Multiply32(10);
    ScaledZero(d.bigits, d.exp);
    ghost var nv, dv := n.Value(), d.Value();
    var result := Bigint.AddCompare(n, n, d);
    DivModUnique(nv, dv, 0, nv);
    buf := [if result > 0 then '1' else '0'];
    assert buf[..0] == [];
  }

  /** All the division steps; the last digit is returned apart, for rounding. */
  method AllButRounding(n: Bigint, d: Bigint, ghost t: nat, numDigits: I32)
    returns (buf: seq<char>, digit: I32, ghost head: seq<char>)
    requires numDigits > 0 && Dividing(n, d, t)
    modifies n
    ensures Dividing(n, d, t) && n.Value() < d.Value()
    ensures |buf| == numDigits && head == buf[..numDigits - 1] && AllDigits(head) && 0 <= digit <= 9
    ensures Divided(old(n.Value()), d.Value(), numDigits - 1, 10 * Spelled(head) + digit, n.Value())
  {
    ghost var n0 := n.Value();
    buf := seq(numDigits, _ => '0');
    var i := 0;
    assert buf[..0] == [] && Expanded(n0, d.Value(), 0, 0, n0);
    assert Spelled([]) == 0 && AllDigits([]);
    hide Spelled, Expanded, Divided, Pow, Scaled;
    while i < numDigits - 1
      invariant 0 <= i <= numDigits - 1 && |buf| == numDigits
      invariant Dividing(n, d, t) && AllDigits(buf[..i])
      invariant Expanded(n0, d.Value(), i, Spelled(buf[..i]), n.Value())
    {
      ghost var left := n.Value();
      digit := NextDigit(n, d, t);
      ExpandDigit(n0, d.Value(), i, Spelled(buf[..i]), left, digit, n.Value());
      SpelledSnoc(buf[..i], DigitChar(digit));
      assert buf[i := DigitChar(digit)][..i + 1] == buf[..i] + [DigitChar(digit)];
      buf := buf[i := DigitChar(digit)];
      TimesTen(n, d, t);
      i := i + 1;
    }
    ghost var left := n.Value();
    digit := NextDigit(n, d, t);
    ExpandDigit(n0, d.Value(), i, Spelled(buf[..i]), left, digit, n.Value());
    head := buf[..i];
  }

  /** Twice the remainder against the divisor, and the last digit's parity, decide. */
  lemma RoundingOf(n0: nat, i: nat, d: nat, q: int, r: nat, result: int, digit: int)
    requires d > 0 && Divided(n0, d, i, q, r) && r < d && q >= 0
    requires result == Sign(r + r - d) && q % 2 == digit % 2
    ensures RoundHalfEven(n0 * Pow(10, i), d) == if result > 0 || (result == 0 && digit % 2 != 0) then q + 1 else q
  {
    DivModUnique(n0 * Pow(10, i), d, q, r);
  }

  /** The last digit rounded to ten: carry through the nines, and out at the front. */
  method CarryNines(input: seq<char>, exp: int) returns (buf: seq<char>, newExp: int)
    requires |input| > 0 && input[|input| - 1] == ':' && AllDigits(input[..|input| - 1])
    ensures |buf| == |input| && AllDigits(buf)
    ensures newExp == exp + (if Spelled(input) == Pow(10, |input|) then 1 else 0)
    ensures Spelled(buf) * Pow(10, newExp - exp) == Spelled(input)
  {
    buf, newExp := input, exp;
    var i := |buf| - 1;
    while i > 0 && buf[i] == ':'
      invariant 0 <= i < |buf| == |input|
      invariant Spelled(buf) == Spelled(input)
      invariant IsDigit(buf[i]) || buf[i] == ':'
      invariant AllDigits(buf[..i])
      invariant forall k :: i < k < |buf| ==> buf[k] == '0'
    {
      CarryKeepsValue(buf, i);
      buf := buf[i := '0'][i - 1 := (buf[i - 1] as int + 1) as char];
      i := i - 1;
    }
    assert AllDigits(buf) || buf[0] == ':';
    FrontTells(buf);
    if buf[0] == ':' {
      SpelledZeros(buf);
      SpelledZeros(buf[0 := '1']);
      buf := buf[0 := '1'];
      newExp := newExp + 1;
    }
    assert Pow(10, 0) == 1 && Pow(10, 1) == 10;
  }
}
