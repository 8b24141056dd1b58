/**
 The big-number class of the formatter: base-2^32 digits updated in place, with an exponent
 that counts implicit zero digits below them. Every operation is proved against Value().
 */
module Bignum {
  import opened Powers
  import opened Digits
  import opened Convolution
  import opened BigArithmetic

  /** Two 64-bit words used as one 128-bit sum. */
  class Accumulator {
    var lower: U64
    var upper: U64

    ghost function Sum(): nat
      reads this
    {
      lower + 0x1_0000_0000_0000_0000 * upper
    }

    constructor ()
      ensures Sum() == 0
    {
      lower, upper := 0, 0;
    }

    /** Adds n; the low word wraps and the wrap is carried into the high word. */
    method Add(n: U64)
      requires Sum() + n < 0x1_0000_0000_0000_0000 * 0x1_0000_0000_0000_0000
      modifies this
      ensures Sum() == old(Sum()) + n
    {
      lower := (lower + n) % 0x1_0000_0000_0000_0000;
      if lower < n {
        upper := upper + 1;
      }
    }

    /** The shift by one digit. The two parts of the new low word have no bit in common. */
    method ShiftRight32()
      modifies this
      ensures Sum() == old(Sum()) / 0x1_0000_0000
    {
      var moved := (upper * 0x1_0000_0000) % 0x1_0000_0000_0000_0000;
      lower := moved + lower / 0x1_0000_0000;
      upper := upper / 0x1_0000_0000;
    }

    method Low32() returns (d: U32)
      ensures d == Sum() % 0x1_0000_0000
    {
      d := lower % 0x1_0000_0000;
    }
  }

  class Bigint {
    var bigits: Bigits
    var exp: nat

    ghost function Value(): nat
      reads this
    {
      Scaled(bigits, exp)
    }

    ghost predicate IsTrimmed()
      reads this
    {
      Trimmed(bigits)
    }

    function NumBigits(): nat
      reads this
    {
      |bigits| + exp
    }

    constructor ()
      ensures bigits == [] && exp == 0
    {
      bigits, exp := [], 0;
    }

    method Assign(other: Bigint)
      modifies this
      ensures bigits == other.bigits && exp == other.exp
    {
      bigits := other.bigits;
      exp := other.exp;
    }

    method AssignWord(n: U64)
      modifies this
      ensures Value() == n && IsTrimmed() && exp == 0
      ensures bigits == [0] <==> n == 0
    {
      var m: U64 := n / 0x1_0000_0000;
      bigits := [n % 0x1_0000_0000];
      ValSingle(n % 0x1_0000_0000);
      while m != 0
        invariant |bigits| > 0
        invariant Val(bigits) + Up(m, |bigits|) == n
        invariant m == 0 ==> Trimmed(bigits)
        decreases m
      {
        ValSnoc(bigits, m % 0x1_0000_0000);
        DigitCarry(m, |bigits|);
        bigits := bigits + [m % 0x1_0000_0000];
        m := m / 0x1_0000_0000;
      }
      exp := 0;
      UpOrder(0, 0, |bigits|);
      TrimmedZero(bigits);
    }

    /** Subtracts a digit and the borrow at index, wrapping; borrow becomes the sign bit. */
    method SubtractBigits(index: nat, other: U32, borrow: U32) returns (newBorrow: U32)
      requires index < |bigits| && borrow <= 1
      modifies this
      ensures exp == old(exp) && |bigits| == old(|bigits|) && newBorrow <= 1
      ensures bigits == old(bigits)[index := bigits[index]]
      ensures bigits[index] == old(bigits)[index] - other - borrow + 0x1_0000_0000 * newBorrow
    {
      var result: U64 := (bigits[index] - other - borrow) % 0x1_0000_0000_0000_0000;
      bigits := bigits[index := result % 0x1_0000_0000];
      newBorrow := result / 0x8000_0000_0000_0000;
    }

    method RemoveLeadingZeros()
      requires |bigits| > 0
      modifies this
      ensures exp == old(exp) && Val(bigits) == old(Val(bigits)) && IsTrimmed()
      ensures Value() == old(Value())
      ensures |bigits| <= old(|bigits|)
    {
      var n := |bigits| - 1;
      assert bigits[..n + 1] == bigits;
      while n > 0 && bigits[n] == 0
        invariant 0 <= n < |bigits|
        invariant bigits == old(bigits) && exp == old(exp)
        invariant Val(bigits[..n + 1]) == Val(bigits)
      {
        ValPrefix(bigits, n);
        UpOrder(0, 0, n);
        n := n - 1;
      }
      bigits := bigits[..n + 1];
    }

    /** A borrow leaves the digits below other's top while the next digit up is 0: the one
        input shape on which the final borrow of SubtractAligned goes wrong. */
    ghost predicate BorrowLost(other: Bigint)
      requires other.exp >= exp
      reads this, other
    {
      var k := other.NumBigits() - exp;
      k < |bigits| && bigits[k] == 0 && Scaled(bigits[..k], exp) < other.Value()
    }

    /** Subtracts an aligned, not larger number. The last loop keeps working on one digit. */
    method SubtractAligned(other: Bigint)
      requires this != other
      requires other.exp >= exp && other.IsTrimmed() && other.bigits != [0]
      requires Value() >= other.Value()
      modifies this
      ensures exp == old(exp) && IsTrimmed() && |bigits| <= old(|bigits|)
      ensures Value() == old(Value()) - other.Value()
        + (if old(BorrowLost(other)) then Up(0xffff_ffff, other.NumBigits()) else 0)
    {
      hide Val, Up;
      ghost var was := bigits;
      SubtrahendFits(was, exp, other.bigits, other.exp);
      var borrow := SubtractDigits(other);
      ghost var low := bigits;
      DifferenceFits(was, low, exp, other.bigits, other.exp, borrow);
      PropagateBorrow(other.exp - exp + |other.bigits|, borrow);
      DifferenceScaled(was, low, exp, other.bigits, other.exp, borrow);
      RemoveLeadingZeros();
    }

    /** The first loop of SubtractAligned, over the digits of other. */
    method SubtractDigits(other: Bigint) returns (borrow: U32)
      requires this != other
      requires other.exp >= exp && other.NumBigits() <= NumBigits()
      modifies this
      ensures exp == old(exp) && borrow <= 1
      ensures IsDifference(old(bigits), bigits, other.exp - exp, other.bigits, borrow)
    {
      ghost var was, off := bigits, other.exp - exp;
      borrow := 0;
      var i, j, n := other.exp - exp, 0, |other.bigits|;
      assert IsDifference(was, was, off, other.bigits[..0], 0);
      while j != n
        invariant 0 <= j <= n && i == off + j && borrow <= 1
        invariant exp == old(exp)
        invariant IsDifference(was, bigits, off, other.bigits[..j], borrow)
        decreases n - j
      {
        ghost var pre := bigits;
        var next := SubtractBigits(i, other.bigits[j], borrow);
        SubtractStep(was, pre, bigits, other.bigits, off, j, borrow, next);
        borrow, i, j := next, i + 1, j + 1;
      }
      assert other.bigits[..n] == other.bigits;
    }

    /** The last loop of SubtractAligned, on the one digit above other's top. */
    method PropagateBorrow(i: nat, first: U32)
      requires first <= 1 && (first == 1 ==> i < |bigits|)
      modifies this
      ensures exp == old(exp) && bigits == AfterBorrow(old(bigits), i, first)
    {
      ghost var low := bigits;
      var borrow := first;
      while borrow > 0
        invariant borrow <= 1 && exp == old(exp) && |bigits| == |low|
        invariant borrow == 1 ==> first == 1 && (bigits == low || (low[i] == 0 && bigits == low[i := 0xffff_ffff]))
        invariant borrow == 0 ==> bigits == AfterBorrow(low, i, first)
        decreases if borrow == 0 then 0 else if bigits[i] == 0 then 2 else 1
      {
        borrow := SubtractBigits(i, 0, borrow);
      }
    }

    /** Multiplies by a 32-bit word. */
    method Multiply32(value: U32)
      requires value > 0
      modifies this
      ensures exp == old(exp) && Value() == old(Value()) * value
      ensures old(IsTrimmed()) ==> IsTrimmed()
      ensures old(bigits) == [0] ==> bigits == [0]
    {
      ghost var was := bigits;
      var carry: U32 := 0;
      var i, n := 0, |bigits|;
      while i < n
        invariant 0 <= i <= n == |bigits| == |was| && exp == old(exp)
        invariant carry < value
        invariant bigits[i..] == was[i..]
        invariant Val(bigits[..i]) + Up(carry, i) == Val(was[..i]) * value
      {
        WordProduct(bigits[i], value, carry);
        var result: U64 := bigits[i] * value + carry;
        MultiplyStep(was, bigits, i, value, carry, result % 0x1_0000_0000, result / 0x1_0000_0000);
        bigits := bigits[i := result % 0x1_0000_0000];
        carry := result / 0x1_0000_0000;
        i := i + 1;
      }
      MultiplyEnd(was, bigits, value, carry, exp);
      if carry != 0 {
        bigits := bigits + [carry];
      }
    }

    /** Multiplies by a 64-bit word, one 32-bit half at a time. No 64-bit step overflows. */
    method Multiply64(value: U64)
      requires value > 0
      modifies this
      ensures exp == old(exp) && Value() == old(Value()) * value
      ensures old(IsTrimmed()) ==> IsTrimmed()
      ensures old(bigits) == [0] ==> bigits == [0]
    {
      ghost var was := bigits;
      var lower: U32, upper: U32 := value % 0x1_0000_0000, value / 0x1_0000_0000;
      var carry: U64 := 0;
      var i, n := 0, |bigits|;
      while i < n
        invariant 0 <= i <= n == |bigits| == |was| && exp == old(exp)
        invariant carry < value
        invariant bigits[i..] == was[i..]
        invariant Val(bigits[..i]) + Up(carry, i) == Val(was[..i]) * value
      {
        HalfProducts(bigits[i], value, lower, upper, carry);
        var result: U64 := bigits[i] * lower + carry % 0x1_0000_0000;
        var next: U64 := bigits[i] * upper + result / 0x1_0000_0000 + carry / 0x1_0000_0000;
        MultiplyStep(was, bigits, i, value, carry, result % 0x1_0000_0000, next);
        carry := next;
        bigits := bigits[i := result % 0x1_0000_0000];
        i := i + 1;
      }
      assert was[..n] == was && bigits[..n] == bigits;
      PushCarry(carry);
      ScaledTimes(was, bigits, value, exp);
    }

    /** The last loop of Multiply64: the carry becomes new top digits. */
    method PushCarry(first: U64)
      modifies this
      ensures exp == old(exp) && |bigits| >= old(|bigits|)
      ensures Val(bigits) == old(Val(bigits)) + Up(first, old(|bigits|))
      ensures |bigits| > old(|bigits|) ==> bigits[|bigits| - 1] != 0
      ensures first == 0 ==> bigits == old(bigits)
    {
      var carry := first;
      ghost var was := bigits;
      UpOrder(0, 0, |bigits|);
      while carry != 0
        invariant exp == old(exp) && |bigits| >= |was|
        invariant Val(bigits) + Up(carry, |bigits|) == Val(was) + Up(first, |was|)
        invariant carry == 0 && |bigits| > |was| ==> bigits[|bigits| - 1] != 0
        invariant first == 0 ==> bigits == was
        decreases carry
      {
        ValSnoc(bigits, carry % 0x1_0000_0000);
        DigitCarry(carry, |bigits|);
        bigits := bigits + [carry % 0x1_0000_0000];
        carry := carry / 0x1_0000_0000;
      }
      UpOrder(0, 0, |bigits|);
    }

    /** Multiplies by a power of two: whole digits go to the exponent, the rest shifts bits. */
    method ShiftLeft(shift: nat)
      modifies this
      ensures exp == old(exp) + shift / 32 && Value() == old(Value()) * Pow(2, shift)
      ensures old(IsTrimmed()) ==> IsTrimmed()
      ensures old(bigits) == [0] ==> bigits == [0]
      ensures shift % 32 == 0 ==> bigits == old(bigits)
      ensures |bigits| <= old(|bigits|) + 1
    {
      ShiftWeights(bigits, shift, exp);
      exp := exp + shift / 32;
      if shift % 32 != 0 {
        ShiftBits(shift % 32);
      }
    }

    /** The loop of ShiftLeft: moves every bit up by s positions inside the digits. */
    method ShiftBits(s: nat)
      requires 0 < s < 32
      modifies this
      ensures exp == old(exp) && Value() == old(Value()) * Pow(2, s)
      ensures old(IsTrimmed()) ==> IsTrimmed()
      ensures old(bigits) == [0] ==> bigits == [0]
      ensures |bigits| <= old(|bigits|) + 1
    {
      hide Scaled, Pow;
      ghost var was := bigits;
      ShiftWords(s);
      var p, q := Pow(2, s), Pow(2, 32 - s);
      var carry: U32 := 0;
      var i, n := 0, |bigits|;
      while i < n
        invariant 0 <= i <= n == |bigits| == |was| && exp == old(exp)
        invariant carry < p
        invariant bigits[i..] == was[i..]
        invariant Val(bigits[..i]) + Up(carry, i) == Val(was[..i]) * p
      {
        ShiftDigit(bigits[i], p, q, carry);
        var c: U32 := bigits[i] / q;
        var d: U32 := (bigits[i] * p) % 0x1_0000_0000 + carry;
        MultiplyStep(was, bigits, i, p, carry, d, c);
        bigits := bigits[i := d];
        carry := c;
        i := i + 1;
      }
      MultiplyEnd(was, bigits, p, carry, exp);
      if carry != 0 {
        bigits := bigits + [carry];
      }
    }

    /** Squares in place, column by column: first the low half of the columns, then the high. */
    method Square()
      requires 0 < |bigits| < 0x4000_0000
      modifies this
      ensures exp == 2 * old(exp) && Value() == old(Value()) * old(Value()) && IsTrimmed()
      ensures |bigits| <= 2 * old(|bigits|)
    {
      hide Scaled, Val, Up, Columns;
      var numBigits := |bigits|;
      var numResult := 2 * numBigits;
      var n := bigits;
      bigits := seq(numResult, _ => 0);
      var sum := new Accumulator();
      var c := 0;
      ColumnsStart(n, bigits);
      while c < numBigits
        invariant 0 <= c <= numBigits && |bigits| == numResult && exp == old(exp) && fresh(sum)
        invariant ColumnsDone(n, bigits, sum.Sum(), c)
      {
        ghost var carry := sum.Sum();
        LowColumn(sum, n, c);
        StoreColumn(sum, n, c, carry);
        c := c + 1;
      }
      while c < numResult
        invariant numBigits <= c <= numResult == |bigits| && exp == old(exp) && fresh(sum)
        invariant ColumnsDone(n, bigits, sum.Sum(), c)
      {
        ghost var carry := sum.Sum();
        HighColumn(sum, n, c);
        StoreColumn(sum, n, c, carry);
        c := c + 1;
      }
      SquareDone(n, bigits, sum.Sum(), exp);
      ghost var r := bigits;
      RemoveLeadingZeros();
      SquareScaled(n, r, bigits, exp);
      exp := exp * 2;
    }

    /** Adds the products of column c, for a column below the number of digits. */
    static method LowColumn(sum: Accumulator, n: Bigits, c: nat)
      requires c < |n| < 0x4000_0000 && sum.Sum() < SUM_LIMIT
      modifies sum
      ensures sum.Sum() == old(sum.Sum()) + Cross(n, n, c, |n|)
      ensures sum.Sum() < 2 * SUM_LIMIT
    {
      var i, j := 0, c as int;
      while j >= 0
        invariant 0 <= i <= c + 1 && j == c - i
        invariant sum.Sum() == old(sum.Sum()) + Cross(n, n, c, i)
        invariant sum.Sum() < SUM_LIMIT + i * 0xffff_fffe_0000_0001
      {
        sum.Add(WideProduct(n[i], n[j]));
        i, j := i + 1, j - 1;
      }
      CrossSkip(n, n, c, c + 1, |n|);
    }

    /** The same for a column at or above the number of digits. */
    static method HighColumn(sum: Accumulator, n: Bigits, c: nat)
      requires 0 < |n| <= c < 2 * |n| && |n| < 0x4000_0000 && sum.Sum() < SUM_LIMIT
      modifies sum
      ensures sum.Sum() == old(sum.Sum()) + Cross(n, n, c, |n|)
      ensures sum.Sum() < 2 * SUM_LIMIT
    {
      var j := |n| - 1;
      var i := c - j;
      CrossSkip(n, n, c, 0, i);
      while i < |n|
        invariant 0 < i <= |n| && j == c - i
        invariant sum.Sum() == old(sum.Sum()) + Cross(n, n, c, i)
        invariant sum.Sum() < SUM_LIMIT + i * 0xffff_fffe_0000_0001
      {
        sum.Add(WideProduct(n[i], n[j]));
        i, j := i + 1, j - 1;
      }
    }

    /** The low digit of the column sum becomes digit c; the rest is carried on. */
    method StoreColumn(sum: Accumulator, n: Bigits, c: nat, ghost carry: nat)
      requires c < |bigits| && sum.Sum() < 2 * SUM_LIMIT
      requires ColumnsDone(n, bigits, carry, c) && sum.Sum() == carry + Cross(n, n, c, |n|)
      modifies this, sum
      ensures exp == old(exp) && |bigits| == old(|bigits|)
      ensures ColumnsDone(n, bigits, sum.Sum(), c + 1)
    {
      var d := sum.Low32();
      ghost var was, total := bigits, sum.Sum();
      bigits := bigits[c := d];
      sum.ShiftRight32();
      UpPlus(carry, Cross(n, n, c, |n|), c);
      DigitCarry(total, c);
      ValPrefix(bigits, c);
      assert bigits[..c] == was[..c];
    }

    /** Three-way comparison from the top digit down. */
    static method Compare(lhs: Bigint, rhs: Bigint) returns (r: int)
      requires lhs.IsTrimmed() && rhs.IsTrimmed()
      ensures r == Verdict(lhs.bigits, lhs.exp, rhs.bigits, rhs.exp)
    {
      hide Verdict, Trimmed;
      var nl, nr := lhs.NumBigits(), rhs.NumBigits();
      if nl != nr {
        LengthDecides(lhs.bigits, lhs.exp, rhs.bigits, rhs.exp);
        return if nl > nr then 1 else -1;
      }
      var i, j := |lhs.bigits| - 1, |rhs.bigits| - 1;
      var end := i - j;
      if end < 0 {
        end := 0;
      }
      while i >= end
        invariant end - 1 <= i < |lhs.bigits| && -1 <= j < |rhs.bigits|
        invariant i - j == |lhs.bigits| - |rhs.bigits|
        invariant lhs.bigits[i + 1..] == rhs.bigits[j + 1..]
      {
        var dl, dr := lhs.bigits[i], rhs.bigits[j];
        if dl != dr {
          DigitDecides(lhs.bigits, lhs.exp, rhs.bigits, rhs.exp, i, j);
          return if dl > dr then 1 else -1;
        }
        assert lhs.bigits[i..] == [dl] + lhs.bigits[i + 1..];
        assert rhs.bigits[j..] == [dr] + rhs.bigits[j + 1..];
        i, j := i - 1, j - 1;
      }
      TailDecides(lhs.bigits, lhs.exp, rhs.bigits, rhs.exp);
      if i != j {
        return if i > j then 1 else -1;
      }
      return 0;
    }

    /** Sign of lhs1 + lhs2 - rhs, found without adding: one pass from rhs's top digit down. */
    static method AddCompare(lhs1: Bigint, lhs2: Bigint, rhs: Bigint) returns (r: int)
      requires lhs1.IsTrimmed() && lhs2.IsTrimmed() && rhs.IsTrimmed()
      requires lhs1.bigits == [0] ==> lhs1.NumBigits() <= rhs.NumBigits()
      requires lhs2.bigits == [0] ==> lhs2.NumBigits() <= rhs.NumBigits()
      requires rhs.bigits == [0] ==> rhs.NumBigits() <= Max(lhs1.NumBigits(), lhs2.NumBigits()) + 1
      ensures r == SumSign(lhs1.bigits, lhs1.exp, lhs2.bigits, lhs2.exp, rhs.bigits, rhs.exp)
    {
      var maxLhs, numRhs := Max(lhs1.NumBigits(), lhs2.NumBigits()), rhs.NumBigits();
      if maxLhs + 1 < numRhs {
        SumTooShort(lhs1.bigits, lhs1.exp, lhs2.bigits, lhs2.exp, rhs.bigits, rhs.exp);
        return -1;
      }
      if maxLhs > numRhs {
        SumTooLong(lhs1.bigits, lhs1.exp, lhs2.bigits, lhs2.exp, rhs.bigits, rhs.exp);
        return 1;
      }
      r := AddCompareDigits(lhs1, lhs2, rhs, numRhs);
    }

    /** The loop of AddCompare: a borrow of at most one digit is carried downwards. */
    static method AddCompareDigits(lhs1: Bigint, lhs2: Bigint, rhs: Bigint, numRhs: nat) returns (r: int)
      requires lhs1.NumBigits() <= numRhs && lhs2.NumBigits() <= numRhs
      requires rhs.NumBigits() == numRhs && rhs.bigits != []
      ensures r == SumSign(lhs1.bigits, lhs1.exp, lhs2.bigits, lhs2.exp, rhs.bigits, rhs.exp)
    {
      var l1, a1, l2, a2, n, b := lhs1.bigits, lhs1.exp, lhs2.bigits, lhs2.exp, rhs.bigits, rhs.exp;
      var borrow: U64 := 0;
      var minExp := Min(Min(a1, a2), b);
      var i := numRhs - 1;
      while i >= minExp
        invariant minExp - 1 <= i < numRhs
        invariant borrow == 0 || borrow == 0x1_0000_0000
        invariant Shortfall(l1, a1, l2, a2, n, b, numRhs, i + 1) * 0x1_0000_0000 == borrow
      {
        var sum: U64 := DigitAt(l1, a1, i) + DigitAt(l2, a2, i);
        var d: U32 := DigitAt(n, b, i);
        ghost var short := Shortfall(l1, a1, l2, a2, n, b, numRhs, i);
        assert short == d - sum + borrow;
        if sum > d + borrow {
          ShortfallDecides(l1, a1, l2, a2, n, b, numRhs, i);
          return 1;
        }
        borrow := d + borrow - sum;
        if borrow > 1 {
          ShortfallDecides(l1, a1, l2, a2, n, b, numRhs, i);
          return -1;
        }
        borrow := borrow * 0x1_0000_0000;
        i := i - 1;
      }
      ShortfallExact(l1, a1, l2, a2, n, b, numRhs, minExp);
      return if borrow != 0 then -1 else 0;
    }

    /** Makes explicit the zero digits that keep this number from having other's exponent.
        The new cells hold anything until the copy, from the top down, overwrites them. */
    method Align(other: Bigint)
      modifies this
      ensures exp == Min(old(exp), other.exp)
      ensures Value() == old(Value()) && NumBigits() == old(NumBigits())
      ensures old(IsTrimmed()) && old(bigits) != [0] ==> IsTrimmed() && bigits != [0]
    {
      var difference := exp - other.exp;
      if difference <= 0 {
        return;
      }
      var n := |bigits|;
      ghost var was := bigits;
      var cells: Bigits := seq(difference, _ => 0xcdcd_cdcd);
      bigits := bigits + cells;
      var i, j := n - 1, n - 1 + difference;
      while i >= 0
        invariant -1 <= i < n && j == i + difference
        invariant exp == old(exp) && |bigits| == n + difference
        invariant forall k :: 0 <= k <= i ==> bigits[k] == was[k]
        invariant forall k :: i < k < n ==> bigits[k + difference] == was[k]
      {
        bigits := bigits[j := bigits[i]];
        i, j := i - 1, j - 1;
      }
      var zeros: Bigits := seq(difference, _ => 0);
      assert bigits[difference..] == was;
      bigits := zeros + bigits[difference..];
      exp := exp - difference;
      ZerosBelow(zeros, was);
      UpUp(Val(was), difference, exp);
    }

    /** Divides by repeated subtraction: returns the quotient and leaves the remainder. */
    method DivmodAssign(divisor: Bigint) returns (quotient: I32)
      requires this != divisor && IsTrimmed() && divisor.IsTrimmed() && divisor.bigits != [0]
      requires NumBigits() <= divisor.NumBigits() + 1
      requires exp <= divisor.exp || (bigits != [0] && Value() != divisor.Value())
      requires Value() / Positive(divisor.Value()) < 0x8000_0000
      modifies this
      ensures quotient >= 0 && IsTrimmed()
      ensures old(Value()) == quotient * divisor.Value() + Value() && Value() < divisor.Value()
      ensures exp == if quotient == 0 then old(exp) else Min(old(exp), divisor.exp)
      ensures NumBigits() <= old(NumBigits())
      ensures quotient == 0 ==> bigits == old(bigits)
    {
      ScaledTop(divisor.bigits, divisor.exp);
      quotient := 0;
      var order := Compare(this, divisor);
      FirstCompare(bigits, exp, divisor.bigits, divisor.exp);
      if order < 0 {
        return;
      }
      Align(divisor);
      ghost var n, d := old(Value()), divisor.Value();
      while true
        invariant IsTrimmed() && exp == Min(old(exp), divisor.exp) && Value() >= divisor.Value()
        invariant NumBigits() <= old(NumBigits())
        invariant 0 <= quotient && n == quotient * d + Value()
        decreases Value()
      {
        NoBorrowLost(divisor);
        SubtractAligned(divisor);
        OneMoreTaken(n, d, quotient, Value());
        quotient := quotient + 1;
        order := Compare(this, divisor);
        VerdictNotLess(bigits, exp, divisor.bigits, divisor.exp);
        if order < 0 {
          break;
        }
      }
    }

    lemma NoBorrowLost(other: Bigint)
      requires exp <= other.exp && IsTrimmed() && other.IsTrimmed()
      requires NumBigits() <= other.NumBigits() + 1
      ensures !BorrowLost(other)
    {
    }

    /** The first loop of AssignPow10: the highest bit set in e. */
    static method TopBit(e: I32) returns (bitmask: I32, ghost k: nat)
      requires 0 < e < 0x4000_0000
      ensures bitmask == Pow(2, k) && HighBits(e, k) == 1
    {
      bitmask, k := 1, 0;
      while e >= bitmask
        invariant bitmask == Pow(2, k) && 1 <= bitmask <= 2 * e
        invariant k > 0 ==> Pow(2, k - 1) <= e
        decreases 2 * e - bitmask
      {
        bitmask, k := bitmask * 2, k + 1;
      }
      bitmask, k := bitmask / 2, k - 1;
      DivModUnique(e, Pow(2, k), 1, e - Pow(2, k));
    }

    /** One round of the second loop of AssignPow10: square, and times 5 on a set bit. */
    method PowerStep(e: I32, bitmask: I32, ghost k: nat)
      requires 0 < e < 0x4000_0000 && k > 0 && bitmask == BitMask(k)
      requires exp == 0 && IsTrimmed() && Value() == Pow(5, HighBits(e, k))
      modifies this
      ensures exp == 0 && IsTrimmed() && Value() == Pow(5, HighBits(e, k - 1))
    {
      HighBitsBound(e, k);
      PowerLength(bigits, HighBits(e, k), e);
      NextPower(e, k);
      Square();
      if (e / bitmask) % 2 != 0 {
        Multiply32(5);
      }
    }

    /** Ten to the power e: powers of five by squaring along the bits of e, then a shift. */
    method AssignPow10(e: I32)
      requires 0 <= e < 0x4000_0000
      modifies this
      ensures Value() == Pow(10, e) && IsTrimmed() && exp == e / 32
    {
      if e == 0 {
        AssignWord(1);
        return;
      }
      hide HighBits, Scaled, Trimmed;
      ghost var k: nat;
      var bitmask: I32;
      bitmask, k := TopBit(e);
      AssignWord(5);
      MaskBelow(k);
      bitmask := bitmask / 2;
      while bitmask != 0
        invariant bitmask == BitMask(k)
        invariant exp == 0 && IsTrimmed() && Value() == Pow(5, HighBits(e, k))
        decreases k
      {
        PowerStep(e, bitmask, k);
        MaskBelow(k - 1);
        bitmask, k := bitmask / 2, k - 1;
      }
      MaskBelow(k);
      assert HighBits(e, 0) == e;
      ShiftLeft(e);
      PowProduct(5, 2, e);
    }
  }

  /** 2^64 - 1, with both low digits zero: the final loop of the subtraction stays at one digit, and takes the borrow
      from it twice. The result is too large by 2^64 - 2^32. */
  method BorrowLostExample() returns (n: Bigint)
    ensures fresh(n) && n.Value() == Up(1, 2) - 1 + Up(0xffff_ffff, 1)
  {
    n := new Bigint();
    var one := new Bigint();
    n.bigits, n.exp := [0, 0, 1], 0;
    one.bigits, one.exp := [1], 0;
    ValSingle(1);
    assert [0, 0, 1][1..] == [0, 1] && [0, 1][1..] == [1] && [0, 0, 1][..1] == [0];
    ValSingle(0);
    assert n.Value() == Up(1, 2);
    n.SubtractAligned(one);
  }
}
