/** The arithmetic behind the big-number class, on rows of digits. */
module BigArithmetic {
  import opened Powers
  import opened Digits
  import opened Convolution

  /** Bound on the carry between columns: far below what two words hold. */
  const SUM_LIMIT: nat := 0x8000_0000_0000_0000_0000_0000

  /** What Compare answers, for all trimmed operands. */
  ghost function Verdict(l: Bigits, a: nat, r: Bigits, b: nat): int {
    if l != [0] && r != [0] then
      (if Scaled(l, a) == Scaled(r, b) then Sign(b - a) else Sign(Scaled(l, a) - Scaled(r, b)))
    else if l != [0] then (if |l| + a < 1 + b then -1 else 1)
    else if r != [0] then (if 1 + a > |r| + b then 1 else -1)
    else Sign(a - b)
  }

  /** Exactly when Compare is a comparison of the two numbers. */
  ghost predicate ComparesExactly(l: Bigits, a: nat, r: Bigits, b: nat) {
    if l != [0] && r != [0] then a == b || Scaled(l, a) != Scaled(r, b)
    else if l != [0] then 1 + b <= |l| + a
    else if r != [0] then 1 + a <= |r| + b
    else a == b
  }

  lemma VerdictExactness(l: Bigits, a: nat, r: Bigits, b: nat)
    requires Trimmed(l) && Trimmed(r)
    ensures Verdict(l, a, r, b) == Sign(Scaled(l, a) - Scaled(r, b)) <==> ComparesExactly(l, a, r, b)
  {
    ScaledZero(l, a);
    ScaledZero(r, b);
  }

  /** The answer "not less" is always right when the left operand has the smaller exponent. */
  lemma VerdictNotLess(l: Bigits, a: nat, r: Bigits, b: nat)
    requires Trimmed(l) && Trimmed(r) && r != [0] && a <= b
    ensures Verdict(l, a, r, b) >= 0 <==> Scaled(l, a) >= Scaled(r, b)
  {
    ScaledZero(l, a);
    ScaledZero(r, b);
  }

  /** 1 against the digits 0, 1 with no exponent: equal numbers, yet not an equal answer. */
  lemma CompareTieCounterexample()
    ensures Trimmed([1]) && Trimmed([0, 1])
    ensures Scaled([1], 1) == Scaled([0, 1], 0) && Verdict([1], 1, [0, 1], 0) == -1
  {
    ValSingle(1);
    assert [0, 1][1..] == [1];
  }

  lemma LengthDecides(l: Bigits, a: nat, r: Bigits, b: nat)
    requires Trimmed(l) && Trimmed(r) && |l| + a != |r| + b
    ensures Verdict(l, a, r, b) == (if |l| + a > |r| + b then 1 else -1)
  {
    if l != [0] && r != [0] {
      if |l| + a > |r| + b {
        LongerIsLarger(r, b, l, a);
      } else {
        LongerIsLarger(l, a, r, b);
      }
    }
  }

  lemma LongerIsLarger(l: Bigits, a: nat, r: Bigits, b: nat)
    requires Trimmed(r) && r != [0] && |l| + a < |r| + b
    ensures Scaled(l, a) < Scaled(r, b)
  {
    ScaledBound(l, a);
    ScaledTop(r, b);
    PMonotone(|l| + a, |r| + b - 1);
  }

  lemma DigitDecides(l: Bigits, a: nat, r: Bigits, b: nat, i: nat, j: nat)
    requires Trimmed(l) && Trimmed(r) && |l| + a == |r| + b
    requires i < |l| && j < |r| && i - j == |l| - |r|
    requires l[i + 1..] == r[j + 1..] && l[i] != r[j]
    ensures Verdict(l, a, r, b) == (if l[i] > r[j] then 1 else -1)
  {
    if l[i] > r[j] {
      FirstDifferenceDecides(r, b, l, a, j, i);
    } else {
      FirstDifferenceDecides(l, a, r, b, i, j);
    }
    if l == [0] && r != [0] {
      assert j == |r| - 1;
    } else if r == [0] && l != [0] {
      assert i == |l| - 1;
    }
  }

  lemma TailDecides(l: Bigits, a: nat, r: Bigits, b: nat)
    requires Trimmed(l) && Trimmed(r) && |l| + a == |r| + b
    requires |l| >= |r| ==> l[|l| - |r|..] == r
    requires |l| <= |r| ==> r[|r| - |l|..] == l
    ensures Verdict(l, a, r, b) == Sign(|l| - |r|)
  {
    if |l| >= |r| {
      ExtraLowDigits(l, a, r, b);
      assert l[|l| - 1] == r[|r| - 1] by {
        assert l[|l| - |r|..][|r| - 1] == l[|l| - 1];
      }
    } else {
      ExtraLowDigits(r, b, l, a);
      assert r[|r| - |l|..][|l| - 1] == r[|r| - 1];
    }
  }

  ghost function SumSign(l1: Bigits, a1: nat, l2: Bigits, a2: nat, r: Bigits, b: nat): int {
    Sign(Scaled(l1, a1) + Scaled(l2, a2) - Scaled(r, b))
  }

  /** By how much the digits of r from position i up exceed those of the other two. */
  ghost function Shortfall(l1: Bigits, a1: nat, l2: Bigits, a2: nat, r: Bigits, b: nat, top: nat, i: nat): int
    decreases top - i
  {
    if i >= top then 0
    else DigitAt(r, b, i) - DigitAt(l1, a1, i) - DigitAt(l2, a2, i)
         + 0x1_0000_0000 * Shortfall(l1, a1, l2, a2, r, b, top, i + 1)
  }

  lemma {:induction false} ShortfallIsHigh(l1: Bigits, a1: nat, l2: Bigits, a2: nat, r: Bigits, b: nat,
                                           top: nat, i: nat)
    requires |l1| + a1 <= top && |l2| + a2 <= top && |r| + b <= top
    ensures Shortfall(l1, a1, l2, a2, r, b, top, i) == High(r, b, i) - High(l1, a1, i) - High(l2, a2, i)
    decreases top - i
  {
    if i >= top {
      HighAboveTop(l1, a1, i);
      HighAboveTop(l2, a2, i);
      HighAboveTop(r, b, i);
    } else {
      ShortfallIsHigh(l1, a1, l2, a2, r, b, top, i + 1);
      HighStep(l1, a1, i);
      HighStep(l2, a2, i);
      HighStep(r, b, i);
    }
  }

  /** A negative shortfall, or one above 1, settles the sign: lower digits cannot undo it. */
  lemma ShortfallDecides(l1: Bigits, a1: nat, l2: Bigits, a2: nat, r: Bigits, b: nat, top: nat, i: nat)
    requires |l1| + a1 <= top && |l2| + a2 <= top && |r| + b <= top
    ensures Shortfall(l1, a1, l2, a2, r, b, top, i) < 0 ==> SumSign(l1, a1, l2, a2, r, b) == 1
    ensures Shortfall(l1, a1, l2, a2, r, b, top, i) > 1 ==> SumSign(l1, a1, l2, a2, r, b) == -1
  {
    ShortfallIsHigh(l1, a1, l2, a2, r, b, top, i);
    HighBounds(l1, a1, i);
    HighBounds(l2, a2, i);
    HighBounds(r, b, i);
    BoundedSum(High(l1, a1, i), High(l2, a2, i), High(r, b, i), i);
  }

  lemma BoundedSum(x: int, y: int, z: int, i: nat)
    ensures z < x + y ==> Up(z, i) + P(i) <= Up(x, i) + Up(y, i)
    ensures z > x + y + 1 ==> Up(x, i) + P(i) + Up(y, i) + P(i) <= Up(z, i)
  {
    UpPlus(x, y, i);
    UpOrder(z, x + y, i);
    UpPlus(x + y, 1, i);
    UpOrder(x + y + 1, z, i);
  }

  lemma ShortfallExact(l1: Bigits, a1: nat, l2: Bigits, a2: nat, r: Bigits, b: nat, top: nat, i: nat)
    requires |l1| + a1 <= top && |l2| + a2 <= top && |r| + b <= top
    requires i <= a1 && i <= a2 && i <= b
    ensures Shortfall(l1, a1, l2, a2, r, b, top, i) == 0 ==> SumSign(l1, a1, l2, a2, r, b) == 0
    ensures Shortfall(l1, a1, l2, a2, r, b, top, i) > 0 ==> SumSign(l1, a1, l2, a2, r, b) == -1
  {
    ShortfallIsHigh(l1, a1, l2, a2, r, b, top, i);
    HighBelowExponent(l1, a1, i);
    HighBelowExponent(l2, a2, i);
    HighBelowExponent(r, b, i);
    ExactSum(High(l1, a1, i), High(l2, a2, i), High(r, b, i), i);
  }

  lemma ExactSum(x: int, y: int, z: int, i: nat)
    ensures z - x - y == 0 ==> Up(x, i) + Up(y, i) == Up(z, i)
    ensures z - x - y > 0 ==> Up(x, i) + Up(y, i) < Up(z, i)
  {
    UpPlus(x, y, i);
    UpOrder(x + y, z, i);
  }

  lemma BelowWeight(s: Bigits, exp: nat, m: nat)
    requires |s| + exp <= m
    ensures Scaled(s, exp) < P(m)
  {
    ScaledBound(s, exp);
    PMonotone(|s| + exp, m);
  }

  lemma SumTooShort(l1: Bigits, a1: nat, l2: Bigits, a2: nat, r: Bigits, b: nat)
    requires Trimmed(r) && r != [0] && Max(|l1| + a1, |l2| + a2) + 1 < |r| + b
    ensures Scaled(l1, a1) + Scaled(l2, a2) < Scaled(r, b)
  {
    var m := Max(|l1| + a1, |l2| + a2);
    BelowWeight(l1, a1, m);
    BelowWeight(l2, a2, m);
    PMonotone(m + 1, |r| + b - 1);
    ScaledTop(r, b);
  }

  lemma SumTooLong(l1: Bigits, a1: nat, l2: Bigits, a2: nat, r: Bigits, b: nat)
    requires Trimmed(l1) && (l1 == [0] ==> |l1| + a1 <= |r| + b)
    requires Trimmed(l2) && (l2 == [0] ==> |l2| + a2 <= |r| + b)
    requires Max(|l1| + a1, |l2| + a2) > |r| + b
    ensures Scaled(l1, a1) + Scaled(l2, a2) > Scaled(r, b)
  {
    if |l1| + a1 > |r| + b {
      LongerIsLarger(r, b, l1, a1);
    } else {
      LongerIsLarger(r, b, l2, a2);
    }
  }

  /** What the final borrow loop leaves: one less, or two less than 2^32 if there was a 0. */
  ghost function AfterBorrow(low: Bigits, i: nat, borrow: U32): Bigits
    requires borrow != 0 ==> i < |low|
  {
    if borrow == 0 then low
    else if low[i] == 0 then low[i := 0xffff_fffe]
    else low[i := low[i] - 1]
  }

  lemma ScaledUpdate(s: Bigits, exp: nat, i: nat, x: U32)
    requires i < |s|
    ensures Scaled(s[i := x], exp) == Scaled(s, exp) + Up(x - s[i], i + exp)
  {
    var t := s[i := x];
    ScaledCut(s, exp, i);
    ScaledCut(t, exp, i);
    assert t[..i] == s[..i] && t[i..] == [x] + s[i + 1..] && s[i..] == [s[i]] + s[i + 1..];
    var change := x as int - s[i] as int;
    UpPlus(Val(s[i..]), change, i + exp);
  }

  lemma SubtrahendFits(s: Bigits, exp: nat, o: Bigits, oexp: nat)
    requires Trimmed(o) && o != [0] && Scaled(s, exp) >= Scaled(o, oexp)
    ensures |o| + oexp <= |s| + exp
  {
    ScaledTop(o, oexp);
    ScaledBound(s, exp);
    if |s| + exp < |o| + oexp {
      PMonotone(|s| + exp, |o| + oexp - 1);
    }
  }

  /** now is was with o, moved up by off digits, taken away, up to a borrow above it. */
  ghost predicate IsDifference(was: Bigits, now: Bigits, off: nat, o: Bigits, borrow: U32) {
    var i := off + |o|;
    && i <= |was| == |now| && borrow <= 1
    && now[i..] == was[i..]
    && Val(now[..i]) == Val(was[..i]) - Scaled(o, off) + Up(borrow, i)
  }


  lemma SubtractStep(was: Bigits, pre: Bigits, now: Bigits, o: Bigits, off: nat, j: nat, borrow: U32, next: U32)
    requires j < |o| && off + j < |was| == |pre| == |now|
    requires IsDifference(was, pre, off, o[..j], borrow)
    requires now == pre[off + j := now[off + j]]
    requires next <= 1 && now[off + j] == pre[off + j] - o[j] - borrow + 0x1_0000_0000 * next
    ensures IsDifference(was, now, off, o[..j + 1], next)
  {
    var i := off + j;
    assert pre[i] == pre[i..][0] == was[i..][0] == was[i];
    assert now[..i] == pre[..i];
    assert now[i + 1..] == pre[i..][1..] == was[i..][1..] == was[i + 1..];
    ValPrefix(now, i);
    ValPrefix(was, i);
    ValPrefix(o, j);
    ScaledPrefix(o, off, j);
    DigitDifference(was[i], o[j], borrow, next, i);
  }

  lemma DigitDifference(d: int, o: int, borrow: int, next: int, i: nat)
    ensures Up(d - o - borrow + 0x1_0000_0000 * next, i) == Up(d, i) - Up(o, i) - Up(borrow, i) + Up(next, i + 1)
  {
    UpPlus(d - o - borrow, 0x1_0000_0000 * next, i);
    UpInside(next, i);
    UpPlus(d - o - borrow, borrow, i);
    UpPlus(d - o, o, i);
  }

  lemma DifferenceDigits(was: Bigits, low: Bigits, off: nat, o: Bigits, borrow: U32)
    requires IsDifference(was, low, off, o, borrow)
    ensures Val(low) == Val(was) - Scaled(o, off) + Up(borrow, off + |o|)
  {
    ValSplit(was, off + |o|);
    ValSplit(low, off + |o|);
  }

  /** The same difference between the whole numbers, exponents included. */
  lemma {:induction false} DifferenceValue(was: Bigits, low: Bigits, exp: nat, o: Bigits, oexp: nat, borrow: U32)
    requires exp <= oexp && IsDifference(was, low, oexp - exp, o, borrow)
    ensures Scaled(low, exp) == Scaled(was, exp) - Scaled(o, oexp) + Up(borrow, |o| + oexp)
  {
    if exp == 0 {
      DifferenceDigits(was, low, oexp, o, borrow);
    } else {
      DifferenceValue(was, low, exp - 1, o, oexp - 1, borrow);
    }
  }

  lemma DifferenceBorrow(was: Bigits, low: Bigits, exp: nat, o: Bigits, oexp: nat, borrow: U32)
    requires exp <= oexp && IsDifference(was, low, oexp - exp, o, borrow) && borrow <= 1
    ensures borrow == 1 <==> Scaled(was[..oexp - exp + |o|], exp) < Scaled(o, oexp)
  {
    var i := oexp - exp + |o|;
    var w, l := was[..i], low[..i];
    assert w[..i] == w && l[..i] == l;
    DifferenceValue(w, l, exp, o, oexp, borrow);
    ScaledBound(l, exp);
    UpOrder(0, 0, i + exp);
  }

  lemma DifferenceFits(was: Bigits, low: Bigits, exp: nat, o: Bigits, oexp: nat, borrow: U32)
    requires exp <= oexp && IsDifference(was, low, oexp - exp, o, borrow) && borrow <= 1
    requires Scaled(was, exp) >= Scaled(o, oexp)
    ensures borrow == 1 ==> oexp - exp + |o| < |was|
  {
    DifferenceValue(was, low, exp, o, oexp, borrow);
    ScaledBound(low, exp);
  }

  lemma DifferenceScaled(was: Bigits, low: Bigits, exp: nat, o: Bigits, oexp: nat, borrow: U32)
    requires exp <= oexp && IsDifference(was, low, oexp - exp, o, borrow) && borrow <= 1
    requires borrow == 1 ==> oexp - exp + |o| < |was|
    ensures var i := oexp - exp + |o|;
      var lost := i < |was| && was[i] == 0 && Scaled(was[..i], exp) < Scaled(o, oexp);
      Scaled(AfterBorrow(low, i, borrow), exp) == Scaled(was, exp) - Scaled(o, oexp)
        + (if lost then Up(0xffff_ffff, |o| + oexp) else 0)
  {
    var i := oexp - exp + |o|;
    DifferenceValue(was, low, exp, o, oexp, borrow);
    DifferenceBorrow(was, low, exp, o, oexp, borrow);
    if borrow == 1 {
      assert low[i] == low[i..][0] == was[i..][0] == was[i];
      var x := if low[i] == 0 then 0xffff_fffe else low[i] - 1;
      ScaledUpdate(low, exp, i, x);
      var change := x as int - low[i] as int;
      UpPlus(change, 1, i + exp);
    }
    UpOrder(0, 0, i + exp);
  }

  /** The low c digits of r, with the carry above them, are the first c columns of n * n. */
  ghost predicate ColumnsDone(n: Bigits, r: Bigits, carry: nat, c: nat) {
    c <= |r| && carry < SUM_LIMIT && Val(r[..c]) + Up(carry, c) == Columns(n, n, c)
  }

  lemma ColumnsStart(n: Bigits, r: Bigits)
    ensures ColumnsDone(n, r, 0, 0)
  {
    assert r[..0] == [];
  }

  /** Two digits multiplied as 64-bit words. */
  function WideProduct(x: U32, y: U32): (p: U64)
    ensures p <= 0xffff_fffe_0000_0001
  {
    ProductRange(x, 0xffff_ffff, y);
    x as int * y as int
  }

  /** The number of digits doubles, and with them the exponent. */
  lemma SquareScaled(n: Bigits, r: Bigits, s: Bigits, exp: nat)
    requires Up(Scaled(r, exp), exp) == Scaled(n, exp) * Scaled(n, exp) && Scaled(s, exp) == Scaled(r, exp)
    ensures Scaled(s, 2 * exp) == Scaled(n, exp) * Scaled(n, exp)
  {
    UpUp(Val(s), exp, exp);
  }

  /** All columns done: the carry left over is zero and the digits are the square. */
  lemma SquareDone(n: Bigits, r: Bigits, carry: nat, exp: nat)
    requires |r| == 2 * |n| && ColumnsDone(n, r, carry, |r|)
    ensures carry == 0 && Val(r) == Val(n) * Val(n)
    ensures Up(Scaled(r, exp), exp) == Scaled(n, exp) * Scaled(n, exp)
  {
    var v, k := Val(n), |n|;
    assert r[..|r|] == r;
    ColumnsAreProduct(n, n, |r|);
    ValBound(n);
    SquareOrder(v, P(k));
    UpTimes(1, P(k), k);
    UpUp(1, k, k);
    UpOrder(carry, 0, |r|);
    UpTimes(v, v, exp);
    UpTimes(Scaled(n, exp), v, exp);
    UpTimes(v, Scaled(n, exp), exp);
  }

  lemma SquareOrder(v: nat, p: nat)
    requires v < p
    ensures v * v < p * p
  {
    ProductRange(v, p, v);
    ProductRange(v, p, p);
    MulStrict(p, v, p);
  }

  lemma ZerosBelow(zeros: Bigits, s: Bigits)
    requires forall k :: 0 <= k < |zeros| ==> zeros[k] == 0
    ensures Val(zeros + s) == Up(Val(s), |zeros|)
    ensures Trimmed(s) && s != [0] ==> Trimmed(zeros + s) && zeros + s != [0]
  {
    var t := zeros + s;
    ValSplit(t, |zeros|);
    ValZeros(zeros);
    assert t[..|zeros|] == zeros && t[|zeros|..] == s;
  }

  /** The number itself when positive; a divisor for contracts that rule out zero separately. */
  ghost function Positive(d: int): int {
    if d > 0 then d else 1
  }

  /** The comparison that guards the division is right unless equal numbers tie. */
  lemma FirstCompare(l: Bigits, a: nat, r: Bigits, b: nat)
    requires Trimmed(l) && Trimmed(r) && r != [0]
    requires a <= b || (l != [0] && Scaled(l, a) != Scaled(r, b))
    ensures Verdict(l, a, r, b) < 0 <==> Scaled(l, a) < Scaled(r, b)
  {
    ScaledZero(l, a);
    ScaledZero(r, b);
  }

  lemma OneMoreTaken(n: nat, d: nat, q: nat, r: nat)
    requires d > 0 && n == q * d + (r + d)
    ensures n == (q + 1) * d + r && q + 1 <= n / d
  {
    PlusTimes(q, 1, d);
    var m := n / d;
    assert n == d * m + n % d;
    if m < q + 1 {
      MulLower(d, m, q);
    }
  }

  /** A power of five up to the one wanted has few digits. */
  lemma PowerLength(s: Bigits, x: nat, e: nat)
    requires Trimmed(s) && Scaled(s, 0) == Pow(5, x) && x <= e < 0x4000_0000
    ensures |s| < 0x4000_0000
  {
    PowPositive(5, x);
    PowPositive(2, 3 * x);
    TrimmedZero(s);
    ScaledTop(s, 0);
    UpIsProduct(1, |s| - 1);
    FiveBelowEight(x);
    if 32 * (|s| - 1) > 3 * x {
      PowMonotone(2, 3 * x + 1, 32 * (|s| - 1));
    }
  }

  lemma {:induction false} FiveBelowEight(x: nat)
    ensures Pow(5, x) <= Pow(2, 3 * x)
  {
    if x > 0 {
      FiveBelowEight(x - 1);
      PowAdd(2, 3, 3 * (x - 1));
      assert Pow(2, 3) == 8 by {
        assert Pow(2, 2) == 4;
      }
    }
  }

  /** The bits of e from position k up, as a number. */
  function HighBits(e: nat, k: nat): nat {
    PowPositive(2, k);
    e / Pow(2, k)
  }

  /** The mask that selects the bit below position k; 0 when there is none. */
  function BitMask(k: nat): nat {
    if k == 0 then 0 else Pow(2, k - 1)
  }

  /** Halving a power of two gives the mask below it. */
  lemma MaskBelow(k: nat)
    ensures Pow(2, k) / 2 == BitMask(k) && (BitMask(k) == 0 <==> k == 0)
  {
    if k > 0 {
      PowPositive(2, k - 1);
    }
  }

  lemma HighBitsBound(e: nat, k: nat)
    ensures HighBits(e, k) <= e
  {
    PowPositive(2, k);
    var q := e / Pow(2, k);
    assert e == Pow(2, k) * q + e % Pow(2, k);
    ProductOrder(1, Pow(2, k), q);
  }

  /** Squaring and multiplying by 5 on a set bit moves to the next bit of the exponent. */
  lemma NextPower(e: nat, k: nat)
    requires k > 0
    ensures BitMask(k) > 0 && HighBits(e, k - 1) == e / BitMask(k)
    ensures Pow(5, HighBits(e, k - 1))
      == Pow(5, HighBits(e, k)) * Pow(5, HighBits(e, k)) * (if (e / BitMask(k)) % 2 != 0 then 5 else 1)
  {
    PowPositive(2, k - 1);
    HalfQuotient(e, Pow(2, k - 1));
    DoublePower(e / Pow(2, k - 1));
  }

  lemma DoublePower(h: nat)
    ensures Pow(5, h) == Pow(5, h / 2) * Pow(5, h / 2) * (if h % 2 != 0 then 5 else 1)
  {
    PowAdd(5, h / 2, h / 2);
    if h % 2 != 0 {
      assert h == 1 + (h / 2 + h / 2);
      assert Pow(5, h) == 5 * Pow(5, h / 2 + h / 2);
    } else {
      assert h == h / 2 + h / 2;
    }
  }

  lemma HalfQuotient(e: nat, m: nat)
    requires m > 0
    ensures e / (2 * m) == (e / m) / 2
  {
    var h, r := e / m, e % m;
    assert e == m * h + r;
    assert h == 2 * (h / 2) + h % 2;
    assert m * h == m * (2 * (h / 2)) + m * (h % 2);
    ProductOrder(h % 2, 1, m);
    DivModUnique(e, 2 * m, h / 2, m * (h % 2) + r);
  }

  /** A digit times a word plus a smaller carry: it fits 64 bits and carries less than the word. */
  lemma WordProduct(d: U32, value: U32, carry: U32)
    requires carry < value
    ensures 0 <= d * value + carry < 0x1_0000_0000 * value
  {
    ProductRange(d, 0xffff_ffff, value);
  }

  lemma ProductRange(d: nat, top: nat, value: nat)
    requires d <= top
    ensures 0 <= d * value <= top * value
  {
  }

  lemma MultiplyStep(was: Bigits, pre: Bigits, i: nat, value: nat, carry: nat, d: U32, next: nat)
    requires i < |was| == |pre| && pre[i..] == was[i..]
    requires Val(pre[..i]) + Up(carry, i) == Val(was[..i]) * value
    requires pre[i] * value + carry == d + 0x1_0000_0000 * next
    ensures var now := pre[i := d];
      && now[i + 1..] == was[i + 1..]
      && Val(now[..i + 1]) + Up(next, i + 1) == Val(was[..i + 1]) * value
  {
    var now, b := pre[i := d], was[i];
    assert pre[i] == pre[i..][0] == was[i..][0] == b;
    assert now[i + 1..] == pre[i..][1..] == was[i..][1..] == was[i + 1..];
    assert now[..i] == pre[..i];
    ValPrefix(now, i);
    ValPrefix(was, i);
    UpInside(next, i);
    UpPlus(d, 0x1_0000_0000 * next, i);
    UpPlus(b * value, carry, i);
    UpTimes(b, value, i);
    PlusTimes(Val(was[..i]), Up(b, i), value);
  }

  lemma MultiplyEnd(was: Bigits, now: Bigits, value: nat, carry: U32, exp: nat)
    requires |was| == |now| && value > 0
    requires Val(now[..|was|]) + Up(carry, |was|) == Val(was[..|was|]) * value
    ensures var r := if carry != 0 then now + [carry] else now;
      && Scaled(r, exp) == Scaled(was, exp) * value
      && (Trimmed(was) ==> Trimmed(r))
      && (was == [0] ==> r == [0])
  {
    assert was[..|was|] == was && now[..|was|] == now;
    ValSnoc(now, carry);
    UpOrder(0, 0, |was|);
    ScaledTimes(was, if carry != 0 then now + [carry] else now, value, exp);
  }

  /** A product with a positive word keeps a nonzero top digit. */
  lemma MultiplyTop(was: Bigits, r: Bigits, value: nat)
    requires Trimmed(was) && value > 0 && Val(r) == Val(was) * value
    requires |r| >= |was| && (|r| > |was| ==> r[|r| - 1] != 0)
    ensures Trimmed(r) && (was == [0] ==> r == [0])
  {
    TrimmedZero(was);
    if was == [0] {
      assert Val(was) * value == 0;
      if |r| > 1 {
        ValNonzero(r, |r| - 1);
      } else {
        ValSingle(r[0]);
        assert r == [r[0]];
      }
    } else if |r| == |was| && r[|r| - 1] == 0 {
      ValTop(was);
      ValBound(r[..|r| - 1]);
      ValPrefix(r, |r| - 1);
      assert r[..|r|] == r;
      UpOrder(0, 0, |r| - 1);
      MulLower(Val(was), 1, value);
    }
  }

  /** A digit times both halves of a word, with the carry's halves: the whole 96-bit product. */
  lemma HalfProducts(b: U32, value: U64, lower: U32, upper: U32, carry: U64)
    requires value == lower + 0x1_0000_0000 * upper && carry < value
    ensures 0 <= b * lower + carry % 0x1_0000_0000 < 0x1_0000_0000_0000_0000
    ensures var result := b * lower + carry % 0x1_0000_0000;
      var next := b * upper + result / 0x1_0000_0000 + carry / 0x1_0000_0000;
      && b * value + carry == result % 0x1_0000_0000 + 0x1_0000_0000 * next
      && 0 <= next < value
  {
    ProductRange(b, 0xffff_ffff, lower);
    ProductRange(b, 0xffff_ffff, upper);
    ProductRange(b, 0xffff_ffff, value);
    assert b * value == b * lower + 0x1_0000_0000 * (b * upper) by {
      SplitProduct(b, lower, upper);
    }
  }

  lemma SplitProduct(b: int, lower: int, upper: int)
    ensures b * (lower + 0x1_0000_0000 * upper) == b * lower + 0x1_0000_0000 * (b * upper)
  {
  }

  lemma ScaledTimes(was: Bigits, r: Bigits, value: nat, exp: nat)
    requires Val(r) == Val(was) * value && value > 0
    requires |r| >= |was| && (|r| > |was| ==> r[|r| - 1] != 0)
    ensures Scaled(r, exp) == Scaled(was, exp) * value
    ensures Trimmed(was) ==> Trimmed(r)
    ensures was == [0] ==> r == [0]
  {
    UpTimes(Val(was), value, exp);
    if Trimmed(was) {
      MultiplyTop(was, r, value);
    }
  }

  lemma ShiftWords(s: nat)
    requires 0 < s < 32
    ensures Pow(2, s) * Pow(2, 32 - s) == 0x1_0000_0000
    ensures Pow(2, s) > 1 && Pow(2, 32 - s) > 1
  {
    PowAdd(2, s, 32 - s);
    Pow2At32();
    PowMonotone(2, 1, s);
    PowMonotone(2, 1, 32 - s);
  }

  lemma ShiftWeights(w: Bigits, shift: nat, exp: nat)
    ensures Scaled(w, exp + shift / 32) * Pow(2, shift % 32) == Scaled(w, exp) * Pow(2, shift)
    ensures shift % 32 == 0 ==> Scaled(w, exp + shift / 32) == Scaled(w, exp) * Pow(2, shift)
  {
    var s, k := shift % 32, shift / 32;
    UpUp(Val(w), exp, k);
    UpIsProduct(Scaled(w, exp), k);
    PowAdd(2, 32 * k, s);
    assert shift == 32 * k + s;
    Assoc(Scaled(w, exp), Pow(2, 32 * k), Pow(2, s));
  }

  /** Shifting one digit: the bits that stay and the bits that move up. */
  lemma ShiftDigit(b: U32, p: nat, q: nat, carry: nat)
    requires p > 1 && q > 1 && p * q == 0x1_0000_0000 && carry < p
    ensures b / q < p
    ensures 0 <= (b * p) % 0x1_0000_0000 + carry < 0x1_0000_0000
    ensures b * p + carry == ((b * p) % 0x1_0000_0000 + carry) + 0x1_0000_0000 * (b / q)
  {
    var c, r := b / q, b % q;
    assert b == q * c + r;
    ShiftedParts(c, r, p, q);
    ProductRange(r, q - 1, p);
    PlusTimes(q, -1, p);
    assert b * p == c * 0x1_0000_0000 + r * p;
    DivModUnique(b * p, 0x1_0000_0000, c, r * p);
    if c >= p {
      MulLower(q, p, c);
    }
  }

  lemma ShiftedParts(c: int, r: int, p: int, q: int)
    ensures (q * c + r) * p == c * (p * q) + r * p
  {
    assert (q * c) * p == c * (p * q);
  }

  /** Splitting a carry word into its low digit and the rest. */
  lemma DigitCarry(m: nat, n: nat)
    ensures Up(m, n) == Up(m % 0x1_0000_0000, n) + Up(m / 0x1_0000_0000, n + 1)
  {
    UpPlus(m % 0x1_0000_0000, 0x1_0000_0000 * (m / 0x1_0000_0000), n);
    UpInside(m / 0x1_0000_0000, n);
  }
}
