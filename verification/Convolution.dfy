/**
 Column sums of a long multiplication. Column c of a * b adds the products of digits whose
 positions add up to c; weighting the columns and adding them up gives the product.
 */
module Convolution {
  import opened Powers
  import opened Digits

  /** Digit k of b, 0 outside. */
  function DigitOrZero(b: Bigits, k: int): U32 {
    if 0 <= k < |b| then b[k] else 0
  }

  /** The part of column c contributed by the first i digits of a. */
  function Cross(a: Bigits, b: Bigits, c: nat, i: nat): nat
    requires i <= |a|
  {
    if i == 0 then 0 else Cross(a, b, c, i - 1) + a[i - 1] as int * DigitOrZero(b, c - (i - 1)) as int
  }

  /** The weighted sum of columns 0 to k - 1. */
  function Columns(a: Bigits, b: Bigits, k: nat): int {
    if k == 0 then 0 else Columns(a, b, k - 1) + Up(Cross(a, b, k - 1, |a|), k - 1)
  }

  /** The digits of b moved up by m positions, summed below position k. */
  function Shifted(b: Bigits, m: nat, k: nat): int {
    if k == 0 then 0 else Shifted(b, m, k - 1) + Up(DigitOrZero(b, k - 1 - m), k - 1)
  }

  lemma {:induction false} CrossPrefix(a: Bigits, b: Bigits, c: nat, m: nat, i: nat)
    requires i <= m <= |a|
    ensures Cross(a[..m], b, c, i) == Cross(a, b, c, i)
  {
    if i > 0 {
      CrossPrefix(a, b, c, m, i - 1);
    }
  }

  /** Digits of a at positions i to j - 1 that meet no digit of b add nothing. */
  lemma {:induction false} CrossSkip(a: Bigits, b: Bigits, c: nat, i: nat, j: nat)
    requires i <= j <= |a|
    requires i < j ==> c < i || c - (j - 1) >= |b|
    ensures Cross(a, b, c, j) == Cross(a, b, c, i)
    decreases j
  {
    if i < j {
      CrossSkip(a, b, c, i, j - 1);
    }
  }

  lemma {:induction false} ShiftedValue(b: Bigits, m: nat, k: nat)
    ensures Shifted(b, m, k) == Up(Val(b[..Max(0, Min(k - m, |b|))]), m)
  {
    UpOrder(0, 0, m);
    if k > 0 {
      ShiftedValue(b, m, k - 1);
      UpOrder(0, 0, k - 1);
      var j := k - 1 - m;
      if 0 <= j < |b| {
        ScaledPrefix(b, m, j);
      }
    }
  }

  lemma ColumnGrows(cross: int, x: int, d: int, n: nat, sh: int)
    ensures Up(cross + x * d, n) == Up(cross, n) + Up(d, n) * x
    ensures (sh + Up(d, n)) * x == sh * x + Up(d, n) * x
  {
    UpPlus(cross, x * d, n);
    UpTimes(d, x, n);
    assert x * d == d * x;
    PlusTimes(sh, Up(d, n), x);
  }

  lemma {:induction false} ColumnsSnoc(a: Bigits, b: Bigits, k: nat)
    requires |a| > 0
    ensures Columns(a, b, k) == Columns(a[..|a| - 1], b, k) + Shifted(b, |a| - 1, k) * a[|a| - 1]
  {
    if k > 0 {
      ColumnsSnoc(a, b, k - 1);
      var m := |a| - 1;
      CrossPrefix(a, b, k - 1, m, m);
      ColumnGrows(Cross(a[..m], b, k - 1, m), a[m], DigitOrZero(b, k - 1 - m), k - 1, Shifted(b, m, k - 1));
    }
  }

  lemma {:induction false} ColumnsOfNothing(b: Bigits, k: nat)
    ensures Columns([], b, k) == 0
  {
    if k > 0 {
      ColumnsOfNothing(b, k - 1);
      UpOrder(0, 0, k - 1);
    }
  }

  /** The weighted columns of a long multiplication add up to the product. */
  lemma {:induction false} ColumnsAreProduct(a: Bigits, b: Bigits, k: nat)
    requires k >= |a| + |b|
    ensures Columns(a, b, k) == Val(a) * Val(b)
    decreases |a|
  {
    if a == [] {
      ColumnsOfNothing(b, k);
    } else {
      var m := |a| - 1;
      ColumnsSnoc(a, b, k);
      ColumnsAreProduct(a[..m], b, k);
      ShiftedValue(b, m, k);
      assert b[..|b|] == b;
      ValPrefix(a, m);
      assert a[..m + 1] == a;
      UpTimes(Val(b), a[m], m);
      UpTimes(a[m], Val(b), m);
      PlusTimes(Val(a[..m]), Up(a[m], m), Val(b));
    }
  }
}
