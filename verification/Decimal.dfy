/** Decimal digits in a character buffer, and rounding of exact ratios. */
module Decimal {
  import opened Powers

  /** The character '0' + d. The code also stores '0' + 10 for a moment while it carries. */
  function DigitChar(d: int): char
    requires 0 <= d <= 10
  {
    ('0' as int + d) as char
  }

  function DigitOf(c: char): int {
    c as int - '0' as int
  }

  predicate IsDigit(c: char) {
    '0' <= c <= '9'
  }

  predicate AllDigits(s: seq<char>) {
    forall i :: 0 <= i < |s| ==> IsDigit(s[i])
  }

  /** The number a row of digit characters spells, most significant first. */
  function Spelled(s: seq<char>): int {
    if s == [] then 0 else 10 * Spelled(s[..|s| - 1]) + DigitOf(s[|s| - 1])
  }

  lemma SpelledSnoc(s: seq<char>, c: char)
    ensures Spelled(s + [c]) == 10 * Spelled(s) + DigitOf(c)
  {
    assert (s + [c])[..|s|] == s;
  }

  /** Moving ten units of a digit to one unit of its left neighbour keeps the number. */
  lemma {:induction false} CarryKeepsValue(s: seq<char>, i: nat)
    requires 0 < i < |s| && s[i] == ':' && s[i - 1] as int < 0xd7ff
    ensures Spelled(s[i := '0'][i - 1 := (s[i - 1] as int + 1) as char]) == Spelled(s)
  {
    var t := s[i := '0'][i - 1 := (s[i - 1] as int + 1) as char];
    var n := |s| - 1;
    if i == n {
      assert t[..n][..n - 1] == s[..n][..n - 1];
    } else {
      CarryKeepsValue(s[..n], i);
      assert t[..n] == s[..n][i := '0'][i - 1 := (s[i - 1] as int + 1) as char];
    }
  }

  lemma {:induction false} SpelledZeros(s: seq<char>)
    requires |s| > 0 && forall k :: 0 < k < |s| ==> s[k] == '0'
    ensures Spelled(s) == DigitOf(s[0]) * Pow(10, |s| - 1)
    decreases |s|
  {
    if |s| == 1 {
      assert s[..0] == [];
    } else {
      SpelledZeros(s[..|s| - 1]);
      Swap(10, DigitOf(s[0]), Pow(10, |s| - 2));
    }
  }

  lemma {:induction false} SpelledRange(s: seq<char>)
    requires AllDigits(s)
    ensures 0 <= Spelled(s) < Pow(10, |s|)
  {
    if s != [] {
      SpelledRange(s[..|s| - 1]);
    }
  }

  /** Ten units in the first place, and nothing behind, are the power of ten that a row of digits never reaches. */
  lemma FrontTells(row: seq<char>)
    requires |row| > 0
    requires AllDigits(row) || (row[0] == ':' && forall k :: 0 < k < |row| ==> row[k] == '0')
    ensures row[0] == ':' <==> Spelled(row) == Pow(10, |row|)
  {
    if row[0] == ':' {
      SpelledZeros(row);
    } else {
      SpelledRange(row);
    }
  }

  /** x times ten to the n, by recursion so that its facts stay linear. */
  function Tens(x: int, n: nat): int {
    if n == 0 then x else 10 * Tens(x, n - 1)
  }

  lemma {:induction false} TensIsProduct(x: int, n: nat)
    ensures Tens(x, n) == x * Pow(10, n)
  {
    if n > 0 {
      TensIsProduct(x, n - 1);
      Swap(10, x, Pow(10, n - 1));
    }
  }

  lemma {:induction false} TensTimes(x: int, c: int, n: nat)
    ensures Tens(x * c, n) == Tens(x, n) * c
  {
    if n > 0 {
      TensTimes(x, c, n - 1);
      Assoc(10, Tens(x, n - 1), c);
    }
  }

  lemma {:induction false} TensPlus(x: int, y: int, n: nat)
    ensures Tens(x + y, n) == Tens(x, n) + Tens(y, n)
  {
    if n > 0 {
      TensPlus(x, y, n - 1);
    }
  }

  lemma {:induction false} TensOrder(x: int, y: int, n: nat)
    ensures x < y ==> Tens(x, n) < Tens(y, n)
    ensures x == 0 ==> Tens(x, n) == 0
    ensures x > 0 ==> Tens(x, n) >= x
  {
    if n > 0 {
      TensOrder(x, y, n - 1);
    }
  }

  lemma {:induction false} TensLonger(x: int, m: nat, n: nat)
    requires x >= 0 && m <= n
    ensures x <= Tens(x, m) <= Tens(x, n)
    decreases n
  {
    if m < n {
      TensLonger(x, m, n - 1);
    } else if m > 0 {
      TensLonger(x, m - 1, m - 1);
    }
  }

  /** What a row of digits is worth when its last place is worth one unit. */
  function Worth(s: seq<char>, unit: int): int {
    if s == [] then 0 else 10 * Worth(s[..|s| - 1], unit) + DigitOf(s[|s| - 1]) * unit
  }

  lemma {:induction false} WorthIsProduct(s: seq<char>, unit: int)
    ensures Worth(s, unit) == Spelled(s) * unit
  {
    if s != [] {
      WorthIsProduct(s[..|s| - 1], unit);
      PlusTimes(10 * Spelled(s[..|s| - 1]), DigitOf(s[|s| - 1]), unit);
      Assoc(10, Spelled(s[..|s| - 1]), unit);
    }
  }

  /** A unit ten times smaller makes the row worth ten times less. */
  lemma {:induction false} WorthOfTenfold(s: seq<char>, unit: int)
    ensures Worth(s, 10 * unit) == 10 * Worth(s, unit)
  {
    if s != [] {
      WorthOfTenfold(s[..|s| - 1], unit);
      Swap(10, DigitOf(s[|s| - 1]), unit);
    }
  }

  lemma WorthSnoc(s: seq<char>, c: char, unit: int)
    ensures Worth(s + [c], unit) == 10 * Worth(s, unit) + DigitOf(c) * unit
  {
    assert (s + [c])[..|s|] == s;
  }

  /** a / b rounded to the nearest integer, halves to even. */
  function RoundHalfEven(a: nat, b: nat): nat
    requires b > 0
  {
    var q, r := a / b, a % b;
    if 2 * r > b || (2 * r == b && q % 2 != 0) then q + 1 else q
  }

  /** No integer is nearer to a / b, and of two equally near ones the even one is taken. */
  lemma RoundHalfEvenIsNearest(a: nat, b: nat, k: int)
    requires b > 0
    ensures var r := RoundHalfEven(a, b);
      && Abs(a - r * b) <= Abs(a - k * b)
      && (k != r && Abs(a - r * b) == Abs(a - k * b) ==> r % 2 == 0)
  {
    var q, m, r := a / b, a % b, RoundHalfEven(a, b);
    assert a == b * q + m;
    PlusTimes(q, 1, b);
    if k <= q {
      PlusTimes(k, q - k, b);
      if k < q {
        ProductOrder(1, q - k, b);
      }
    } else {
      PlusTimes(k, q + 1 - k, b);
      if k > q + 1 {
        ProductOrder(1, k - q - 1, b);
        PlusTimes(q + 1, k - q - 1, b);
      }
    }
  }

  function Abs(x: int): nat {
    if x < 0 then -x else x
  }

  /** Rounding depends on the ratio only. */
  lemma RoundScaled(a: nat, b: nat, c: nat)
    requires b > 0 && c > 0
    ensures b * c > 0 && RoundHalfEven(a * c, b * c) == RoundHalfEven(a, b)
  {
    var q, r := a / b, a % b;
    assert a == b * q + r;
    ProductOrder(1, b, c);
    ScaledDivision(b, q, r, c);
    MulStrict(c, r, b);
    DivModUnique(a * c, b * c, q, r * c);
    MulCancel(c, 2 * r, b);
    assert 2 * (r * c) == c * (2 * r);
  }

  lemma ScaledDivision(b: int, q: int, r: int, c: int)
    ensures (b * q + r) * c == q * (b * c) + r * c
  {
    assert (b * q) * c == q * (b * c);
  }
}
