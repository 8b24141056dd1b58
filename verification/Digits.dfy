/**
 Little-endian sequences of 32-bit digits ("bigits") and the number they stand for.
 Everything here is about values; the class that updates them in place is Bigint.
 */
module Digits {
  import opened Powers

  type Bigits = seq<U32>

  /** x moved up by n digits. Defined by recursion so that its facts stay linear. */
  function Up(x: int, n: nat): int {
    if n == 0 then x else 0x1_0000_0000 * Up(x, n - 1)
  }

  /** Weight of the digit at position n. */
  function P(n: nat): (p: int)
    ensures p > 0
  {
    UpOrder(0, 1, n);
    Up(1, n)
  }

  lemma {:induction false} UpPlus(x: int, y: int, n: nat)
    ensures Up(x + y, n) == Up(x, n) + Up(y, n)
  {
    if n > 0 {
      UpPlus(x, y, n - 1);
    }
  }

  lemma {:induction false} UpInside(x: int, n: nat)
    ensures Up(0x1_0000_0000 * x, n) == Up(x, n + 1)
  {
    if n > 0 {
      UpInside(x, n - 1);
    }
  }

  lemma {:induction false} UpUp(x: int, m: nat, n: nat)
    ensures Up(Up(x, m), n) == Up(x, m + n)
  {
    if n > 0 {
      UpUp(x, m, n - 1);
    }
  }

  lemma {:induction false} UpOrder(x: int, y: int, n: nat)
    ensures x < y ==> Up(x, n) + Up(1, n) <= Up(y, n)
    ensures x == 0 ==> Up(x, n) == 0
    ensures x > 0 ==> Up(x, n) >= Up(1, n)
    ensures Up(1, n) > 0
  {
    if n > 0 {
      UpOrder(x, y, n - 1);
    }
  }

  lemma {:induction false} UpTimes(x: int, c: int, n: nat)
    ensures Up(x * c, n) == Up(x, n) * c
  {
    if n > 0 {
      UpTimes(x, c, n - 1);
      Assoc(0x1_0000_0000, Up(x, n - 1), c);
    }
  }

  lemma {:induction false} UpIsProduct(x: int, n: nat)
    ensures Up(x, n) == x * Pow(2, 32 * n)
  {
    if n > 0 {
      UpIsProduct(x, n - 1);
      PowAdd(2, 32, 32 * (n - 1));
      Pow2At32();
      Swap(0x1_0000_0000, x, Pow(2, 32 * (n - 1)));
    }
  }

  lemma Pow2At32()
    ensures Pow(2, 32) == 0x1_0000_0000
  {
    PowAdd(2, 16, 16);
    PowAdd(2, 8, 8);
    PowAdd(2, 4, 4);
    assert Pow(2, 4) == 16;
  }

  lemma {:induction false} PMonotone(m: nat, n: nat)
    requires m <= n
    ensures 0 < P(m) <= P(n)
    ensures m < n ==> 0x1_0000_0000 * P(m) <= P(n)
    decreases n
  {
    if m == n {
      UpOrder(0, 1, n);
    } else {
      PMonotone(m, n - 1);
    }
  }

  /** The number a digit sequence stands for. */
  function Val(s: Bigits): nat {
    if s == [] then 0 else s[0] + 0x1_0000_0000 * Val(s[1..])
  }

  lemma {:induction false} ValSplit(s: Bigits, i: nat)
    requires i <= |s|
    ensures Val(s) == Val(s[..i]) + Up(Val(s[i..]), i)
  {
    if i == 0 {
      assert s[0..] == s;
    } else {
      var t := s[1..];
      ValSplit(t, i - 1);
      assert t[..i - 1] == s[..i][1..];
      assert t[i - 1..] == s[i..];
    }
  }

  lemma ValSingle(x: U32)
    ensures Val([x]) == x
  {
    assert [x][1..] == [];
  }

  lemma ValSnoc(s: Bigits, x: U32)
    ensures Val(s + [x]) == Val(s) + Up(x, |s|)
  {
    var t := s + [x];
    ValSplit(t, |s|);
    assert t[..|s|] == s && t[|s|..] == [x];
    ValSingle(x);
  }

  /** The prefix of length i + 1 adds the digit at i, weighted. */
  lemma ValPrefix(s: Bigits, i: nat)
    requires i < |s|
    ensures Val(s[..i + 1]) == Val(s[..i]) + Up(s[i], i)
  {
    assert s[..i + 1] == s[..i] + [s[i]];
    ValSnoc(s[..i], s[i]);
  }

  lemma {:induction false} ValBound(s: Bigits)
    ensures Val(s) < P(|s|)
  {
    if s != [] {
      ValBound(s[1..]);
    }
  }

  lemma {:induction false} ValZeros(s: Bigits)
    requires forall k :: 0 <= k < |s| ==> s[k] == 0
    ensures Val(s) == 0
  {
    if s != [] {
      ValZeros(s[1..]);
    }
  }

  lemma {:induction false} ValNonzero(s: Bigits, i: nat)
    requires i < |s| && s[i] != 0
    ensures Val(s) > 0
  {
    if i > 0 {
      ValNonzero(s[1..], i - 1);
    }
  }

  /** No leading zero digit, except in the single-digit number 0. */
  ghost predicate Trimmed(s: Bigits) {
    |s| > 0 && (s[|s| - 1] == 0 ==> |s| == 1)
  }

  lemma ValTop(s: Bigits)
    requires |s| > 0 && s[|s| - 1] != 0
    ensures Val(s) >= P(|s| - 1)
  {
    ValPrefix(s, |s| - 1);
    assert s[..|s|] == s;
    UpOrder(s[|s| - 1], 0, |s| - 1);
  }

  lemma TrimmedZero(s: Bigits)
    requires Trimmed(s)
    ensures Val(s) == 0 <==> s == [0]
  {
    if s[|s| - 1] != 0 {
      ValNonzero(s, |s| - 1);
    } else {
      ValSingle(0);
    }
  }

  /** The value of digits s with exp implicit zero digits below them. */
  function Scaled(s: Bigits, exp: nat): nat {
    UpOrder(Val(s), 0, exp);
    Up(Val(s), exp)
  }

  lemma {:induction false} ScaledBound(s: Bigits, exp: nat)
    ensures 0 <= Scaled(s, exp) < P(|s| + exp)
  {
    if exp == 0 {
      ValBound(s);
    } else {
      ScaledBound(s, exp - 1);
    }
  }

  lemma {:induction false} ScaledTop(s: Bigits, exp: nat)
    requires Trimmed(s) && s != [0]
    ensures 0 < P(|s| + exp - 1) <= Scaled(s, exp)
  {
    PMonotone(0, |s| + exp - 1);
    if exp == 0 {
      ValTop(s);
    } else {
      ScaledTop(s, exp - 1);
    }
  }

  lemma ScaledZero(s: Bigits, exp: nat)
    requires Trimmed(s)
    ensures Scaled(s, exp) == 0 <==> s == [0]
  {
    if s == [0] {
      TrimmedZero(s);
      UpOrder(0, 0, exp);
    } else {
      ScaledTop(s, exp);
    }
  }

  /** A prefix one digit longer adds that digit, weighted. */
  lemma ScaledPrefix(s: Bigits, exp: nat, i: nat)
    requires i < |s|
    ensures Scaled(s[..i + 1], exp) == Scaled(s[..i], exp) + Up(s[i], i + exp)
  {
    ValPrefix(s, i);
    UpPlus(Val(s[..i]), Up(s[i], i), exp);
    UpUp(s[i], i, exp);
  }

  /** A scaled number cut at position i. */
  lemma ScaledCut(s: Bigits, exp: nat, i: nat)
    requires i <= |s|
    ensures Scaled(s, exp) == Scaled(s[..i], exp) + Up(Val(s[i..]), i + exp)
    ensures 0 <= Scaled(s[..i], exp) < P(i + exp)
  {
    hide Val, Up, P;
    ValSplit(s, i);
    UpPlus(Val(s[..i]), Up(Val(s[i..]), i), exp);
    UpUp(Val(s[i..]), i, exp);
    ScaledBound(s[..i], exp);
  }

  /** Equal digits above position i, a smaller digit at it: a smaller number. */
  lemma FirstDifferenceDecides(l: Bigits, a: nat, r: Bigits, b: nat, i: nat, j: nat)
    requires i < |l| && j < |r| && i + a == j + b
    requires l[i + 1..] == r[j + 1..]
    requires l[i] < r[j]
    ensures Scaled(l, a) < Scaled(r, b)
  {
    ScaledCut(l, a, i);
    ScaledCut(r, b, j);
    assert l[i..] == [l[i]] + l[i + 1..] && r[j..] == [r[j]] + r[j + 1..];
    UpOrder(Val(l[i..]), Val(r[j..]), i + a);
  }

  /** When the shorter number's digits are exactly the longer one's top digits,
      the difference is what the extra low digits stand for. */
  lemma ExtraLowDigits(l: Bigits, a: nat, r: Bigits, b: nat)
    requires |l| + a == |r| + b && |l| >= |r| && l[|l| - |r|..] == r
    ensures Scaled(l, a) == Scaled(r, b) + Scaled(l[..|l| - |r|], a)
    ensures Scaled(l[..|l| - |r|], a) >= 0
  {
    ScaledCut(l, a, |l| - |r|);
  }

  /** Digit at absolute position i, counting the implicit zero digits; 0 outside. */
  function DigitAt(s: Bigits, exp: nat, i: nat): U32 {
    if exp <= i < |s| + exp then s[i - exp] else 0
  }

  /** The digits at positions i and above, as a number. */
  function High(s: Bigits, exp: nat, i: nat): int {
    if i < exp then Scaled(s, exp - i)
    else if i - exp <= |s| then Val(s[i - exp..])
    else 0
  }

  lemma HighStep(s: Bigits, exp: nat, i: nat)
    ensures High(s, exp, i) == DigitAt(s, exp, i) + 0x1_0000_0000 * High(s, exp, i + 1)
  {
    if i < exp {
      assert s[0..] == s && Up(Val(s), 0) == Val(s);
    } else if i - exp < |s| {
      assert s[i - exp..][1..] == s[i + 1 - exp..];
    } else if i - exp == |s| {
      assert s[|s|..] == [];
    }
  }

  lemma HighBelowExponent(s: Bigits, exp: nat, i: nat)
    requires i <= exp
    ensures Up(High(s, exp, i), i) == Scaled(s, exp)
  {
    if i == exp {
      assert s[0..] == s;
    } else {
      UpUp(Val(s), exp - i, i);
    }
  }

  lemma HighBounds(s: Bigits, exp: nat, i: nat)
    ensures Up(High(s, exp, i), i) <= Scaled(s, exp) < Up(High(s, exp, i), i) + P(i)
  {
    if i <= exp {
      HighBelowExponent(s, exp, i);
      UpOrder(0, 0, i);
    } else if i - exp <= |s| {
      ScaledCut(s, exp, i - exp);
    } else {
      ScaledBound(s, exp);
      PMonotone(|s| + exp, i);
      UpOrder(0, 0, i);
    }
  }

  lemma HighAboveTop(s: Bigits, exp: nat, i: nat)
    requires |s| + exp <= i
    ensures High(s, exp, i) == 0
  {
    if i - exp == |s| {
      assert s[|s|..] == [];
    }
  }
}
