/** remove_trailing_zeros: the number of trailing decimal zeros, up to a cap, and the number without them. */
module TrailingZeros {
  import opened Powers
  import opened Decimal
  import opened Divisibility

  /** x halved n times. */
  function Halved(x: nat, n: nat): (r: nat)
    ensures r <= x
  {
    if n == 0 then x else Halved(x / 2, n - 1)
  }

  /** 2^n divides x. */
  predicate Halves(x: nat, n: nat) {
    n == 0 || (x % 2 == 0 && Halves(x / 2, n - 1))
  }

  function Twos(x: nat, n: nat): nat {
    if n == 0 then x else 2 * Twos(x, n - 1)
  }

  function Fives(x: nat, n: nat): nat {
    if n == 0 then x else 5 * Fives(x, n - 1)
  }

  /** Number of trailing zero bits. */
  function Ctz(n: nat): (t: nat)
    requires n > 0
    ensures Halves(n, t) && !Halves(n, t + 1)
  {
    if n % 2 != 0 then 0 else 1 + Ctz(n / 2)
  }

  lemma {:induction false} HalvesFewer(x: nat, n: nat, m: nat)
    requires Halves(x, n) && m <= n
    ensures Halves(x, m)
  {
    if m > 0 {
      HalvesFewer(x / 2, n - 1, m - 1);
    }
  }

  lemma {:induction false} HalvedBack(x: nat, n: nat)
    requires Halves(x, n)
    ensures Twos(Halved(x, n), n) == x
  {
    if n > 0 {
      HalvedBack(x / 2, n - 1);
      TwosInside(Halved(x, n), n - 1);
    }
  }

  lemma {:induction false} TwosInside(x: nat, n: nat)
    ensures Twos(2 * x, n) == 2 * Twos(x, n)
  {
    if n > 0 {
      TwosInside(x, n - 1);
    }
  }

  /** Multiplying by five changes nothing about the factors of two. */
  lemma {:induction false} FiveKeepsHalves(x: nat, n: nat)
    ensures Halves(5 * x, n) <==> Halves(x, n)
  {
    if n > 0 {
      assert (5 * x) % 2 == x % 2;
      if x % 2 == 0 {
        assert 5 * x / 2 == 5 * (x / 2);
        FiveKeepsHalves(x / 2, n - 1);
      }
    }
  }

  lemma {:induction false} FivesKeepHalves(x: nat, s: nat, n: nat)
    ensures Halves(Fives(x, s), n) <==> Halves(x, n)
  {
    if s > 0 {
      FivesKeepHalves(x, s - 1, n);
      FiveKeepsHalves(Fives(x, s - 1), n);
    }
  }

  lemma {:induction false} TensAreTwosAndFives(x: nat, n: nat)
    ensures Tens(x, n) == Fives(Twos(x, n), n)
  {
    if n > 0 {
      TensAreTwosAndFives(x, n - 1);
      FivesTwice(Twos(x, n - 1), n - 1);
    }
  }

  lemma {:induction false} FivesTwice(x: nat, n: nat)
    ensures Fives(2 * x, n) == 2 * Fives(x, n)
  {
    if n > 0 {
      FivesTwice(x, n - 1);
    }
  }

  lemma {:induction false} FivesInside(x: nat, n: nat)
    ensures Fives(5 * x, n) == 5 * Fives(x, n) == Fives(x, n + 1)
  {
    if n > 0 {
      FivesInside(x, n - 1);
    }
  }

  lemma {:induction false} TwosModFive(x: nat, n: nat)
    ensures Twos(x, n) % 5 == 0 <==> x % 5 == 0
  {
    if n > 0 {
      TwosModFive(x, n - 1);
      DoubleModFive(Twos(x, n - 1));
    }
  }

  lemma DoubleModFive(y: nat)
    ensures (2 * y) % 5 == 0 <==> y % 5 == 0
  {
  }

  /** 2^(n+1) divides a number with n factors of two in front of an even one. */
  lemma {:induction false} TwosOfEven(y: nat, n: nat)
    ensures Halves(Twos(2 * y, n), n + 1)
  {
    if n > 0 {
      TwosOfEven(y, n - 1);
    } else {
      assert Halves(y, 0);
    }
  }

  /** What the functions return: s zeros are taken off, and no more can be, below the cap. */
  ghost predicate ZerosRemoved(n: nat, cap: nat, s: nat, rest: nat) {
    && Tens(rest, s) == n && s <= cap
    && (s < cap ==> rest % 10 != 0)
  }

  /** In other words: s is the largest exponent up to the cap with 10^s dividing n. */
  lemma ZerosRemovedIsLargest(n: nat, cap: nat, s: nat, rest: nat, k: nat)
    requires n > 0 && ZerosRemoved(n, cap, s, rest) && k <= cap
    ensures (exists q: nat :: Tens(q, k) == n) <==> k <= s
  {
    if k <= s {
      TensSplit(rest, s - k, k);
      TensOrder(rest, 0, s - k);
      if rest == 0 {
        TensOrder(0, 0, s);
      }
      assert Tens(Tens(rest, s - k) as nat, k) == n;
    } else if exists q: nat :: Tens(q, k) == n {
      var q: nat :| Tens(q, k) == n;
      TensSplit(q, k - s, s);
      TensOrder(rest, Tens(q, k - s), s);
      TensOrder(Tens(q, k - s), rest, s);
    }
  }

  lemma {:induction false} TensSplit(x: int, m: nat, n: nat)
    ensures Tens(x, m + n) == Tens(Tens(x, m), n)
  {
    if n > 0 {
      TensSplit(x, m, n - 1);
    }
  }

  const MOD_INV1: U32 := 0xcccccccd
  const MAX_QUOTIENT1: U32 := 0x33333333

  /** The wrapping product with the inverse of 5: the fifth of a multiple of 5, else too large. */
  function Fifth(x: U32): (q: U32)
    ensures q <= MAX_QUOTIENT1 <==> x % 5 == 0
    ensures x % 5 == 0 ==> 5 * q == x
  {
    InverseTest(x, 5, MOD_INV1, 0x1_0000_0000);
    (x as int * 0xcccccccd) % 0x1_0000_0000
  }

  function TwentyFifth(x: U32): (q: U32)
    ensures q <= 0x0a3d70a3 <==> x % 25 == 0
    ensures x % 25 == 0 ==> 25 * q == x
  {
    InverseTest(x, 25, 0xc28f5c29, 0x1_0000_0000);
    (x as int * 0xc28f5c29) % 0x1_0000_0000
  }

  /** The wrapping product with the inverse of 5^8. */
  function Part390625(x: U64): (q: U64)
    ensures q <= 0x00002af31dc46118 <==> x % 390625 == 0
    ensures x % 390625 == 0 ==> q == x / 390625
  {
    InverseTest(x, 390625, 0xc767074b22e90e21, 0x1_0000_0000_0000_0000);
    (x as int * 0xc767074b22e90e21) % 0x1_0000_0000_0000_0000
  }

  /** s factors of five taken off n leave x, and n has at least t factors of two. */
  ghost predicate Stripped(n: nat, s: nat, x: nat, t: nat) {
    Fives(x, s) == n && Halves(x, t)
  }

  lemma StripStarts(n: nat, t: nat)
    requires Halves(n, t)
    ensures Stripped(n, 0, n, t)
  {
  }

  method RemoveTrailingZeros32(n0: U32, cap: nat) returns (s: nat, n: U32)
    requires n0 > 0
    ensures ZerosRemoved(n0, cap, s, n)
  {
    hide Tens, Twos, Fives, Halved, Halves, Stripped, Fifth, TwentyFifth;
    n := n0;
    var t := Ctz(n);
    ghost var ctz := t;
    if t > cap {
      t := cap;
    }
    HalvesFewer(n, ctz, t);
    StripStarts(n, t);
    s := 0;
    while s < t - 1
      invariant 0 <= s <= t && Stripped(n0, s, n, t) && !Halves(n, ctz + 1)
      decreases t - s
    {
      if TwentyFifth(n) > 0x0a3d70a3 {
        break;
      }
      n := TwentyFifth(n);
      StripFives(n0, s, n, t, ctz + 1);
      s := s + 2;
    }
    if s < t && Fifth(n) <= MAX_QUOTIENT1 {
      n := Fifth(n);
      StripFive(n0, s, n, t, ctz + 1);
      s := s + 1;
    }
    ZerosCounted(n0, cap, t, ctz, s, n);
    n := Halved(n, s);
  }

  lemma StripFive(n0: nat, s: nat, y: nat, t: nat, u: nat)
    requires Stripped(n0, s, 5 * y, t) && !Halves(5 * y, u)
    ensures Stripped(n0, s + 1, y, t) && !Halves(y, u)
  {
    FivesInside(y, s);
    FiveKeepsHalves(y, t);
    FiveKeepsHalves(y, u);
  }

  lemma StripFives(n0: nat, s: nat, y: nat, t: nat, u: nat)
    requires Stripped(n0, s, 5 * (5 * y), t) && !Halves(5 * (5 * y), u)
    ensures Stripped(n0, s + 2, y, t) && !Halves(y, u)
  {
    StripFive(n0, s, 5 * y, t, u);
    StripFive(n0, s + 1, y, t, u);
  }

  /** The shift takes off the twos; what is left ends in 0 only at the cap. */
  lemma ZerosCounted(n0: nat, cap: nat, t: nat, ctz: nat, s: nat, x: nat)
    requires Stripped(n0, s, x, t) && !Halves(x, ctz + 1) && s <= t <= cap && (t < cap ==> t == ctz)
    requires s == t || x % 5 != 0
    ensures ZerosRemoved(n0, cap, s, Halved(x, s))
  {
    var rest := Halved(x, s);
    HalvesFewer(x, t, s);
    HalvedBack(x, s);
    TensAreTwosAndFives(rest, s);
    if s < cap && rest % 10 == 0 {
      assert rest == 10 * (rest / 10);
      TenLeft(rest / 10, s);
    }
  }

  lemma TenLeft(q: nat, s: nat)
    ensures Twos(10 * q, s) % 5 == 0 && Halves(Twos(10 * q, s), s + 1)
  {
    hide Twos;
    TwosModFive(10 * q, s);
    TwosOfEven(5 * q, s);
  }

  /** The 64-bit form. A multiple of 10^8 is handled through its 32-bit quotient, any other
      number through its last eight digits. */
  method RemoveTrailingZeros64(n0: U64, cap: nat) returns (s: nat, n: U64)
    requires 0 < n0 && n0 / 100_000_000 < 0x1_0000_0000
    ensures ZerosRemoved(n0, cap, s, n)
  {
    var t := Ctz(n0);
    ghost var ctz := t;
    if t > cap {
      t := cap;
    }
    HalvesFewer(n0, ctz, t);
    if t >= 8 {
      var candidate := Part390625(n0);
      if candidate <= 0x00002af31dc46118 {
        HalvesFewer(n0, t, 8);
        EightZeros(n0, ctz);
        s, n := ZerosOfQuotient(n0, cap, t, ctz, Halved(candidate, 8));
        return;
      }
    }
    s, n := ZerosOfRemainder(n0, cap, t, ctz);
  }

  /** 10^8 divides n: eight zeros at once. */
  lemma EightZeros(n: nat, ctz: nat)
    requires n > 0 && n % 390625 == 0 && Halves(n, 8) && Halves(n, ctz) && !Halves(n, ctz + 1)
    ensures ctz >= 8
    ensures var q := Halved(n / 390625, 8);
      q == n / 100_000_000 && Tens(q, 8) == n && Halves(q, ctz - 8) && !Halves(q, ctz - 7)
  {
    if ctz < 8 {
      HalvesFewer(n, 8, ctz + 1);
    }
    var x := n / 390625;
    EightFives(x);
    FivesKeepHalves(x, 8, ctz);
    FivesKeepHalves(x, 8, ctz + 1);
    HalvesFewer(x, ctz, 8);
    HalvedBack(x, 8);
    TensAreTwosAndFives(Halved(x, 8), 8);
    HalvesAfter(x, 8, ctz - 8);
    HalvesAfter(x, 8, ctz - 7);
    EightTens(Halved(x, 8));
  }

  lemma EightTens(q: nat)
    ensures Tens(q, 8) == 100_000_000 * q
  {
    assert Tens(q, 1) == 10 * q;
    assert Tens(q, 2) == 100 * q;
    assert Tens(q, 3) == 1000 * q;
    assert Tens(q, 4) == 10000 * q;
    assert Tens(q, 5) == 100000 * q;
    assert Tens(q, 6) == 1000000 * q;
    assert Tens(q, 7) == 10000000 * q;
  }

  lemma EightFives(x: nat)
    ensures Fives(x, 8) == 390625 * x
  {
    assert Fives(x, 1) == 5 * x;
    assert Fives(x, 2) == 25 * x;
    assert Fives(x, 3) == 125 * x;
    assert Fives(x, 4) == 625 * x;
    assert Fives(x, 5) == 3125 * x;
    assert Fives(x, 6) == 15625 * x;
    assert Fives(x, 7) == 78125 * x;
  }

  lemma EightTwos(x: nat)
    ensures Twos(x, 8) == 256 * x
  {
    assert Twos(x, 1) == 2 * x;
    assert Twos(x, 2) == 4 * x;
    assert Twos(x, 3) == 8 * x;
    assert Twos(x, 4) == 16 * x;
    assert Twos(x, 5) == 32 * x;
    assert Twos(x, 6) == 64 * x;
    assert Twos(x, 7) == 128 * x;
  }

  lemma {:induction false} HalvesAfter(x: nat, m: nat, n: nat)
    requires Halves(x, m)
    ensures Halves(Halved(x, m), n) <==> Halves(x, m + n)
  {
    if m > 0 {
      HalvesAfter(x / 2, m - 1, n);
    }
  }

  method ZerosOfQuotient(ghost n0: nat, ghost cap: nat, t: nat, ghost ctz: nat, q0: U32) returns (s: nat, n: U32)
    requires 8 <= t <= cap && t <= ctz && (t < cap ==> t == ctz)
    requires Tens(q0, 8) == n0 && Halves(q0, ctz - 8) && !Halves(q0, ctz - 7)
    ensures ZerosRemoved(n0, cap, s, n)
  {
    var quotient := q0;
    s := 8;
    HalvesFewer(q0, ctz - 8, t - 8);
    while s < t
      invariant 8 <= s <= t && Stripped(q0, s - 8, quotient, t - 8) && !Halves(quotient, ctz - 7)
    {
      if Fifth(quotient) > MAX_QUOTIENT1 {
        break;
      }
      quotient := Fifth(quotient);
      StripFive(q0, s - 8, quotient, t - 8, ctz - 7);
      s := s + 1;
    }
    ZerosCounted(q0, cap - 8, t - 8, ctz - 8, s - 8, quotient);
    n := Halved(quotient, s - 8);
    TensSplit(n, s - 8, 8);
  }

  /** The last eight digits of n, with s factors of five taken off; the rest is kept apart. */
  ghost predicate Low(n0: nat, s: nat, remainder: nat, quotient: nat) {
    n0 == Fives(remainder, s) + 100_000_000 * quotient && Fives(remainder, s) < 100_000_000
  }

  /** The source writes the seven rounds of this loop out one after the other. */
  method ZerosOfRemainder(n0: U64, ghost cap: nat, t: nat, ghost ctz: nat) returns (s: nat, n: U64)
    requires 0 < n0 && n0 / 100_000_000 < 0x1_0000_0000
    requires Halves(n0, t) && t <= cap && (t < cap ==> t == ctz) && !Halves(n0, ctz + 1)
    requires t >= 8 ==> n0 % 390625 != 0
    ensures ZerosRemoved(n0, cap, s, n)
  {
    var quotient: U32 := n0 / 100_000_000;
    var remainder: U32 := n0 - 100_000_000 * quotient;
    s := 0;
    while s < 7
      invariant 0 <= s <= 7 && s <= t && Low(n0, s, remainder, quotient)
      decreases 7 - s
    {
      if t == s || Fifth(remainder) > MAX_QUOTIENT1 {
        break;
      }
      remainder := Fifth(remainder);
      FivesInside(remainder, s);
      s := s + 1;
    }
    RemainderCounted(n0, cap, t, ctz, s, remainder, quotient);
    n := Halved(remainder, s) + quotient * Tens(1, 8 - s);
  }

  lemma RemainderCounted(n0: nat, cap: nat, t: nat, ctz: nat, s: nat, remainder: nat, quotient: nat)
    requires n0 > 0 && s <= 7 && s <= t <= cap && Low(n0, s, remainder, quotient)
    requires Halves(n0, t) && (t < cap ==> t == ctz) && !Halves(n0, ctz + 1)
    requires t >= 8 ==> n0 % 390625 != 0
    requires s == t || s == 7 || remainder % 5 != 0
    ensures var n := Halved(remainder, s) + quotient * Tens(1, 8 - s); 0 <= n <= n0 && ZerosRemoved(n0, cap, s, n)
  {
    hide Tens, Halved, Twos, Fives, Pow;
    HalvesFewer(n0, t, s);
    RemainderHalves(n0, s, remainder, quotient);
    var low := Halved(remainder, s);
    var n := low + quotient * Tens(1, 8 - s);
    RemainderValue(n0, s, remainder, quotient);
    if s < cap && n % 10 == 0 {
      MoreZeros(n0, s, n / 10);
      if s == 7 {
        EightTens(n / 10);
      } else if s < t {
        LowEndsNonzero(low, quotient, 7 - s);
        TwosModFive(low, s);
        HalvedBack(remainder, s);
      }
    }
  }

  /** What is returned is the number without its s zeros. */
  lemma RemainderValue(n0: nat, s: nat, remainder: nat, quotient: nat)
    requires s <= 7 && Low(n0, s, remainder, quotient) && Halves(remainder, s)
    ensures var n := Halved(remainder, s) + quotient * Tens(1, 8 - s); 0 <= n <= n0 && Tens(n, s) == n0
  {
    var low, unit := Halved(remainder, s), Tens(1, 8 - s);
    HalvedBack(remainder, s);
    TensAreTwosAndFives(low, s);
    TensOrder(1, 0, 8 - s);
    ProductOrder(0, quotient, unit);
    TensPlus(low, quotient * unit, s);
    HundredMillion(quotient, s);
    TensLonger(low + quotient * unit, 0, s);
  }

  lemma HundredMillion(quotient: nat, s: nat)
    requires s <= 7
    ensures Tens(quotient * Tens(1, 8 - s), s) == 100_000_000 * quotient
  {
    TensTimes(Tens(1, 8 - s), quotient, s);
    assert quotient * Tens(1, 8 - s) == Tens(1, 8 - s) * quotient;
    TensSplit(1, 8 - s, s);
    EightTens(1);
  }

  lemma LowEndsNonzero(low: nat, quotient: nat, k: nat)
    requires (low + quotient * Tens(1, k + 1)) % 10 == 0
    ensures low % 5 == 0
  {
    Swap(quotient, 10, Tens(1, k));
    LastDigit(low, quotient * Tens(1, k));
  }

  lemma LastDigit(low: nat, x: int)
    requires (low + 10 * x) % 10 == 0
    ensures low % 5 == 0
  {
  }

  /** One more trailing zero is one more factor of two, and ten times a smaller number. */
  lemma MoreZeros(n0: nat, s: nat, q: nat)
    requires Tens(10 * q, s) == n0
    ensures Halves(n0, s + 1) && Tens(q, s + 1) == n0
  {
    TensAreTwosAndFives(10 * q, s);
    TwosOfEven(5 * q, s);
    FivesKeepHalves(Twos(10 * q, s), s, s + 1);
    assert Tens(q, 1) == 10 * q;
    TensSplit(q, 1, s);
  }

  /** The factors of two of n, up to eight, are those of its last eight digits. */
  lemma RemainderHalves(n0: nat, s: nat, remainder: nat, quotient: nat)
    requires s <= 7 && Low(n0, s, remainder, quotient) && Halves(n0, s)
    ensures Halves(remainder, s)
  {
    var high := 100_000_000 * quotient;
    EightTwos(390625 * quotient);
    TwosHalves(390625 * quotient, 8, s);
    HalvesMinus(n0, high, s);
    FivesKeepHalves(remainder, s, s);
  }

  lemma {:induction false} TwosHalves(x: nat, n: nat, m: nat)
    requires m <= n
    ensures Halves(Twos(x, n), m)
  {
    if m > 0 {
      TwosHalves(x, n - 1, m - 1);
    }
  }

  lemma {:induction false} HalvesMinus(x: nat, y: nat, n: nat)
    requires y <= x && Halves(x, n) && Halves(y, n)
    ensures Halves(x - y, n)
  {
    if n > 0 {
      assert (x - y) % 2 == 0 && (x - y) / 2 == x / 2 - y / 2;
      HalvesMinus(x / 2, y / 2, n - 1);
    }
  }
}
