/** Divisibility by powers of five with one wrapping multiplication: modular inverses. */
module Divisibility {
  import opened Powers

  /** With m the inverse of d modulo w: x times m wraps to at most (w - 1) / d exactly for
      the multiples of d, and then to the quotient. */
  lemma InverseTest(x: nat, d: nat, m: nat, w: nat)
    requires x < w && d > 0 && (d * m) % w == 1
    ensures (x * m) % w <= (w - 1) / d <==> x % d == 0
    ensures x % d == 0 ==> (x * m) % w == x / d
  {
    if x % d == 0 {
      MultipleWraps(x, d, m, w);
    } else if (x * m) % w <= (w - 1) / d {
      SmallWrapIsMultiple(x, d, m, w);
    }
  }

  lemma DivModBack(n: nat, w: nat)
    requires w > 0
    ensures n == w * (n / w) + n % w
  {
  }

  lemma MultipleWraps(x: nat, d: nat, m: nat, w: nat)
    requires x < w && d > 0 && (d * m) % w == 1 && x % d == 0
    ensures (x * m) % w == x / d && x / d <= (w - 1) / d
  {
    var t, q := (d * m) / w, x / d;
    DivModBack(d * m, w);
    DivModBack(x, d);
    ProductOfMultiple(d, q, m, w, t);
    QuotientBelow(d, q, w - 1);
    DivModUnique(x * m, w, q * t, q);
  }

  lemma ProductOfMultiple(d: int, q: int, m: int, w: int, t: int)
    requires d * m == w * t + 1
    ensures (d * q) * m == (q * t) * w + q
  {
    assert (d * q) * m == q * (d * m);
    assert q * (w * t + 1) == q * (w * t) + q;
    assert q * (w * t) == (q * t) * w;
  }

  lemma QuotientBelow(d: nat, q: nat, n: nat)
    requires d > 0 && d * q <= n
    ensures q <= n / d && q <= n
  {
    var c := n / d;
    assert n == d * c + n % d;
    if q > c {
      MulLower(d, c + 1, q);
    }
    MulLower(q, 1, d);
  }

  lemma SmallWrapIsMultiple(x: nat, d: nat, m: nat, w: nat)
    requires x < w && d > 0 && (d * m) % w == 1 && (x * m) % w <= (w - 1) / d
    ensures x % d == 0
  {
    var t, k, r := (d * m) / w, (x * m) / w, (x * m) % w;
    DivModBack(d * m, w);
    DivModBack(x * m, w);
    DivModBack(w - 1, d);
    MulLower(d, r, (w - 1) / d);
    TwoWays(x, d, m, w, t, k, r);
    SameRemainder(x, d * r, w, t * x, d * k);
    DivModUnique(x, d, r, 0);
  }

  lemma SameRemainder(x: nat, y: nat, w: nat, a: int, b: int)
    requires x < w && y < w && x + w * a == w * b + y
    ensures x == y
  {
    DivModUnique(x + w * a, w, a, x);
    DivModUnique(w * b + y, w, b, y);
  }

  /** x * m * d, computed both ways. */
  lemma TwoWays(x: int, d: int, m: int, w: int, t: int, k: int, r: int)
    requires d * m == w * t + 1 && x * m == w * k + r
    ensures x + w * (t * x) == w * (d * k) + d * r
  {
    assert x * (d * m) == d * (x * m);
    assert x * (w * t + 1) == x * (w * t) + x;
    assert x * (w * t) == w * (t * x);
    assert d * (w * k + r) == d * (w * k) + d * r;
    assert d * (w * k) == w * (d * k);
  }

  /** The 32-bit table: inverse of 5^e, and the largest quotient. */
  function Entry32(e: nat): (nat, nat)
    requires e < 11
  {
    match e
    case 0 => (0x00000001, 0xffffffff)
    case 1 => (0xcccccccd, 0x33333333)
    case 2 => (0xc28f5c29, 0x0a3d70a3)
    case 3 => (0x26e978d5, 0x020c49ba)
    case 4 => (0x3afb7e91, 0x0068db8b)
    case 5 => (0x0bcbe61d, 0x0014f8b5)
    case 6 => (0x68c26139, 0x000431bd)
    case 7 => (0xae8d46a5, 0x0000d6bf)
    case 8 => (0x22e90e21, 0x00002af3)
    case 9 => (0x3a2e9c6d, 0x00000897)
    case _ => (0x3ed61f49, 0x000001b7)
  }

  /** The 64-bit table. */
  function Entry64(e: nat): (nat, nat)
    requires e < 24
  {
    match e
    case 0 => (0x0000000000000001, 0xffffffffffffffff)
    case 1 => (0xcccccccccccccccd, 0x3333333333333333)
    case 2 => (0x8f5c28f5c28f5c29, 0x0a3d70a3d70a3d70)
    case 3 => (0x1cac083126e978d5, 0x020c49ba5e353f7c)
    case 4 => (0xd288ce703afb7e91, 0x0068db8bac710cb2)
    case 5 => (0x5d4e8fb00bcbe61d, 0x0014f8b588e368f0)
    case 6 => (0x790fb65668c26139, 0x000431bde82d7b63)
    case 7 => (0xe5032477ae8d46a5, 0x0000d6bf94d5e57a)
    case 8 => (0xc767074b22e90e21, 0x00002af31dc46118)
    case 9 => (0x8e47ce423a2e9c6d, 0x0000089705f4136b)
    case 10 => (0x4fa7f60d3ed61f49, 0x000001b7cdfd9d7b)
    case 11 => (0x0fee64690c913975, 0x00000057f5ff85e5)
    case 12 => (0x3662e0e1cf503eb1, 0x000000119799812d)
    case 13 => (0xa47a2cf9f6433fbd, 0x0000000384b84d09)
    case 14 => (0x54186f653140a659, 0x00000000b424dc35)
    case 15 => (0x7738164770402145, 0x0000000024075f3d)
    case 16 => (0xe4a4d1417cd9a041, 0x000000000734aca5)
    case 17 => (0xc75429d9e5c5200d, 0x000000000170ef54)
    case 18 => (0xc1773b91fac10669, 0x000000000049c977)
    case 19 => (0x26b172506559ce15, 0x00000000000ec1e4)
    case 20 => (0xd489e3a9addec2d1, 0x000000000002f394)
    case 21 => (0x90e860bb892c8d5d, 0x000000000000971d)
    case 22 => (0x502e79bf1b6f4f79, 0x0000000000001e39)
    case _ => (0xdcd618596be30fe5, 0x000000000000060b)
  }

  ghost predicate RightEntry(entry: (nat, nat), d: nat, w: nat) {
    d > 0 && w > 1 && (d * entry.0) % w == 1 && (w - 1) / d == entry.1
  }

  lemma Table32IsRight(e: nat)
    requires e < 11
    ensures RightEntry(Entry32(e), Pow(5, e), 0x1_0000_0000)
  {
    if e <= 3 {
      Table32From0(e);
    } else if e <= 7 {
      Table32From4(e);
    } else {
      Table32From8(e);
    }
  }

  lemma Table32From0(e: nat)
    requires 0 <= e <= 3
    ensures RightEntry(Entry32(e), Pow(5, e), 0x1_0000_0000)
  {
    assert Pow(5, 0) == 1;
    assert Pow(5, 1) == 5;
    assert Pow(5, 2) == 25;
    assert Pow(5, 3) == 125;
  }

  lemma Table32From4(e: nat)
    requires 4 <= e <= 7
    ensures RightEntry(Entry32(e), Pow(5, e), 0x1_0000_0000)
  {
    assert Pow(5, 3) == 125;
    assert Pow(5, 4) == 625;
    assert Pow(5, 5) == 3125;
    assert Pow(5, 6) == 15625;
    assert Pow(5, 7) == 78125;
  }

  lemma Table32From8(e: nat)
    requires 8 <= e <= 10
    ensures RightEntry(Entry32(e), Pow(5, e), 0x1_0000_0000)
  {
    assert Pow(5, 7) == 78125;
    assert Pow(5, 8) == 390625;
    assert Pow(5, 9) == 1953125;
    assert Pow(5, 10) == 9765625;
  }

  lemma Table64IsRight(e: nat)
    requires e < 24
    ensures RightEntry(Entry64(e), Pow(5, e), 0x1_0000_0000_0000_0000)
  {
    if e <= 3 {
      Table64From0(e);
    } else if e <= 7 {
      Table64From4(e);
    } else if e <= 11 {
      Table64From8(e);
    } else if e <= 15 {
      Table64From12(e);
    } else if e <= 19 {
      Table64From16(e);
    } else {
      Table64From20(e);
    }
  }

  lemma Table64From0(e: nat)
    requires 0 <= e <= 3
    ensures RightEntry(Entry64(e), Pow(5, e), 0x1_0000_0000_0000_0000)
  {
    assert Pow(5, 0) == 1;
    assert Pow(5, 1) == 5;
    assert Pow(5, 2) == 25;
    assert Pow(5, 3) == 125;
  }

  lemma Table64From4(e: nat)
    requires 4 <= e <= 7
    ensures RightEntry(Entry64(e), Pow(5, e), 0x1_0000_0000_0000_0000)
  {
    assert Pow(5, 3) == 125;
    assert Pow(5, 4) == 625;
    assert Pow(5, 5) == 3125;
    assert Pow(5, 6) == 15625;
    assert Pow(5, 7) == 78125;
  }

  lemma Table64From8(e: nat)
    requires 8 <= e <= 11
    ensures RightEntry(Entry64(e), Pow(5, e), 0x1_0000_0000_0000_0000)
  {
    assert Pow(5, 7) == 78125;
    assert Pow(5, 8) == 390625;
    assert Pow(5, 9) == 1953125;
    assert Pow(5, 10) == 9765625;
    assert Pow(5, 11) == 48828125;
  }

  lemma Table64From12(e: nat)
    requires 12 <= e <= 15
    ensures RightEntry(Entry64(e), Pow(5, e), 0x1_0000_0000_0000_0000)
  {
    assert Pow(5, 11) == 48828125;
    assert Pow(5, 12) == 244140625;
    assert Pow(5, 13) == 1220703125;
    assert Pow(5, 14) == 6103515625;
    assert Pow(5, 15) == 30517578125;
  }

  lemma Table64From16(e: nat)
    requires 16 <= e <= 19
    ensures RightEntry(Entry64(e), Pow(5, e), 0x1_0000_0000_0000_0000)
  {
    assert Pow(5, 15) == 30517578125;
    assert Pow(5, 16) == 152587890625;
    assert Pow(5, 17) == 762939453125;
    assert Pow(5, 18) == 3814697265625;
    assert Pow(5, 19) == 19073486328125;
  }

  lemma Table64From20(e: nat)
    requires 20 <= e <= 23
    ensures RightEntry(Entry64(e), Pow(5, e), 0x1_0000_0000_0000_0000)
  {
    assert Pow(5, 10) == 9765625;
    assert Pow(5, 15) == 30517578125;
    assert Pow(5, 19) == 19073486328125;
    assert Pow(5, 20) == 95367431640625;
    assert Pow(5, 21) == 476837158203125;
    assert Pow(5, 22) == 2384185791015625;
    assert Pow(5, 23) == 11920928955078125;
  }

  /** One wrapping multiplication and a comparison: does 5^e divide x? */
  function DivisibleByPowerOf5In32(x: U32, e: nat): (r: bool)
    requires e <= 10
    ensures r <==> x % Positive(Pow(5, e)) == 0
  {
    Table32IsRight(e);
    InverseTest(x, Pow(5, e), Entry32(e).0, 0x1_0000_0000);
    (x as int * Entry32(e).0) % 0x1_0000_0000 <= Entry32(e).1
  }

  function DivisibleByPowerOf5In64(x: U64, e: nat): (r: bool)
    requires e <= 23
    ensures r <==> x % Positive(Pow(5, e)) == 0
  {
    Table64IsRight(e);
    InverseTest(x, Pow(5, e), Entry64(e).0, 0x1_0000_0000_0000_0000);
    (x as int * Entry64(e).0) % 0x1_0000_0000_0000_0000 <= Entry64(e).1
  }

  function Positive(d: nat): (r: nat)
    ensures r > 0 && (d > 0 ==> r == d)
  {
    if d > 0 then d else 1
  }
}
