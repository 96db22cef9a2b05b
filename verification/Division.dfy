/** 64-bit division built from the 64-by-32 divide instruction.

    Machine words are integers in the range of their C type; every operation that can wrap says so. */
module Division {

  const B32: nat := 0x1_0000_0000
  const B64: nat := 0x1_0000_0000_0000_0000

  type Word32 = n: int | 0 <= n < 0x1_0000_0000
  type Word64 = n: int | 0 <= n < 0x1_0000_0000_0000_0000
  type Int32 = n: int | -0x8000_0000 <= n < 0x8000_0000
  type Int64 = n: int | -0x8000_0000_0000_0000 <= n < 0x8000_0000_0000_0000

  const INT64_MIN: Int64 := -0x8000_0000_0000_0000

  function Pow2(k: nat): (r: nat)
    ensures r >= 1
  {
    if k == 0 then 1 else 2 * Pow2(k - 1)
  }

  /** Conversion to a signed type of the same width. */
  function ToInt64(x: int): Int64 {
    var u := x % B64;
    if u < 0x8000_0000_0000_0000 then u else u - B64
  }

  function ToInt32(x: int): Int32 {
    var u := x % B32;
    if u < 0x8000_0000 then u else u - B32
  }

  // ---------------------------------------------------------------- arithmetic facts

  /** Euclidean division is the only quotient with these bounds. */
  lemma QuotientUnique(n: int, d: int, q: int)
    requires d > 0 && q * d <= n < q * d + d
    ensures q == n / d
  {
    var p := n / d;
    assert p * d <= n < p * d + d;
    if q < p {
      Step(q, d);
      MulMono(q + 1, p, d);
    } else if p < q {
      Step(p, d);
      MulMono(p + 1, q, d);
    }
  }

  lemma Step(q: int, d: int)
    ensures (q + 1) * d == q * d + d
  {
  }

  lemma DivDiv(n: nat, a: nat, b: nat)
    requires a > 0 && b > 0
    ensures a * b > 0 && n / a / b == n / (a * b)
  {
    var p, q := n / a, n / a / b;
    DivBounds(n, a);
    DivBounds(p, b);
    MulMono(q * b, p, a);
    MulMono(p + 1, (q + 1) * b, a);
    Reassociate(q, a, b);
    Reassociate(q + 1, a, b);
    assert (q + 1) * (a * b) == q * (a * b) + a * b;
    MulStrict(0, a, b);
    QuotientUnique(n, a * b, q);
  }

  lemma Reassociate(q: nat, a: nat, b: nat)
    ensures q * b * a == q * (a * b)
  {
  }

  lemma {:induction false} Pow2Add(a: nat, b: nat)
    ensures Pow2(a + b) == Pow2(a) * Pow2(b)
  {
    if a > 0 {
      Pow2Add(a - 1, b);
      assert Pow2(a) * Pow2(b) == 2 * (Pow2(a - 1) * Pow2(b));
    }
  }

  lemma Pow2Values()
    ensures Pow2(1) == 2 && Pow2(2) == 4 && Pow2(4) == 16 && Pow2(8) == 256
    ensures Pow2(16) == 0x1_0000 && Pow2(31) == 0x8000_0000
  {
    Pow2Add(2, 2);
    Pow2Add(4, 4);
    Pow2Add(8, 8);
    Pow2Add(1, 2);
    Pow2Add(3, 4);
    Pow2Add(7, 8);
    Pow2Add(15, 16);
  }

  lemma MulMono(a: int, b: int, c: nat)
    requires a <= b
    ensures a * c <= b * c
  {
  }

  lemma MulStrict(a: int, b: int, c: nat)
    requires a < b && c > 0
    ensures a * c < b * c
  {
  }

  lemma Products(m: nat, a: nat, b: nat)
    requires m <= a && m <= b
    ensures m * m <= a * b
  {
    MulMono(m, a, m);
    MulMono(m, b, a);
  }

  /** The estimate comes from dividing by D instead of d, where D is d with its low bits cleared: at
      most d, at least b u, and less than 2u below d.  Then the two quotients of any n below b^2
      differ by at most one. */
  lemma QuotientsClose(n: nat, d: nat, D: nat, u: nat, b: nat)
    requires n < b * b && u >= 1 && b >= 1 && b * u <= D <= d < D + 2 * u
    ensures D > 0 && d > 0 && n / d <= n / D <= n / d + 1
  {
    MulMono(1, b, u);
    GapSmall(n, d, D, u, b);
    GapDecides(n, d, D);
  }

  lemma GapDecides(n: nat, d: nat, D: nat)
    requires 0 < D <= d && n * (d - D) < d * D
    ensures n / d <= n / D <= n / d + 1
  {
    var p, q := n / d, n / D;
    assert p <= q && n < (p + 1) * d && q * D <= n by {
      SmallerDivisor(n, d, D);
    }
    NotTwoApart(n, d, D, p, q);
  }

  lemma NotTwoApart(n: nat, d: nat, D: nat, p: nat, q: nat)
    requires 0 < D <= d && n < (p + 1) * d && q * D <= n && n * (d - D) < d * D
    ensures q <= p + 1
  {
    if p + 2 <= q {
      TooFar(n, d, D, p, q);
    }
  }

  lemma SmallerDivisor(n: nat, d: nat, D: nat)
    requires 0 < D <= d
    ensures n / d <= n / D
    ensures n < (n / d + 1) * d && (n / D) * D <= n
  {
    var q, p := n / D, n / d;
    DivBounds(n, D);
    DivBounds(n, d);
    MulMono(D, d, p);
    if p > q {
      MulMono(q + 1, p, D);
    }
  }

  lemma DivBounds(n: nat, d: nat)
    requires d > 0
    ensures (n / d) * d <= n < (n / d + 1) * d
  {
    assert (n / d + 1) * d == (n / d) * d + d;
  }

  lemma GapSmall(n: nat, d: nat, D: nat, u: nat, b: nat)
    requires n < b * b && u >= 1 && b >= 1 && b * u <= D <= d < D + 2 * u
    ensures n * (d - D) < d * D
  {
    var g, m, bb, uu := d - D, 2 * u - 1, b * b, u * u;
    MulMono(g, m, n);
    MulStrict(n, bb, m);
    Square(u);
    MulMono(m, uu, bb);
    SquareOfProduct(b, u);
    Products(b * u, d, D);
  }

  lemma Square(u: nat)
    ensures 2 * u - 1 <= u * u
  {
    assert (u - 1) * (u - 1) == u * u - 2 * u + 1;
  }

  lemma SquareOfProduct(b: nat, u: nat)
    ensures (u * u) * (b * b) == (b * u) * (b * u)
  {
    assert (b * u) * (b * u) == b * (u * (b * u));
    assert u * (b * u) == b * (u * u);
    assert b * (b * (u * u)) == (b * b) * (u * u);
  }

  /** Quotients two apart would need n (d - D) >= d D. */
  lemma TooFar(n: nat, d: nat, D: nat, p: nat, q: nat)
    requires 0 < D <= d && n < (p + 1) * d && q * D <= n && p + 2 <= q
    ensures n * (d - D) >= d * D
  {
    MulMono(p + 2, q, D);
    MulMono((p + 2) * D, n, d);
    MulMono(n, (p + 1) * d, D);
    OneMore(p, d, D);
    Difference(n, d, D);
  }

  lemma OneMore(p: nat, d: nat, D: nat)
    ensures (p + 2) * D * d == (p + 1) * d * D + d * D
  {
    assert (p + 2) * D == (p + 1) * D + D;
    assert (p + 1) * D * d == (p + 1) * d * D;
  }

  lemma Difference(n: nat, d: int, D: int)
    ensures n * (d - D) == n * d - n * D
  {
  }

  lemma QuotientBound(n: nat, d: nat, b: nat)
    requires d > 0 && n < b * d
    ensures n / d < b
  {
    var q := n / d;
    assert q * d <= n;
    assert q >= b ==> q * d >= b * d;
  }

  // ---------------------------------------------------------------- the routines

  /** The divide instruction: its precondition is exactly that it does not trap. */
  function Divl(n: Word64, d: Word32): (q: Word32)
    requires d != 0 && n / d < B32
    ensures q * d <= n < q * d + d
  {
    n / d
  }

  /** Left shift, before any truncation. */
  ghost function Shl(x: nat, n: nat): nat {
    if n == 0 then x else 2 * Shl(x, n - 1)
  }

  lemma {:induction false} ShlIsMul(x: nat, n: nat)
    ensures Shl(x, n) == x * Pow2(n)
  {
    if n > 0 {
      ShlIsMul(x, n - 1);
      assert x * (2 * Pow2(n - 1)) == 2 * (x * Pow2(n - 1));
    }
  }

  lemma ShlMore(x: nat, n: nat)
    ensures Shl(x, n + 1) == 2 * Shl(x, n)
    ensures Shl(x, n + 2) == 4 * Shl(x, n)
    ensures Shl(x, n + 4) == 16 * Shl(x, n)
    ensures Shl(x, n + 8) == 256 * Shl(x, n)
    ensures Shl(x, n + 16) == 0x1_0000 * Shl(x, n)
  {
    assert Shl(x, n + 2) == 2 * Shl(x, n + 1);
    assert Shl(x, n + 4) == 2 * Shl(x, n + 3) && Shl(x, n + 3) == 2 * Shl(x, n + 2);
    ShlFour(x, n + 4);
    ShlFour(x, n + 8);
    ShlFour(x, n + 12);
  }

  lemma ShlFour(x: nat, n: nat)
    ensures Shl(x, n + 4) == 16 * Shl(x, n)
  {
    assert Shl(x, n + 4) == 2 * Shl(x, n + 3) && Shl(x, n + 3) == 2 * Shl(x, n + 2);
    assert Shl(x, n + 2) == 2 * Shl(x, n + 1) && Shl(x, n + 1) == 2 * Shl(x, n);
  }

  /** The first three tests of Nlz: shifts by 16, 8 and 4 where they fit. */
  method CoarseShift(x0: Word32) returns (n: nat, x: Word32)
    requires x0 != 0
    ensures x == Shl(x0, n) && 0x0FFFFFFF < x && n <= 28
  {
    n, x := 0, x0;
    if x <= 0x0000FFFF {
      ShlMore(x0, n);
      n, x := n + 16, x * 0x1_0000;
    }
    assert x == Shl(x0, n) && 0x0000FFFF < x < B32 && n <= 16;
    if x <= 0x00FFFFFF {
      ShlMore(x0, n);
      n, x := n + 8, x * 0x100;
    }
    assert x == Shl(x0, n) && 0x00FFFFFF < x < B32 && n <= 24;
    if x <= 0x0FFFFFFF {
      ShlMore(x0, n);
      n, x := n + 4, x * 0x10;
    }
  }

  /** Leading zero bits of a nonzero word: the shift that brings its top bit to bit 31. */
  method Nlz(x0: Word32) returns (n: nat)
    requires x0 != 0
    ensures n <= 31 && 0x8000_0000 <= Shl(x0, n) < B32
  {
    var x;
    n, x := CoarseShift(x0);
    if x <= 0x3FFFFFFF {
      ShlMore(x0, n);
      n, x := n + 2, x * 4;
    }
    if x <= 0x7FFFFFFF {
      ShlMore(x0, n);
      n := n + 1;
    }
  }

  /** `s` is the shift that brings the top bit of d to bit 63. */
  ghost predicate Normalizes(d: Word64, s: nat) {
    d >= B32 && s <= 31 && 0x8000_0000 <= (d / B32) * Pow2(s) < B32
  }

  /** Where the shifted divisor lies, and how much of d its top half v keeps: with u = 2^(31-s),
      2uv is d with its low bits cleared. */
  lemma ShiftedDivisor(d: Word64, s: nat, u: nat, v: nat)
    requires Normalizes(d, s) && u == Pow2(31 - s) && v == d * Pow2(s) / B32
    ensures d * Pow2(s) < B64
    ensures 0x8000_0000 <= v < B32
    ensures 2 * (v * u) <= d < 2 * (v * u) + 2 * u
  {
    var t := Pow2(s);
    Pow2Add(s, 31 - s);
    Pow2Values();
    assert t * u == 0x8000_0000;
    HighHalf(d, t, u);
    LowBits(d, t, u, v);
  }

  /** d1 t is a multiple of t below 2^32, which t divides, so another t still fits. */
  lemma HighHalf(d: nat, t: nat, u: nat)
    requires t >= 1 && t * u == 0x8000_0000 && 0x8000_0000 <= (d / B32) * t < B32
    ensures 0x8000_0000 * B32 <= d * t < B32 * B32
  {
    var d1, d0 := d / B32, d % B32;
    assert d * t == B32 * (d1 * t) + d0 * t;
    assert d1 < 2 * u by {
      assert (2 * u) * t == B32;
      assert d1 >= 2 * u ==> d1 * t >= (2 * u) * t;
    }
    MulMono(d1 + 1, 2 * u, t);
    assert (d1 + 1) * t == d1 * t + t;
    MulStrict(d0, B32, t);
  }

  lemma LowBits(d: nat, t: nat, u: nat, v: nat)
    requires t * u == 0x8000_0000 && v == d * t / B32
    ensures 2 * (v * u) <= d < 2 * (v * u) + 2 * u
  {
    var m := d * t;
    assert v * B32 <= m < v * B32 + B32;
    assert m * u == d * 0x8000_0000 by {
      assert d * t * u == d * (t * u);
    }
    assert u > 0;
    MulMono(v * B32, m, u);
    MulStrict(m, v * B32 + B32, u);
    assert v * B32 * u == B32 * (v * u);
    assert (v * B32 + B32) * u == B32 * (v * u) + B32 * u;
  }

  /** For every dividend the estimate is the quotient or one more, and the divide does not trap. */
  lemma EstimateOffByOne(n: Word64, d: Word64, s: nat, v: nat)
    requires Normalizes(d, s) && v == d * Pow2(s) / B32
    ensures d * Pow2(s) < B64 && 0x8000_0000 <= v < B32
    ensures n / 2 / v < B32
    ensures n / d <= n / 2 / v / Pow2(31 - s) <= n / d + 1
  {
    var u := Pow2(31 - s);
    ShiftedDivisor(d, s, u, v);
    assert n / 2 / v < B32 by {
      DivDiv(n, 2, v);
      QuotientBound(n, 2 * v, B32);
    }
    DivDiv(n / 2, v, u);
    DivDiv(n, 2, v * u);
    assert B32 * u <= 2 * (v * u) by {
      MulMono(0x8000_0000, v, u);
    }
    QuotientsClose(n, d, 2 * (v * u), u, B32);
  }

  /** Both outcomes occur: here the estimate is one too large. */
  lemma EstimateCanBeOneMore()
    ensures var n, d, s := 0x3_FFFF_FFFD, 0x1_FFFF_FFFF, 31;
            Normalizes(d, s) && n / 2 / (d * Pow2(s) / B32) / Pow2(31 - s) == n / d + 1
  {
    Pow2Values();
  }

  /** Unsigned division. */
  method UDiv64(n: Word64, d: Word64) returns (q: Word64)
    requires d != 0
    ensures q == n / d
  {
    if d / B32 == 0 {
      q := DivideBySmall(n, d);
    } else if n < d {
      QuotientUnique(n, d, 0);
      q := 0;
    } else {
      q := DivideByLarge(n, d);
    }
  }

  method DivideBySmall(n: Word64, d: Word32) returns (q: Word64)
    requires d != 0
    ensures q == n / d
  {
    var n1, n0 := n / B32, n % B32;
    var n1mod, n1div := n1 % d, n1 / d;
    NoTrap(n1mod, n0, d);
    var q0 := Divl(B32 * n1mod + n0, d);
    SmallDivisor(n, d, n1, n0, n1mod, n1div, B32 * n1mod + n0, q0);
    q := q0 + B32 * n1div;
  }

  /** One division of the leading bits. */
  method Estimate(n: Word64, d: Word64) returns (e: nat)
    requires B32 <= d <= n
    ensures n / d <= e <= n / d + 1
  {
    var s := Nlz(d / B32);
    ShlIsMul(d / B32, s);
    var v := d * Pow2(s) / B32;
    EstimateOffByOne(n, d, s, v);
    e := Divl(n / 2, v) / Pow2(31 - s);
  }

  method DivideByLarge(n: Word64, d: Word64) returns (q: Word64)
    requires B32 <= d <= n
    ensures q == n / d
  {
    var e := Estimate(n, d);
    Correction(n, d, e);
    var rest := (n - (e - 1) * d) % B64;
    q := if rest < d then e - 1 else e;
  }

  lemma NoTrap(r1: nat, n0: nat, d: nat)
    requires 0 <= r1 < d < B32 && n0 < B32
    ensures B32 * r1 + n0 < B64 && (B32 * r1 + n0) / d < B32
  {
    QuotientBound(B32 * r1 + n0, d, B32);
  }

  /** The quotient of the high word and that of the rest make up the whole. */
  lemma SmallDivisor(n: Word64, d: Word64, n1: nat, n0: nat, r1: nat, q1: nat, m: nat, q0: nat)
    requires 0 < d < B32 && n == B32 * n1 + n0 && n1 == q1 * d + r1
    requires m == B32 * r1 + n0 && q0 == m / d
    ensures q0 + B32 * q1 == n / d < B64
  {
    DivBounds(m, d);
    TwoParts(n, d, n1, n0, r1, q1, m, q0);
    QuotientAtMost(n, d);
  }

  lemma TwoParts(n: nat, d: nat, n1: nat, n0: nat, r1: nat, q1: nat, m: nat, q0: nat)
    requires d > 0 && n == B32 * n1 + n0 && n1 == q1 * d + r1 && m == B32 * r1 + n0
    requires q0 * d <= m < (q0 + 1) * d
    ensures q0 + B32 * q1 == n / d
  {
    Recombine(n, d, q1, r1, n0, q0);
    QuotientUnique(n, d, q0 + B32 * q1);
  }

  lemma Recombine(n: nat, d: nat, q1: nat, r1: nat, n0: nat, q0: nat)
    requires n == B32 * (q1 * d + r1) + n0
    requires q0 * d <= B32 * r1 + n0 < (q0 + 1) * d
    ensures (q0 + B32 * q1) * d <= n < (q0 + B32 * q1) * d + d
  {
    Distribute(q0, B32, q1, d);
    Step(q0, d);
  }

  lemma QuotientAtMost(n: nat, d: nat)
    requires d > 0
    ensures n / d <= n
  {
    DivBounds(n, d);
    AtMost(n, d, n / d);
  }

  lemma AtMost(n: nat, d: nat, q: int)
    requires d > 0 && q * d <= n < (q + 1) * d
    ensures 0 <= q <= n
  {
    if q < 0 {
      MulMono(q + 1, 0, d);
    } else {
      MulMono(1, d, q);
    }
  }

  lemma Distribute(a: nat, b: nat, c: nat, d: nat)
    ensures (a + b * c) * d == a * d + b * (c * d)
  {
    assert b * c * d == b * (c * d);
  }

  /** The final comparison picks the right one of the two candidates, without wrapping. */
  lemma Correction(n: Word64, d: Word64, e: nat)
    requires 2 <= d <= n && n / d <= e <= n / d + 1
    ensures e >= 1 && 0 <= n - (e - 1) * d < B64
    ensures (n - (e - 1) * d) % B64 < d <==> e - 1 == n / d
    ensures e < B64
  {
    var p := n / d;
    assert p * d <= n < p * d + d;
    assert p >= 1;
    MulMono(2, d, p);
    if e == p {
      assert (e - 1) * d == p * d - d;
    }
    MulMono(e - 1, p, d);
    MulMono(0, e - 1, d);
  }

  /** Unsigned remainder; the C function returns only its low 32 bits. */
  method UMod64(n: Word64, d: Word64) returns (r: Word32)
    requires d != 0
    ensures r == n % d % B32
    ensures r == n % d <==> n % d < B32
  {
    var q := UDiv64(n, d);
    Remainder(n, d);
    var rest := n - d * q;
    assert rest == n % d;
    r := rest % B64 % B32;
  }

  lemma Remainder(n: nat, d: nat)
    requires d > 0
    ensures n - d * (n / d) == n % d && 0 <= n % d <= n && n % d < d
  {
    assert n == d * (n / d) + n % d;
    DivBounds(n, d);
    assert (n / d) * d == d * (n / d) >= 0;
  }

  /** The remainder is cut short for some 64-bit operands: here 2^32 mod 2^33. */
  lemma UModCanBeWrong()
    ensures var n, d := 0x1_0000_0000, 0x2_0000_0000; n % d % B32 != n % d
  {
  }

  /** The 32 bits that umod64 returns are the whole remainder. */
  ghost predicate UModExact(n: Word64, d: Word64)
    requires d != 0
  {
    n % d % B32 == n % d
  }

  /** The remainder is exact for every dividend if and only if the divisor is at most 2^32. */
  lemma UModExactFor(d: Word64)
    requires d != 0
    ensures (forall n: Word64 :: UModExact(n, d)) <==> d <= B32
  {
    if d <= B32 {
      forall n: Word64 ensures UModExact(n, d) {
        Remainder(n, d);
        SmallRemainder(n % d, B32);
      }
    } else {
      SmallRemainder(B32, d);
      assert !UModExact(B32, d);
    }
  }

  lemma SmallRemainder(n: nat, d: nat)
    requires n < d
    ensures n % d == n
  {
  }

  // ---------------------------------------------------------------- signed division

  function Abs(x: int): nat {
    if x < 0 then -x else x
  }

  /** The quotient that section 6.5.5 of ISO C99 prescribes: the algebraic quotient with its fraction
      discarded. */
  function TruncDiv(n: int, d: int): int
    requires d != 0
  {
    if (n < 0) == (d < 0) then Abs(n) / Abs(d) else -(Abs(n) / Abs(d))
  }

  /** It is the one integer that lies between zero and the exact quotient and leaves a remainder
      smaller than the divisor with the sign of the dividend. */
  lemma TruncDivSpec(n: int, d: int)
    requires d != 0
    ensures var r := n - TruncDiv(n, d) * d; Abs(r) < Abs(d) && (r == 0 || (r < 0) == (n < 0))
  {
    var m: int, e: int := Abs(n), Abs(d);
    var q: int, r := m / e, m % e;
    assert m == q * e + r;
    assert (-q) * e == -(q * e) && q * (-e) == -(q * e) && (-q) * (-e) == q * e;
  }

  /** The absolute value as an unsigned word: two's complement negation never overflows there. */
  function UnsignedAbs(n: Int64): (r: Word64)
    ensures r == Abs(n)
  {
    if n >= 0 then n else (B64 - n % B64) % B64
  }

  /** Signed division: truncates toward zero except that INT64_MIN / -1 wraps to INT64_MIN. */
  method SDiv64(n: Int64, d: Int64) returns (q: Int64)
    requires d != 0
    ensures q == ToInt64(TruncDiv(n, d))
    ensures q == TruncDiv(n, d) <==> !(n == INT64_MIN && d == -1)
  {
    var nAbs, dAbs := UnsignedAbs(n), UnsignedAbs(d);
    var qAbs := UDiv64(nAbs, dAbs);
    QuotientRange(nAbs, dAbs, qAbs);
    SignedQuotient(n, d, qAbs);
    q := if (n < 0) == (d < 0) then ToInt64(qAbs) else ToInt64(-(ToInt64(qAbs) as int));
  }

  lemma SignedQuotient(n: Int64, d: Int64, q: int)
    requires d != 0 && q == Abs(n) / Abs(d) && 0 <= q <= 0x8000_0000_0000_0000
    requires q == 0x8000_0000_0000_0000 <==> Abs(n) == 0x8000_0000_0000_0000 && Abs(d) == 1
    ensures ToInt64(-(ToInt64(q) as int)) == ToInt64(-q)
    ensures ToInt64(TruncDiv(n, d)) == TruncDiv(n, d) <==> !(n == INT64_MIN && d == -1)
  {
    WrapExact(q);
    WrapExact(-q);
    assert q == 0x8000_0000_0000_0000 ==> ToInt64(q) == INT64_MIN;
  }

  /** The conversion is exact precisely on values in range. */
  lemma WrapExact(x: int)
    ensures ToInt64(x) == x <==> -0x8000_0000_0000_0000 <= x < 0x8000_0000_0000_0000
  {
  }

  /** A quotient as large as 2^63 needs the largest dividend and divisor one. */
  lemma QuotientRange(n: nat, d: nat, q: nat)
    requires d > 0 && n <= 0x8000_0000_0000_0000 && q == n / d
    ensures q <= 0x8000_0000_0000_0000
    ensures q == 0x8000_0000_0000_0000 <==> n == 0x8000_0000_0000_0000 && d == 1
  {
    DivBounds(n, d);
    MulMono(1, d, q);
    if d > 1 {
      MulMono(2, d, q);
    }
  }

  /** Signed remainder; the C function returns only its low 32 bits, sign-extended. */
  method SMod64(n: Int64, d: Int64) returns (r: Int32)
    requires d != 0
    ensures r == ToInt32(n - TruncDiv(n, d) * d)
    ensures var c := n - TruncDiv(n, d) * d; r == c <==> -0x8000_0000 <= c < 0x8000_0000
  {
    var q := SDiv64(n, d);
    r := ToInt32(ToInt64(n - ToInt64(d * q)));
    SameLowBits(n, d, q, TruncDiv(n, d));
  }

  /** The 32 bits that smod64 returns are the whole remainder. */
  ghost predicate SModExact(n: Int64, d: Int64)
    requires d != 0
  {
    ToInt32(n - TruncDiv(n, d) * d) == n - TruncDiv(n, d) * d
  }

  /** The remainder is exact for every dividend if and only if the divisor's magnitude is at most 2^31. */
  lemma SModExactFor(d: Int64)
    requires d != 0
    ensures (forall n: Int64 :: SModExact(n, d)) <==> Abs(d) <= 0x8000_0000
  {
    if Abs(d) <= 0x8000_0000 {
      forall n: Int64 ensures SModExact(n, d) {
        TruncDivSpec(n, d);
        FitsInt32(n - TruncDiv(n, d) * d);
      }
    } else {
      SmallDividend(0x8000_0000, Abs(d));
      assert TruncDiv(0x8000_0000, d) == 0;
      assert !SModExact(0x8000_0000, d);
    }
  }

  lemma FitsInt32(x: int)
    requires -0x8000_0000 < x < 0x8000_0000
    ensures ToInt32(x) == x
  {
  }

  lemma SmallDividend(n: nat, d: nat)
    requires n < d
    ensures n / d == 0
  {
    QuotientUnique(n, d, 0);
  }

  lemma WrapBy64(x: int) returns (k: int)
    ensures ToInt64(x) == x + k * B64
  {
    k := if x % B64 < 0x8000_0000_0000_0000 then -(x / B64) else -(x / B64) - 1;
  }

  lemma ToInt32Periodic(x: int, k: int)
    ensures ToInt32(x + k * B32) == ToInt32(x)
  {
    ModPeriodic(x, k, B32);
  }

  lemma ModPeriodic(x: int, k: int, b: nat)
    requires b > 0
    ensures (x + k * b) % b == x % b
  {
    QuotientUnique(x + k * b, b, x / b + k) by {
      assert (x / b + k) * b == (x / b) * b + k * b;
    }
    assert (x / b + k) * b == (x / b) * b + k * b;
  }

  /** Wrapping along the way does not change the low 32 bits of the remainder. */
  lemma SameLowBits(n: int, d: int, q: int, t: int)
    requires q == ToInt64(t)
    ensures ToInt32(ToInt64(n - ToInt64(d * q))) == ToInt32(n - t * d)
  {
    var k1 := WrapBy64(t);
    var k2 := WrapBy64(d * q);
    var k3 := WrapBy64(n - ToInt64(d * q));
    var k := k3 - k2 - d * k1;
    assert d * q == d * t + d * k1 * B64 by {
      Spread(d, t, k1);
    }
    assert ToInt64(n - ToInt64(d * q)) == n - t * d + k * B64;
    ToInt32Periodic(n - t * d, k * B32);
  }

  lemma Spread(d: int, t: int, k: int)
    ensures d * (t + k * B64) == d * t + d * k * B64
  {
  }
}
