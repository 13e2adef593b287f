/** 64-bit division built from the 64-by-32-bit `divl` instruction
    (Lab1/pintos/src/lib/arithmetic.c). Machine words are integers with explicit
    bounds; every shift, subtraction and product wraps explicitly at its C width. */
module Arithmetic {
  const B32: int := 0x1_0000_0000
  const B64: int := 0x1_0000_0000_0000_0000

  type u32 = x: int | 0 <= x < 0x1_0000_0000
  type u64 = x: int | 0 <= x < 0x1_0000_0000_0000_0000
  type i32 = x: int | -0x8000_0000 <= x < 0x8000_0000
  type i64 = x: int | -0x8000_0000_0000_0000 <= x < 0x8000_0000_0000_0000

  function Pow2(k: nat): (r: nat)
    ensures r >= 1
  {
    if k == 0 then 1 else 2 * Pow2(k - 1)
  }

  function Wrap32(x: int): u32 { x % B32 }
  function Wrap64(x: int): u64 { x % B64 }

  /** Conversion to a signed 64-bit word, two's complement. */
  function ToI64(x: int): i64 {
    var w := x % B64;
    if w < B64 / 2 then w else w - B64
  }

  /** Conversion to a signed 32-bit word, two's complement. */
  function ToI32(x: int): i32 {
    var w := x % B32;
    if w < B32 / 2 then w else w - B32
  }

  function Abs(x: int): nat { if x >= 0 then x else -x }

  /** C division: truncates toward zero. */
  function TruncDiv(n: int, d: int): int
    requires d != 0
  {
    if (n < 0) == (d < 0) then Quot(Abs(n), Abs(d)) else 0 - Quot(Abs(n), Abs(d))
  }

  /** C remainder: takes the sign of the dividend. */
  function TruncRem(n: int, d: int): int
    requires d != 0
  {
    n - d * TruncDiv(n, d)
  }

  // ----- Euclidean facts -----------------------------------------------------

  lemma MulMonotone(a: int, b: int, d: int)
    requires a <= b && d >= 0
    ensures a * d <= b * d && d * a <= d * b
  {
    assert (b - a) * d >= 0;
  }

  lemma DivBounds(n: int, d: int)
    requires d > 0
    ensures (n / d) * d <= n < (n / d) * d + d
    ensures (n / d + 1) * d == (n / d) * d + d
  {
    assert n == (n / d) * d + n % d;
  }

  lemma DivAtMost(n: int, d: int, q: int)
    requires d > 0 && n < (q + 1) * d
    ensures n / d <= q
  {
    DivBounds(n, d);
    if n / d > q { MulMonotone(q + 1, n / d, d); }
  }

  lemma DivAtLeast(n: int, d: int, q: int)
    requires d > 0 && q * d <= n
    ensures q <= n / d
  {
    DivBounds(n, d);
    if n / d < q { MulMonotone(n / d + 1, q, d); }
  }

  lemma DivUnique(n: int, d: int, q: int)
    requires d > 0 && q * d <= n < (q + 1) * d
    ensures n / d == q
  {
    DivAtMost(n, d, q);
    DivAtLeast(n, d, q);
  }

  lemma MulAssoc(a: int, b: int, c: int)
    ensures (a * b) * c == a * (b * c)
  {
  }

  lemma Distribute(a: int, b: int, d: int)
    ensures (a + b) * d == a * d + b * d
    ensures (a - b) * d == a * d - b * d
  {
  }

  /** Dividing twice is dividing by the product. */
  lemma DivDiv(n: nat, a: nat, b: nat)
    requires a > 0 && b > 0
    ensures a * b > 0
    ensures (n / a) / b == n / (a * b)
  {
    var x := n / a;
    var q := x / b;
    DivBounds(n, a);
    DivBounds(x, b);
    MulAssoc(q, b, a);
    MulAssoc(q + 1, b, a);
    MulMonotone(q * b, x, a);
    MulMonotone(x + 1, (q + 1) * b, a);
    assert b * a == a * b > 0;
    DivUnique(n, a * b, q);
  }

  lemma {:induction false} Pow2Add(a: nat, b: nat)
    ensures Pow2(a + b) == Pow2(a) * Pow2(b)
  {
    if a == 0 {
    } else {
      Pow2Add(a - 1, b);
      MulAssoc(2, Pow2(a - 1), Pow2(b));
    }
  }

  lemma {:induction false} Pow2Monotone(a: nat, b: nat)
    requires a <= b
    ensures Pow2(a) <= Pow2(b)
  {
    if a == b {
    } else {
      Pow2Monotone(a, b - 1);
    }
  }

  lemma Pow2Values()
    ensures Pow2(0) == 1 && Pow2(1) == 2 && Pow2(2) == 4 && Pow2(4) == 16 && Pow2(8) == 256
    ensures Pow2(16) == 0x1_0000 && Pow2(31) == 0x8000_0000 && Pow2(32) == B32 && Pow2(33) == 2 * B32
    ensures Pow2(63) == B64 / 2 && Pow2(64) == B64
  {
    assert Pow2(32) == B32 && Pow2(31) == B32 / 2 by {
      assert Pow2(16) == 0x1_0000 by { assert Pow2(8) == 256; Pow2Add(8, 8); }
      Pow2Add(16, 16);
    }
    assert Pow2(64) == B64 by { Pow2Add(32, 32); }
  }

  // ----- The routines ----------------------------------------------------------

  /** The quotient by repeated subtraction: what every routine below computes. */
  function Quot(n: nat, d: nat): nat
    requires d > 0
    decreases n
  {
    if n < d then 0 else 1 + Quot(n - d, d)
  }

  /** The remainder by repeated subtraction. */
  function Rem(n: nat, d: nat): nat
    requires d > 0
    decreases n
  {
    if n < d then n else Rem(n - d, d)
  }

  /** `e >> k`, by repeated halving. */
  function Shr(e: nat, k: nat): nat {
    if k == 0 then e else Shr(e, k - 1) / 2
  }

  lemma {:induction false} QuotIsFloor(n: nat, d: nat)
    requires d > 0
    ensures Quot(n, d) == n / d
    decreases n
  {
    if n < d {
      DivUnique(n, d, 0);
    } else {
      QuotIsFloor(n - d, d);
      DivBounds(n - d, d);
      Distribute((n - d) / d, 1, d);
      Distribute((n - d) / d, 2, d);
      DivUnique(n, d, (n - d) / d + 1);
    }
  }

  lemma {:induction false} RemIsMod(n: nat, d: nat)
    requires d > 0
    ensures Rem(n, d) == n % d < d
    decreases n
  {
    if n < d {
      SmallRemainder(n, d);
    } else {
      RemIsMod(n - d, d);
      QuotIsFloor(n - d, d);
      QuotIsFloor(n, d);
      assert n % d == n - n / d * d && (n - d) % d == n - d - (n - d) / d * d;
      Distribute((n - d) / d, 1, d);
    }
  }

  lemma {:induction false} ShrIsQuotient(e: nat, k: nat)
    ensures Shr(e, k) == e / Pow2(k)
  {
    if k == 0 {
    } else {
      ShrIsQuotient(e, k - 1);
      DivDiv(e, Pow2(k - 1), 2);
    }
  }

  /** The x86 instruction: traps unless the quotient fits in 32 bits, so the
      absence of a trap is what every call site has to establish. */
  method Divl(n: u64, d: u32) returns (q: u32)
    requires d != 0 && n < d * B32
    ensures q == Quot(n, d)
  {
    QuotIsFloor(n, d);
    DivAtMost(n, d, B32 - 1);
    DivAtLeast(n, d, 0);
    q := n / d;
  }

  /** `x << n` before truncation, by repeated doubling. */
  function Shl(x: nat, n: nat): nat {
    if n == 0 then x else 2 * Shl(x, n - 1)
  }

  lemma {:induction false} ShlIsProduct(x: nat, n: nat)
    ensures Shl(x, n) == x * Pow2(n)
  {
    if n == 0 {
    } else {
      ShlIsProduct(x, n - 1);
      MulAssoc(2, Pow2(n - 1), x);
    }
  }

  lemma {:induction false} ShlAdd(x: nat, n: nat, k: nat)
    ensures Shl(Shl(x, n), k) == Shl(x, n + k)
  {
    if k == 0 {
    } else {
      ShlAdd(x, n, k - 1);
    }
  }

  lemma ShlValues(y: nat)
    ensures Shl(y, 1) == 2 * y && Shl(y, 2) == 4 * y && Shl(y, 4) == 0x10 * y
    ensures Shl(y, 8) == 0x100 * y && Shl(y, 16) == 0x1_0000 * y
  {
    Pow2Values();
    ShlIsProduct(y, 1); ShlIsProduct(y, 2); ShlIsProduct(y, 4); ShlIsProduct(y, 8); ShlIsProduct(y, 16);
  }

  /** The constant a test of `nlz` compares with: the largest word whose top `k` bits are clear. */
  function ClearTop(k: nat): (top: u32)
    requires k in {1, 2, 4, 8, 16}
  {
    if k == 16 then 0xFFFF else if k == 8 then 0xFFFFFF else if k == 4 then 0xFFFFFFF
    else if k == 2 then 0x3FFFFFFF else 0x7FFFFFFF
  }

  lemma ClearTopTest(y: nat, k: nat)
    requires k in {1, 2, 4, 8, 16}
    ensures y <= ClearTop(k) <==> Shl(y, k) < B32
  {
    ShlValues(y);
  }

  /** One test of `nlz`: if the top `k` bits of the shifted word are clear, shift them out. */
  method NlzStep(ghost x: u32, n: nat, y: u32, k: nat) returns (n': nat, y': u32)
    requires y == Shl(x, n) && k in {1, 2, 4, 8, 16}
    requires B32 <= Shl(y, 2 * k)
    ensures y' == Shl(x, n') && n' in {n, n + k}
    ensures B32 <= Shl(y', k)
  {
    ClearTopTest(y, k);
    n', y' := n, y;
    if y <= ClearTop(k) {
      ShlAdd(x, n, k);
      ShlAdd(y, k, k);
      n', y' := n + k, Wrap32(Shl(y, k));
    }
  }

  /** Number of leading zero bits: the shift that brings the top bit of `x` to bit 31. */
  method Nlz(x: u32) returns (n: nat)
    requires x != 0
    ensures n <= 31
    ensures B32 / 2 <= Shl(x, n) < B32
  {
    ShlIsProduct(x, 32);
    Pow2Values();
    var y: u32;
    n, y := NlzStep(x, 0, x, 16);
    n, y := NlzStep(x, n, y, 8);
    n, y := NlzStep(x, n, y, 4);
    n, y := NlzStep(x, n, y, 2);
    n, y := NlzStep(x, n, y, 1);
    ShlValues(y);
  }

  /** The small-divisor branch: the two-step division is exact and its `divl` cannot trap. */
  lemma ShortDivision(n: nat, d: nat)
    requires 0 < d < B32
    ensures B32 * ((n / B32) % d) + n % B32 < d * B32
    ensures (B32 * ((n / B32) % d) + n % B32) / d + B32 * ((n / B32) / d) == n / d
  {
    var n1, n0 := n / B32, n % B32;
    var k, r := n1 / d, n1 % d;
    var m := B32 * r + n0;
    DivBounds(m, d);
    var q := m / d;
    assert B32 * n1 == (B32 * k) * d + B32 * r by { MulAssoc(B32, k, d); assert n1 == k * d + r; }
    Distribute(q, B32 * k, d);
    Distribute(q + 1, B32 * k, d);
    DivUnique(n, d, q + B32 * k);
  }

  lemma MulCancel(a: int, b: int, p: int)
    requires p > 0 && a * p <= b * p
    ensures a <= b
  {
    if a > b { MulMonotone(b + 1, a, p); Distribute(b, 1, p); }
  }

  /** A multiple of `p` strictly below `c * p` leaves room for one more. */
  lemma UnderMultiple(a: int, p: int, c: int)
    requires p > 0 && a * p < c * p
    ensures (a + 1) * p <= c * p
  {
    if a >= c { MulMonotone(c, a, p); } else { MulMonotone(a + 1, c, p); }
  }

  lemma ShiftedDivisor(d: nat, p: nat, c: nat)
    requires p > 0 && c > 0 && p * c == B32
    requires B32 / 2 <= (d / B32) * p < B32
    ensures (B32 / 2) * B32 <= d * p < B64
    ensures (d * p) / B32 == d / c
  {
    var d1 := d / B32;
    DivBounds(d, B32);
    assert c * p == p * c;
    UnderMultiple(d1, p, c);
    assert (d1 * B32) * p == (d1 * p) * B32 by { MulAssoc(d1, B32, p); MulAssoc(d1, p, B32); }
    assert ((d1 + 1) * B32) * p == ((d1 + 1) * p) * B32 by { MulAssoc(d1 + 1, B32, p); MulAssoc(d1 + 1, p, B32); }
    MulMonotone(d1 * B32, d, p);
    MulMonotone(d + 1, (d1 + 1) * B32, p);
    Distribute(d, 1, p);
    DivDiv(d * p, p, c);
    Distribute(d, 1, p);
    DivUnique(d * p, p, d);
  }

  /** The normalized divisor `v = (d << s) >> 32` is `d` shifted right, and fills 32 bits. */
  lemma Normalized(d: nat, s: nat)
    requires B32 <= d < B64 && s <= 31
    requires B32 / 2 <= (d / B32) * Pow2(s) < B32
    ensures d * Pow2(s) < B64
    ensures Pow2(63 - s) <= d
    ensures (d * Pow2(s)) / B32 == d / Pow2(32 - s)
    ensures B32 / 2 <= d / Pow2(32 - s) < B32
  {
    Pow2Values();
    Pow2Add(s, 32 - s);
    ShiftedDivisor(d, Pow2(s), Pow2(32 - s));
    var x := d * Pow2(s);
    DivAtLeast(x, B32, B32 / 2);
    DivAtMost(x, B32, B32 - 1);
    Pow2Add(63 - s, s);
    MulCancel(Pow2(63 - s), d, Pow2(s));
  }

  lemma QuotientSmall(n: nat, d: nat, s: nat)
    requires n < B64 && s <= 31 && 0 < Pow2(63 - s) <= d
    ensures n / d + 1 <= Pow2(s + 1)
  {
    Pow2Values();
    Pow2Add(s + 1, 63 - s);
    var p := Pow2(s + 1);
    MulMonotone(Pow2(63 - s), d, p);
    DivAtMost(n, d, p - 1);
  }

  /** The heart of the error bound: with quotient `Q`, divisor `d`, truncated divisor `D`
      and truncation error below `c`, the truncated quotient is at most `Q + 1`. */
  lemma TruncationError(n: nat, d: nat, D: nat, c: nat, p: nat)
    requires 0 < D <= d <= D + c - 1
    requires n / d + 1 <= p && p * (c - 1) <= D
    ensures n / d <= n / D <= n / d + 1
  {
    var Q := n / d;
    DivBounds(n, d);
    MulMonotone(D, d, Q);
    DivAtLeast(n, D, Q);
    var e := d - D;
    MulMonotone(e, c - 1, Q + 1);
    MulMonotone(Q + 1, p, c - 1);
    TimesSum(Q + 1, D, e, d);
    Distribute(Q + 1, 1, D);
    DivAtMost(n, D, Q + 1);
  }

  lemma TimesSum(q: int, x: int, e: int, d: int)
    requires d == x + e
    ensures q * d == q * x + q * e
  {
  }

  /** The truncation error, scaled by the largest quotient, stays below the truncated divisor. */
  lemma ErrorFits(v: nat, s: nat)
    requires s <= 31 && B32 / 2 <= v
    ensures Pow2(s + 1) * (Pow2(32 - s) - 1) <= v * Pow2(32 - s)
  {
    var c, p := Pow2(32 - s), Pow2(s + 1);
    Pow2Add(s + 1, 32 - s);
    MinusOne(p, c);
    MulMonotone(B32 / 2, v, c);
    TruncatedSize(s);
    ScaledFits(p, c, p * c, v * c);
  }

  lemma TruncatedSize(s: nat)
    requires s <= 31
    ensures Pow2(33) == 2 * B32 && if s == 31 then Pow2(32 - s) == 2 && Pow2(s + 1) == B32 else Pow2(32 - s) >= 4
  {
    Pow2Values();
    if s < 31 { Pow2Monotone(2, 32 - s); }
  }

  lemma ScaledFits(p: int, c: int, pc: int, vc: int)
    requires pc == 2 * B32 && B32 / 2 * c <= vc && p >= 0 && if c < 4 then c == 2 && p == B32 else true
    ensures pc - p <= vc
  {
  }

  lemma MinusOne(p: int, c: int)
    ensures p * (c - 1) == p * c - p
  {
  }

  lemma ThreeDivisions(n: nat, v: nat, e: nat, D: nat)
    requires v > 0 && e > 0 && D == v * (2 * e)
    ensures D > 0 && ((n / 2) / v) / e == n / D
  {
    DivDiv(n, 2, v);
    DivDiv(n, 2 * v, e);
    MulAssoc(2, v, e);
    MulAssoc(v, 2, e);
  }

  /** Error bound of the large-divisor branch: the estimate is the true quotient or one more. */
  lemma EstimateBound(n: nat, d: nat, s: nat)
    requires B32 <= d < B64 && n < B64 && s <= 31
    requires Pow2(63 - s) <= d && B32 / 2 <= d / Pow2(32 - s) < B32
    ensures var q := ((n / 2) / (d / Pow2(32 - s))) / Pow2(31 - s);
            n / d <= q <= n / d + 1
  {
    var e, p := Pow2(31 - s), Pow2(s + 1);
    var c := Pow2(32 - s);
    var v := d / c;
    var D := v * c;
    ThreeDivisions(n, v, e, D);
    assert 0 < D <= d <= D + c - 1 by { DivBounds(d, c); }
    QuotientSmall(n, d, s);
    ErrorFits(v, s);
    TruncationError(n, d, D, c, p);
  }

  /** The final correction turns either estimate into the quotient, without wrap-around. */
  lemma Correction(n: nat, d: nat, q: int)
    requires 0 < d <= n && n / d <= q <= n / d + 1
    ensures 1 <= q && 0 <= (q - 1) * d <= n
    ensures (if n - (q - 1) * d < d then q - 1 else q) == n / d
  {
    var Q := n / d;
    DivBounds(n, d);
    DivAtLeast(n, d, 1);
    MulMonotone(q - 1, Q, d);
    Distribute(Q, 1, d);
  }

  lemma QuotientFits(n: nat, d: nat)
    requires d > 0
    ensures 0 <= n / d <= n
  {
    MulMonotone(1, d, n + 1);
    DivAtMost(n, d, n);
  }

  lemma ShortFacts(n: u64, d: u32)
    requires d != 0
    ensures var n1, n0 := n / B32, n % B32;
            var m := B32 * Rem(n1, d) + n0;
            && Rem(n1, d) < d
            && m < d * B32
            && Quot(m, d) + B32 * Quot(n1, d) == Quot(n, d) < B64
  {
    var n1, n0 := n / B32, n % B32;
    RemIsMod(n1, d);
    ShortDivision(n, d);
    QuotIsFloor(n, d);
    QuotIsFloor(n1, d);
    QuotIsFloor(B32 * (n1 % d) + n0, d);
    QuotientFits(n, d);
  }

  method UdivShort(n: u64, d: u32) returns (q: u64)
    requires d != 0
    ensures q == Quot(n, d)
  {
    var n1: u32, n0: u32 := n / B32, Wrap32(n);
    ShortFacts(n, d);
    var lo := Divl(B32 * Rem(n1, d) + n0, d);
    var hi := Quot(n1, d);
    q := Wrap64(lo + Wrap64(B32 * hi));
  }

  lemma EstimateFacts(n: u64, d: u64, s: nat)
    requires B32 <= d && s <= 31 && B32 / 2 <= Shl(d / B32, s) < B32
    ensures Shl(d, s) < B64 && B32 / 2 <= Shl(d, s) / B32 < B32
    ensures Quot(n, d) <= Shr(Quot(n / 2, Shl(d, s) / B32), 31 - s) <= Quot(n, d) + 1
  {
    ShlIsProduct(d / B32, s);
    ShlIsProduct(d, s);
    Normalized(d, s);
    EstimateBound(n, d, s);
    QuotIsFloor(n, d);
    QuotIsFloor(n / 2, Shl(d, s) / B32);
    ShrIsQuotient(Quot(n / 2, Shl(d, s) / B32), 31 - s);
  }

  /** The estimate from the top 32 bits of the normalized divisor: right, or one too large. */
  method Estimate(n: u64, d: u64) returns (est: nat)
    requires B32 <= d
    ensures Quot(n, d) <= est <= Quot(n, d) + 1
  {
    var s := Nlz(d / B32);
    EstimateFacts(n, d, s);
    var v: u32 := Wrap64(Shl(d, s)) / B32;
    var e := Divl(n / 2, v);
    est := Shr(e, 31 - s);
  }

  lemma CorrectionFacts(n: nat, d: nat, est: nat, back: int)
    requires 0 < d <= n && Quot(n, d) <= est <= Quot(n, d) + 1 && back == (est - 1) * d
    ensures 1 <= est && 0 <= back <= n && Quot(n, d) == if n - back < d then est - 1 else est
  {
    QuotIsFloor(n, d);
    Correction(n, d, est);
  }

  method UdivLong(n: u64, d: u64) returns (q: u64)
    requires B32 <= d <= n
    ensures q == Quot(n, d)
  {
    var est := Estimate(n, d);
    var back := (est - 1) * d;
    CorrectionFacts(n, d, est, back);
    var rem := Wrap64(n - Wrap64(back));
    q := if rem < d then est - 1 else est;
  }

  /** Exact 64-bit unsigned division for every dividend and every nonzero divisor;
      each `divl` call meets the no-trap precondition. */
  method Udiv64(n: u64, d: u64) returns (q: u64)
    requires d != 0
    ensures q == Quot(n, d)
  {
    if d / B32 == 0 {
      q := UdivShort(n, d);
    } else if n < d {
      q := 0;
    } else {
      q := UdivLong(n, d);
    }
  }

  /** The entry point the compiler calls: floor division. */
  method Udivdi3(n: u64, d: u64) returns (q: u64)
    requires d != 0
    ensures q == n / d
  {
    QuotIsFloor(n, d);
    q := Udiv64(n, d);
  }

  lemma RemainderFacts(n: u64, d: u64)
    requires d != 0
    ensures 0 <= d * Quot(n, d) <= n && n - d * Quot(n, d) == Rem(n, d)
  {
    RemIsMod(n, d);
    QuotIsFloor(n, d);
    DivBounds(n, d);
  }

  /** What `umod64` returns: the true remainder cut down to 32 bits. */
  method Umod64(n: u64, d: u64) returns (r: u32)
    requires d != 0
    ensures r == Wrap32(Rem(n, d))
  {
    var q := Udiv64(n, d);
    RemainderFacts(n, d);
    r := Wrap32(Wrap64(n - Wrap64(d * q)));
  }

  /** The 32-bit result type makes `umod64` exact for every dividend
      precisely when the divisor is at most 2^32. */
  lemma UmodExactIff(d: u64)
    requires d != 0
    ensures (forall n: u64 :: Wrap32(Rem(n, d)) == n % d) <==> d <= B32
  {
    if d > B32 {
      var n: u64 := B32;
      RemIsMod(n, d);
      assert Rem(n, d) == B32 && Wrap32(Rem(n, d)) != n % d;
    } else {
      forall n: u64 ensures Wrap32(Rem(n, d)) == n % d { RemIsMod(n, d); }
    }
  }

  lemma SmallRemainder(n: nat, d: nat)
    requires n < d
    ensures n % d == n
  {
    DivUnique(n, d, 0);
  }

  /** `n >= 0 ? (uint64_t) n : -(uint64_t) n` is the magnitude, -2^63 included. */
  function Magnitude(n: i64): (a: u64)
    ensures a == Abs(n)
  {
    if n >= 0 then n else Wrap64(0 - Wrap64(n))
  }

  /** Re-applying the sign to the quotient of the magnitudes. */
  function SignBack(same: bool, qa: u64): (q: i64)
    requires qa <= B64 / 2
    ensures qa < B64 / 2 || !same ==> q == if same then qa else 0 - qa
    ensures qa == B64 / 2 ==> q == 0 - B64 / 2
  {
    if same then ToI64(qa) else ToI64(0 - ToI64(qa))
  }

  /** Signed division truncates toward zero, except that -2^63 / -1 wraps to -2^63. */
  method Sdiv64(n: i64, d: i64) returns (q: i64)
    requires d != 0
    ensures q == if n == 0 - B64 / 2 && d == -1 then n else TruncDiv(n, d)
  {
    var qa := Udiv64(Magnitude(n), Magnitude(d));
    SignedQuotientRange(n, d);
    q := SignBack((n < 0) == (d < 0), qa);
  }

  lemma SignedQuotientRange(n: int, d: int)
    requires d != 0
    ensures Quot(Abs(n), Abs(d)) <= Abs(n)
    ensures Abs(d) >= 2 && n != 0 ==> Quot(Abs(n), Abs(d)) < Abs(n)
    ensures Abs(d) == 1 ==> Quot(Abs(n), Abs(d)) == Abs(n)
  {
    QuotIsFloor(Abs(n), Abs(d));
    QuotientFits(Abs(n), Abs(d));
    if Abs(d) >= 2 && n != 0 {
      MulMonotone(2, Abs(d), Abs(n));
      DivAtMost(Abs(n), Abs(d), Abs(n) - 1);
    }
  }

  /** The signed quotient is the truncating one cut down to 64 bits, in the overflowing case too. */
  lemma QuotientWraps(n: i64, d: i64)
    requires d != 0
    ensures (if n == 0 - B64 / 2 && d == -1 then n else TruncDiv(n, d)) == ToI64(TruncDiv(n, d))
  {
    SignedQuotientRange(n, d);
  }

  /** What `smod64` returns: the C remainder cut down to a signed 32-bit word. */
  method Smod64(n: i64, d: i64) returns (r: i32)
    requires d != 0
    ensures r == ToI32(TruncRem(n, d))
  {
    var q := Sdiv64(n, d);
    QuotientWraps(n, d);
    WrapCongruent(n, d, TruncDiv(n, d));
    r := ToI32(ToI64(n - ToI64(d * q)));
  }

  /** Every wrap on the way to the 32-bit result is a multiple of 2^64, hence of 2^32. */
  lemma WrapCongruent(n: int, d: int, t: int)
    ensures ToI32(ToI64(n - ToI64(d * ToI64(t)))) == ToI32(n - d * t)
  {
    var a := ToI64Multiple(t);
    var x := d * ToI64(t);
    var b := ToI64Multiple(x);
    var c := ToI64Multiple(n - ToI64(x));
    assert x == d * t - (d * a) * B64 by { MulAssoc(d, a, B64); }
    ModShift(n - d * t, (d * a + b - c) * B32);
  }

  lemma ToI64Multiple(x: int) returns (k: int)
    ensures ToI64(x) == x - k * B64
  {
    k := x / B64;
    if x % B64 >= B64 / 2 { k := k + 1; }
  }

  lemma ModShift(x: int, k: int)
    ensures (x + k * B32) % B32 == x % B32
  {
    DivBounds(x, B32);
    DivUnique(x + k * B32, B32, x / B32 + k);
  }

  /** `smod64` is exact for every dividend precisely when |d| is at most 2^31. */
  lemma SmodExactIff(d: i64)
    requires d != 0
    ensures (forall n: i64 :: ToI32(TruncRem(n, d)) == TruncRem(n, d)) <==> Abs(d) <= B32 / 2
  {
    if Abs(d) > B32 / 2 {
      var n: i64 := B32 / 2;
      assert TruncDiv(n, d) == 0;
      assert TruncRem(n, d) == n && ToI32(n) != n;
    } else {
      forall n: i64 ensures ToI32(TruncRem(n, d)) == TruncRem(n, d) { RemBounded(n, d); }
    }
  }

  lemma RemBounded(n: int, d: int)
    requires d != 0
    ensures TruncRem(n, d) == if n >= 0 then n % Abs(d) else -((-n) % Abs(d))
    ensures 0 - Abs(d) < TruncRem(n, d) < Abs(d)
  {
    var a, b, q := Abs(n), Abs(d), Abs(n) / Abs(d);
    QuotIsFloor(a, b);
    DivBounds(a, b);
    assert a == q * b + a % b;
    assert d * TruncDiv(n, d) == if n < 0 then 0 - q * b else q * b by {
      SignedProduct(b, q);
    }
  }

  lemma SignedProduct(b: int, q: int)
    ensures b * q == q * b && (-b) * q == -(q * b) && b * (-q) == -(q * b) && (-b) * (-q) == q * b
  {
  }
}
