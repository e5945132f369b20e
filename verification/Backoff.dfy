/** The exponential retry ceiling, computed in 64-bit arithmetic that wraps around. */
module Backoff {
  import opened Tasks

  const MAX_BACKOFF: int := 300_000_000_000

  /** The largest base, in milliseconds, for which no retry count is ever miscalculated. */
  const SAFE_BASE_MS: int := 5_909_874

  const TWO_63: int := 0x8000_0000_0000_0000
  const TWO_64: int := 0x1_0000_0000_0000_0000

  /** Two's-complement truncation to 64 bits. */
  function Wrap64(x: int): int {
    (x + TWO_63) % TWO_64 - TWO_63
  }

  function Pow2(n: nat): nat {
    if n == 0 then 1 else 2 * Pow2(n - 1)
  }

  function ShiftLeft(x: int, count: nat): int {
    Wrap64(x * Pow2(count))
  }

  /** A whole number of milliseconds as a duration. */
  function Millis(ms: int): int {
    Wrap64(ms * MILLISECOND)
  }

  /** The upper end of the jitter range before retry number `count`. */
  function Ceiling(interval: int, count: nat): int {
    Capped(ShiftLeft(interval, count))
  }

  /** The test that is meant to catch overflow as well as the cap. */
  function Capped(backoff: int): int {
    if backoff <= 0 || backoff > MAX_BACKOFF then MAX_BACKOFF else backoff
  }

  /** What the documentation promises: doubling over unbounded integers, up to the cap. */
  function Promised(interval: int, count: nat): int {
    Min(interval * Pow2(count), MAX_BACKOFF)
  }

  // ---- powers of two

  lemma {:induction false} Pow2Sum(a: nat, b: nat)
    ensures Pow2(a + b) == Pow2(a) * Pow2(b)
  {
    if a > 0 {
      Pow2Sum(a - 1, b);
      assert Pow2(a + b) == 2 * (Pow2(a - 1) * Pow2(b));
    }
  }

  lemma {:induction false} Pow2Grows(a: nat, b: nat)
    requires a <= b
    ensures 1 <= Pow2(a) <= Pow2(b)
  {
    if a < b {
      Pow2Grows(a, b - 1);
    } else if a > 0 {
      Pow2Grows(a - 1, a - 1);
    }
  }

  lemma Pow2Table()
    ensures Pow2(6) == 64
    ensures Pow2(26) == 67108864
    ensures Pow2(27) == 134217728
    ensures Pow2(28) == 268435456
    ensures Pow2(29) == 536870912
    ensures Pow2(30) == 1073741824
    ensures Pow2(31) == 2147483648
    ensures Pow2(32) == 4294967296
    ensures Pow2(33) == 8589934592
    ensures Pow2(34) == 17179869184
    ensures Pow2(35) == 34359738368
    ensures Pow2(36) == 68719476736
    ensures Pow2(37) == 137438953472
    ensures Pow2(38) == 274877906944
    ensures Pow2(39) == 549755813888
    ensures Pow2(64) == 18446744073709551616
  {
    assert Pow2(4) == 16;
    Pow2Sum(4, 4);
    Pow2Sum(8, 8);
    Pow2Sum(16, 16);
    Pow2Sum(32, 32);
    assert Pow2(5) == 32 && Pow2(6) == 64 && Pow2(9) == 512;
    Pow2Sum(9, 16);
    assert Pow2(26) == 67_108_864;
  }

  // ---- truncation

  lemma WrapSplit(q: int, y: int)
    requires 0 <= y < TWO_64
    ensures Wrap64(q * TWO_64 + y) == if y < TWO_63 then y else y - TWO_64
  {
  }

  lemma SplitProduct(x: nat, p: nat, s: nat)
    requires p * s == TWO_64 && p >= 1 && s >= 1
    ensures x * p == (x / s) * TWO_64 + (x % s) * p
    ensures 0 <= (x % s) * p < TWO_64
  {
    var q, r := x / s, x % s;
    assert x == q * s + r;
    assert x * p == (q * s) * p + r * p;
    assert (q * s) * p == q * (p * s);
    assert r * p <= (s - 1) * p;
    assert (s - 1) * p == s * p - p;
  }

  lemma BeyondSlack(r: int, p: int)
    requires p >= 1 && r > MAX_BACKOFF / p
    ensures r * p > MAX_BACKOFF
  {
    var lim := MAX_BACKOFF / p;
    DivideOut(MAX_BACKOFF, p);
    assert (lim + 1) * p == p * lim + p;
    TimesGrows(lim + 1, r, p);
  }

  lemma TimesGrows(a: int, b: int, p: int)
    requires a <= b && p >= 0
    ensures a * p <= b * p
  {
  }

  // ---- no base in range comes close above a multiple of 2^64

  /** No multiple of 15625 lies in (step * q, step * q + slack] for any q from 1 to n. */
  predicate AllClear(step: nat, slack: nat, n: nat) {
    n == 0 || ((step * n + slack) / 15625 == step * n / 15625 && AllClear(step, slack, n - 1))
  }

  lemma {:induction false} ClearAt(step: nat, slack: nat, n: nat, q: nat)
    requires AllClear(step, slack, n) && 1 <= q <= n
    ensures (step * q + slack) / 15625 == step * q / 15625
  {
    if q < n {
      ClearAt(step, slack, n - 1, q);
    }
  }

  lemma NoMultipleNear(a: int, slack: int, m: int, r: int)
    requires 15625 * m == a + r && 0 <= a && (a + slack) / 15625 == a / 15625
    ensures !(1 <= r <= slack)
  {
  }

  lemma NearMissAt22(m: int, q: int, r: int)
    requires 1 <= m <= SAFE_BASE_MS && 15625 * m == 68719476736 * q + r && q >= 1 && r >= 0
    ensures !(1 <= r <= 1117)
  {
    assert AllClear(68719476736, 1117, 1);
    ClearAt(68719476736, 1117, 1, q);
    NoMultipleNear(68719476736 * q, 1117, m, r);
  }

  lemma NearMissAt23(m: int, q: int, r: int)
    requires 1 <= m <= SAFE_BASE_MS && 15625 * m == 34359738368 * q + r && q >= 1 && r >= 0
    ensures !(1 <= r <= 558)
  {
    assert AllClear(34359738368, 558, 2);
    ClearAt(34359738368, 558, 2, q);
    NoMultipleNear(34359738368 * q, 558, m, r);
  }

  lemma NearMissAt24(m: int, q: int, r: int)
    requires 1 <= m <= SAFE_BASE_MS && 15625 * m == 17179869184 * q + r && q >= 1 && r >= 0
    ensures !(1 <= r <= 279)
  {
    assert AllClear(17179869184, 279, 5);
    ClearAt(17179869184, 279, 5, q);
    NoMultipleNear(17179869184 * q, 279, m, r);
  }

  lemma NearMissAt25(m: int, q: int, r: int)
    requires 1 <= m <= SAFE_BASE_MS && 15625 * m == 8589934592 * q + r && q >= 1 && r >= 0
    ensures !(1 <= r <= 139)
  {
    assert AllClear(8589934592, 139, 10);
    ClearAt(8589934592, 139, 10, q);
    NoMultipleNear(8589934592 * q, 139, m, r);
  }

  lemma ClearFor26()
    ensures AllClear(4294967296, 69, 21)
  {
    assert AllClear(4294967296, 69, 8);
    assert AllClear(4294967296, 69, 16);
  }

  lemma NearMissAt26(m: int, q: int, r: int)
    requires 1 <= m <= SAFE_BASE_MS && 15625 * m == 4294967296 * q + r && q >= 1 && r >= 0
    ensures !(1 <= r <= 69)
  {
    ClearFor26();
    ClearAt(4294967296, 69, 21, q);
    NoMultipleNear(4294967296 * q, 69, m, r);
  }

  lemma ClearFor27To24()
    ensures AllClear(2147483648, 34, 24)
  {
    assert AllClear(2147483648, 34, 8);
    assert AllClear(2147483648, 34, 16);
  }

  lemma ClearFor27()
    ensures AllClear(2147483648, 34, 42)
  {
    ClearFor27To24();
    assert AllClear(2147483648, 34, 32);
    assert AllClear(2147483648, 34, 40);
  }

  lemma NearMissAt27(m: int, q: int, r: int)
    requires 1 <= m <= SAFE_BASE_MS && 15625 * m == 2147483648 * q + r && q >= 1 && r >= 0
    ensures !(1 <= r <= 34)
  {
    ClearFor27();
    ClearAt(2147483648, 34, 42, q);
    NoMultipleNear(2147483648 * q, 34, m, r);
  }

  lemma NearMissAt28(m: int, q: int, r: int)
    requires 1 <= m <= SAFE_BASE_MS && 15625 * m == 1073741824 * q + r && q >= 1
    ensures !(1 <= r <= 17)
  {
    var z := 683827513 * q - 9951 * m;
    assert m == 683827513 * r + 1073741824 * z;
  }

  lemma NearMissAt29(m: int, q: int, r: int)
    requires 1 <= m <= SAFE_BASE_MS && 15625 * m == 536870912 * q + r && q >= 1
    ensures !(1 <= r <= 8)
  {
    var z := 146956601 * q - 4277 * m;
    assert m == 146956601 * r + 536870912 * z;
  }

  lemma NearMissAt30(m: int, q: int, r: int)
    requires 1 <= m <= SAFE_BASE_MS && 15625 * m == 268435456 * q + r && q >= 1
    ensures !(1 <= r <= 4)
  {
    var z := 146956601 * q - 8554 * m;
    assert m == 146956601 * r + 268435456 * z;
  }

  lemma NearMissAt31(m: int, q: int, r: int)
    requires 1 <= m <= SAFE_BASE_MS && 15625 * m == 134217728 * q + r && q >= 1
    ensures !(1 <= r <= 2)
  {
    var z := 12738873 * q - 1483 * m;
    assert m == 12738873 * r + 134217728 * z;
  }

  lemma NearMissAt32(m: int, q: int, r: int)
    requires 1 <= m <= SAFE_BASE_MS && 15625 * m == 67108864 * q + r && q >= 1
    ensures !(1 <= r <= 1)
  {
    var z := 12738873 * q - 2966 * m;
    assert m == 12738873 * r + 67108864 * z;
  }

  lemma NoNearMiss(count: nat, m: int, q: int, r: int, p: nat, s: nat)
    requires 22 <= count <= 32 && 1 <= m <= SAFE_BASE_MS && q >= 1
    requires p == Pow2(count + 6) && s == Pow2(58 - count)
    requires 15625 * m == s * q + r && 0 <= r
    ensures p >= 1 && !(1 <= r <= MAX_BACKOFF / p)
  {
    Pow2Table();
    if count <= 27 {
      NoNearMissTo27(count, m, q, r, p, s);
    } else {
      NoNearMissFrom28(count, m, q, r, p, s);
    }
  }

  lemma NoNearMissTo27(count: nat, m: int, q: int, r: int, p: nat, s: nat)
    requires 22 <= count <= 27 && 1 <= m <= SAFE_BASE_MS && q >= 1
    requires p == Pow2(count + 6) && s == Pow2(58 - count)
    requires 15625 * m == s * q + r && 0 <= r
    ensures p >= 1 && !(1 <= r <= MAX_BACKOFF / p)
  {
    Pow2Table();
    match count {
      case 22 => NearMissAt22(m, q, r);
      case 23 => NearMissAt23(m, q, r);
      case 24 => NearMissAt24(m, q, r);
      case 25 => NearMissAt25(m, q, r);
      case 26 => NearMissAt26(m, q, r);
      case 27 => NearMissAt27(m, q, r);
      case _ =>
    }
  }

  lemma NoNearMissFrom28(count: nat, m: int, q: int, r: int, p: nat, s: nat)
    requires 28 <= count <= 32 && 1 <= m <= SAFE_BASE_MS && q >= 1
    requires p == Pow2(count + 6) && s == Pow2(58 - count)
    requires 15625 * m == s * q + r && 0 <= r
    ensures p >= 1 && !(1 <= r <= MAX_BACKOFF / p)
  {
    Pow2Table();
    match count {
      case 28 => NearMissAt28(m, q, r);
      case 29 => NearMissAt29(m, q, r);
      case 30 => NearMissAt30(m, q, r);
      case 31 => NearMissAt31(m, q, r);
      case 32 => NearMissAt32(m, q, r);
      case _ =>
    }
  }

  // ---- the ceiling

  /** A product split at bit 64 is judged by its low part, unless that part falls just above zero. */
  lemma CappedByParts(value: int, q: int, y: int)
    requires value > 0 && value == q * TWO_64 + y && 0 <= y < TWO_64 && q >= 0
    requires q >= 1 ==> y == 0 || y > MAX_BACKOFF
    ensures Capped(Wrap64(value)) == Min(value, MAX_BACKOFF)
  {
    WrapSplit(q, y);
    assert q >= 1 ==> q * TWO_64 >= TWO_64;
  }

  /** Up to 32 doublings, the low 64 bits decide, and they never fall short. */
  lemma CeilingUpTo32(m: int, count: nat)
    requires 1 <= m <= SAFE_BASE_MS && count <= 32
    ensures Ceiling(m * MILLISECOND, count) == Promised(m * MILLISECOND, count)
  {
    PartsOfTwo64(count);
    var x, p, s := 15625 * m, Pow2(count + 6), Pow2(58 - count);
    ProductShape(m, Pow2(count));
    DivideOut(x, s);
    NoShortfall(count, m, x / s, x % s, p, s);
    CappedProduct(x, p, s);
  }

  lemma DivideOut(x: int, s: nat)
    requires x >= 0 && s >= 1
    ensures x == s * (x / s) + x % s && x / s >= 0 && 0 <= x % s < s
  {
  }

  lemma CappedProduct(x: nat, p: nat, s: nat)
    requires x >= 1 && p >= 1 && s >= 1 && p * s == TWO_64
    requires x / s >= 1 ==> !(1 <= x % s <= MAX_BACKOFF / p)
    ensures Capped(Wrap64(x * p)) == Min(x * p, MAX_BACKOFF)
  {
    SplitProduct(x, p, s);
    PositiveProduct(x, p);
    DivideOut(x, s);
    if x / s >= 1 && x % s > 0 {
      BeyondSlack(x % s, p);
    }
    CappedByParts(x * p, x / s, (x % s) * p);
  }

  lemma PartsOfTwo64(count: nat)
    requires count <= 58
    ensures Pow2(count + 6) * Pow2(58 - count) == TWO_64
    ensures Pow2(count + 6) == 64 * Pow2(count) && Pow2(count + 6) >= 1 && Pow2(58 - count) >= 1
  {
    Pow2Sum(count + 6, 58 - count);
    Pow2Sum(6, count);
    Pow2Grows(0, count + 6);
    Pow2Grows(0, 58 - count);
    Pow2Table();
  }

  lemma NoShortfall(count: nat, m: int, q: int, r: int, p: nat, s: nat)
    requires count <= 32 && 1 <= m <= SAFE_BASE_MS && q >= 0
    requires p == Pow2(count + 6) && s == Pow2(58 - count)
    requires 15625 * m == s * q + r && 0 <= r < s
    ensures q >= 1 ==> p >= 1 && !(1 <= r <= MAX_BACKOFF / p)
  {
    if count >= 22 {
      if q >= 1 {
        NoNearMiss(count, m, q, r, p, s);
      }
    } else {
      Pow2Grows(37, 58 - count);
      Pow2Table();
      SmallQuotient(15625 * m, s, q, r);
    }
  }

  lemma SmallQuotient(x: int, s: int, q: int, r: int)
    requires x == s * q + r && 0 <= r && 0 <= x < s && q >= 0
    ensures q == 0
  {
    assert q >= 1 ==> s * q >= s;
  }

  lemma ProductShape(m: int, d: nat)
    ensures m * MILLISECOND * d == (15625 * m) * (64 * d)
  {
  }

  /** From 33 doublings on, the low 64 bits are a multiple of 2^39, which is over the cap unless not positive. */
  lemma CeilingFrom33(m: int, count: nat)
    requires 1 <= m && count >= 33
    ensures Ceiling(m * MILLISECOND, count) == MAX_BACKOFF == Promised(m * MILLISECOND, count)
  {
    var d := Pow2(count - 33);
    Pow2Sum(33, count - 33);
    Pow2Grows(0, count - 33);
    Pow2Table();
    Regrouped(m, d);
    PositiveProduct(15625 * m, d);
    MultipleWraps((15625 * m) * d);
  }

  lemma Regrouped(m: int, d: int)
    ensures m * MILLISECOND * (8_589_934_592 * d) == ((15625 * m) * d) * 549_755_813_888
  {
    var e := m * d;
    assert m * MILLISECOND * (8_589_934_592 * d) == (MILLISECOND * 8_589_934_592) * e;
    assert (15625 * m) * d == 15625 * e;
  }

  lemma MultipleWraps(k: int)
    ensures Wrap64(k * 549_755_813_888) % 549_755_813_888 == 0
  {
    var q := (k * 549_755_813_888 + TWO_63) / TWO_64;
    assert Wrap64(k * 549_755_813_888) == (k - q * 33_554_432) * 549_755_813_888;
  }

  /** For every base from 1 ms to SAFE_BASE_MS and every retry count, the ceiling is the promised one. */
  lemma CeilingExact(ms: int, count: nat)
    requires 1 <= ms <= SAFE_BASE_MS
    ensures Ceiling(Millis(ms), count) == Promised(ms * MILLISECOND, count)
  {
    if count <= 32 {
      CeilingUpTo32(ms, count);
    } else {
      CeilingFrom33(ms, count);
    }
  }

  /** The very next base is miscalculated: retry 27 is drawn from 94.5 s instead of five minutes. */
  lemma CeilingShortJustAbove()
    ensures Ceiling(Millis(SAFE_BASE_MS + 1), 27) == 94_489_280_512 < Promised((SAFE_BASE_MS + 1) * MILLISECOND, 27)
  {
    Pow2Table();
  }

  /** The ceiling for every interval, negative ones included: the low 64 bits of the exact product decide. */
  lemma CeilingByResidue(interval: int, count: nat)
    ensures var low := interval * Pow2(count) % TWO_64;
            Ceiling(interval, count) == if 0 < low < MAX_BACKOFF then low else MAX_BACKOFF
  {
    CappedByResidue(interval * Pow2(count));
  }

  lemma CappedByResidue(x: int)
    ensures Capped(Wrap64(x)) == if 0 < x % TWO_64 < MAX_BACKOFF then x % TWO_64 else MAX_BACKOFF
  {
    WrapSplit(x / TWO_64, x % TWO_64);
  }

  /** For every positive interval the ceiling never exceeds the promise, and exactly when it meets it. */
  lemma CeilingWhenExact(interval: int, count: nat)
    requires interval > 0
    ensures 0 < Ceiling(interval, count) <= Promised(interval, count)
    ensures Ceiling(interval, count) == Promised(interval, count) <==>
      var product := interval * Pow2(count);
      product <= MAX_BACKOFF || product % TWO_64 == 0 || product % TWO_64 >= MAX_BACKOFF
  {
    Pow2Grows(0, count);
    PositiveProduct(interval, Pow2(count));
    CeilingByResidue(interval, count);
    ResidueIsSmaller(interval * Pow2(count));
  }

  lemma ResidueIsSmaller(x: int)
    requires x > 0
    ensures 0 <= x % TWO_64 <= x && (x <= MAX_BACKOFF ==> x % TWO_64 == x)
  {
    DivideOut(x, TWO_64);
    TimesGrows(0, x / TWO_64, TWO_64);
  }

  lemma PositiveProduct(a: int, b: int)
    requires a > 0 && b > 0
    ensures a * b >= a
  {
  }

  /** A base of zero waits like the largest base, not like none. */
  lemma ZeroBaseGetsCap(count: nat)
    ensures Ceiling(Millis(0), count) == MAX_BACKOFF > Promised(0, count)
  {
  }

  /** So does a negative base, unless its shift wraps round to a small positive value, as this one's does. */
  lemma NegativeBaseMaySlip()
    ensures Ceiling(Millis(-1), 0) == MAX_BACKOFF
    ensures Ceiling(Millis(-8_796_093), 21) == 46_573_551_616
  {
    assert Pow2(6) == 64;
    Pow2Sum(6, 6);
    Pow2Sum(12, 6);
    assert Pow2(21) == 2_097_152;
  }
}
