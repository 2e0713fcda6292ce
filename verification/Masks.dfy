/** Arithmetic shared by the ring buffers and hash tables: masking with a power of two
    less one is a remainder, and numbers with equal remainders are far apart. */
module Masks {
  import opened Types

  function Pow2(k: nat): (r: nat)
    ensures r > 0
  {
    if k == 0 then 1 else 2 * Pow2(k - 1)
  }

  /** The bitwise `and` of two unsigned numbers. */
  function BitAnd(a: nat, b: nat): nat {
    if a == 0 || b == 0 then 0 else 2 * BitAnd(a / 2, b / 2) + (a % 2) * (b % 2)
  }

  lemma MulOrder(a: int, b: int, m: nat)
    ensures a <= b ==> a * m <= b * m
  {
  }

  lemma DivUnique(x: nat, m: nat, q: nat, r: nat)
    requires x == q * m + r && r < m
    ensures x / m == q && x % m == r
  {
    ModIs(x, m);
    MulOrder(x / m + 1, q, m);
    MulOrder(q + 1, x / m, m);
  }

  lemma ModIs(x: nat, m: nat)
    requires m > 0
    ensures x == (x / m) * m + x % m && 0 <= x % m < m
  {
  }

  lemma ModAddMultiple(x: nat, q: nat, m: nat)
    requires m > 0
    ensures (x + q * m) % m == x % m
  {
    ModIs(x, m);
    assert x + q * m == (x / m + q) * m + x % m;
    DivUnique(x + q * m, m, x / m + q, x % m);
  }

  lemma ModSuccessor(x: nat, m: nat)
    requires m > 0
    ensures (x % m + 1) % m == (x + 1) % m
  {
    ModIs(x, m);
    ModAddMultiple(x % m + 1, x / m, m);
  }

  /** Different numbers with the same remainder are at least m apart. */
  lemma ModGap(a: nat, b: nat, m: nat)
    requires m > 0 && a < b && a % m == b % m
    ensures a + m <= b
  {
    ModIs(a, m);
    ModIs(b, m);
    MulOrder(b / m, a / m, m);
    MulOrder(a / m + 1, b / m, m);
  }

  // ----- masking

  lemma HalfMod(x: nat, m: nat)
    requires m > 0
    ensures x % (2 * m) == 2 * ((x / 2) % m) + x % 2
  {
    var q, r := (x / 2) / m, (x / 2) % m;
    ModIs(x / 2, m);
    assert x == q * (2 * m) + (2 * r + x % 2);
    DivUnique(x, 2 * m, q, 2 * r + x % 2);
  }

  lemma MaskStep(x: nat, m: nat)
    requires m > 0 && x > 0
    ensures BitAnd(x, 2 * m - 1) == 2 * BitAnd(x / 2, m - 1) + x % 2
  {
    assert (2 * m - 1) / 2 == m - 1 && (2 * m - 1) % 2 == 1;
  }

  /** Masking with 2^k - 1 is the remainder modulo 2^k. */
  lemma {:induction false} MaskIsMod(x: nat, k: nat)
    ensures BitAnd(x, Pow2(k) - 1) == x % Pow2(k)
  {
    var p := Pow2(k);
    if k == 0 || x == 0 {
      MaskNone(x, p);
    } else {
      var m := Pow2(k - 1);
      assert p == 2 * m;
      hide BitAnd, Pow2;
      MaskIsMod(x / 2, k - 1);
      MaskStep(x, m);
      HalfMod(x, m);
    }
  }

  lemma MaskNone(x: nat, p: nat)
    requires x == 0 || p == 1
    ensures p > 0 ==> BitAnd(x, p - 1) == x % p
  {
    if x == 0 && p > 0 { DivUnique(0, p, 0, 0); }
  }

  // ----- wrap-around at 2^64

  lemma {:induction false} Pow2Sum(a: nat, b: nat)
    ensures Pow2(a + b) == Pow2(a) * Pow2(b)
  {
    if b > 0 {
      Pow2Sum(a, b - 1);
      assert Pow2(a + b) == 2 * (Pow2(a) * Pow2(b - 1));
    }
  }

  lemma Pow2Is64()
    ensures Pow2(64) == TWO64
  {
    assert Pow2(8) == 256;
    Pow2Sum(8, 8);
    Pow2Sum(16, 16);
    Pow2Sum(32, 32);
  }

  lemma Pow2Divides64(k: nat) returns (w: nat)
    requires k <= 64
    ensures TWO64 == w * Pow2(k) && w >= 1
  {
    Pow2Is64();
    w := Pow2(64 - k);
    Pow2Sum(64 - k, k);
  }

  lemma GapBetween(low: nat, high: nat, m: nat)
    requires m > 0 && low <= high < low + m
    ensures high % m == low % m + (high - low) || high % m == low % m + (high - low) - m
  {
    ModIs(low, m);
    ModIs(high, m);
    var gap := high / m - low / m;
    assert gap * m == (high / m) * m - (low / m) * m;
    MulOrder(2, gap, m);
    MulOrder(gap, -1, m);
  }

  /** Subtracting two ring positions in 64 bits and masking counts what lies between them. */
  lemma WrappedDistance(low: nat, high: nat, k: nat)
    requires k <= 64 && low <= high < low + Pow2(k)
    ensures var m := Pow2(k);
            BitAnd((high % m - low % m) % TWO64, m - 1) == high - low
  {
    var m := Pow2(k);
    var d := (high % m - low % m) % TWO64;
    var w := Pow2Divides64(k);
    hide Pow2, BitAnd;
    MaskIsMod(d, k);
    MulOrder(1, w, m);
    GapBetween(low, high, m);
    ModIs(low, m);
    ModIs(high, m);
    WrappedGap(low % m, high % m, high - low, m, w);
  }

  lemma WrappedGap(a: nat, b: nat, gap: nat, m: nat, w: nat)
    requires a < m && b < m && gap < m && TWO64 == w * m && w >= 1 && (b == a + gap || b == a + gap - m)
    ensures ((b - a) % TWO64) % m == gap
  {
    var p := (w - 1) * m;
    MulOrder(0, w - 1, m);
    assert TWO64 == p + m;
    DifferenceIs(a, b, gap, m, p);
    ModAddMultiple(gap, if b < a then w - 1 else 0, m);
    DivUnique(gap, m, 0, gap);
  }

  lemma DifferenceIs(a: nat, b: nat, gap: nat, m: nat, p: nat)
    requires a < m && b < m && gap < m && TWO64 == p + m && (b == a + gap || b == a + gap - m)
    ensures (b - a) % TWO64 == if b < a then gap + p else gap
  {
  }
}
