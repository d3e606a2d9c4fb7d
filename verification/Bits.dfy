/** The unsigned 32-bit arithmetic the C code computes with: bitwise AND, wrap-around,
    and the facts about powers of two that let a mask stand for a remainder. */
module Bits {

  const W32: nat := 0x1_0000_0000

  type U32 = x: int | 0 <= x < W32

  function Pow2(k: nat): (p: nat)
    ensures p > 0
  {
    if k == 0 then 1 else 2 * Pow2(k - 1)
  }

  /** `x & y` on natural numbers, bit by bit from the least significant bit. */
  function And(x: nat, y: nat): (r: nat)
    decreases x
  {
    if x == 0 || y == 0 then 0
    else 2 * And(x / 2, y / 2) + (if x % 2 == 1 && y % 2 == 1 then 1 else 0)
  }

  ghost predicate IsPow2(n: nat) {
    exists k: nat :: n == Pow2(k)
  }

  /** A ring size the u32 counters and the mask work with. */
  ghost predicate GoodSize(size: nat) {
    IsPow2(size) && size < W32
  }

  /** The value a u32 variable holds after being assigned `x`. */
  function Wrap(x: int): (r: U32) {
    x % W32
  }

  // ---------------------------------------------------------------- remainders

  lemma NonZeroMultiple(d: int, m: int)
    requires m > 0
    ensures d >= 1 ==> d * m >= m
    ensures d <= -1 ==> d * m <= -m
  {
  }

  lemma ModUnique(x: int, m: int, q: int, r: int)
    requires 0 <= r < m
    requires x == q * m + r
    ensures x % m == r && x / m == q
  {
    var d := x / m - q;
    assert d * m == r - x % m by {
      assert x == (x / m) * m + x % m;
      assert d * m == (x / m) * m - q * m;
    }
    NonZeroMultiple(d, m);
  }

  lemma ModShift(x: int, m: int, k: int)
    requires m > 0
    ensures (x + k * m) % m == x % m
  {
    assert x + k * m == (x / m + k) * m + x % m by {
      assert (x / m + k) * m == (x / m) * m + k * m;
    }
    ModUnique(x + k * m, m, x / m + k, x % m);
  }

  /** Two positions less than `m` apart that fall on the same remainder are the same position. */
  lemma ModInjective(x: int, y: int, m: int)
    requires m > 0
    requires x % m == y % m
    requires -m < x - y < m
    ensures x == y
  {
    assert x - y == (x / m - y / m) * m by {
      assert x == (x / m) * m + x % m;
      assert y == (y / m) * m + y % m;
      assert (x / m - y / m) * m == (x / m) * m - (y / m) * m;
    }
    var d := x / m - y / m;
    NonZeroMultiple(d, m);
  }

  /** Reducing first modulo a multiple of `m` does not change the remainder modulo `m`. */
  lemma ModOfMultiple(x: int, a: int, m: int)
    requires a > 0 && m > 0
    requires a * m > 0
    ensures (x % (a * m)) % m == x % m
  {
    var q := x / (a * m);
    assert x == q * (a * m) + x % (a * m);
    assert q * (a * m) == (q * a) * m;
    ModShift(x % (a * m), m, q * a);
  }

  lemma Pow2Sum(j: nat, k: nat)
    ensures Pow2(j + k) == Pow2(j) * Pow2(k)
    decreases k
  {
    if k > 0 {
      Pow2Sum(j, k - 1);
      assert j + k - 1 == j + (k - 1);
      assert Pow2(j) * Pow2(k) == 2 * (Pow2(j) * Pow2(k - 1));
    } else {
      assert Pow2(j) * Pow2(0) == Pow2(j);
    }
  }

  lemma Pow2Monotone(j: nat, k: nat)
    requires j <= k
    ensures Pow2(j) <= Pow2(k)
    decreases k
  {
    if j < k { Pow2Monotone(j, k - 1); }
  }

  lemma W32IsPow2()
    ensures W32 == Pow2(32)
  {
    assert Pow2(2) == 4;
    Pow2Sum(2, 2);
    Pow2Sum(4, 4);
    Pow2Sum(8, 8);
    Pow2Sum(16, 16);
  }

  /** Every power of two up to 2^32 divides 2^32, so the low bits of a wrapped counter are the
      low bits of the counter that never wraps. */
  lemma WrapKeepsSlot(x: int, size: nat)
    requires IsPow2(size) && size <= W32
    ensures Wrap(x) % size == x % size
  {
    var k: nat :| size == Pow2(k);
    W32IsPow2();
    assert Pow2(33) == 2 * W32;
    if k > 32 { Pow2Monotone(33, k); }
    Pow2Sum(32 - k, k);
    ModOfMultiple(x, Pow2(32 - k), size);
  }

  lemma WrapSmall(x: U32)
    ensures Wrap(x) == x
  {
    ModUnique(x, W32, 0, x);
  }

  lemma WrapOfWrap(x: int, d: int)
    ensures Wrap(Wrap(x) + d) == Wrap(x + d)
    ensures Wrap(d - Wrap(x)) == Wrap(d - x)
  {
    var q := x / W32;
    assert x == q * W32 + Wrap(x);
    ModShift(Wrap(x) + d, W32, q);
    assert Wrap(x) + d + q * W32 == x + d;
    ModShift(d - Wrap(x), W32, -q);
    assert d - Wrap(x) + (-q) * W32 == d - x;
  }

  lemma WrapOfDifference(x: int, y: int)
    ensures Wrap(Wrap(x) - Wrap(y)) == Wrap(x - y)
  {
    WrapOfWrap(y, Wrap(x));
    WrapOfWrap(x, 0 - y);
  }

  /** A wrapped difference leads from one counter value to the other. */
  lemma WrapRoundTrip(from: U32, to: U32, n: int)
    ensures Wrap(from + Wrap(to - from) + n) == Wrap(to + n)
  {
    WrapOfWrap(to - from, from + n);
  }

  // ---------------------------------------------------------------- masks

  lemma ModOfDouble(x: nat, m: nat)
    requires m > 0
    ensures x % (2 * m) == 2 * ((x / 2) % m) + x % 2
  {
    var q, r := (x / 2) / m, (x / 2) % m;
    assert x / 2 == q * m + r;
    assert q * (2 * m) == 2 * (q * m);
    ModUnique(x, 2 * m, q, 2 * r + x % 2);
  }

  lemma {:induction false} AndMask(x: nat, k: nat)
    ensures And(x, Pow2(k) - 1) == x % Pow2(k)
    decreases k
  {
    if k > 0 {
      var y := Pow2(k) - 1;
      assert y / 2 == Pow2(k - 1) - 1 && y % 2 == 1;
      AndMask(x / 2, k - 1);
      ModOfDouble(x, Pow2(k - 1));
      assert And(x, y) == 2 * And(x / 2, y / 2) + x % 2;
    }
  }

  /** The classical test `(n & (n - 1)) == 0` accepts exactly the powers of two. */
  lemma {:induction false} PowerOfTwoTest(n: nat)
    requires n > 0
    ensures And(n, n - 1) == 0 <==> IsPow2(n)
    decreases n
  {
    if n == 1 {
      assert n == Pow2(0);
    } else if n % 2 == 1 {
      assert n / 2 == (n - 1) / 2;
      AndSelfPositive(n / 2);
      forall k: nat ensures n != Pow2(k) {
        if k > 0 { assert Pow2(k) == 2 * Pow2(k - 1); }
      }
    } else {
      var h := n / 2;
      assert (n - 1) / 2 == h - 1;
      PowerOfTwoTest(h);
      if k: nat :| h == Pow2(k) {
        assert n == Pow2(k + 1);
      }
      forall k: nat | n == Pow2(k) ensures IsPow2(h) {
        assert k > 0 && h == Pow2(k - 1);
      }
    }
  }

  lemma {:induction false} AndSelfPositive(x: nat)
    requires x > 0
    ensures And(x, x) > 0
    decreases x
  {
    if x > 1 { AndSelfPositive(x / 2); }
  }

  /** A mask of `size - 1` computes the remainder of every counter exactly when `size` is a
      power of two. */
  lemma MaskIsRemainderIff(size: nat)
    requires size > 0
    ensures (forall x: nat :: And(x, size - 1) == x % size) <==> IsPow2(size)
  {
    if IsPow2(size) {
      var k: nat :| size == Pow2(k);
      forall x: nat ensures And(x, size - 1) == x % size { AndMask(x, k); }
    } else {
      PowerOfTwoTest(size);
      assert And(size, size - 1) != size % size;
    }
  }

  lemma MaskedIndex(x: nat, size: nat)
    requires IsPow2(size)
    ensures size > 0 && And(x, size - 1) == x % size < size
  {
    MaskIsRemainderIff(size);
  }
}
