/**
 * C `unsigned int` arithmetic as the ring buffer uses it: 32-bit values,
 * addition and subtraction that wrap around modulo 2^32, and the bitwise
 * AND that turns a cursor into a slot index when the length is a power of two.
 */
module Unsigned {

  const MODULUS: nat := 0x1_0000_0000
  const INT_MAX: nat := 0x7FFF_FFFF

  /** A C `unsigned` (32 bits). */
  type uint32 = x: int | 0 <= x < MODULUS

  /** `a + b` on `unsigned`: wraps around modulo 2^32. */
  function Add(a: uint32, b: uint32): uint32 {
    (a + b) % MODULUS
  }

  /** `a - b` on `unsigned`: wraps around modulo 2^32 (Dafny's `%` never yields a negative value). */
  function Sub(a: uint32, b: uint32): uint32 {
    (a - b) % MODULUS
  }

  /** Unsigned subtraction wraps around exactly when the result would be negative. */
  lemma SubWraps(a: uint32, b: uint32)
    ensures a >= b ==> Sub(a, b) == a - b
    ensures a < b ==> Sub(a, b) == MODULUS + a - b
  {
    if a >= b {
      RemainderUnique(a - b, MODULUS, 0, a - b);
    } else {
      RemainderUnique(MODULUS + a - b, MODULUS, 0, MODULUS + a - b);
    }
  }

  /** Unsigned addition wraps around exactly when the sum reaches 2^32. */
  lemma AddWraps(a: uint32, b: uint32)
    ensures a + b < MODULUS ==> Add(a, b) == a + b
    ensures a + b >= MODULUS ==> Add(a, b) == a + b - MODULUS
  {
    if a + b < MODULUS {
      RemainderUnique(a + b, MODULUS, 0, a + b);
    } else {
      RemainderUnique(a + b, MODULUS, 1, a + b - MODULUS);
    }
  }

  /** Conversion of an `unsigned` to a two's-complement `int`, as in `return cnt;` from an `int` function. */
  function ToInt(x: uint32): int {
    if x <= INT_MAX then x else x - MODULUS
  }

  /** Bitwise AND `a & b`, bit by bit from the least significant bit. */
  function And(a: uint32, b: uint32): (r: uint32)
    ensures r <= a && r <= b
  {
    if a == 0 || b == 0 then 0
    else 2 * And(a / 2, b / 2) + (if a % 2 == 1 && b % 2 == 1 then 1 else 0)
  }

  /** n is 2^k for some k. */
  predicate IsPow2(n: nat) {
    n == 1 || (n >= 2 && n % 2 == 0 && IsPow2(n / 2))
  }

  /** The test `size & (size - 1)` passes (is zero). */
  predicate SingleBitTestPasses(size: uint32) {
    And(size, Sub(size, 1)) == 0
  }

  lemma {:induction false} AndSelf(a: uint32)
    ensures And(a, a) == a
  {
    if a != 0 {
      AndSelf(a / 2);
    }
  }

  /** x % (2 * m) from the remainder of the halved value and the low bit. */
  lemma RemainderByHalves(x: nat, m: nat)
    requires m >= 1
    ensures x % (2 * m) == 2 * ((x / 2) % m) + x % 2
  {
    var h, r := x / 2, (x / 2) % m;
    var q := h / m;
    assert h == q * m + r;
    assert x == q * (2 * m) + (2 * r + x % 2);
    RemainderUnique(x, 2 * m, q, 2 * r + x % 2);
  }

  lemma RemainderUnique(x: nat, d: nat, q: int, r: int)
    requires d >= 1 && 0 <= r < d && x == q * d + r
    ensures x % d == r
  {
    var k := q - x / d;
    assert k * d == x % d - r;
  }

  /**
   * Masking with `n - 1` is the remainder modulo n when n is a power of
   * two: the masks `& (len - 1)` of the ring buffer compute `% len`.
   */
  lemma {:induction false} MaskIsRemainder(x: uint32, n: uint32)
    requires IsPow2(n)
    ensures And(x, n - 1) == x % n
  {
    if n == 1 {
      assert And(x, 0) == 0;
    } else if x != 0 {
      var h := n / 2;
      MaskIsRemainder(x / 2, h);
      AndOddMask(x, n);
      RemainderByHalves(x, h);
      assert 2 * h == n;
    }
  }

  /** Masking with an odd mask keeps the low bit and masks the rest with the halved mask. */
  lemma AndOddMask(x: uint32, n: uint32)
    requires x != 0 && n >= 2 && n % 2 == 0
    ensures And(x, n - 1) == 2 * And(x / 2, n / 2 - 1) + x % 2
  {
    assert (n - 1) / 2 == n / 2 - 1 && (n - 1) % 2 == 1;
  }

  /**
   * The power-of-two test of the ring buffer: `size & (size - 1)` is zero
   * exactly when size is zero or a power of two. Zero passes too.
   */
  lemma {:induction false} SingleBitTest(size: uint32)
    ensures SingleBitTestPasses(size) <==> size == 0 || IsPow2(size)
  {
    if size >= 2 {
      assert Sub(size, 1) == size - 1;
      assert And(size, size - 1) == 2 * And(size / 2, (size - 1) / 2);
      if size % 2 == 1 {
        assert (size - 1) / 2 == size / 2;
        AndSelf(size / 2);
      } else {
        assert (size - 1) / 2 == Sub(size / 2, 1);
        SingleBitTest(size / 2);
      }
    } else if size == 1 {
      assert Sub(1, 1) == 0;
    }
  }

  /** A power of two divides every larger power of two. */
  lemma {:induction false} Pow2Divides(n: nat, m: nat)
    requires IsPow2(n) && IsPow2(m) && n <= m
    ensures m % n == 0
  {
    if n != 1 {
      Pow2Divides(n / 2, m / 2);
      var c := (m / 2) / (n / 2);
      assert m / 2 == c * (n / 2);
      assert m == c * n;
      RemainderUnique(m, n, c, 0);
    }
  }

  function Pow2(k: nat): (p: nat)
    ensures p >= 1
  {
    if k == 0 then 1 else 2 * Pow2(k - 1)
  }

  lemma {:induction false} Pow2IsPow2(k: nat)
    ensures IsPow2(Pow2(k))
  {
    if k > 0 {
      Pow2IsPow2(k - 1);
      assert Pow2(k) / 2 == Pow2(k - 1);
    }
  }

  lemma {:induction false} Pow2Add(a: nat, b: nat)
    ensures Pow2(a + b) == Pow2(a) * Pow2(b)
  {
    if a > 0 {
      Pow2Add(a - 1, b);
    }
  }

  lemma ModulusIsPow2()
    ensures IsPow2(MODULUS)
  {
    assert Pow2(2) == 4;
    Pow2Add(2, 2);
    assert Pow2(4) == 16;
    Pow2Add(4, 4);
    assert Pow2(8) == 256;
    Pow2Add(8, 8);
    assert Pow2(16) == 65536;
    Pow2Add(16, 16);
    assert Pow2(32) == MODULUS;
    Pow2IsPow2(32);
  }
}
