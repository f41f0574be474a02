/**
 * Python's integer shift and bitwise-and operators, restricted to the
 * non-negative integers the ADC code applies them to. Python integers are
 * unbounded, so nothing here wraps around or truncates.
 */
module PyInt {

  /** 2 raised to the power n. */
  function Pow2(n: nat): (p: nat)
    ensures p >= 1
  {
    if n == 0 then 1 else 2 * Pow2(n - 1)
  }

  /**
   * Python's `x << n`: multiplication by 2**n. The n low bits of the result
   * are clear, and shifting right by n gives x back.
   */
  function Shl(x: nat, n: nat): (r: nat)
    ensures r % Pow2(n) == 0
    ensures Shr(r, n) == x
  {
    ModUnique(x * Pow2(n), Pow2(n), x, 0);
    x * Pow2(n)
  }

  /** Python's `x >> n` on a non-negative x: floor division by 2**n. */
  function Shr(x: nat, n: nat): (r: int)
  {
    x / Pow2(n)
  }

  /**
   * Python's `x & y` on non-negative integers, bit by bit from the least
   * significant end. A bit of the result is set only where both inputs have
   * it set, so the result never exceeds either operand.
   */
  function BitAnd(x: nat, y: nat): (r: nat)
    ensures r <= x && r <= y
    decreases x
  {
    if x == 0 || y == 0 then 0
    else 2 * BitAnd(x / 2, y / 2) + (if x % 2 == 1 && y % 2 == 1 then 1 else 0)
  }

  /** Splitting off the lowest bit: x mod 2d is twice (x/2 mod d) plus x's lowest bit. */
  lemma ModOfDouble(x: nat, d: nat)
    requires d >= 1
    ensures x % (2 * d) == 2 * ((x / 2) % d) + x % 2
  {
    var q, b := x / 2, x % 2;
    var a, r := q / d, q % d;
    assert x == 2 * d * a + (2 * r + b);
    assert 0 <= 2 * r + b < 2 * d;
    ModUnique(x, 2 * d, a, 2 * r + b);
  }

  /** The remainder is determined by any decomposition x == d*a + r with 0 <= r < d. */
  lemma ModUnique(x: nat, d: nat, a: nat, r: nat)
    requires d >= 1 && r < d && x == d * a + r
    ensures x % d == r && x / d == a
  {
    var a', r' := x / d, x % d;
    assert d * a + r == d * a' + r';
    if a < a' {
      MulGap(d, a, a');
      assert false;
    } else if a' < a {
      MulGap(d, a', a);
      assert false;
    }
  }

  /** Multiples of d that differ in their factor are at least d apart. */
  lemma MulGap(d: nat, a: nat, b: nat)
    requires a < b
    ensures d * a + d <= d * b
  {
    var k := b - a;
    assert d * b == d * a + d * k;
    assert d * k == d + d * (k - 1);
  }

  /** Masking with k low one-bits keeps exactly the value modulo 2**k. */
  lemma {:induction false} BitAndLowMask(x: nat, k: nat)
    ensures BitAnd(x, Pow2(k) - 1) == x % Pow2(k)
  {
    if k == 0 {
      assert BitAnd(x, 0) == 0 == x % 1;
    } else {
      BitAndLowMask(x / 2, k - 1);
      LowMaskFromHalf(x, k);
    }
  }

  /** The induction step: if masking x/2 with k - 1 one-bits keeps x/2 modulo 2**(k - 1), masking x with k keeps x modulo 2**k. */
  lemma LowMaskFromHalf(x: nat, k: nat)
    requires k >= 1
    requires BitAnd(x / 2, Pow2(k - 1) - 1) == (x / 2) % Pow2(k - 1)
    ensures BitAnd(x, Pow2(k) - 1) == x % Pow2(k)
  {
    LowMaskStep(x, k);
    LowBitsStep(x, k);
  }

  /** Masking with k >= 1 low one-bits keeps the lowest bit of x and masks x/2 with k - 1 of them. */
  lemma LowMaskStep(x: nat, k: nat)
    requires k >= 1
    ensures BitAnd(x, Pow2(k) - 1) == 2 * BitAnd(x / 2, Pow2(k - 1) - 1) + x % 2
  {
    var h := Pow2(k - 1) - 1;
    assert Pow2(k) - 1 == 2 * h + 1;
    if x != 0 {
      assert (2 * h + 1) % 2 == 1 && (2 * h + 1) / 2 == h;
    }
  }

  /** x modulo 2**k, for k >= 1, is its lowest bit plus twice x/2 modulo 2**(k - 1). */
  lemma LowBitsStep(x: nat, k: nat)
    requires k >= 1
    ensures x % Pow2(k) == 2 * ((x / 2) % Pow2(k - 1)) + x % 2
  {
    ModOfDouble(x, Pow2(k - 1));
  }

}
