/**
 * JavaScript's bitwise operators as the codec uses them, on mathematical
 * integers. Negative operands follow two's complement: Dafny's division by a
 * positive divisor rounds toward negative infinity, which is exactly an
 * arithmetic right shift.
 */
module Bits {

  /** One element of a Uint8Array. */
  type byte = x: int | 0 <= x < 256

  function Pow2(n: nat): (r: nat)
    ensures r >= 1
  {
    if n == 0 then 1 else 2 * Pow2(n - 1)
  }

  /** Bit j of x (bit 0 is the least significant). */
  predicate Bit(x: int, j: nat)
    decreases j
  {
    if j == 0 then x % 2 == 1 else Bit(x / 2, j - 1)
  }

  /** `x >> k` (sign-propagating). */
  function Shr(x: int, k: nat): (r: int)
    ensures x >= 0 ==> 0 <= r <= x
    decreases k
  {
    if k == 0 then x else Shr(x / 2, k - 1)
  }

  /** `x << k` on a non-negative operand (no 32-bit wrap: every use keeps the result below 2^16). */
  function Shl(x: nat, k: nat): nat
  {
    if k == 0 then x else 2 * Shl(x, k - 1)
  }

  /** `x & ((1 << k) - 1)`: the low k bits of x. */
  function Low(x: int, k: nat): nat
    decreases k
  {
    if k == 0 then 0 else 2 * Low(x / 2, k - 1) + x % 2
  }

  /** `x | y` on non-negative operands. */
  function Or(x: nat, y: nat): nat
    decreases x + y
  {
    if x == 0 then y
    else if y == 0 then x
    else 2 * Or(x / 2, y / 2) + (if x % 2 == 1 || y % 2 == 1 then 1 else 0)
  }

  // ---------------------------------------------------------------------
  // Bit-level characterisations

  lemma {:induction false} BitZero(j: nat)
    ensures !Bit(0, j)
  {
    if j > 0 {
      BitZero(j - 1);
    }
  }

  lemma {:induction false} BitShr(x: int, k: nat, j: nat)
    ensures Bit(Shr(x, k), j) == Bit(x, j + k)
    decreases k
  {
    if k > 0 {
      BitShr(x / 2, k - 1, j);
    }
  }

  lemma {:induction false} BitShl(x: nat, k: nat, j: nat)
    ensures Bit(Shl(x, k), j) == (j >= k && Bit(x, j - k))
  {
    if k > 0 {
      var y := Shl(x, k - 1);
      assert Shl(x, k) == 2 * y;
      if j == 0 {
        assert (2 * y) % 2 == 0;
      } else {
        assert (2 * y) / 2 == y;
        BitShl(x, k - 1, j - 1);
      }
    }
  }

  lemma {:induction false} BitLow(x: int, k: nat, j: nat)
    ensures Bit(Low(x, k), j) == (j < k && Bit(x, j))
    decreases k
  {
    if k == 0 {
      BitZero(j);
    } else {
      var l := Low(x / 2, k - 1);
      assert Low(x, k) == 2 * l + x % 2;
      if j > 0 {
        assert (2 * l + x % 2) / 2 == l;
        BitLow(x / 2, k - 1, j - 1);
      }
    }
  }

  lemma {:induction false} BitOr(x: nat, y: nat, j: nat)
    ensures Bit(Or(x, y), j) == (Bit(x, j) || Bit(y, j))
    decreases x + y
  {
    if x == 0 {
      BitZero(j);
    } else if y == 0 {
      BitZero(j);
    } else if j > 0 {
      var b := if x % 2 == 1 || y % 2 == 1 then 1 else 0;
      assert (2 * Or(x / 2, y / 2) + b) / 2 == Or(x / 2, y / 2);
      BitOr(x / 2, y / 2, j - 1);
    }
  }

  /** A value below 2^k has no bit at position k or above. */
  lemma {:induction false} BitAbove(x: nat, k: nat, j: nat)
    requires x < Pow2(k) && j >= k
    ensures !Bit(x, j)
  {
    if j == 0 {
    } else if k == 0 {
      assert x == 0;
      BitZero(j);
    } else {
      BitAbove(x / 2, k - 1, j - 1);
    }
  }

  /** Two values below 2^k with the same k low bits are equal. */
  lemma {:induction false} BitsDetermine(x: nat, y: nat, k: nat)
    requires x < Pow2(k) && y < Pow2(k)
    requires forall j :: 0 <= j < k ==> Bit(x, j) == Bit(y, j)
    ensures x == y
  {
    if k > 0 {
      assert Bit(x, 0) == Bit(y, 0);
      forall j | 0 <= j < k - 1
        ensures Bit(x / 2, j) == Bit(y / 2, j)
      {
        assert Bit(x, j + 1) == Bit(y, j + 1);
      }
      BitsDetermine(x / 2, y / 2, k - 1);
    }
  }

  // ---------------------------------------------------------------------
  // Bounds and arithmetic meaning

  lemma {:induction false} LowBound(x: int, k: nat)
    ensures Low(x, k) < Pow2(k)
    decreases k
  {
    if k > 0 {
      LowBound(x / 2, k - 1);
    }
  }

  /** Adding 2^k does not change the low k bits. */
  lemma {:induction false} LowPeriodic(x: int, k: nat)
    ensures Low(x + Pow2(k), k) == Low(x, k)
    decreases k
  {
    if k > 0 {
      var p := Pow2(k - 1);
      assert (x + 2 * p) / 2 == x / 2 + p;
      assert (x + 2 * p) % 2 == x % 2;
      LowPeriodic(x / 2, k - 1);
    }
  }

  /** Masking a value that already fits leaves it alone. */
  lemma {:induction false} LowOfSmall(x: nat, k: nat)
    requires x < Pow2(k)
    ensures Low(x, k) == x
  {
    if k > 0 {
      LowOfSmall(x / 2, k - 1);
    }
  }

  lemma {:induction false} ShlIsMul(x: nat, k: nat)
    ensures Shl(x, k) == x * Pow2(k)
  {
    if k > 0 {
      ShlIsMul(x, k - 1);
      assert Shl(x, k) == 2 * (x * Pow2(k - 1));
    }
  }

  lemma {:induction false} Pow2Add(a: nat, b: nat)
    ensures Pow2(a + b) == Pow2(a) * Pow2(b)
  {
    if a > 0 {
      Pow2Add(a - 1, b);
    }
  }

  lemma {:induction false} Pow2Mono(a: nat, b: nat)
    requires a <= b
    ensures Pow2(a) <= Pow2(b)
  {
    if a < b {
      Pow2Mono(a, b - 1);
    }
  }

  lemma {:induction false} ShlBound(x: nat, a: nat, k: nat)
    requires x < Pow2(a)
    ensures Shl(x, k) < Pow2(a + k)
  {
    if k > 0 {
      ShlBound(x, a, k - 1);
    }
  }

  lemma {:induction false} OrBound(x: nat, y: nat, k: nat)
    requires x < Pow2(k) && y < Pow2(k)
    ensures Or(x, y) < Pow2(k)
    decreases x + y
  {
    if x != 0 && y != 0 {
      OrBound(x / 2, y / 2, k - 1);
    }
  }

  /** `(x << k) | y` is a plain sum when y fits below bit k. */
  lemma OrShlIsSum(x: nat, k: nat, y: nat)
    requires y < Pow2(k)
    ensures Or(Shl(x, k), y) == Shl(x, k) + y
  {
    var s := Shl(x, k) + y;
    var w := x + k + 2;
    ValueBelowPow2(x);
    ShlBound(x, x + 1, k);
    Pow2Mono(k, x + 1 + k);
    OrBound(Shl(x, k), y, x + 1 + k);
    Pow2Mono(x + 1 + k, w);
    forall j | 0 <= j < w
      ensures Bit(Or(Shl(x, k), y), j) == Bit(s, j)
    {
      BitOr(Shl(x, k), y, j);
      BitShl(x, k, j);
      SumBits(x, k, y, j);
      if j >= k {
        BitAbove(y, k, j);
      }
    }
    BitsDetermine(Or(Shl(x, k), y), s, w);
  }

  lemma {:induction false} ValueBelowPow2(x: nat)
    ensures x < Pow2(x + 1)
  {
    if x > 0 {
      ValueBelowPow2(x - 1);
    }
  }

  /** The bits of `(x << k) + y` with y below 2^k: y's bits below k, x's above. */
  lemma {:induction false} SumBits(x: nat, k: nat, y: nat, j: nat)
    requires y < Pow2(k)
    ensures Bit(Shl(x, k) + y, j) == (if j < k then Bit(y, j) else Bit(x, j - k))
  {
    if k > 0 {
      var z := Shl(x, k - 1);
      assert Shl(x, k) + y == 2 * z + y;
      assert (2 * z + y) % 2 == y % 2;
      assert (2 * z + y) / 2 == z + y / 2;
      assert y / 2 < Pow2(k - 1);
      if j > 0 {
        SumBits(x, k - 1, y / 2, j - 1);
      }
    }
  }

  /** Shifting right twice is shifting right by the sum. */
  lemma {:induction false} ShrShr(x: int, a: nat, b: nat)
    ensures Shr(Shr(x, a), b) == Shr(x, a + b)
    decreases a
  {
    if a > 0 {
      ShrShr(x / 2, a - 1, b);
    }
  }

  lemma {:induction false} ShrBound(x: nat, a: nat, k: nat)
    requires x < Pow2(a + k)
    ensures 0 <= Shr(x, k) < Pow2(a)
  {
    if k > 0 {
      assert x / 2 < Pow2(a + k - 1);
      ShrBound(x / 2, a, k - 1);
    }
  }

  lemma {:induction false} ShlZero(k: nat)
    ensures Shl(0, k) == 0
  {
    if k > 0 {
      ShlZero(k - 1);
    }
  }

  /** Shifting a byte right by k leaves a value below 2^m, where k + m == 8. */
  lemma ShrByte(x: byte, k: nat, m: nat)
    requires k + m == 8
    ensures 0 <= Shr(x, k) < Pow2(m)
  {
    assert Pow2(m + k) == 256;
    ShrBound(x, m, k);
  }

  /** The bits of a byte above position k already fit in 8 - k bits. */
  lemma LowOfShrByte(x: byte, k: nat, m: nat)
    requires k + m == 8
    ensures Low(Shr(x, k), m) == Shr(x, k)
  {
    ShrByte(x, k, m);
    LowOfSmall(Shr(x, k), m);
  }

  lemma OrShlFits(x: nat, n: nat, y: nat, k: nat)
    requires y < Pow2(k) && k <= n
    ensures Or(Shl(x, n), y) == Shl(x, n) + y
  {
    Pow2Mono(k, n);
    OrShlIsSum(x, n, y);
  }
}
