/** Bit-level helpers for the 32-bit registers of the Tegra194 timestamping
    engine. A register value is a `u32`; bit `i` is what the driver tests
    with `(v >> i) & BIT(0)`, and the bitwise operations the driver applies
    (`^`, `v | BIT(i)`, `v & ~BIT(i)`, `__builtin_ctz`) are defined on the
    number and proved to act bit by bit. */
module TegraBits {
  import opened Kernel

  /** `1 << n` without a width limit. */
  function Pow2(n: nat): (p: nat)
    ensures p >= 1
  {
    if n == 0 then 1 else 2 * Pow2(n - 1)
  }

  /** Bit `i` of `v` is set: `(v >> i) & 1`. */
  predicate BitOf(v: nat, i: nat)
  {
    if i == 0 then v % 2 == 1 else BitOf(v / 2, i - 1)
  }

  /** Zero has no bit set. */
  lemma {:induction false} NoBitOfZero(i: nat)
    ensures !BitOf(0, i)
  {
    if i > 0 {
      NoBitOfZero(i - 1);
    }
  }

  /** A value below `2^n` has no bit at or above `n` set. */
  lemma {:induction false} NoBitAbove(v: nat, n: nat, j: nat)
    requires v < Pow2(n) && n <= j
    ensures !BitOf(v, j)
  {
    if n == 0 {
      NoBitOfZero(j);
    } else {
      NoBitAbove(v / 2, n - 1, j - 1);
    }
  }

  /** `a ^ b`, one bit at a time from the least significant one. */
  function Xor(a: nat, b: nat): nat
    decreases a + b
  {
    if a == 0 && b == 0 then 0
    else 2 * Xor(a / 2, b / 2) + (if a % 2 != b % 2 then 1 else 0)
  }

  /** Bit `j` of `a ^ b` is set exactly when `a` and `b` differ there. */
  lemma {:induction false} XorBit(a: nat, b: nat, j: nat)
    ensures BitOf(Xor(a, b), j) <==> BitOf(a, j) != BitOf(b, j)
    decreases j
  {
    if a == 0 && b == 0 {
      NoBitOfZero(j);
    } else if j > 0 {
      XorBit(a / 2, b / 2, j - 1);
    }
  }

  /** `^` of two `n`-bit values is an `n`-bit value. */
  lemma {:induction false} XorBound(a: nat, b: nat, n: nat)
    requires a < Pow2(n) && b < Pow2(n)
    ensures Xor(a, b) < Pow2(n)
    decreases n
  {
    if (a != 0 || b != 0) && n > 0 {
      XorBound(a / 2, b / 2, n - 1);
    }
  }

  /** `__builtin_ctz`: the index of the lowest set bit of a non-zero value. */
  function Ctz(v: nat): (n: nat)
    requires v > 0
    ensures BitOf(v, n)
  {
    if v % 2 == 1 then 0 else 1 + Ctz(v / 2)
  }

  /** Every bit below `Ctz(v)` is clear, and `Ctz` of an `n`-bit value is
      below `n`. */
  lemma {:induction false} CtzLowest(v: nat, j: nat)
    requires v > 0
    ensures j < Ctz(v) ==> !BitOf(v, j)
    ensures BitOf(v, j) ==> Ctz(v) <= j
  {
    if v % 2 == 0 && j > 0 {
      CtzLowest(v / 2, j - 1);
    }
  }

  lemma CtzBound(v: nat, n: nat)
    requires 0 < v < Pow2(n)
    ensures Ctz(v) < n
  {
    if Ctz(v) >= n {
      NoBitAbove(v, n, Ctz(v));
    }
  }

  /** `v | BIT(i)`: adds bit `i` unless it is already set. */
  function SetBit(v: nat, i: nat): nat
  {
    if BitOf(v, i) then v else v + Pow2(i)
  }

  /** `v & ~BIT(i)`: removes bit `i` if it is set. */
  function ClearBit(v: nat, i: nat): nat
  {
    if BitOf(v, i) then v - BitValue(v, i) else v
  }

  /** The weight of a set bit, which a value holding that bit is at least. */
  function BitValue(v: nat, i: nat): (p: nat)
    requires BitOf(v, i)
    ensures p == Pow2(i) && p <= v
  {
    SetBitAtLeast(v, i);
    Pow2(i)
  }

  lemma {:induction false} SetBitAtLeast(v: nat, i: nat)
    requires BitOf(v, i)
    ensures Pow2(i) <= v
  {
    if i > 0 {
      SetBitAtLeast(v / 2, i - 1);
    }
  }

  /** Adding the weight of a clear bit sets that bit and no other. */
  lemma {:induction false} AddClearBit(v: nat, i: nat, j: nat)
    requires !BitOf(v, i)
    ensures BitOf(v + Pow2(i), j) <==> j == i || BitOf(v, j)
  {
    if i == 0 {
      if j > 0 {
        assert (v + 1) / 2 == v / 2;
      }
    } else if j > 0 {
      assert (v + Pow2(i)) / 2 == v / 2 + Pow2(i - 1);
      AddClearBit(v / 2, i - 1, j - 1);
    }
  }

  /** Subtracting the weight of a set bit clears that bit and no other. */
  lemma {:induction false} SubSetBit(v: nat, i: nat, j: nat)
    requires BitOf(v, i)
    ensures Pow2(i) <= v
    ensures BitOf(v - Pow2(i), j) <==> j != i && BitOf(v, j)
  {
    SetBitAtLeast(v, i);
    if i == 0 {
      if j > 0 {
        assert (v - 1) / 2 == v / 2;
      }
    } else if j > 0 {
      assert (v - Pow2(i)) / 2 == v / 2 - Pow2(i - 1);
      SubSetBit(v / 2, i - 1, j - 1);
    }
  }

  /** Adding the weight of a clear bit below `n` keeps an `n`-bit value
      within `n` bits. */
  lemma {:induction false} AddClearBitBound(v: nat, i: nat, n: nat)
    requires v < Pow2(n) && i < n && !BitOf(v, i)
    ensures v + Pow2(i) < Pow2(n)
  {
    assert Pow2(n) == 2 * Pow2(n - 1);
    if i == 0 {
      assert v % 2 == 0;
    } else {
      assert v / 2 < Pow2(n - 1);
      AddClearBitBound(v / 2, i - 1, n - 1);
      assert Pow2(i) == 2 * Pow2(i - 1);
    }
  }

  /** `v | BIT(i)` sets bit `i` and leaves every other bit as it was. */
  lemma SetBitAt(v: nat, i: nat, j: nat)
    ensures BitOf(SetBit(v, i), j) <==> j == i || BitOf(v, j)
  {
    if !BitOf(v, i) {
      AddClearBit(v, i, j);
    }
  }

  /** `v & ~BIT(i)` clears bit `i` and leaves every other bit as it was. */
  lemma ClearBitAt(v: nat, i: nat, j: nat)
    ensures BitOf(ClearBit(v, i), j) <==> j != i && BitOf(v, j)
  {
    if BitOf(v, i) {
      SubSetBit(v, i, j);
    }
  }

  /** Setting or clearing a bit below 32 keeps a 32-bit register 32 bits wide. */
  lemma SetBitFits(v: nat, i: nat)
    requires v < Pow2(32) && i < 32
    ensures SetBit(v, i) < Pow2(32) && ClearBit(v, i) <= v
  {
    if !BitOf(v, i) {
      AddClearBitBound(v, i, 32);
    }
  }

  /** `2^32`, the number of values of a register. */
  lemma Pow2Of32()
    ensures Pow2(32) == 0x1_0000_0000
  {
    Pow2Add(16, 16);
    Pow2Add(8, 8);
    Pow2Add(4, 4);
  }

  lemma {:induction false} Pow2Add(a: nat, b: nat)
    ensures Pow2(a + b) == Pow2(a) * Pow2(b)
  {
    if a > 0 {
      Pow2Add(a - 1, b);
    }
  }
}
