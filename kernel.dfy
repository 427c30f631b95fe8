/** Machine integers, error numbers and the Option wrapper shared by the
    timestamping core and the Tegra provider. */
module Kernel {

  /** Fixed-width unsigned and signed integers, as the C code declares them. */
  type u8 = x: int | 0 <= x < 0x100
  type u32 = x: int | 0 <= x < 0x1_0000_0000
  type u64 = x: int | 0 <= x < 0x1_0000_0000_0000_0000
  type i32 = x: int | -0x8000_0000 <= x < 0x8000_0000

  const U64_LIMIT: int := 0x1_0000_0000_0000_0000

  /** Linux error numbers returned (negated) by the functions of the model. */
  const EBUSY: int := 16
  const ENOMEM: int := 12
  const ENODEV: int := 19
  const EINVAL: int := 22
  const EUSERS: int := 87
  const ENOTSUPP: int := 524

  /** An opaque, non-null kernel pointer (callback, thread, client data). */
  type Handle = nat

  datatype Option<+T> = None | Some(value: T)

  /** Two's-complement reduction of an integer into the 32-bit `atomic_t` range. */
  function Wrap32(x: int): i32
  {
    ((x + 0x8000_0000) % 0x1_0000_0000) - 0x8000_0000
  }

  /** `atomic_inc` / `atomic_dec`: add with 32-bit wrap-around. */
  function AtomicAdd(v: i32, d: int): (r: i32)
    ensures r == Wrap32(v as int + d)
  {
    Wrap32(v as int + d)
  }

  /** `u64` post-increment (`seq++`): the counter wraps to 0 after 2^64 - 1. */
  function NextU64(v: u64): (r: u64)
    ensures r == (v + 1) % U64_LIMIT
  {
    if v == U64_LIMIT - 1 then 0 else v + 1
  }

  /** Wrapping is compatible with addition: an atomic counter that was wrapped
      and then moved by `d` holds the wrapped value of the unwrapped sum. */
  lemma Wrap32Add(x: int, d: int)
    ensures Wrap32(Wrap32(x) as int + d) == Wrap32(x + d)
  {
    var a := x + 0x8000_0000;
    var q := a / 0x1_0000_0000;
    assert Wrap32(x) as int + d + 0x8000_0000 == (a + d) - q * 0x1_0000_0000;
    ModShift(a + d, q);
  }

  /** Subtracting a multiple of 2^32 does not change the remainder modulo 2^32. */
  lemma ModShift(b: int, q: int)
    ensures (b - q * 0x1_0000_0000) % 0x1_0000_0000 == b % 0x1_0000_0000
  {
    var r := b % 0x1_0000_0000;
    var k := b / 0x1_0000_0000;
    assert b - q * 0x1_0000_0000 == (k - q) * 0x1_0000_0000 + r;
  }

  /** A count that fits in 31 bits is its own wrapped value. */
  lemma Wrap32Small(n: int)
    requires -0x8000_0000 <= n < 0x8000_0000
    ensures Wrap32(n) == n
  {
  }
}
