/** Unsigned 64-bit words, as read and written by the atomic operations. */
module U64 {
  const TWO16: nat := 0x1_0000
  const TWO32: nat := 0x1_0000_0000
  const TWO48: nat := 0x1_0000_0000_0000
  const TWO64: nat := 0x1_0000_0000_0000_0000

  type u64 = x: nat | x < TWO64

  /** `__atomic_fetch_add`: wraps around. */
  function Add(a: u64, b: u64): u64 { (a + b) % TWO64 }

  /** `__atomic_fetch_sub`: wraps around. */
  function Sub(a: u64, b: u64): u64 { (a - b) % TWO64 }

  // ----- a number over its low bits

  lemma Split16(hi: nat, lo: nat)
    requires lo < TWO16
    ensures (hi * TWO16 + lo) / TWO16 == hi && (hi * TWO16 + lo) % TWO16 == lo
  {
  }

  lemma Split32(hi: nat, lo: nat)
    requires lo < TWO32
    ensures (hi * TWO32 + lo) / TWO32 == hi && (hi * TWO32 + lo) % TWO32 == lo
  {
  }

  lemma Split48(hi: nat, lo: nat)
    requires lo < TWO48
    ensures (hi * TWO48 + lo) / TWO48 == hi
  {
  }
}
