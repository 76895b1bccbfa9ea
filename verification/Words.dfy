/** 64-bit words: their limits, their saturating sums and their shifts. */
module Words {
  const U64_MAX: nat := 0xFFFF_FFFF_FFFF_FFFF

  type u64 = n: int | 0 <= n <= U64_MAX

  function SaturatingAdd(a: nat, b: nat): nat {
    if a + b > U64_MAX then U64_MAX else a + b
  }

  /** `a * 2^k`. */
  function Shifted(a: nat, k: nat): nat {
    if k == 0 then a else 2 * Shifted(a, k - 1)
  }

  function Power2(k: nat): nat {
    Shifted(1, k)
  }
}
