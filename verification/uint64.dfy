/** Unsigned 64-bit counters (`uint64_t` / `std::atomic<std::uint64_t>`) as
    bounded integers, with the wrap-around of `x++` written out. */
module Uint64 {

  const Modulus: int := 0x1_0000_0000_0000_0000
  const Max: int := Modulus - 1

  type u64 = x: int | 0 <= x < Modulus

  /** `x++` on an unsigned 64-bit value: one more, except that Max wraps to 0. */
  function Inc(x: u64): (r: u64)
    ensures x < Max ==> r == x + 1
    ensures x == Max ==> r == 0
    ensures r != x
  {
    (x + 1) % Modulus
  }

  /** Two counters that agree after an increment agreed before it. */
  lemma IncInjective(a: u64, b: u64)
    ensures Inc(a) == Inc(b) <==> a == b
  {
  }

  /** Counting k steps from any start with wrap-around: one more step is one Inc. */
  lemma IncOfOffset(x: u64, k: nat)
    ensures Inc((x + k) % Modulus) == (x + k + 1) % Modulus
  {
    var q := (x + k) / Modulus;
    var r := (x + k) % Modulus;
    assert x + k == q * Modulus + r;
    if r < Max {
      assert x + k + 1 == q * Modulus + (r + 1);
    } else {
      assert x + k + 1 == (q + 1) * Modulus + 0;
    }
  }
}
