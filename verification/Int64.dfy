/** The 64-bit signed arithmetic of long long and int64_t. */
module Int64 {
  predicate Is64(n: int) {
    -0x8000_0000_0000_0000 <= n < 0x8000_0000_0000_0000
  }

  /** The value after wrap-around. */
  function Wrap64(n: int): (r: int)
    ensures Is64(r) && (Is64(n) ==> r == n)
  {
    (n + 0x8000_0000_0000_0000) % 0x1_0000_0000_0000_0000 - 0x8000_0000_0000_0000
  }

  /** The cast of an unsigned word. */
  lemma WrapHigh(n: nat)
    requires 0x8000_0000_0000_0000 <= n < 0x1_0000_0000_0000_0000
    ensures Wrap64(n) == n - 0x1_0000_0000_0000_0000
  {}
}
