/** Sizes in shared memory are rounded up to the platform's alignment. */
module Alignment {

  const ALIGN: nat := 8

  /** ZEND_ALIGNED_SIZE and ZEND_MM_ALIGNED_SIZE, for sizes that do not wrap around */
  function Aligned(n: nat): (r: nat)
    ensures n <= r < n + ALIGN && r % ALIGN == 0
    ensures n % ALIGN == 0 ==> r == n
  {
    (n + ALIGN - 1) / ALIGN * ALIGN
  }

  lemma AlignedSum(a: nat, b: nat)
    requires b % ALIGN == 0
    ensures a % ALIGN == 0 ==> (a + b) % ALIGN == 0
  {
  }
}
