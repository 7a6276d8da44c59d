/** C#'s 32-bit `int`, with the wrap-around of unchecked arithmetic made explicit. */
module Int32 {

  const MIN: int := -0x8000_0000
  const MAX: int := 0x7FFF_FFFF
  const MODULUS: int := 0x1_0000_0000

  type int32 = x: int | MIN <= x <= MAX

  /** The value an unchecked C# `int` operation keeps of the exact result `x`:
      the unique 32-bit value congruent to `x` modulo 2^32. */
  function Wrap(x: int): (r: int32)
    ensures (x - r) % MODULUS == 0
    ensures MIN <= x <= MAX ==> r == x
  {
    var q := (x - MIN) / MODULUS;
    var r := (x - MIN) % MODULUS + MIN;
    assert x - r == q * MODULUS;
    MultipleIsDivisible(q);
    r
  }

  lemma MultipleIsDivisible(q: int)
    ensures (q * MODULUS) % MODULUS == 0
  {
  }

  /** Adding one to the largest `int` wraps to the smallest. */
  lemma {:induction false} WrapPastMax()
    ensures Wrap(MAX + 1) == MIN
  {
  }
}
