/** Java's fixed-width integer types, with the two's-complement wrap-around of `long` arithmetic. */
module JavaTypes {

  const TWO_TO_THE_64: int := 0x1_0000_0000_0000_0000
  const MIN_LONG: int := -0x8000_0000_0000_0000
  const MAX_LONG: int := 0x7FFF_FFFF_FFFF_FFFF

  /** Java `long`. */
  type Long = x: int | MIN_LONG <= x <= MAX_LONG

  /** Java `int`. */
  type Int32 = x: int | -0x8000_0000 <= x <= 0x7FFF_FFFF

  /** The `long` that Java's arithmetic yields for the mathematical value `x`: `x` reduced modulo 2^64
      into the signed range. */
  function WrapLong(x: int): (r: Long)
    ensures (x - r) % TWO_TO_THE_64 == 0
    ensures MIN_LONG <= x <= MAX_LONG ==> r == x
  {
    (x - MIN_LONG) % TWO_TO_THE_64 + MIN_LONG
  }

  /** Wrapping is insensitive to adding multiples of 2^64, so wrapping once at the end equals wrapping
      after every step. */
  lemma WrapLongShift(x: int, k: int)
    ensures WrapLong(x + k * TWO_TO_THE_64) == WrapLong(x)
  {
    var a := (x - MIN_LONG) % TWO_TO_THE_64;
    var q := (x - MIN_LONG) / TWO_TO_THE_64;
    assert x - MIN_LONG == q * TWO_TO_THE_64 + a;
    assert x + k * TWO_TO_THE_64 - MIN_LONG == (q + k) * TWO_TO_THE_64 + a;
    assert 0 <= a < TWO_TO_THE_64;
  }

  /** Every value is its wrapped `long` plus a whole number of 2^64 steps. */
  lemma WrapLongQuotient(x: int) returns (k: int)
    ensures x == WrapLong(x) + k * TWO_TO_THE_64
  {
    k := (x - MIN_LONG) / TWO_TO_THE_64;
    assert x - MIN_LONG == k * TWO_TO_THE_64 + (x - MIN_LONG) % TWO_TO_THE_64;
  }
}
