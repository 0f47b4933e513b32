/** Conversion of a number stored into a `Uint8ClampedArray`: the abstract
    operation ToUint8Clamp of section 7.1.12 of ECMA-262, on exact reals. */
module Uint8Clamp {
  import opened Raster

  /** ToUint8Clamp: clamp to 0..255, then round to the nearest integer with
      ties going to the even neighbour. (NaN, which maps to 0, has no
      counterpart among reals.) */
  function ToUint8Clamp(n: real): (r: Byte)
    ensures n <= 0.0 ==> r == 0
    ensures n >= 255.0 ==> r == 255
    ensures 0.0 <= n <= 255.0 ==> -0.5 <= r as real - n <= 0.5
    ensures 0.0 <= n <= 255.0 && (r as real - n == 0.5 || n - r as real == 0.5) ==> r % 2 == 0
  {
    if n <= 0.0 then 0
    else if n >= 255.0 then 255
    else
      var f := n.Floor;
      if f as real + 0.5 < n then f + 1
      else if n < f as real + 0.5 then f
      else if f % 2 == 1 then f + 1
      else f
  }

  /** Rounding to nearest with ties to even picks one integer only: any byte
      within half a unit of `n`, and even when exactly half-way, is the
      converted value. */
  lemma ToUint8ClampUnique(n: real, b: Byte)
    requires 0.0 <= n <= 255.0
    requires -0.5 <= b as real - n <= 0.5
    requires (b as real - n == 0.5 || n - b as real == 0.5) ==> b % 2 == 0
    ensures ToUint8Clamp(n) == b
  {
  }

  /** An integer sum divided by 16 and stored into a `Uint8ClampedArray`,
      computed with integer quotient and remainder. */
  function ClampDiv16(sum: int): Byte {
    if sum <= 0 then 0
    else if sum >= 255 * 16 then 255
    else
      var q, rem := sum / 16, sum % 16;
      if rem > 8 then q + 1
      else if rem < 8 then q
      else if q % 2 == 0 then q
      else q + 1
  }

  /** The integer computation agrees with ToUint8Clamp of the exact quotient
      (division by 16 is exact in IEEE doubles for these magnitudes). */
  lemma ClampDiv16IsToUint8Clamp(sum: int)
    ensures ClampDiv16(sum) == ToUint8Clamp(sum as real / 16.0)
  {
    var n := sum as real / 16.0;
    if 0 < sum < 255 * 16 {
      var q, rem := sum / 16, sum % 16;
      assert sum == q * 16 + rem;
      assert n == q as real + rem as real / 16.0;
      assert n.Floor == q;
      assert (q as real + 0.5 < n) <==> rem > 8;
      assert (n < q as real + 0.5) <==> rem < 8;
    }
  }
}
