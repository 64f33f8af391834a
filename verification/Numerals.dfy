// Printing numbers, the yardstick for what the readers read.
module Numerals {

  const LOWER := "0123456789abcdef"
  const UPPER := "0123456789ABCDEF"

  function DigitChar(d: nat, upper: bool): char
    requires d < 16
  {
    if upper then UPPER[d] else LOWER[d]
  }

  /** As many digits as `upper` has entries, the most significant first, each
      in the case its entry asks for. */
  function Printed(v: nat, upper: seq<bool>): (r: string)
    ensures |r| == |upper|
  {
    if upper == [] then ""
    else
      var n := |upper| - 1;
      Printed(v / 16, upper[..n]) + [DigitChar(v % 16, upper[n])]
  }

  function Pow16(n: nat): (p: int)
    ensures p >= 1
  {
    if n == 0 then 1 else 16 * Pow16(n - 1)
  }

  /** Digits to a base of at most ten, without leading zeros. */
  function Numeral(v: nat, base: nat): (r: string)
    requires 2 <= base <= 10
    ensures r != ""
  {
    if v < base then [LOWER[v]] else Numeral(v / base, base) + [LOWER[v % base]]
  }
}
