/*
 * Integer targets of the deserializer (src/de.rs:125-181): the number read
 * is rounded half away from zero, cast to i64 or u64 with saturation, and,
 * for the narrower widths, converted with a range check.
 */
module Coerce {
  import opened Base

  datatype IntWidth = I8 | I16 | I32 | I64 | U8 | U16 | U32 | U64

  predicate IsUnsigned(w: IntWidth) {
    w.U8? || w.U16? || w.U32? || w.U64?
  }

  predicate Is64(w: IntWidth) {
    w.I64? || w.U64?
  }

  const I64Min: int := -0x8000_0000_0000_0000
  const I64Max: int := 0x7FFF_FFFF_FFFF_FFFF
  const U64Max: int := 0xFFFF_FFFF_FFFF_FFFF

  /** Smallest value of the width. */
  function MinOf(w: IntWidth): int {
    match w
    case I8 => -0x80
    case I16 => -0x8000
    case I32 => -0x8000_0000
    case I64 => I64Min
    case _ => 0
  }

  /** Largest value of the width. */
  function MaxOf(w: IntWidth): int {
    match w
    case I8 => 0x7F
    case I16 => 0x7FFF
    case I32 => 0x7FFF_FFFF
    case I64 => I64Max
    case U8 => 0xFF
    case U16 => 0xFFFF
    case U32 => 0xFFFF_FFFF
    case U64 => U64Max
  }

  /**
   * `f64::round`: the nearest integer, a tie going away from zero. The two
   * ensures pin the result down uniquely on each side of zero.
   */
  function Round(x: real): (n: int)
    ensures x >= 0.0 ==> x - 0.5 < n as real <= x + 0.5
    ensures x < 0.0 ==> x - 0.5 <= n as real < x + 0.5
  {
    if x >= 0.0 then (x + 0.5).Floor else -((-x + 0.5).Floor)
  }

  /** Nearest point of `[lo, hi]` to `n`. */
  function Clamp(n: int, lo: int, hi: int): int
    requires lo <= hi
  {
    if n < lo then lo else if n > hi then hi else n
  }

  /** The `as i64` cast of an integral float: saturating at both bounds. */
  function AsI64(n: int): (r: int)
    ensures I64Min <= r <= I64Max
    ensures I64Min <= n <= I64Max ==> r == n
    ensures n < I64Min ==> r == I64Min
    ensures n > I64Max ==> r == I64Max
  {
    if n < I64Min then I64Min else if n > I64Max then I64Max else n
  }

  /** The `as u64` cast of an integral float: negatives become 0, large values u64::MAX. */
  function AsU64(n: int): (r: int)
    ensures 0 <= r <= U64Max
    ensures 0 <= n <= U64Max ==> r == n
    ensures n < 0 ==> r == 0
    ensures n > U64Max ==> r == U64Max
  {
    if n < 0 then 0 else if n > U64Max then U64Max else n
  }

  /** `TryFrom`: the value itself when the width holds it, an error otherwise. */
  function TryFrom(w: IntWidth, n: int): (r: Result<int>)
    ensures r.Ok? <==> MinOf(w) <= n <= MaxOf(w)
    ensures r.Ok? ==> r.value == n
  {
    if MinOf(w) <= n <= MaxOf(w) then Ok(n) else Err(OutOfRange)
  }

  /**
   * What `deserialize_<w>` makes of the number `x`: round, cast to the
   * 64-bit type of the same signedness, then range-check for the narrower
   * widths. Stated without the intermediate cast: the 64-bit widths never
   * fail and clamp, the narrow signed widths accept exactly the in-range
   * values, and the narrow unsigned widths accept everything up to their
   * maximum, negatives included, which become 0.
   */
  function CoerceInt(w: IntWidth, x: real): (r: Result<int>)
    ensures r.Ok? <==>
      Is64(w) || (Round(x) <= MaxOf(w) && (IsUnsigned(w) || MinOf(w) <= Round(x)))
    ensures r.Ok? ==> r.value == Clamp(Round(x), MinOf(w), MaxOf(w))
    ensures r.Err? ==> r.error == OutOfRange
  {
    var n := Round(x);
    match w
    case I64 => Ok(AsI64(n))
    case U64 => Ok(AsU64(n))
    case I8 | I16 | I32 => TryFrom(w, AsI64(n))
    case U8 | U16 | U32 => TryFrom(w, AsU64(n))
  }

  /** Rounding leaves integers alone. */
  lemma RoundIntegral(n: int)
    ensures Round(n as real) == n
  {
  }

  /** A value inside the width's range comes back unchanged, for every width. */
  lemma CoerceInRange(w: IntWidth, n: int)
    requires MinOf(w) <= n <= MaxOf(w)
    ensures CoerceInt(w, n as real) == Ok(n)
  {
    RoundIntegral(n);
  }

  /** Every unsigned width maps a negative number to 0. */
  lemma UnsignedNegativeIsZero(w: IntWidth, x: real)
    requires IsUnsigned(w) && x <= -0.5
    ensures CoerceInt(w, x) == Ok(0)
  {
  }

  /** Out-of-range values: the narrow widths fail and the 64-bit widths saturate. */
  lemma CoerceExamples()
    ensures CoerceInt(I8, 128.0).Err? && CoerceInt(I8, -129.0).Err?
    ensures CoerceInt(I16, 32768.0).Err? && CoerceInt(I32, 2147483648.0).Err?
    ensures CoerceInt(U8, 256.0).Err? && CoerceInt(U16, 65536.0).Err?
    ensures CoerceInt(U32, 4294967296.0).Err?
    ensures CoerceInt(I64, 9223372036854775809.0) == Ok(I64Max)
    ensures CoerceInt(U64, 18446744073709551616.0) == Ok(U64Max)
    ensures CoerceInt(U8, -3.0) == Ok(0) && CoerceInt(U64, -3.0) == Ok(0)
    ensures CoerceInt(I8, -128.0) == Ok(-128) && CoerceInt(I8, 127.0) == Ok(127)
  {
    RoundIntegral(128);
    RoundIntegral(-129);
    RoundIntegral(32768);
    RoundIntegral(2147483648);
    RoundIntegral(256);
    RoundIntegral(65536);
    RoundIntegral(4294967296);
    RoundIntegral(9223372036854775809);
    RoundIntegral(18446744073709551616);
    RoundIntegral(-3);
    RoundIntegral(-128);
    RoundIntegral(127);
  }

  /** Halves round away from zero. */
  lemma RoundHalves()
    ensures Round(2.5) == 3 && Round(-2.5) == -3 && Round(0.49) == 0
  {
  }
}
