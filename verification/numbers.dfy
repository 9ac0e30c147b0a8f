/** Machine number types shared by the JSON and the KDL models. */
module Numbers {

  const I64_MIN: int := -0x8000_0000_0000_0000
  const I64_MAX: int := 0x7FFF_FFFF_FFFF_FFFF
  const U64_LIMIT: int := 0x1_0000_0000_0000_0000

  /** Rust `u64`. */
  type U64 = x: int | 0 <= x < U64_LIMIT

  /** Rust `i64`. */
  type I64 = x: int | I64_MIN <= x <= I64_MAX

  /** An IEEE-754 double, kept as its bit pattern. The conversion never
      inspects it: a float is carried from JSON to KDL unchanged. */
  datatype F64 = F64(bits: bv64)
}
