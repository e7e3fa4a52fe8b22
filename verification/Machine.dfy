/** The fixed widths the program computes in, its saturating operations, and its
    fixed-point points. A value assigned to one of these types is proved to fit. */
module Machine {
  type u8 = x: int | 0 <= x < 0x100
  type u16 = x: int | 0 <= x < 0x1_0000
  type u32 = x: int | 0 <= x < 0x1_0000_0000
  type u64 = x: int | 0 <= x < 0x1_0000_0000_0000_0000
  type u128 = x: int | 0 <= x < 0x1_0000_0000_0000_0000_0000_0000_0000_0000
  type i32 = x: int | -0x8000_0000 <= x < 0x8000_0000
  type i64 = x: int | -0x8000_0000_0000_0000 <= x < 0x8000_0000_0000_0000
  type i128 = x: int | -0x8000_0000_0000_0000_0000_0000_0000_0000 <= x < 0x8000_0000_0000_0000_0000_0000_0000_0000

  const I32_MIN: i32 := -0x8000_0000
  const I32_MAX: i32 := 0x7fff_ffff
  const U32_MAX: u32 := 0xffff_ffff
  const I64_MAX: i64 := 0x7fff_ffff_ffff_ffff
  const I128_MIN: i128 := -0x8000_0000_0000_0000_0000_0000_0000_0000
  const I128_MAX: i128 := 0x7fff_ffff_ffff_ffff_ffff_ffff_ffff_ffff

  datatype Option<+T> = None | Some(value: T)

  datatype Result<+T, +E> = Ok(value: T) | Err(error: E)

  function Min(a: int, b: int): int { if a <= b then a else b }

  function Max(a: int, b: int): int { if a >= b then a else b }

  function Abs(a: int): nat { if a < 0 then -a else a }

  function Clamp(a: int, low: int, high: int): int { Max(low, Min(a, high)) }

  /** `u32::saturating_add` */
  function SatAdd32(a: u32, b: u32): u32 { Min(a + b, U32_MAX) }

  /** `u32::saturating_sub` */
  function SatSub32(a: u32, b: u32): u32 { Max(a - b, 0) }

  /** Division as Rust's `/` does it: towards zero. */
  function TruncDiv(a: int, b: int): int
    requires b > 0
  {
    if a >= 0 then a / b else -((-a) / b)
  }

  /** A Q16.16 scalar is kept by its raw value; a point is two of them. */
  const ONE: int := 0x1_0000

  datatype Vec2 = Vec2(x: i32, y: i32)

  /** `Fixed::to_int`: whole world units, rounded towards negative infinity. */
  function ToInt(raw: i32): i32 { raw / ONE }
}
