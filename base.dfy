/** Shared value types of the ray tracer: Rust's fixed-width integers, the
    three-component vector and the ray (with real components standing for
    `f32`), and the option and outcome types the other modules return. */
module Base {

  /** Rust's `u8`. Arithmetic that leaves the range is a proof obligation,
      as an overflow is a panic in a debug build. */
  newtype u8 = x: int | 0 <= x < 0x100

  /** Rust's `u32`, with the same reading of overflow. */
  newtype u32 = x: int | 0 <= x < 0x1_0000_0000

  /** One more than the largest `u32`. */
  const U32_LIMIT: int := 0x1_0000_0000

  /** `Vec3`: a point, a direction or a colour. Its arithmetic is left abstract. */
  datatype Vec3 = Vec3(x: real, y: real, z: real)

  /** `Ray`: an origin and a direction (normalised by the source's constructor). */
  datatype Ray = Ray(origin: Vec3, direction: Vec3)

  datatype Option<T> = None | Some(value: T)

  /** The outcome of Rust's `str::parse`: a value or the parse error's message. */
  datatype Parsed<T> = Parsed(value: T) | Invalid(message: string)

  /** The ways a fallible operation of the source can end: a value, an error
      returned through `Result`, or a panic of the thread (an `unwrap` on a
      failed parse, an index out of range). */
  datatype Outcome<T> = Ok(value: T) | Err(error: string) | Panic
}
