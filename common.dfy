/** Shared vocabulary: optional values, the exceptions the services raise,
    and Java's 32-bit `int` range. */
module Common {

  /** A Java reference that may be null. */
  datatype Option<T> = None | Some(value: T)

  /** The Java exceptions that cross the modelled components. */
  datatype Error =
    | IllegalArgument       // IllegalArgumentException
    | IllegalState          // IllegalStateException
    | NullPointer           // NullPointerException
    | ClassCast             // ClassCastException
    | IOFailure             // IOException from a transport write or close
    | StoreFailure          // an error raised by the Redis client
    | Runtime(cause: Error) // RuntimeException wrapping a cause

  /** The outcome of a Java call that returns a value or throws. */
  datatype Result<T> = Ok(value: T) | Fail(error: Error)

  /** The outcome of a `void` Java call. */
  datatype Outcome = Done | Thrown(error: Error)

  const INT_MIN: int := -0x8000_0000
  const INT_MAX: int := 0x7FFF_FFFF

  /** The values of Java's `int`. */
  predicate IsInt(x: int) { INT_MIN <= x <= INT_MAX }

  /** Java's narrowing cast `(int) x` of a `long`: keeps the low 32 bits. */
  function ToInt(x: int): (r: int)
    ensures IsInt(r)
    ensures (r - x) % 0x1_0000_0000 == 0
    ensures IsInt(x) ==> r == x
  {
    var low := x % 0x1_0000_0000;
    if low <= INT_MAX then low else low - 0x1_0000_0000
  }
}
