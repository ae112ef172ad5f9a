/** Machine types of the .NET host and the failure wrappers shared by the other modules. */
module Prelude {

  /** A .NET `byte`: an unsigned 8-bit value. */
  newtype byte = x: int | 0 <= x < 0x100

  /** A .NET `int`: a signed 32-bit value. Arithmetic on it is checked, so every
      sum the model computes in `int32` is proved not to wrap. */
  newtype int32 = x: int | -0x8000_0000 <= x < 0x8000_0000

  const Int32Max: int := 0x7FFF_FFFF

  datatype Option<+T> = None | Some(value: T)

  /** The value a .NET method returns, or the exception it throws. */
  datatype Result<+T, +E> = Success(value: T) | Failure(error: E)

  /** The completion of a .NET `void` method: normal, or by an exception. */
  datatype Outcome<+E> = Pass | Fail(error: E)
}
