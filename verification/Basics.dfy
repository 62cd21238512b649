// Small notions that several components share.
module Basics {
  datatype Option<T> = None | Some(value: T)

  /** The range of a C++ int. */
  const INT_MIN: int := -0x8000_0000
  const INT_MAX: int := 0x7fff_ffff

  function Min(a: int, b: int): int { if a < b then a else b }
  function Max(a: int, b: int): int { if a < b then b else a }
}
