/** Shared value types: options, outcomes that may panic, and the fixed-width integers of the server. */
module Basicos {

  datatype Option<+T> = None | Some(value: T)

  /** What a Rust call does: it returns, or it panics (index out of range, checked overflow, bad slice). */
  datatype Salida<+T> = Responde(valor: T) | Panico

  const MAX_U32: nat := 0xFFFF_FFFF
  const MAX_U64: nat := 0xFFFF_FFFF_FFFF_FFFF
  const MIN_I32: int := -0x8000_0000
  const MAX_I32: int := 0x7FFF_FFFF

  type u32 = x: nat | x <= MAX_U32
  type u64 = x: nat | x <= MAX_U64

  /** Arithmetic on this type is checked: Dafny proves that no sum or difference leaves the range. */
  newtype i32 = x: int | MIN_I32 <= x <= MAX_I32

  /** The cast `as i32` of a length, which wraps around. */
  function ComoI32(n: nat): (r: int)
    ensures MIN_I32 <= r <= MAX_I32 && r <= n
    ensures n <= MAX_I32 ==> r == n
  {
    (n - MIN_I32) % (MAX_U32 + 1) + MIN_I32
  }
}
