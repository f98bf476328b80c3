/** Bytes as the C library and Rust's `Vec<u8>` hold them. */
module Bytes {

  /** An unsigned 8-bit value (Rust `u8`, the bytes of a C `char` buffer). */
  newtype byte = b: int | 0 <= b < 256

  /** The C string terminator. */
  const NUL: byte := 0

  /** `s` holds no terminator byte. */
  predicate NoNul(s: seq<byte>)
  {
    forall i :: 0 <= i < |s| ==> s[i] != NUL
  }

  /** A freshly allocated zeroed buffer, as `vec![0u8; n]`. */
  function Zeros(n: nat): seq<byte>
  {
    seq(n, _ => NUL)
  }
}
