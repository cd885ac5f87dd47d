/** Failure-carrying wrappers and the byte type shared by every module. */
module Wrappers {

  /** A value that may be absent: a receive that raised, a reduction over nothing. */
  datatype Option<+T> = None | Some(value: T)

  /** The outcome of an operation that the source lets raise an exception. */
  datatype Result<+T, +E> = Ok(value: T) | Err(error: E)

  /** An unsigned 8-bit value, as Python's `bytes` yields them. */
  type uint8 = x: int | 0 <= x < 256

  /** Bytes of an ASCII string (every character is below 128). */
  function Ascii(s: string): (r: seq<uint8>)
    requires forall i :: 0 <= i < |s| ==> s[i] < 128 as char
    ensures |r| == |s|
    ensures forall i :: 0 <= i < |s| ==> r[i] == s[i] as int
  {
    seq(|s|, i requires 0 <= i < |s| => s[i] as int)
  }
}
