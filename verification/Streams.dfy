/** Byte strings, and the output streams of extendable-output functions. */
module Streams {
  import opened Digits

  type Bytes = seq<byte>

  /** The output stream of an XOF on one seed. */
  type Stream = nat -> byte

  function Output(g: Stream, pos: nat, n: nat): (r: Bytes)
    ensures |r| == n
  {
    seq(n, i requires 0 <= i < n => g(pos + i))
  }
}
