/** Types and constants shared by the models. */
module Basics {
  datatype Option<+T> = None | Some(value: T)

  type Byte = b: nat | b < 256

  type Short = n: nat | n < U16

  const U16: nat := 0x1_0000
  const U32: nat := 0x1_0000_0000
  const U64: nat := 0x1_0000_0000_0000_0000

  /** The burst size of both programs. */
  const MAX_PKT_BURST: nat := 32

  function Min(a: nat, b: nat): nat { if a < b then a else b }

  function Zeros(n: nat): (b: seq<Byte>)
    ensures |b| == n && forall i :: 0 <= i < n ==> b[i] == 0
  {
    seq(n, _ => 0)
  }
}
