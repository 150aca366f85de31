/** Option and Result values, and the octet type that Go calls `byte`. */
module Wrappers {

  datatype Option<+T> = None | Some(value: T) {
    predicate IsFailure() { None? }

    function PropagateFailure<U>(): Option<U>
      requires None?
    {
      None
    }

    function Extract(): T
      requires Some?
    {
      value
    }
  }

  datatype Result<+T, +E> = Ok(value: T) | Err(error: E) {
    predicate IsFailure() { Err? }

    function PropagateFailure<U>(): Result<U, E>
      requires Err?
    {
      Err(error)
    }

    function Extract(): T
      requires Ok?
    {
      value
    }
  }

  type byte = b: int | 0 <= b < 256

  type Bytes = seq<byte>

  // Go's conversion []byte(s). The characters of a Go string are octets, on
  // which the reduction is the identity.
  function Octets(s: string): (b: Bytes)
    ensures |b| == |s|
  {
    seq(|s|, i requires 0 <= i < |s| => (s[i] as int) % 256)
  }

  // Go's conversion string(b).
  function Text(b: Bytes): (s: string)
    ensures |s| == |b|
    ensures forall i :: 0 <= i < |s| ==> s[i] as int == b[i]
    ensures Octets(s) == b
  {
    seq(|b|, i requires 0 <= i < |b| => b[i] as char)
  }

  predicate IsOctetString(s: string) {
    forall i :: 0 <= i < |s| ==> (s[i] as int) < 256
  }
}
