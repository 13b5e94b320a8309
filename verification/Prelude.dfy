/** Vocabulary shared by every component model.

    Go strings and byte slices are modelled as sequences of `char`: one `char` stands for one byte.
    No definition depends on how many byte values there are, so every theorem holds for the
    256-letter alphabet in particular. */
module Prelude {

  type byte = char
  type bytes = seq<byte>

  datatype Option<+T> = None | Some(value: T)

  datatype Result<+T, +E> = Ok(value: T) | Err(error: E)

  const NEWLINE: byte := '\n'
  const SPACE: byte := ' '

  /** The position of the first `b` in `s`, or |s| when there is none (bytes.IndexByte). */
  function IndexOf(s: bytes, b: byte): (i: nat)
    ensures i <= |s|
    ensures i < |s| ==> s[i] == b
    ensures forall k :: 0 <= k < i ==> s[k] != b
  {
    if s == [] || s[0] == b then 0 else 1 + IndexOf(s[1..], b)
  }

  /** Concatenation of a list of chunks. */
  function Concat(parts: seq<bytes>): bytes {
    if parts == [] then [] else parts[0] + Concat(parts[1..])
  }
}
