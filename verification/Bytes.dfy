// Shared value types: bytes, options, results and the error codes of tlv.h.

module Bytes {
  type byte = x: int | 0 <= x < 256

  const U16: int := 0x1_0000
  const U32: int := 0x1_0000_0000
  const U64: int := 0x1_0000_0000_0000_0000

  datatype Option<+T> = None | Some(value: T)

  datatype Error =
    | Truncated
    | CriticalTag
    | Malformed
    | TooLong
    | MissingField
    | HashMismatch
    | Io
    | NotFound
    | UnsafePath
    | Aborted
    | Locked

  datatype Result<+T> = Ok(value: T) | Err(error: Error)

  lemma SliceJoin<T>(s: seq<T>, i: nat, j: nat)
    requires i <= j <= |s|
    ensures s[..i] + s[i..j] == s[..j]
  {
  }

  lemma SliceAll<T>(s: seq<T>, i: nat)
    requires i <= |s|
    ensures s[..i] + s[i..] == s
  {
  }

  predicate IsDigit(b: byte) {
    48 <= b <= 57
  }

  function Concat(pieces: seq<seq<byte>>): seq<byte> {
    if pieces == [] then [] else pieces[0] + Concat(pieces[1..])
  }

  // memcpy into a buffer.
  method CopyBytes(buf: array<byte>, at: nat, data: seq<byte>)
    requires at + |data| <= buf.Length
    modifies buf
    ensures buf[..at + |data|] == old(buf[..at]) + data
    ensures forall j :: 0 <= j < at || at + |data| <= j < buf.Length ==> buf[j] == old(buf[j])
  {
    for k := 0 to |data|
      invariant forall j :: at <= j < at + k ==> buf[j] == data[j - at]
      invariant forall j :: 0 <= j < at || at + k <= j < buf.Length ==> buf[j] == old(buf[j])
    {
      buf[at + k] := data[k];
    }
  }
}
