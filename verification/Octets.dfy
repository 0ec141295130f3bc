/** Bytes, words in network order, and putting them into buffers. */
module Octets {
  type Byte = b: int | 0 <= b < 256
  type Bytes = seq<Byte>

  function U16(x: nat): Bytes
    requires x < 0x1_0000
  {
    [x / 256, x % 256]
  }

  method PutU16(b: array<Byte>, at: nat, x: nat) returns (end: nat)
    requires at + 2 <= b.Length && x < 0x1_0000
    modifies b
    ensures end == at + 2 && b[..end] == old(b[..at]) + U16(x)
  {
    b[at] := x / 256;
    b[at + 1] := x % 256;
    end := at + 2;
  }

  // `memcpy`.
  method PutBytes(b: array<Byte>, at: nat, s: Bytes) returns (end: nat)
    requires at + |s| <= b.Length
    modifies b
    ensures end == at + |s| && b[..end] == old(b[..at]) + s
  {
    end := at + |s|;
    forall i | at <= i < end {
      b[i] := s[i - at];
    }
  }
}
