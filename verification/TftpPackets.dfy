/** The packets of the file transfer protocol, byte by byte, and the blocks of a file. */
module TftpPackets {
  import opened Options
  import opened Octets

  const BLOCK_SIZE: nat := 512
  const MAX_BLOCKS: nat := 65534

  const RRQ: nat := 1
  const WRQ: nat := 2
  const DATA: nat := 3
  const ACK: nat := 4
  const ERROR: nat := 5

  const FILE_NOT_FOUND: nat := 1
  const ACCESS_VIOLATION: nat := 2
  const ILLEGAL_OPERATION: nat := 4

  // "octet"
  const OCTET: Bytes := [111, 99, 116, 101, 116]

  // What a `get` leaves: the value, and the bytes behind it.
  datatype Got<+T> = Got(value: T, rest: Bytes)

  function GetU16(data: Bytes): Option<Got<nat>> {
    if |data| < 2 then None else Some(Got((data[0] as int) * 256 + data[1], data[2..]))
  }

  function GetString(data: Bytes): Option<Got<Bytes>> {
    if data == [] then None
    else if data[0] == 0 then Some(Got([], data[1..]))
    else
      var r := GetString(data[1..]);
      if r.None? then None else Some(Got([data[0]] + r.value.value, r.value.rest))
  }

  predicate IsText(s: Bytes) {
    forall i :: 0 <= i < |s| ==> s[i] != 0
  }

  lemma U16Back(x: nat, rest: Bytes)
    requires x < 0x1_0000
    ensures GetU16(U16(x) + rest) == Some(Got(x, rest))
  {
  }

  /** What follows the first NUL is what is left, and a string is all that precedes it. */
  lemma {:induction false} StringExactly(data: Bytes, s: Bytes, rest: Bytes)
    ensures IsText(s) && data == s + [0] + rest <==> GetString(data) == Some(Got(s, rest))
    decreases |data|
  {
    if data != [] && data[0] == 0 {
      assert data == [] + [0] + data[1..];
      assert s != [] && data == s + [0] + rest ==> s[0] == 0;
    } else if data != [] {
      if s != [] {
        StringExactly(data[1..], s[1..], rest);
        assert s == [s[0]] + s[1..];
        assert data == s + [0] + rest ==> data[1..] == s[1..] + [0] + rest;
        assert data[0] == s[0] && data[1..] == s[1..] + [0] + rest ==> data == s + [0] + rest;
      }
    }
  }

  /** A byte string without NUL is no string. */
  lemma {:induction false} NoStringExactly(data: Bytes)
    ensures GetString(data).None? <==> IsText(data)
    decreases |data|
  {
    if data != [] {
      NoStringExactly(data[1..]);
      assert forall i :: 1 <= i < |data| ==> data[i] == data[1..][i - 1];
      assert forall i :: 0 <= i < |data| - 1 ==> data[1..][i] == data[i + 1];
    }
  }

  // `get_string`: looks for the NUL.
  method FindString(data: Bytes) returns (r: Option<Got<Bytes>>)
    ensures r == GetString(data)
  {
    NoStringExactly(data);
    var i := 0;
    while i < |data|
      invariant 0 <= i <= |data| && IsText(data[..i])
    {
      i := i + 1;
      if data[i - 1] == 0 {
        StringExactly(data, data[..i - 1], data[i..]);
        return Some(Got(data[..i - 1], data[i..]));
      }
    }
    assert data[..i] == data;
    r := None;
  }

  // ----- packets, as `put` writes them -----

  function Request(opcode: nat, filename: Bytes): Bytes
    requires opcode < 0x1_0000
  {
    U16(opcode) + (filename + [0]) + (OCTET + [0])
  }

  function DataPacket(block: nat, data: Bytes): Bytes
    requires block < 0x1_0000
  {
    U16(DATA) + U16(block) + data
  }

  function AckPacket(block: nat): Bytes
    requires block < 0x1_0000
  {
    U16(ACK) + U16(block)
  }

  function ErrorPacket(code: nat, text: Bytes): Bytes
    requires code < 0x1_0000
  {
    U16(ERROR) + U16(code) + (text + [0])
  }

  /** Each packet reads back as what was put, with nothing but what was put behind it. */
  lemma DataBack(block: nat, data: Bytes)
    requires block < 0x1_0000
    ensures GetU16(DataPacket(block, data)) == Some(Got(DATA, U16(block) + data))
    ensures GetU16(U16(block) + data) == Some(Got(block, data))
  {
    U16Back(block, data);
    U16Back(DATA, U16(block) + data);
    assert U16(DATA) + (U16(block) + data) == DataPacket(block, data);
  }

  lemma AckBack(block: nat, rest: Bytes)
    requires block < 0x1_0000
    ensures GetU16(AckPacket(block) + rest) == Some(Got(ACK, U16(block) + rest))
    ensures GetU16(U16(block) + rest) == Some(Got(block, rest))
    ensures AckPacket(block) + [] == AckPacket(block)
  {
    U16Back(block, rest);
    U16Back(ACK, U16(block) + rest);
    assert U16(ACK) + (U16(block) + rest) == AckPacket(block) + rest;
  }

  lemma ErrorBack(code: nat, text: Bytes)
    requires code < 0x1_0000
    ensures GetU16(ErrorPacket(code, text)) == Some(Got(ERROR, U16(code) + (text + [0])))
  {
    U16Back(ERROR, U16(code) + (text + [0]));
    assert U16(ERROR) + (U16(code) + (text + [0])) == ErrorPacket(code, text);
  }

  lemma RequestBack(opcode: nat, filename: Bytes)
    requires opcode < 0x1_0000 && IsText(filename)
    ensures GetU16(Request(opcode, filename)) == Some(Got(opcode, filename + [0] + (OCTET + [0])))
    ensures GetString(filename + [0] + (OCTET + [0])) == Some(Got(filename, OCTET + [0]))
    ensures GetString(OCTET + [0]) == Some(Got(OCTET, []))
  {
    U16Back(opcode, filename + [0] + (OCTET + [0]));
    assert U16(opcode) + (filename + [0] + (OCTET + [0])) == Request(opcode, filename);
    StringExactly(filename + [0] + (OCTET + [0]), filename, OCTET + [0]);
    assert OCTET + [0] == OCTET + [0] + [];
    StringExactly(OCTET + [0], OCTET, []);
  }

  // ----- putting bytes into a buffer -----

  method PutString(b: array<Byte>, at: nat, s: Bytes) returns (end: nat)
    requires at + |s| + 1 <= b.Length
    modifies b
    ensures end == at + |s| + 1 && b[..end] == old(b[..at]) + (s + [0])
  {
    end := PutBytes(b, at, s + [0]);
  }

  method PutErrorReply(b: array<Byte>, at: nat, code: nat, text: Bytes) returns (end: nat)
    requires at + 5 + |text| <= b.Length && code < 0x1_0000
    modifies b
    ensures end == at + 5 + |text| && b[..end] == old(b[..at]) + ErrorPacket(code, text)
  {
    ghost var head := b[..at];
    end := PutU16(b, at, ERROR);
    end := PutU16(b, end, code);
    end := PutString(b, end, text);
    Joined(head, U16(ERROR), U16(code), text + [0]);
  }

  lemma Joined(a: Bytes, b: Bytes, c: Bytes, d: Bytes)
    ensures a + b + c + d == a + (b + c + d)
  {
  }

  // ----- blocks -----

  predicate LegalSize(size: nat) {
    size <= BLOCK_SIZE * MAX_BLOCKS
  }

  // Cut to 16 bits, as the source does.
  function BlockCount(size: nat): nat {
    (size + 512) / BLOCK_SIZE % 0x1_0000
  }

  // Block `k`, counting from one.
  function Block(file: Bytes, k: nat): Bytes
    requires 1 <= k && (k - 1) * BLOCK_SIZE <= |file|
  {
    var rest := file[(k - 1) * BLOCK_SIZE..];
    if |rest| < BLOCK_SIZE then rest else rest[..BLOCK_SIZE]
  }

  // The first `k` blocks, joined.
  function FirstBlocks(file: Bytes, k: nat): Bytes
    requires k * BLOCK_SIZE <= |file| + BLOCK_SIZE
  {
    if k == 0 then [] else FirstBlocks(file, k - 1) + Block(file, k)
  }

  /** The blocks of a file of legal size: as many as counted, all but the last full, and
      joined they are the file. */
  lemma {:induction false} BlocksAreFile(file: Bytes, k: nat)
    requires LegalSize(|file|) && k <= BlockCount(|file|)
    ensures BlockCount(|file|) >= 1 && (BlockCount(|file|) - 1) * BLOCK_SIZE <= |file| < BlockCount(|file|) * BLOCK_SIZE
    ensures k >= 1 ==> (|Block(file, k)| == BLOCK_SIZE <==> k < BlockCount(|file|))
    ensures FirstBlocks(file, k) == if k == BlockCount(|file|) then file else file[..k * BLOCK_SIZE]
  {
    CountIs(|file|);
    if k > 0 {
      BlocksAreFile(file, k - 1);
      hide *;
      BlockIs(file, k, BlockCount(|file|));
      FirstIs(file, k);
    }
  }

  lemma CountIs(size: nat)
    requires LegalSize(size)
    ensures BlockCount(size) >= 1 && (BlockCount(size) - 1) * BLOCK_SIZE <= size < BlockCount(size) * BLOCK_SIZE
  {
  }

  lemma FirstIs(file: Bytes, k: nat)
    requires k > 0 && (k - 1) * BLOCK_SIZE <= |file|
    ensures FirstBlocks(file, k) == FirstBlocks(file, k - 1) + Block(file, k)
  {
    hide Block;
  }

  // Block `k` of a file of `count` blocks.
  lemma BlockIs(file: Bytes, k: nat, count: nat)
    requires 1 <= k <= count && (count - 1) * BLOCK_SIZE <= |file| < count * BLOCK_SIZE
    ensures (k - 1) * BLOCK_SIZE <= |file| && (|Block(file, k)| == BLOCK_SIZE <==> k < count)
    ensures k < count ==> k * BLOCK_SIZE <= |file|
    ensures file[..(k - 1) * BLOCK_SIZE] + Block(file, k) == if k == count then file else file[..k * BLOCK_SIZE]
  {
    var i := (k - 1) * BLOCK_SIZE;
    if k < count {
      assert file[i..][..BLOCK_SIZE] == file[i..i + BLOCK_SIZE];
    }
  }
}
