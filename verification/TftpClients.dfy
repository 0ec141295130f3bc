/** The client's two sides of a transfer: what each does with a packet and on a tick of
    its timer. */
module TftpClients {
  import opened Options
  import opened Octets
  import opened TftpPackets

  const TIMEOUT: nat := 50
  const NO_ACKS: nat := 0xFFFF
  const MAX_NAME: nat := 64
  const MAX_PACKET: nat := 516

  // The state after a step, and the packet sent, if any.
  datatype Moved<+S> = Moved(state: S, sent: Bytes)

  datatype Reading = Reading(filename: Bytes, last: nat, data: Bytes, done: bool, timeout: nat)
  datatype Writing = Writing(filename: Bytes, data: Bytes, last: nat, timeout: nat)

  // ----- reading -----

  function AskToRead(filename: Bytes): Moved<Reading> {
    Moved(Reading(filename, 0, [], false, TIMEOUT), Request(RRQ, filename))
  }

  function ReadingTick(s: Reading): Option<Moved<Reading>> {
    if s.done || s.timeout == 0 then Some(Moved(s, []))
    else if s.timeout > 1 then Some(Moved(s.(timeout := s.timeout - 1), []))
    else if s.last == 0 then Some(AskToRead(s.filename))
    else None
  }

  function ReadingOn(s: Reading, packet: Bytes): Option<Moved<Reading>> {
    if |packet| > MAX_PACKET then None
    else
      var op := GetU16(packet);
      if op.None? || op.value.value != DATA then None
      else
        var block := GetU16(op.value.rest);
        if block.None? || block.value.value != s.last + 1 then None
        else Some(TakeBlock(s, block.value.value, block.value.rest))
  }

  function TakeBlock(s: Reading, block: nat, data: Bytes): Moved<Reading>
    requires block < 0x1_0000
  {
    Moved(Reading(s.filename, block, s.data + data, s.done || |data| != BLOCK_SIZE, TIMEOUT), AckPacket(block))
  }

  // ----- writing -----

  predicate WritingOk(s: Writing) {
    LegalSize(|s.data|) && (s.last == NO_ACKS || s.last <= BlockCount(|s.data|))
  }

  predicate WritingDone(s: Writing) {
    s.last == BlockCount(|s.data|)
  }

  function AskToWrite(filename: Bytes, data: Bytes): Moved<Writing> {
    Moved(Writing(filename, data, NO_ACKS, TIMEOUT), Request(WRQ, filename))
  }

  // The block after the last one acknowledged.
  function NextBlock(s: Writing): Bytes
    requires WritingOk(s) && s.last < BlockCount(|s.data|)
  {
    DataPacket(s.last + 1, Block(s.data, s.last + 1))
  }

  function WritingTick(s: Writing): Option<Moved<Writing>>
    requires WritingOk(s)
  {
    if WritingDone(s) || s.timeout == 0 then Some(Moved(s, []))
    else if s.timeout > 1 then Some(Moved(s.(timeout := s.timeout - 1), []))
    else if s.last == NO_ACKS then Some(AskToWrite(s.filename, s.data))
    else if s.last < BlockCount(|s.data|) then Some(Moved(s.(timeout := TIMEOUT), NextBlock(s)))
    else None
  }

  function WritingOn(s: Writing, packet: Bytes): Option<Moved<Writing>>
    requires WritingOk(s)
  {
    if |packet| > MAX_PACKET then None
    else
      var op := GetU16(packet);
      if op.None? || op.value.value != ACK then None
      else
        var block := GetU16(op.value.rest);
        if block.None? || block.value.value > BlockCount(|s.data|) then None
        else
          var s' := s.(last := block.value.value);
          if s'.last < BlockCount(|s.data|) then Some(Moved(s'.(timeout := TIMEOUT), NextBlock(s')))
          else Some(Moved(s', []))
  }

  /** What a writer keeps: the numbers it uses stay in range. */
  lemma WritingKeepsOk(s: Writing, packet: Bytes)
    requires WritingOk(s)
    ensures WritingTick(s).Some? ==> WritingOk(WritingTick(s).value.state)
    ensures WritingOn(s, packet).Some? ==> WritingOk(WritingOn(s, packet).value.state)
  {
  }

  /** With the largest legal size, and with no other, a write is taken for done before
      anything has been sent. */
  lemma DoneAtOnceExactly(filename: Bytes, data: Bytes)
    requires LegalSize(|data|)
    ensures WritingDone(AskToWrite(filename, data).state) <==> |data| == BLOCK_SIZE * MAX_BLOCKS
  {
    BlocksAreFile(data, 0);
  }

  function Joined(a: Bytes, b: Bytes): Bytes {
    if a == [] then b else if b == [] then a else a + b
  }

  // `n` ticks with no packet between them: what they send, joined.
  function WritingTicks(s: Writing, n: nat): Option<Moved<Writing>>
    requires WritingOk(s)
    decreases n
  {
    if n == 0 then Some(Moved(s, []))
    else
      var m := WritingTick(s);
      if m.None? then None
      else
        WritingKeepsOk(s, []);
        var rest := WritingTicks(m.value.state, n - 1);
        if rest.None? then None else Some(Moved(rest.value.state, Joined(m.value.sent, rest.value.sent)))
  }

  function ReadingTicks(s: Reading, n: nat): Option<Moved<Reading>>
    decreases n
  {
    if n == 0 then Some(Moved(s, []))
    else
      var m := ReadingTick(s);
      if m.None? then None
      else
        var rest := ReadingTicks(m.value.state, n - 1);
        if rest.None? then None else Some(Moved(rest.value.state, Joined(m.value.sent, rest.value.sent)))
  }

  /** A writer that hears nothing sends what it last sent once more when its time is up,
      exactly once, and its time begins anew. */
  lemma {:induction false} WritingRetries(s: Writing, n: nat)
    requires WritingOk(s) && !WritingDone(s) && 0 < s.timeout && n <= s.timeout
    requires s.last == NO_ACKS || s.last < BlockCount(|s.data|)
    ensures n < s.timeout ==> WritingTicks(s, n) == Some(Moved(s.(timeout := s.timeout - n), []))
    ensures n == s.timeout ==>
      WritingTicks(s, n) ==
        Some(Moved(s.(timeout := TIMEOUT), if s.last == NO_ACKS then Request(WRQ, s.filename) else NextBlock(s)))
    decreases n
  {
    if n > 0 && s.timeout > 1 {
      WritingRetries(s.(timeout := s.timeout - 1), n - 1);
    }
    hide Request, BlockCount;
  }

  /** A reader asks again until the first block has come, and halts after that. */
  lemma {:induction false} ReadingRetries(s: Reading, n: nat)
    requires !s.done && 0 < s.timeout && n <= s.timeout && (s.last == 0 ==> s.data == [])
    ensures n < s.timeout ==> ReadingTicks(s, n) == Some(Moved(s.(timeout := s.timeout - n), []))
    ensures n == s.timeout && s.last == 0 ==> ReadingTicks(s, n) == Some(AskToRead(s.filename))
    ensures n == s.timeout && s.last > 0 ==> ReadingTicks(s, n) == None
    decreases n
  {
    if n > 0 && s.timeout > 1 {
      ReadingRetries(s.(timeout := s.timeout - 1), n - 1);
    }
    hide Request;
  }

  // A buffer for one packet, and the timer.
  class Sender {
    const buffer: array<Byte>
    var timeout: nat

    constructor ()
      ensures fresh(buffer) && buffer.Length == MAX_PACKET
    {
      buffer := new Byte[MAX_PACKET];
    }

    method SendRequest(opcode: nat, filename: Bytes) returns (sent: Bytes)
      requires buffer.Length == MAX_PACKET && opcode < 0x1_0000 && |filename| < MAX_NAME
      modifies buffer, this`timeout
      ensures sent == Request(opcode, filename) && timeout == TIMEOUT
    {
      var b := PutU16(buffer, 0, opcode);
      b := PutString(buffer, b, filename);
      b := PutString(buffer, b, OCTET);
      sent := Send(b);
    }

    method SendAck(block: nat) returns (sent: Bytes)
      requires buffer.Length == MAX_PACKET && block < 0x1_0000
      modifies buffer, this`timeout
      ensures sent == AckPacket(block) && timeout == TIMEOUT
    {
      var b := PutU16(buffer, 0, ACK);
      b := PutU16(buffer, b, block);
      sent := Send(b);
    }

    method SendData(block: nat, data: Bytes) returns (sent: Bytes)
      requires buffer.Length == MAX_PACKET && block < 0x1_0000 && |data| <= BLOCK_SIZE
      modifies buffer, this`timeout
      ensures sent == DataPacket(block, data) && timeout == TIMEOUT
    {
      var b := PutU16(buffer, 0, DATA);
      b := PutU16(buffer, b, block);
      b := PutBytes(buffer, b, data);
      sent := Send(b);
    }

    method Send(end: nat) returns (sent: Bytes)
      requires end <= buffer.Length
      modifies this`timeout
      ensures sent == buffer[..end] && timeout == TIMEOUT
    {
      timeout := TIMEOUT;
      sent := buffer[..end];
    }
  }

  /** The reader as it runs. A method that returns None has halted the system. */
  class TftpReader {
    const filename: Bytes
    const sender: Sender
    // The request sent on creation.
    ghost var first: Bytes
    var last: nat
    var data: Bytes
    var done: bool

    predicate Valid()
      reads this, sender
    {
      sender.buffer.Length == MAX_PACKET && |filename| < MAX_NAME
    }

    function State(): Reading
      reads this, sender
    {
      Reading(filename, last, data, done, sender.timeout)
    }

    constructor (filename: Bytes)
      requires |filename| < MAX_NAME
      ensures Valid() && fresh(sender) && fresh(sender.buffer)
      ensures Moved(State(), first) == AskToRead(filename)
    {
      this.filename := filename;
      sender := new Sender();
      new;
      first := SendRrq();
    }

    method SendRrq() returns (sent: Bytes)
      requires Valid()
      modifies this, sender, sender.buffer
      ensures Valid() && Moved(State(), sent) == AskToRead(filename)
    {
      done, last, data := false, 0, [];
      sent := sender.SendRequest(RRQ, filename);
    }

    method Tick() returns (sent: Option<Bytes>)
      requires Valid()
      modifies this, sender, sender.buffer
      ensures Valid()
      ensures sent.Some? ==> ReadingTick(old(State())) == Some(Moved(State(), sent.value))
      ensures sent.None? ==> ReadingTick(old(State())).None?
    {
      if done {
        return Some([]);
      }
      if sender.timeout > 0 {
        sender.timeout := sender.timeout - 1;
        if sender.timeout == 0 {
          if last != 0 {
            return None;
          }
          var request := SendRrq();
          return Some(request);
        }
      }
      sent := Some([]);
    }

    method Receive(packet: Bytes) returns (sent: Option<Bytes>)
      requires Valid()
      modifies this, sender, sender.buffer
      ensures Valid()
      ensures sent.Some? ==> ReadingOn(old(State()), packet) == Some(Moved(State(), sent.value))
      ensures sent.None? ==> ReadingOn(old(State()), packet).None?
    {
      if |packet| > MAX_PACKET {
        return None;
      }
      var op := GetU16(packet);
      if op.None? || op.value.value != DATA {
        return None;
      }
      var block := GetU16(op.value.rest);
      if block.None? || block.value.value != last + 1 {
        return None;
      }
      data := data + block.value.rest;
      last := block.value.value;
      var ack := sender.SendAck(last);
      if |block.value.rest| != BLOCK_SIZE {
        done := true;
      }
      sent := Some(ack);
    }
  }

  /** The writer as it runs. */
  class TftpWriter {
    const filename: Bytes
    const data: Bytes
    const sender: Sender
    // The request sent on creation.
    ghost var first: Bytes
    var last: nat

    predicate Valid()
      reads this, sender
    {
      sender.buffer.Length == MAX_PACKET && |filename| < MAX_NAME && WritingOk(State())
    }

    function State(): Writing
      reads this, sender
    {
      Writing(filename, data, last, sender.timeout)
    }

    constructor (filename: Bytes, data: Bytes)
      requires |filename| < MAX_NAME && LegalSize(|data|)
      ensures Valid() && fresh(sender) && fresh(sender.buffer)
      ensures Moved(State(), first) == AskToWrite(filename, data)
    {
      this.filename, this.data := filename, data;
      sender := new Sender();
      new;
      first := SendWrq();
    }

    method SendWrq() returns (sent: Bytes)
      requires sender.buffer.Length == MAX_PACKET && |filename| < MAX_NAME && LegalSize(|data|)
      modifies this, sender, sender.buffer
      ensures Valid() && Moved(State(), sent) == AskToWrite(filename, data)
    {
      last := NO_ACKS;
      sent := sender.SendRequest(WRQ, filename);
    }

    method SendNext() returns (sent: Bytes)
      requires Valid() && last < BlockCount(|data|)
      modifies sender, sender.buffer
      ensures Valid() && State() == old(State()).(timeout := TIMEOUT) && sent == NextBlock(State())
    {
      var index := last * BLOCK_SIZE;
      BlocksAreFile(data, last + 1);
      var size := if |data| - index < BLOCK_SIZE then |data| - index else BLOCK_SIZE;
      sent := sender.SendData(last + 1, data[index..][..size]);
    }

    method Tick() returns (sent: Option<Bytes>)
      requires Valid()
      modifies this, sender, sender.buffer
      ensures Valid()
      ensures sent.Some? ==> WritingTick(old(State())) == Some(Moved(State(), sent.value))
      ensures sent.None? ==> WritingTick(old(State())).None?
    {
      if last == BlockCount(|data|) {
        return Some([]);
      }
      if sender.timeout > 0 {
        sender.timeout := sender.timeout - 1;
        if sender.timeout == 0 {
          var packet;
          if last == NO_ACKS {
            packet := SendWrq();
          } else if last < BlockCount(|data|) {
            packet := SendNext();
          } else {
            return None;
          }
          return Some(packet);
        }
      }
      sent := Some([]);
    }

    method Receive(packet: Bytes) returns (sent: Option<Bytes>)
      requires Valid()
      modifies this, sender, sender.buffer
      ensures Valid()
      ensures sent.Some? ==> WritingOn(old(State()), packet) == Some(Moved(State(), sent.value))
      ensures sent.None? ==> WritingOn(old(State()), packet).None?
    {
      if |packet| > MAX_PACKET {
        return None;
      }
      var op := GetU16(packet);
      if op.None? || op.value.value != ACK {
        return None;
      }
      var block := GetU16(op.value.rest);
      if block.None? || block.value.value > BlockCount(|data|) {
        return None;
      }
      last := block.value.value;
      if last < BlockCount(|data|) {
        var next := SendNext();
        return Some(next);
      }
      sent := Some([]);
    }
  }
}
