/** What the server answers to each packet, byte by byte, and what it halts on. */
module TftpAnswers {
  import opened Options
  import opened Octets
  import opened TftpPackets
  import opened TftpServer
  import opened TftpClients

  // "octet", as the mode is spelled in a request.
  predicate IsOctet(mode: Bytes) {
    mode == [0x6f, 0x63, 0x74, 0x65, 0x74]
  }

  // Capital and small letters, digits, and dots but in front.
  predicate PlainName(name: Bytes) {
    forall i :: 0 <= i < |name| ==>
      'A' as int <= name[i] <= 'Z' as int || 'a' as int <= name[i] <= 'z' as int
      || '0' as int <= name[i] <= '9' as int || (name[i] == '.' as int && i != 0)
  }

  // An error packet of this code, with some text.
  predicate IsError(reply: Bytes, code: Byte) {
    |reply| >= 5 && reply[0] == 0 && reply[1] == 5 && reply[2] == 0 && reply[3] == code && reply[|reply| - 1] == 0
  }

  function RequestPacket(isRead: bool, name: Bytes, mode: Bytes, more: Bytes): Bytes {
    [0, if isRead then 1 else 2] + (name + [0] + (mode + [0] + more))
  }

  // The server but for its sessions is as before, and they are but for the sender's own.
  ghost predicate OwnNow(s: Server, t: Server, peer: Endpoint, own: Option<Session>) {
    t.files == s.files && t.running == s.running && OwnBecomes(s.sessions, t.sessions, peer, own)
  }

  /** A request ends any session of its sender. It is answered by acknowledging block 0, with
      an empty session to write opened, exactly when it asks in octet mode to write a name that
      is plain and that no file has; by the first block, with a session to read opened,
      exactly when it asks to read a file that is there (a file that is too large halts the
      server); and otherwise by an error: 4 for the mode, 1 for a name that is not plain or
      not found, 2 for a file that exists. */
  lemma RequestAnswered(s: Server, peer: Endpoint, isRead: bool, name: Bytes, mode: Bytes, more: Bytes, opens: bool)
    requires OnePerPeer(s.sessions) && peer.addr != 0xFFFF_FFFF && IsText(name) && IsText(mode)
    requires |RequestPacket(isRead, name, mode, more)| <= 1024
    ensures var turn := ServerOn(s, peer, RequestPacket(isRead, name, mode, more), opens);
      if !isRead && IsOctet(mode) && PlainName(name) && name !in s.files then
        && turn.Some? && turn.value.reply == [0, 4, 0, 0]
        && OwnNow(s, turn.value.server, peer, Some(Session(peer, name, false, [])))
      else if isRead && IsOctet(mode) && PlainName(name) && name in s.files then
        && (turn.Some? <==> |s.files[name]| <= 512 * 65534)
        && (turn.Some? ==>
          var file := s.files[name];
          && turn.value.reply == [0, 3, 0, 1] + file[..if |file| < 512 then |file| else 512]
          && OwnNow(s, turn.value.server, peer, Some(Session(peer, name, true, file))))
      else
        && turn.Some? && OwnNow(s, turn.value.server, peer, None)
        && IsError(turn.value.reply, if !IsOctet(mode) then 4 else if !PlainName(name) || isRead then 1 else 2)
  {
    var rest := name + [0] + (mode + [0] + more);
    var t := s.(sessions := Erased(s.sessions, Find(s.sessions, peer)));
    var packet := RequestPacket(isRead, name, mode, more);
    assert packet == [0, if isRead then 1 else 2] + rest;
    EraseFound(s.sessions, peer);
    hide *;
    RequestRead(s, peer, isRead, rest, opens);
    RequestIs(s, t, peer, isRead, rest, name, mode, more);
    Refusals();
    SameWords(name, mode);
    WriteStarts(s, t, peer, name);
    ReadStarts(s, t, peer, name);
    NoneNow(s, t, peer);
  }

  lemma RequestRead(s: Server, peer: Endpoint, isRead: bool, rest: Bytes, opens: bool)
    requires peer.addr != 0xFFFF_FFFF && |rest| <= 1022
    ensures ServerOn(s, peer, [0, if isRead then 1 else 2] + rest, opens) == OnRequest(s, peer, isRead, rest)
  {
    var packet := [0, if isRead then 1 else 2] + rest;
    assert packet[2..] == rest;
    hide OnRequest, OnAck, OnData, ErrorPacket, UNSUPPORTED;
  }

  lemma RequestIs(s: Server, t: Server, peer: Endpoint, isRead: bool, rest: Bytes, name: Bytes, mode: Bytes,
      more: Bytes)
    requires rest == name + [0] + (mode + [0] + more) && IsText(name) && IsText(mode)
    requires t == s.(sessions := Erased(s.sessions, Find(s.sessions, peer)))
    ensures OnRequest(s, peer, isRead, rest) ==
      if mode != OCTET then Some(Turn(t, ErrorPacket(4, BAD_MODE)))
      else if !ValidFilename(name) then Some(Turn(t, ErrorPacket(1, BAD_NAME)))
      else if isRead then StartRead(t, peer, name)
      else Some(StartWrite(t, peer, name))
  {
    StringExactly(rest, name, mode + [0] + more);
    StringExactly(mode + [0] + more, mode, more);
    hide GetString, ErrorPacket, ValidFilename, StartRead, StartWrite, Erased, Find, BAD_MODE, BAD_NAME, OCTET;
  }

  lemma SameWords(name: Bytes, mode: Bytes)
    ensures ValidFilename(name) <==> PlainName(name)
    ensures mode == OCTET <==> IsOctet(mode)
  {
  }

  lemma ErrorIs(code: Byte, text: Bytes)
    ensures IsError(ErrorPacket(code, text), code)
  {
  }

  lemma Refusals()
    ensures IsError(ErrorPacket(4, BAD_MODE), 4) && IsError(ErrorPacket(1, BAD_NAME), 1)
    ensures IsError(ErrorPacket(1, NOT_FOUND), 1) && IsError(ErrorPacket(2, EXISTS), 2)
    ensures IsError(ErrorPacket(4, UNSUPPORTED), 4)
  {
    hide *;
    ErrorIs(4, BAD_MODE);
    ErrorIs(1, BAD_NAME);
    ErrorIs(1, NOT_FOUND);
    ErrorIs(2, EXISTS);
    ErrorIs(4, UNSUPPORTED);
  }

  // The sender's session has been erased.
  lemma NoneNow(s: Server, t: Server, peer: Endpoint)
    requires t == s.(sessions := t.sessions) && OwnBecomes(s.sessions, t.sessions, peer, None)
    ensures OwnNow(s, t, peer, None)
  {
    hide OwnBecomes;
  }

  // A session has been opened for the sender.
  lemma PushNow(s: Server, t: Server, peer: Endpoint, session: Session)
    requires t == s.(sessions := t.sessions) && OwnBecomes(s.sessions, t.sessions, peer, None) && session.peer == peer
    ensures OwnNow(s, t.(sessions := t.sessions + [session]), peer, Some(session))
  {
    assert OnePerPeer(t.sessions) && Own(t.sessions, peer) == None;
    PushNew(t.sessions, session);
    BecomesTrans(s.sessions, t.sessions, t.sessions + [session], peer, None, Some(session));
    hide OwnBecomes;
  }

  lemma WriteStarts(s: Server, t: Server, peer: Endpoint, name: Bytes)
    requires t == s.(sessions := t.sessions) && OwnBecomes(s.sessions, t.sessions, peer, None)
    ensures name in s.files ==> StartWrite(t, peer, name) == Turn(t, ErrorPacket(2, EXISTS))
    ensures name !in s.files ==>
      var turn := StartWrite(t, peer, name);
      turn.reply == [0, 4, 0, 0] && OwnNow(s, turn.server, peer, Some(Session(peer, name, false, [])))
  {
    PushNow(s, t, peer, Session(peer, name, false, []));
    hide OwnNow, OwnBecomes, ErrorPacket, EXISTS;
  }

  lemma ReadStarts(s: Server, t: Server, peer: Endpoint, name: Bytes)
    requires t == s.(sessions := t.sessions) && OwnBecomes(s.sessions, t.sessions, peer, None)
    ensures name !in s.files ==> StartRead(t, peer, name) == Some(Turn(t, ErrorPacket(1, NOT_FOUND)))
    ensures name in s.files ==>
      var file, turn := s.files[name], StartRead(t, peer, name);
      && (turn.Some? <==> |file| <= 512 * 65534)
      && (turn.Some? ==>
        && turn.value.reply == [0, 3, 0, 1] + file[..if |file| < 512 then |file| else 512]
        && OwnNow(s, turn.value.server, peer, Some(Session(peer, name, true, file))))
  {
    if name in s.files {
      var session := Session(peer, name, true, s.files[name]);
      PushNow(s, t, peer, session);
      FirstBlock(session);
      hide OwnNow, OwnBecomes, SessionBlock;
    }
    hide OwnNow, OwnBecomes, ErrorPacket, NOT_FOUND, SessionBlock;
  }

  lemma FirstBlock(session: Session)
    requires session.isRead
    ensures var file, reply := session.data, SessionBlock(session, 1);
      && (reply.Some? <==> |file| <= 512 * 65534)
      && (reply.Some? ==> reply.value == [0, 3, 0, 1] + file[..if |file| < 512 then |file| else 512])
  {
    if LegalSize(|session.data|) {
      CountIs(|session.data|);
    }
  }

  // ----- what is no request -----

  /** A request without a NUL behind its name, or behind its mode, halts the server. */
  lemma MalformedHalts(s: Server, peer: Endpoint, isRead: bool, name: Bytes, rest: Bytes, opens: bool)
    requires peer.addr != 0xFFFF_FFFF && |name| + |rest| <= 1021 && IsText(name) && IsText(rest)
    ensures ServerOn(s, peer, [0, if isRead then 1 else 2] + rest, opens).None?
    ensures ServerOn(s, peer, [0, if isRead then 1 else 2] + (name + [0] + rest), opens).None?
  {
    hide *;
    RequestRead(s, peer, isRead, rest, opens);
    RequestRead(s, peer, isRead, name + [0] + rest, opens);
    NoStrings(s, peer, isRead, name, rest);
  }

  lemma NoStrings(s: Server, peer: Endpoint, isRead: bool, name: Bytes, rest: Bytes)
    requires IsText(name) && IsText(rest)
    ensures OnRequest(s, peer, isRead, rest).None? && OnRequest(s, peer, isRead, name + [0] + rest).None?
  {
    NoStringExactly(rest);
    StringExactly(name + [0] + rest, name, rest);
    hide GetString, ErrorPacket, ValidFilename, StartRead, StartWrite, Erased, Find;
  }

  /** Any other packet but data and acknowledgements is answered by error 4 and ends the loop,
      as a packet that is too long ends it without an answer; one that is too short to say
      what it is halts the server, and so does a broadcast. */
  lemma OthersStop(s: Server, peer: Endpoint, packet: Bytes, opens: bool)
    ensures var turn := ServerOn(s, peer, packet, opens);
      && (|packet| > 1024 ==> turn == Some(Turn(s.(running := false), [])))
      && (|packet| <= 1024 && (|packet| < 2 || peer.addr == 0xFFFF_FFFF) ==> turn.None?)
      && (2 <= |packet| <= 1024 && peer.addr != 0xFFFF_FFFF && (packet[0] != 0 || packet[1] == 0 || packet[1] > 4) ==>
        turn.Some? && turn.value.server == s.(running := false) && IsError(turn.value.reply, 4))
  {
    Refusals();
    hide OnRequest, OnAck, OnData, ErrorPacket, UNSUPPORTED, IsError;
  }

  // ----- data and acknowledgements -----

  /** Data is taken exactly from a peer with a session to write, as its next block and of at
      most 512 bytes; anything else halts the server. A full block is acknowledged and joins
      the session. A shorter one ends it, and its file is stored, if the name is still free
      and the file can be created; a name that is taken by now gets an error 2 behind the
      acknowledgement, and a file that cannot be created halts the server. */
  lemma DataAnswered(s: Server, peer: Endpoint, block: nat, data: Bytes, opens: bool)
    requires OnePerPeer(s.sessions) && peer.addr != 0xFFFF_FFFF && block < 0x1_0000 && |data| <= 1020
    ensures var turn := ServerOn(s, peer, [0, 3, block / 256, block % 256] + data, opens);
      var own := Own(s.sessions, peer);
      var acked: Bytes := [0, 4, block / 256, block % 256];
      if own.None? || own.value.isRead || block == 0 || |data| > 512
        || block != (|own.value.data| / 512 + 1) % 0x1_0000 then turn.None?
      else if |data| == 512 then
        && turn.Some? && turn.value.reply == acked
        && OwnNow(s, turn.value.server, peer, Some(own.value.(data := own.value.data + data)))
      else if own.value.filename in s.files then
        && turn.Some? && OwnNow(s, turn.value.server, peer, None)
        && |turn.value.reply| > 4 && turn.value.reply[..4] == acked && IsError(turn.value.reply[4..], 2)
      else
        && (turn.Some? <==> opens)
        && (opens ==>
          && turn.value.reply == acked && OwnBecomes(s.sessions, turn.value.server.sessions, peer, None)
          && turn.value.server.files == s.files[own.value.filename := own.value.data + data]
          && turn.value.server.running == s.running)
  {
    var own, rest := Own(s.sessions, peer), U16(block) + data;
    DataRead(s, peer, block, data, opens);
    if own.None? {
      NoneFound(s.sessions, peer);
      hide *;
      NoSession(s, peer, rest, opens);
    } else {
      OwnAt(s.sessions, peer);
      EraseFound(s.sessions, peer);
      var k := Find(s.sessions, peer);
      assert own.value.peer == peer;
      UpdateFound(s.sessions, k, own.value.(data := own.value.data + data));
      hide *;
      Refusals();
      AckErrorIs(block);
      DataIs(s, peer, block, data, opens, k, own.value);
    }
  }

  lemma DataRead(s: Server, peer: Endpoint, block: nat, data: Bytes, opens: bool)
    requires peer.addr != 0xFFFF_FFFF && block < 0x1_0000 && |data| <= 1020
    ensures ServerOn(s, peer, [0, 3, block / 256, block % 256] + data, opens) ==
      OnData(s, peer, U16(block) + data, opens)
  {
    var packet := [0, 3, block / 256, block % 256] + data;
    assert packet[2..] == U16(block) + data;
    hide OnRequest, OnAck, OnData, ErrorPacket, UNSUPPORTED;
  }

  lemma NoneFound(sessions: seq<Session>, peer: Endpoint)
    ensures Own(sessions, peer).None? <==> Find(sessions, peer) == |sessions|
  {
  }

  lemma NoSession(s: Server, peer: Endpoint, rest: Bytes, opens: bool)
    requires Find(s.sessions, peer) == |s.sessions|
    ensures OnData(s, peer, rest, opens).None? && OnAck(s, peer, rest).None?
  {
    hide Find, GetU16, AckPacket, ErrorPacket, Erased, SessionBlock, BlockCount;
  }

  lemma AckErrorIs(block: nat)
    requires block < 0x1_0000
    ensures var both := AckPacket(block) + ErrorPacket(2, EXISTS);
      && AckPacket(block) == [0, 4, block / 256, block % 256]
      && |both| > 4 && both[..4] == AckPacket(block) && both[4..] == ErrorPacket(2, EXISTS)
  {
    hide EXISTS;
  }

  lemma DataIs(s: Server, peer: Endpoint, block: nat, data: Bytes, opens: bool, k: nat, own: Session)
    requires k == Find(s.sessions, peer) && k < |s.sessions| && s.sessions[k] == own && block < 0x1_0000
    ensures var turn := OnData(s, peer, U16(block) + data, opens);
      var own' := own.(data := own.data + data);
      var erased := Erased(s.sessions, k);
      turn ==
        if own.isRead || block == 0 || |data| > 512 || block != (|own.data| / 512 + 1) % 0x1_0000 then None
        else if |data| == 512 then Some(Turn(s.(sessions := s.sessions[k := own']), AckPacket(block)))
        else if own.filename in s.files then
          Some(Turn(s.(sessions := erased), AckPacket(block) + ErrorPacket(2, EXISTS)))
        else if !opens then None
        else Some(Turn(s.(sessions := erased, files := s.files[own.filename := own'.data]), AckPacket(block)))
  {
    U16Back(block, data);
    hide GetU16, Find, AckPacket, ErrorPacket, EXISTS, Erased;
  }

  /** An acknowledgement halts the server exactly when its sender has no session, or one that
      this block is none of, or one to write that is acknowledged before its end. */
  lemma AckHaltsExactly(s: Server, peer: Endpoint, block: nat, opens: bool)
    requires OnePerPeer(s.sessions) && peer.addr != 0xFFFF_FFFF && block < 0x1_0000
    ensures var own := Own(s.sessions, peer);
      ServerOn(s, peer, [0, 4, block / 256, block % 256], opens).None? <==>
        || own.None? || block == 0 || block > BlockCount(|own.value.data|)
        || (block < BlockCount(|own.value.data|) && (!own.value.isRead || |own.value.data| > 512 * 65534))
  {
  }

  // ----- the client -----

  /** A reader takes exactly the block after its last one, of at most 512 bytes: it keeps the
      bytes, acknowledges the block and waits again, and is done if the block was short.
      Whatever else arrives halts it, an error packet included. */
  lemma ReaderAnswers(s: Reading, block: nat, data: Bytes)
    requires block < 0x1_0000
    ensures ReadingOn(s, [0, 3, block / 256, block % 256] + data) ==
      if |data| > 512 || block != s.last + 1 then None
      else
        Some(Moved(Reading(s.filename, block, s.data + data, s.done || |data| < 512, 50),
          [0, 4, block / 256, block % 256]))
  {
    var packet := [0, 3, block / 256, block % 256] + data;
    assert packet[2..][2..] == data;
    assert AckPacket(block) == [0, 4, block / 256, block % 256];
  }

  lemma ReaderTakesData(s: Reading, packet: Bytes)
    requires ReadingOn(s, packet).Some?
    ensures 4 <= |packet| <= 516 && packet[0] == 0 && packet[1] == 3
  {
  }

  /** A writer takes exactly the acknowledgement of a block there is, or of block 0, and sends
      the block after it; the last one needs no answer. Whatever else arrives halts it. */
  lemma WriterAnswers(s: Writing, block: nat, more: Bytes)
    requires WritingOk(s) && block < 0x1_0000 && |more| <= 512
    ensures var count := |s.data| / 512 + 1;
      var moved := WritingOn(s, [0, 4, block / 256, block % 256] + more);
      if block > count then moved.None?
      else if block == count then moved == Some(Moved(s.(last := block), []))
      else
        var at := 512 * block;
        at <= |s.data| && moved ==
          Some(Moved(s.(last := block, timeout := 50),
            [0, 3, (block + 1) / 256, (block + 1) % 256]
              + s.data[at..if |s.data| - at < 512 then |s.data| else at + 512]))
  {
    var packet := [0, 4, block / 256, block % 256] + more;
    assert packet[2..][2..] == more;
    CountIs(|s.data|);
    if block < BlockCount(|s.data|) {
      NextIs(s.(last := block));
    }
    hide NextBlock, BlockCount;
  }

  lemma NextIs(s: Writing)
    requires WritingOk(s) && s.last < BlockCount(|s.data|)
    ensures var at := 512 * s.last;
      at <= |s.data| && NextBlock(s) ==
        [0, 3, (s.last + 1) / 256, (s.last + 1) % 256]
          + s.data[at..if |s.data| - at < 512 then |s.data| else at + 512]
  {
    CountIs(|s.data|);
    var at := 512 * s.last;
    assert |s.data| - at >= 512 ==> s.data[at..][..512] == s.data[at..at + 512];
    hide BlockCount;
  }

  lemma WriterTakesAcks(s: Writing, packet: Bytes)
    requires WritingOk(s) && WritingOn(s, packet).Some?
    ensures 4 <= |packet| <= 516 && packet[0] == 0 && packet[1] == 4
  {
    hide BlockCount, NextBlock;
  }
}
