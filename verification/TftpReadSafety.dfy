/** A reader gets exactly the file. */
module TftpReadSafety {
  import opened Options
  import opened Octets
  import opened TftpPackets
  import opened TftpClients
  import opened TftpServer
  import opened TftpTransfer

  predicate Readable(files: map<Bytes, Bytes>, name: Bytes) {
    name in files && LegalSize(|files[name]|)
  }

  predicate ReaderHas(files: map<Bytes, Bytes>, name: Bytes, r: Reading) {
    && r.filename == name
    && if r.last == 0 then r.data == [] && !r.done
       else
         && Readable(files, name) && r.last <= BlockCount(|files[name]|)
         && r.data == Upto(files[name], r.last)
         && (r.done <==> r.last == BlockCount(|files[name]|))
  }

  // The first `k` blocks of a file; undefined past its end.
  function Upto(file: Bytes, k: nat): Bytes {
    if k * BLOCK_SIZE <= |file| + BLOCK_SIZE then FirstBlocks(file, k) else []
  }

  // A data packet to the reader is a block of the file.
  predicate IsBlock(files: map<Bytes, Bytes>, name: Bytes, packet: Bytes) {
    var op := GetU16(packet);
    op.Some? && op.value.value == DATA ==>
      && Readable(files, name)
      && var block := GetU16(op.value.rest);
         && block.Some? && 1 <= block.value.value <= BlockCount(|files[name]|)
         && BlockIs(files[name], block.value.value, block.value.rest)
  }

  predicate BlockIs(file: Bytes, k: nat, data: Bytes) {
    k >= 1 && (k - 1) * BLOCK_SIZE <= |file| && data == Block(file, k)
  }

  predicate FromReader(name: Bytes, packet: Bytes) {
    packet == Request(RRQ, name) || exists k: nat :: k < 0x1_0000 && packet == AckPacket(k)
  }

  predicate ServesFile(files: map<Bytes, Bytes>, name: Bytes, own: Option<Session>) {
    own.Some? ==> own.value.isRead && Readable(files, name) && own.value.data == files[name]
  }

  ghost predicate Inv(s: System, me: Endpoint, name: Bytes) {
    && IsText(name) && OnePerPeer(s.server.sessions)
    && s.client.Reader? && ReaderHas(s.server.files, name, s.client.reading)
    && (forall p :: p in s.toServer ==> FromReader(name, p))
    && (forall p :: p in s.toClient ==> IsBlock(s.server.files, name, p))
    && ServesFile(s.server.files, name, Own(s.server.sessions, me))
  }

  /** In every run the reader holds exactly as many blocks of the file, from the first on, as
      it has counted, and it is done exactly when that is all of them. */
  lemma ReadSafe(s: System, me: Endpoint, name: Bytes, events: seq<Event>)
    requires StartsReading(s, me, name)
    ensures var t := Run(s, me, events); t.Some? ==>
      && t.value.client.Reader?
      && var r, files := t.value.client.reading, t.value.server.files;
         && (r.last == 0 ==> r.data == [] && !r.done)
         && (r.last > 0 ==>
              && name in files && r.last <= BlockCount(|files[name]|)
              && (r.last < BlockCount(|files[name]|) ==>
                   !r.done && r.last * BLOCK_SIZE <= |files[name]| && r.data == files[name][..r.last * BLOCK_SIZE])
              && (r.last == BlockCount(|files[name]|) ==> r.done && r.data == files[name]))
  {
    var t := Run(s, me, events);
    if t.Some? {
      RunKeeps(s, me, name, events);
      var r, files := t.value.client.reading, t.value.server.files;
      if r.last > 0 {
        BlocksAreFile(files[name], r.last);
      }
    }
  }

  lemma {:induction false} RunKeeps(s: System, me: Endpoint, name: Bytes, events: seq<Event>)
    requires Inv(s, me, name)
    ensures var t := Run(s, me, events); t.Some? ==> Inv(t.value, me, name)
    decreases |events|
  {
    if events != [] {
      var t := Next(s, me, events[0]);
      StepKeeps(s, me, name, events[0]);
      hide Next, Inv;
      if t.Some? {
        RunKeeps(t.value, me, name, events[1..]);
      }
    }
  }

  lemma StepKeeps(s: System, me: Endpoint, name: Bytes, e: Event)
    requires Inv(s, me, name)
    ensures var t := Next(s, me, e); t.Some? ==> Inv(t.value, me, name)
  {
    match e
    case Tick =>
      TickKeeps(s.server.files, name, s.client.reading);
      hide ReadingTick, ReaderHas, IsBlock, FromReader, ServesFile, OnePerPeer, Own;
    case AtClient(packet) =>
      if packet in s.toClient {
        BlockArrives(s.server.files, name, s.client.reading, packet);
      }
      hide ReadingOn, ReaderHas, IsBlock, FromReader, ServesFile, OnePerPeer, Own;
    case AtServer(packet, opens) =>
      if packet in s.toServer {
        TurnKeepsInv(s, me, me, name, packet, opens);
      }
      hide ServerTurns, Inv;
    case FromOther(peer, packet, opens) =>
      if peer != me {
        TurnKeepsInv(s, me, peer, name, packet, opens);
      }
      hide ServerTurns, Inv;
  }

  lemma TurnKeepsInv(s: System, me: Endpoint, peer: Endpoint, name: Bytes, packet: Bytes, opens: bool)
    requires Inv(s, me, name) && (peer == me ==> packet in s.toServer)
    ensures var t := ServerTurns(s, me, peer, packet, opens); t.Some? ==> Inv(t.value, me, name)
  {
    var turn := ServerOn(s.server, peer, packet, opens);
    if turn.Some? {
      TurnKeeps(s.server, peer, packet, opens);
      var files, files' := s.server.files, turn.value.server.files;
      if peer == me {
        Answers(s.server, me, name, packet, opens);
      } else {
        OthersOwn(s.server.sessions, turn.value.server.sessions, peer, Own(turn.value.server.sessions, peer), me);
      }
      assert FilesMore(files, files');
      hide ServerOn, IsBlock, FromReader, ServesFile, OnePerPeer, Own, ReaderHas, OwnBecomes, FilesMore;
      MoreForReader(files, files', name, s.client.reading, Own(s.server.sessions, me));
      forall p | p in s.toClient
        ensures IsBlock(files', name, p)
      {
        MoreForBlock(files, files', name, p);
      }
    }
  }

  predicate FilesMore(files: map<Bytes, Bytes>, files': map<Bytes, Bytes>) {
    forall n :: n in files ==> n in files' && files'[n] == files[n]
  }

  lemma MoreForReader(files: map<Bytes, Bytes>, files': map<Bytes, Bytes>, name: Bytes, r: Reading,
      own: Option<Session>)
    requires FilesMore(files, files') && ReaderHas(files, name, r) && ServesFile(files, name, own)
    ensures ReaderHas(files', name, r) && ServesFile(files', name, own)
  {
  }

  lemma MoreForBlock(files: map<Bytes, Bytes>, files': map<Bytes, Bytes>, name: Bytes, p: Bytes)
    requires FilesMore(files, files') && IsBlock(files, name, p)
    ensures IsBlock(files', name, p)
  {
  }

  // The server answers the reader with blocks of the file, or with errors.
  lemma Answers(s: Server, me: Endpoint, name: Bytes, packet: Bytes, opens: bool)
    requires OnePerPeer(s.sessions) && IsText(name) && ServesFile(s.files, name, Own(s.sessions, me))
    requires FromReader(name, packet)
    ensures var turn := ServerOn(s, me, packet, opens); turn.Some? ==>
      && turn.value.server.files == s.files
      && ServesFile(s.files, name, Own(turn.value.server.sessions, me))
      && (turn.value.reply != [] ==> IsBlock(s.files, name, turn.value.reply))
  {
    if packet == Request(RRQ, name) {
      RequestBack(RRQ, name);
      RequestAnswered(s, me, name);
    } else {
      var k: nat :| k < 0x1_0000 && packet == AckPacket(k);
      AckBack(k, []);
      AckAnswered(s, me, name, k);
    }
    hide OnRequest, OnAck, OnData, ServesFile, IsBlock, OnePerPeer, Own, ErrorPacket, Request, AckPacket;
  }

  lemma RequestAnswered(s: Server, me: Endpoint, name: Bytes)
    requires OnePerPeer(s.sessions) && IsText(name)
    ensures var turn := OnRequest(s, me, true, name + [0] + (OCTET + [0])); turn.Some? ==>
      && turn.value.server.files == s.files
      && ServesFile(s.files, name, Own(turn.value.server.sessions, me))
      && IsBlock(s.files, name, turn.value.reply)
  {
    var t := s.(sessions := Erased(s.sessions, Find(s.sessions, me)));
    EraseFound(s.sessions, me);
    RequestBack(RRQ, name);
    Refused(s, t, me, name, ILLEGAL_OPERATION, BAD_MODE);
    Refused(s, t, me, name, FILE_NOT_FOUND, BAD_NAME);
    Refused(s, t, me, name, FILE_NOT_FOUND, NOT_FOUND);
    if name in s.files {
      Serves(s, t, me, name);
    }
    hide GetString, ErrorPacket, ValidFilename, Erased, Find, OnePerPeer, Own, IsBlock, ServesFile, SessionBlock,
      OCTET, BAD_MODE, BAD_NAME, NOT_FOUND;
  }

  lemma Refused(s: Server, t: Server, me: Endpoint, name: Bytes, code: nat, text: Bytes)
    requires code < 0x1_0000 && t.files == s.files && Own(t.sessions, me) == None
    ensures ServesFile(s.files, name, Own(t.sessions, me)) && IsBlock(s.files, name, ErrorPacket(code, text))
  {
    ErrorIsNoBlock(s.files, name, code, text);
  }

  lemma Serves(s: Server, t: Server, me: Endpoint, name: Bytes)
    requires name in s.files && t.files == s.files && OnePerPeer(t.sessions) && Own(t.sessions, me) == None
    ensures var session := Session(me, name, true, s.files[name]);
      SessionBlock(session, 1).Some? ==>
        ServesFile(s.files, name, Own(t.sessions + [session], me))
          && IsBlock(s.files, name, SessionBlock(session, 1).value)
  {
    var session := Session(me, name, true, s.files[name]);
    PushNew(t.sessions, session);
    SessionSends(s.files, name, session, 1);
    hide SessionBlock, IsBlock, OnePerPeer, Own;
  }

  lemma AckAnswered(s: Server, me: Endpoint, name: Bytes, k: nat)
    requires OnePerPeer(s.sessions) && ServesFile(s.files, name, Own(s.sessions, me)) && k < 0x1_0000
    ensures var turn := OnAck(s, me, U16(k) + []); turn.Some? ==>
      && turn.value.server.files == s.files
      && ServesFile(s.files, name, Own(turn.value.server.sessions, me))
      && (turn.value.reply != [] ==> IsBlock(s.files, name, turn.value.reply))
  {
    AckBack(k, []);
    EraseFound(s.sessions, me);
    var own := Own(s.sessions, me);
    if own.Some? {
      SessionSends(s.files, name, own.value, k + 1);
    }
    hide GetU16, Erased, Find, OnePerPeer, IsBlock, SessionBlock;
  }

  lemma SessionSends(files: map<Bytes, Bytes>, name: Bytes, session: Session, k: nat)
    requires name in files && session.data == files[name]
    ensures var reply := SessionBlock(session, k); reply.Some? ==>
      Readable(files, name) && IsBlock(files, name, reply.value)
  {
    if SessionBlock(session, k).Some? {
      BlocksAreFile(session.data, k);
      DataBack(k, Block(session.data, k));
    }
    hide GetU16, DataPacket, Block, BlockCount;
  }

  lemma ErrorIsNoBlock(files: map<Bytes, Bytes>, name: Bytes, code: nat, text: Bytes)
    requires code < 0x1_0000
    ensures IsBlock(files, name, ErrorPacket(code, text))
  {
    ErrorBack(code, text);
    hide ErrorPacket, GetU16;
  }

  lemma TickKeeps(files: map<Bytes, Bytes>, name: Bytes, r: Reading)
    requires ReaderHas(files, name, r)
    ensures var m := ReadingTick(r); m.Some? ==>
      ReaderHas(files, name, m.value.state) && (m.value.sent != [] ==> FromReader(name, m.value.sent))
  {
    hide Upto;
  }

  lemma BlockArrives(files: map<Bytes, Bytes>, name: Bytes, r: Reading, packet: Bytes)
    requires ReaderHas(files, name, r) && IsBlock(files, name, packet)
    ensures var m := ReadingOn(r, packet); m.Some? ==>
      ReaderHas(files, name, m.value.state) && FromReader(name, m.value.sent)
  {
    var op := GetU16(packet);
    if op.Some? && op.value.value == DATA {
      var block := GetU16(op.value.rest);
      var k := block.value.value;
      BlocksAreFile(files[name], k);
      BlocksAreFile(files[name], 0);
      hide GetU16, BlockCount, Block;
    }
  }
}
