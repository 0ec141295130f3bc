/** What an undisturbed network makes possible: reads that finish. */
module TftpReadCompletion {
  import opened Options
  import opened Octets
  import opened TftpPackets
  import opened TftpClients
  import opened TftpServer
  import opened TftpTransfer
  import opened TftpReadSafety

  // The server has its session, and block `k` is on its way to the reader.
  ghost predicate Fed(s: System, me: Endpoint, name: Bytes, k: nat) {
    && Serving(s, me, name) && 1 <= k <= BlockCount(|s.server.files[name]|)
    && s.client.reading.last == k - 1 && BlockPacket(s.server.files[name], k) in s.toClient
  }

  ghost predicate Serving(s: System, me: Endpoint, name: Bytes) {
    && Inv(s, me, name) && s.server.running && Readable(s.server.files, name) && me.addr != BROADCAST
    && Own(s.server.sessions, me) == Some(Session(me, name, true, s.server.files[name]))
  }

  function BlockPacket(file: Bytes, k: nat): Bytes {
    if 1 <= k < 0x1_0000 && (k - 1) * BLOCK_SIZE <= |file| then DataPacket(k, Block(file, k)) else []
  }

  /** Every readable file can be read: there is a run in which the reader gets it all. */
  lemma ReadCompletes(s: System, me: Endpoint, name: Bytes) returns (events: seq<Event>)
    requires StartsReading(s, me, name) && s.server.running && me.addr != BROADCAST
    requires Readable(s.server.files, name) && ValidFilename(name) && |name| < MAX_NAME
    ensures var t := Run(s, me, events);
      t.Some? && t.value.client.Reader? && t.value.client.reading.done
      && name in t.value.server.files && t.value.client.reading.data == t.value.server.files[name]
  {
    var e := AtServer(Request(RRQ, name), true);
    RequestServed(s, me, name);
    var t := Next(s, me, e).value;
    var rest := Finish(t, me, name, 1);
    events := [e] + rest;
    hide Next, ServerOn, Fed;
    RunCons(s, me, e, rest);
    ReadSafe(s, me, name, events);
  }

  lemma RunCons(s: System, me: Endpoint, e: Event, rest: seq<Event>)
    requires ClientOk(s.client) && Next(s, me, e).Some?
    ensures ClientOk(Next(s, me, e).value.client) && Run(s, me, [e] + rest) == Run(Next(s, me, e).value, me, rest)
  {
    NextOk(s, me, e);
    hide Next;
    assert ([e] + rest)[1..] == rest;
  }

  lemma {:induction false} Finish(s: System, me: Endpoint, name: Bytes, k: nat) returns (events: seq<Event>)
    requires Fed(s, me, name, k)
    ensures ClientOk(s.client)
    ensures var t := Run(s, me, events); t.Some? && t.value.client.Reader? && t.value.client.reading.done
    decreases BlockCount(|s.server.files[name]|) - k
  {
    hide *;
    FedIs(s, me, name, k);
    var file := s.server.files[name];
    var e1 := AtClient(BlockPacket(file, k));
    TakesBlock(s, me, name, k);
    var s1 := Next(s, me, e1).value;
    var rest;
    if k == BlockCount(|file|) {
      rest := [];
      NextOk(s, me, e1);
      RunNothing(s1, me);
    } else {
      var e2 := AtServer(AckPacket(k), true);
      AckServed(s1, me, name, k);
      var s2 := Next(s1, me, e2).value;
      var rest' := Finish(s2, me, name, k + 1);
      rest := [e2] + rest';
      RunCons(s1, me, e2, rest');
    }
    RunCons(s, me, e1, rest);
    events := [e1] + rest;
  }

  lemma FedIs(s: System, me: Endpoint, name: Bytes, k: nat)
    requires Fed(s, me, name, k)
    ensures name in s.server.files && 1 <= k <= BlockCount(|s.server.files[name]|)
  {
    hide Inv, BlockCount, Own, BlockPacket;
  }

  lemma RunNothing(s: System, me: Endpoint)
    requires ClientOk(s.client)
    ensures Run(s, me, []) == Some(s)
  {
  }

  lemma TakesBlock(s: System, me: Endpoint, name: Bytes, k: nat)
    requires Fed(s, me, name, k)
    ensures ClientOk(s.client)
    ensures var t := Next(s, me, AtClient(BlockPacket(s.server.files[name], k)));
      t.Some? && Serving(t.value, me, name) && t.value.server == s.server && k < 0x1_0000
        && AckPacket(k) in t.value.toServer
      && t.value.client.Reader? && t.value.client.reading.last == k
      && (k == BlockCount(|s.server.files[name]|) ==> t.value.client.reading.done)
  {
    var file := s.server.files[name];
    BlocksAreFile(file, k);
    DataBack(k, Block(file, k));
    StepKeeps(s, me, name, AtClient(BlockPacket(file, k)));
    hide GetU16, Block, BlockCount, Own, OnePerPeer, ReaderHas, IsBlock, FromReader, ServesFile;
  }

  lemma AckServed(s: System, me: Endpoint, name: Bytes, k: nat)
    requires Serving(s, me, name) && 1 <= k < BlockCount(|s.server.files[name]|)
    requires AckPacket(k) in s.toServer && s.client.reading.last == k
    ensures ClientOk(s.client)
    ensures var t := Next(s, me, AtServer(AckPacket(k), true));
      t.Some? && Fed(t.value, me, name, k + 1) && t.value.server == s.server
  {
    var file := s.server.files[name];
    BlocksAreFile(file, k + 1);
    AckBack(k, []);
    StepKeeps(s, me, name, AtServer(AckPacket(k), true));
    hide GetU16, Block, BlockCount, Inv, OnePerPeer;
  }

  lemma RequestServed(s: System, me: Endpoint, name: Bytes)
    requires StartsReading(s, me, name) && s.server.running && me.addr != BROADCAST
    requires Readable(s.server.files, name) && ValidFilename(name) && |name| < MAX_NAME
    ensures ClientOk(s.client)
    ensures var t := Next(s, me, AtServer(Request(RRQ, name), true)); t.Some? && Fed(t.value, me, name, 1)
  {
    var e := AtServer(Request(RRQ, name), true);
    ReaderStarts(s, me, name);
    hide *;
    ReadServed(s.server, me, name);
    TurnIs(s, me, me, Request(RRQ, name), true);
    StepKeeps(s, me, name, e);
    FedFrom(Next(s, me, e).value, me, name);
  }

  lemma ReaderStarts(s: System, me: Endpoint, name: Bytes)
    requires StartsReading(s, me, name) && Readable(s.server.files, name)
    ensures ClientOk(s.client) && Inv(s, me, name) && OnePerPeer(s.server.sessions) && IsText(name)
    ensures s.client.Reader? && s.client.reading.last == 0 && Request(RRQ, name) in s.toServer
    ensures LegalSize(|s.server.files[name]|)
  {
    hide OnePerPeer, Own, IsText, Request;
  }

  // A request to read a file opens a session, and the first block is the answer.
  lemma ReadServed(server: Server, peer: Endpoint, name: Bytes)
    requires OnePerPeer(server.sessions) && IsText(name) && Readable(server.files, name) && peer.addr != BROADCAST
    requires ValidFilename(name) && |name| < MAX_NAME
    ensures var turn := ServerOn(server, peer, Request(RRQ, name), true);
      && turn.Some? && turn.value.server.files == server.files && turn.value.server.running == server.running
      && Own(turn.value.server.sessions, peer) == Some(Session(peer, name, true, server.files[name]))
      && turn.value.reply == BlockPacket(server.files[name], 1) && turn.value.reply != []
  {
    var file := server.files[name];
    var session := Session(peer, name, true, file);
    var t := Erased(server.sessions, Find(server.sessions, peer));
    RequestBack(RRQ, name);
    EraseFound(server.sessions, peer);
    PushNew(t, session);
    FirstServed(session);
    assert |Request(RRQ, name)| <= MAX_RECEIVED;
    hide GetU16, GetString, OnePerPeer, Own, Erased, Find, Request, ValidFilename, SessionBlock, BlockPacket;
  }

  lemma FirstServed(session: Session)
    requires session.isRead && LegalSize(|session.data|)
    ensures SessionBlock(session, 1) == Some(BlockPacket(session.data, 1)) && BlockPacket(session.data, 1) != []
  {
    BlocksAreFile(session.data, 1);
    hide Block, BlockCount, FirstBlocks;
  }

  lemma FedFrom(s: System, me: Endpoint, name: Bytes)
    requires Inv(s, me, name) && s.server.running && Readable(s.server.files, name) && me.addr != BROADCAST
    requires Own(s.server.sessions, me) == Some(Session(me, name, true, s.server.files[name]))
    requires s.client.reading.last == 0 && BlockPacket(s.server.files[name], 1) in s.toClient
    ensures Fed(s, me, name, 1)
  {
    BlocksAreFile(s.server.files[name], 1);
    hide Inv, Own, BlockPacket, BlockCount, FirstBlocks, Block;
  }
}
