/** Writes that finish, and what a rival can do to them. */
module TftpWriteCompletion {
  import opened Options
  import opened Octets
  import opened TftpPackets
  import opened TftpClients
  import opened TftpServer
  import opened TftpTransfer
  import opened TftpWriteSafety
  import TftpReadCompletion

  // The server holds the first `k` blocks, and its acknowledgement is on its way.
  ghost predicate Fed(s: System, j: Job, k: nat) {
    && Taking(s, j) && k < BlockCount(|j.data|)
    && Holds(s.server, j, k) && AckPacket(k) in s.toClient
  }

  ghost predicate Taking(s: System, j: Job) {
    Inv(s, j) && s.server.running && j.me.addr != BROADCAST
  }

  predicate Holds(server: Server, j: Job, k: nat) {
    k * BLOCK_SIZE <= |j.data|
      && Own(server.sessions, j.me) == Some(Session(j.me, j.name, false, j.data[..k * BLOCK_SIZE]))
  }

  function Piece(j: Job, k: nat): Bytes {
    if k < 0x1_0000 && HasPiece(j, k) then DataPacket(k, Block(j.data, k)) else []
  }

  // What the file is in the end.
  function Outcome(files: map<Bytes, Bytes>, j: Job): Bytes {
    if j.name in files then files[j.name] else j.data
  }

  predicate Finished(t: Option<System>, j: Job, content: Bytes) {
    t.Some? && t.value.client.Writer? && WritingDone(t.value.client.writing)
    && j.name in t.value.server.files && t.value.server.files[j.name] == content
  }

  // The server is ready for a write to begin.
  predicate Ready(s: System, j: Job) {
    && JobOk(j) && StartsWriting(s, j.me, j.name, j.data) && s.server.running && j.me.addr != BROADCAST
    && j.name !in s.server.files && ValidFilename(j.name) && |j.name| < MAX_NAME
  }

  /** Every write can finish: there is a run in which the data is stored and the writer done. */
  lemma WriteCompletes(s: System, j: Job) returns (events: seq<Event>)
    requires Ready(s, j)
    ensures Finished(Run(s, j.me, events), j, j.data)
  {
    Begin(s, j);
    var e := AtServer(Request(WRQ, j.name), true);
    var t := Next(s, j.me, e).value;
    var rest := Finish(t, j, 0);
    events := [e] + rest;
    hide Next, ServerOn, Fed;
    TftpReadCompletion.RunCons(s, j.me, e, rest);
  }

  /** That no rival stores the name meanwhile is needed: for any short content, any other
      peer can store that while the writer ends up done all the same. */
  lemma RivalWins(s: System, j: Job, rival: Endpoint, other: Bytes) returns (events: seq<Event>)
    requires Ready(s, j) && rival != j.me && rival.addr != BROADCAST && |other| < BLOCK_SIZE
    ensures Finished(Run(s, j.me, events), j, other)
  {
    Begin(s, j);
    var e := AtServer(Request(WRQ, j.name), true);
    var t := Next(s, j.me, e).value;
    var e1, e2 := FromOther(rival, Request(WRQ, j.name), true), FromOther(rival, DataPacket(1, other), true);
    RivalAsks(t, j, rival);
    var t1 := Next(t, j.me, e1).value;
    RivalStores(t1, j, rival, other);
    var t2 := Next(t1, j.me, e2).value;
    var rest := Finish(t2, j, 0);
    hide Next, ServerOn, Fed, Finished;
    TftpReadCompletion.RunCons(t1, j.me, e2, rest);
    TftpReadCompletion.RunCons(t, j.me, e1, [e2] + rest);
    TftpReadCompletion.RunCons(s, j.me, e, [e1] + ([e2] + rest));
    events := [e] + ([e1] + ([e2] + rest));
  }

  lemma Begin(s: System, j: Job)
    requires Ready(s, j)
    ensures ClientOk(s.client)
    ensures var t := Next(s, j.me, AtServer(Request(WRQ, j.name), true));
      t.Some? && Fed(t.value, j, 0) && t.value.server.files == s.server.files
  {
    var e := AtServer(Request(WRQ, j.name), true);
    hide *;
    ReadyIs(s, j);
    WriterStarts(s, j);
    InvIs(s, j);
    AskedOn(s.server, j.me, j.name);
    TurnIs(s, j.me, j.me, Request(WRQ, j.name), true);
    StepKeeps(s, j, e);
    FedFirst(Next(s, j.me, e).value, j);
  }

  lemma ReadyIs(s: System, j: Job)
    requires Ready(s, j)
    ensures ClientOk(s.client) && s.server.running && j.me.addr != BROADCAST && Request(WRQ, j.name) in s.toServer
    ensures j.name !in s.server.files && ValidFilename(j.name) && |j.name| < MAX_NAME && JobOk(j)
  {
    hide OnePerPeer, Own, Request, ValidFilename, JobOk, WritingOk;
    assert WritingOk(AskToWrite(j.name, j.data).state) by { StartIsOk(j); }
  }

  lemma StartIsOk(j: Job)
    requires LegalSize(|j.data|)
    ensures WritingOk(AskToWrite(j.name, j.data).state)
  {
  }

  lemma WriterStarts(s: System, j: Job)
    requires Ready(s, j)
    ensures Inv(s, j)
  {
    BlocksAreFile(j.data, 0);
    hide HoldsPrefix, BlockCount;
  }

  lemma InvIs(s: System, j: Job)
    requires Inv(s, j)
    ensures OnePerPeer(s.server.sessions) && JobOk(j) && IsText(j.name) && ClientOk(s.client)
  {
    hide OnePerPeer, StoredOk, SessionOk, FromWriter, AckOk;
  }

  lemma FedFirst(s: System, j: Job)
    requires Inv(s, j) && s.server.running && j.me.addr != BROADCAST
    requires Own(s.server.sessions, j.me) == Some(Session(j.me, j.name, false, [])) && AckPacket(0) in s.toClient
    ensures Fed(s, j, 0)
  {
    InvIs(s, j);
    assert LegalSize(|j.data|) by { hide Inv, Own, AckPacket; }
    BlocksAreFile(j.data, 0);
    assert j.data[..0] == [];
    hide Inv, Own, AckPacket, BlockCount;
  }

  // What another client does leaves the writer where it is.
  lemma FedKept(s: System, j: Job, t: System, k: nat)
    requires Fed(s, j, k) && Inv(t, j) && t.server.running && t.toClient == s.toClient
    requires Own(t.server.sessions, j.me) == Own(s.server.sessions, j.me)
    ensures Fed(t, j, k)
  {
    hide Inv, Own, AckPacket, BlockCount;
  }

  lemma AskedOn(server: Server, peer: Endpoint, name: Bytes)
    requires OnePerPeer(server.sessions) && IsText(name) && name !in server.files && ValidFilename(name)
    requires |name| < MAX_NAME && peer.addr != BROADCAST
    ensures ServerOn(server, peer, Request(WRQ, name), true).Some?
    ensures var turn := ServerOn(server, peer, Request(WRQ, name), true).value;
      && Sent({}, turn.reply) == {AckPacket(0)} && turn.reply == AckPacket(0) && turn.reply != []
      && turn.server.files == server.files && turn.server.running == server.running
      && OnePerPeer(turn.server.sessions) && Own(turn.server.sessions, peer) == Some(Session(peer, name, false, []))
      && OwnBecomes(server.sessions, turn.server.sessions, peer, Some(Session(peer, name, false, [])))
  {
    Asked(server, peer, name);
    RequestBack(WRQ, name);
    assert AckPacket(0) != [];
    hide OnRequest, OnePerPeer, Own, GetU16, ValidFilename, OwnBecomes, AckPacket, Request;
  }

  // A request to write a free name opens a session.
  lemma Asked(server: Server, peer: Endpoint, name: Bytes)
    requires OnePerPeer(server.sessions) && IsText(name) && name !in server.files && ValidFilename(name)
    requires |name| < MAX_NAME
    ensures |Request(WRQ, name)| <= MAX_RECEIVED
    ensures OnRequest(server, peer, false, name + [0] + (OCTET + [0])).Some?
    ensures var turn := OnRequest(server, peer, false, name + [0] + (OCTET + [0])).value;
      && turn.reply == AckPacket(0) && turn.server.files == server.files && turn.server.running == server.running
      && OnePerPeer(turn.server.sessions) && Own(turn.server.sessions, peer) == Some(Session(peer, name, false, []))
      && OwnBecomes(server.sessions, turn.server.sessions, peer, Own(turn.server.sessions, peer))
  {
    var t := Erased(server.sessions, Find(server.sessions, peer));
    RequestBack(WRQ, name);
    EraseFound(server.sessions, peer);
    PushNew(t, Session(peer, name, false, []));
    BecomesTrans(server.sessions, t, t + [Session(peer, name, false, [])], peer, None,
      Some(Session(peer, name, false, [])));
    hide GetU16, GetString, OnePerPeer, Own, Erased, Find, ValidFilename, AckPacket;
  }

  lemma RivalAsks(s: System, j: Job, rival: Endpoint)
    requires Fed(s, j, 0) && rival != j.me && rival.addr != BROADCAST && j.name !in s.server.files
    requires ValidFilename(j.name) && |j.name| < MAX_NAME
    ensures ClientOk(s.client)
    ensures var t := Next(s, j.me, FromOther(rival, Request(WRQ, j.name), true));
      t.Some? && Fed(t.value, j, 0) && t.value.server.files == s.server.files
      && Own(t.value.server.sessions, rival) == Some(Session(rival, j.name, false, []))
  {
    var e := FromOther(rival, Request(WRQ, j.name), true);
    hide *;
    FedIs(s, j, 0);
    InvIs(s, j);
    AskedOn(s.server, rival, j.name);
    TurnIs(s, j.me, rival, Request(WRQ, j.name), true);
    StepKeeps(s, j, e);
    var t := Next(s, j.me, e).value;
    OthersOwn(s.server.sessions, t.server.sessions, rival, Own(t.server.sessions, rival), j.me);
    FedKept(s, j, t, 0);
  }

  lemma FedIs(s: System, j: Job, k: nat)
    requires Fed(s, j, k)
    ensures Inv(s, j) && s.server.running && j.me.addr != BROADCAST && k < BlockCount(|j.data|) < 0x1_0000
    ensures Holds(s.server, j, k) && AckPacket(k) in s.toClient
  {
    hide Inv, Holds, AckPacket;
  }

  lemma RivalStores(s: System, j: Job, rival: Endpoint, other: Bytes)
    requires Fed(s, j, 0) && rival != j.me && rival.addr != BROADCAST && j.name !in s.server.files
    requires |other| < BLOCK_SIZE
    requires Own(s.server.sessions, rival) == Some(Session(rival, j.name, false, []))
    ensures ClientOk(s.client)
    ensures var t := Next(s, j.me, FromOther(rival, DataPacket(1, other), true));
      t.Some? && Fed(t.value, j, 0) && j.name in t.value.server.files && t.value.server.files[j.name] == other
  {
    var e := FromOther(rival, DataPacket(1, other), true);
    hide *;
    FedIs(s, j, 0);
    InvIs(s, j);
    OnlyBlock(s.server, rival, j.name, other);
    TurnIs(s, j.me, rival, DataPacket(1, other), true);
    StepKeeps(s, j, e);
    var t := Next(s, j.me, e).value;
    OthersOwn(s.server.sessions, t.server.sessions, rival, None, j.me);
    FedKept(s, j, t, 0);
  }

  // One short block is the whole file, and stored.
  lemma OnlyBlock(server: Server, peer: Endpoint, name: Bytes, data: Bytes)
    requires OnePerPeer(server.sessions) && name !in server.files && |data| < BLOCK_SIZE && peer.addr != BROADCAST
    requires Own(server.sessions, peer) == Some(Session(peer, name, false, []))
    ensures var turn := ServerOn(server, peer, DataPacket(1, data), true);
      && turn.Some? && turn.value.server.running == server.running
      && turn.value.server.files == server.files[name := data]
      && OwnBecomes(server.sessions, turn.value.server.sessions, peer, None)
  {
    hide *;
    OwnAt(server.sessions, peer);
    EraseFound(server.sessions, peer);
    OnlyBlockIs(server, peer, data);
  }

  lemma OnlyBlockIs(server: Server, peer: Endpoint, data: Bytes)
    requires |data| < BLOCK_SIZE && peer.addr != BROADCAST && Find(server.sessions, peer) < |server.sessions|
    requires var session := server.sessions[Find(server.sessions, peer)];
      !session.isRead && session.data == [] && session.filename !in server.files
    ensures var k := Find(server.sessions, peer);
      var turn := ServerOn(server, peer, DataPacket(1, data), true);
      && turn.Some? && turn.value.server.running == server.running
      && turn.value.server.files == server.files[server.sessions[k].filename := data]
      && turn.value.server.sessions == Erased(server.sessions, k)
  {
    DataBack(1, data);
    PacketSize(1, data);
    assert [] + data == data;
    assert Expected(server.sessions[Find(server.sessions, peer)]) == 1;
    hide GetU16, Erased, Find, AckPacket, DataPacket, Expected;
  }

  lemma PacketSize(k: nat, data: Bytes)
    requires k < 0x1_0000 && |data| <= BLOCK_SIZE
    ensures |DataPacket(k, data)| <= MAX_RECEIVED
  {
  }

  lemma {:induction false} Finish(s: System, j: Job, k: nat) returns (events: seq<Event>)
    requires Fed(s, j, k)
    ensures ClientOk(s.client)
    ensures Finished(Run(s, j.me, events), j, Outcome(s.server.files, j))
    decreases BlockCount(|j.data|) - k
  {
    hide *;
    FedIs(s, j, k);
    var e1 := AtClient(AckPacket(k));
    SendsPiece(s, j, k);
    var s1 := Next(s, j.me, e1).value;
    var e2 := AtServer(Piece(j, k + 1), true);
    TakesPiece(s1, j, k + 1);
    var s2 := Next(s1, j.me, e2).value;
    var rest;
    if k + 1 == BlockCount(|j.data|) {
      var reply := LastReply(s1.server, j);
      rest := [AtClient(reply)];
      LastReplyIs(s1.server, j);
      Ends(s2, j, reply, s2.server.files[j.name]);
    } else {
      rest := Finish(s2, j, k + 1);
    }
    TftpReadCompletion.RunCons(s1, j.me, e2, rest);
    TftpReadCompletion.RunCons(s, j.me, e1, [e2] + rest);
    events := [e1] + ([e2] + rest);
  }

  lemma Ends(s: System, j: Job, reply: Bytes, content: Bytes)
    requires Taking(s, j) && reply in s.toClient
    requires reply == AckPacket(BlockCount(|j.data|))
      || reply == AckPacket(BlockCount(|j.data|)) + ErrorPacket(ACCESS_VIOLATION, EXISTS)
    requires j.name in s.server.files && s.server.files[j.name] == content
    ensures ClientOk(s.client) && Finished(Run(s, j.me, [AtClient(reply)]), j, content)
  {
    hide *;
    var e := AtClient(reply);
    LastAck(s, j, reply);
    var t := Next(s, j.me, e).value;
    TftpReadCompletion.RunCons(s, j.me, e, []);
    assert [e] + [] == [e];
    TftpReadCompletion.RunNothing(t, j.me);
    FinishedFrom(t, j, content);
  }

  lemma FinishedFrom(t: System, j: Job, content: Bytes)
    requires t.client.Writer? && WritingDone(t.client.writing)
    requires j.name in t.server.files && t.server.files[j.name] == content
    ensures Finished(Some(t), j, content)
  {
    hide WritingDone;
  }

  lemma SendsPiece(s: System, j: Job, k: nat)
    requires Fed(s, j, k)
    ensures ClientOk(s.client)
    ensures var t := Next(s, j.me, AtClient(AckPacket(k)));
      t.Some? && Taking(t.value, j) && t.value.server == s.server && HasPiece(j, k + 1)
        && Holds(t.value.server, j, k) && Piece(j, k + 1) in t.value.toServer
  {
    hide *;
    FedIs(s, j, k);
    WriterIs(s, j);
    AckMoves(s.client.writing, j, k);
    MoveIs(s, j.me, AckPacket(k));
    StepKeeps(s, j, AtClient(AckPacket(k)));
    var t := Next(s, j.me, AtClient(AckPacket(k))).value;
    TakingFrom(t, j);
    SentIs(s.toServer, Piece(j, k + 1));
  }

  lemma SentIs(net: set<Bytes>, packet: Bytes)
    requires packet != []
    ensures Sent(net, packet) == net + {packet}
  {
  }

  lemma TakingFrom(s: System, j: Job)
    requires Inv(s, j) && s.server.running && j.me.addr != BROADCAST
    ensures Taking(s, j)
  {
    hide Inv;
  }

  lemma WriterIs(s: System, j: Job)
    requires Inv(s, j)
    ensures ClientOk(s.client) && s.client.Writer? && s.client.writing.data == j.data && WritingOk(s.client.writing)
    ensures LegalSize(|j.data|)
  {
    hide OnePerPeer, StoredOk, SessionOk, FromWriter, AckOk, WritingOk, WritingDone;
  }

  // Any acknowledgement but the last is answered with the next block.
  lemma AckMoves(w: Writing, j: Job, k: nat)
    requires WritingOk(w) && w.data == j.data && LegalSize(|j.data|) && k < BlockCount(|j.data|)
    ensures HasPiece(j, k + 1) && Piece(j, k + 1) != []
    ensures var m := WritingOn(w, AckPacket(k));
      m.Some? && m.value.sent == Piece(j, k + 1)
  {
    BlocksAreFile(j.data, k + 1);
    AckBack(k, []);
    assert |AckPacket(k)| <= MAX_PACKET && AckPacket(k) + [] == AckPacket(k);
    assert DataPacket(k + 1, Block(j.data, k + 1)) != [];
    hide GetU16, Block, BlockCount, FirstBlocks, AckPacket, DataPacket;
  }

  function LastReply(server: Server, j: Job): Bytes {
    AckPacket(BlockCount(|j.data|)) + if j.name in server.files then ErrorPacket(ACCESS_VIOLATION, EXISTS) else []
  }

  lemma LastReplyIs(server: Server, j: Job)
    ensures LastReply(server, j) == AckPacket(BlockCount(|j.data|))
      || LastReply(server, j) == AckPacket(BlockCount(|j.data|)) + ErrorPacket(ACCESS_VIOLATION, EXISTS)
  {
    AckBack(0, []);
    assert AckPacket(BlockCount(|j.data|)) + [] == AckPacket(BlockCount(|j.data|));
    hide AckPacket, ErrorPacket, BlockCount;
  }

  lemma TakesPiece(s: System, j: Job, k: nat)
    requires Taking(s, j) && HasPiece(j, k) && Holds(s.server, j, k - 1) && Piece(j, k) in s.toServer
    ensures ClientOk(s.client)
    ensures var t := Next(s, j.me, AtServer(Piece(j, k), true));
      && t.Some? && Taking(t.value, j)
      && (k < BlockCount(|j.data|) ==> Fed(t.value, j, k) && t.value.server.files == s.server.files)
      && (k == BlockCount(|j.data|) ==>
        LastReply(s.server, j) in t.value.toClient && j.name in t.value.server.files
        && t.value.server.files[j.name] == Outcome(s.server.files, j))
  {
    var e := AtServer(Piece(j, k), true);
    hide *;
    TakingIs(s, j);
    InvIs(s, j);
    PieceAccepted(s.server, j, k);
    TurnIs(s, j.me, j.me, Piece(j, k), true);
    StepKeeps(s, j, e);
    var t := Next(s, j.me, e).value;
    SentIs(s.toClient, ServerOn(s.server, j.me, Piece(j, k), true).value.reply);
    TakingFrom(t, j);
    if k < BlockCount(|j.data|) {
      FedFrom(t, j, k);
    }
  }

  lemma TakingIs(s: System, j: Job)
    requires Taking(s, j)
    ensures Inv(s, j) && s.server.running && j.me.addr != BROADCAST
  {
    hide Inv;
  }

  lemma FedFrom(s: System, j: Job, k: nat)
    requires Taking(s, j) && k < BlockCount(|j.data|) && Holds(s.server, j, k) && AckPacket(k) in s.toClient
    ensures Fed(s, j, k)
  {
    hide Taking, Holds, AckPacket, BlockCount;
  }

  lemma PieceAccepted(server: Server, j: Job, k: nat)
    requires JobOk(j) && OnePerPeer(server.sessions) && HasPiece(j, k) && Holds(server, j, k - 1)
    requires j.me.addr != BROADCAST
    ensures ServerOn(server, j.me, Piece(j, k), true).Some?
    ensures var turn := ServerOn(server, j.me, Piece(j, k), true).value;
      && turn.server.running == server.running && turn.reply != []
      && (k < BlockCount(|j.data|) ==>
        turn.reply == AckPacket(k) && turn.server.files == server.files && Holds(turn.server, j, k))
      && (k == BlockCount(|j.data|) ==>
        turn.reply == LastReply(server, j) && j.name in turn.server.files
        && turn.server.files[j.name] == Outcome(server.files, j))
  {
    var data := Block(j.data, k);
    PieceIs(j, k);
    hide *;
    Accepted(server, j, k);
    DataServed(server, j.me, k, data);
  }

  lemma PieceIs(j: Job, k: nat)
    requires JobOk(j) && HasPiece(j, k)
    ensures k < 0x1_0000 && |Block(j.data, k)| <= BLOCK_SIZE && Piece(j, k) == DataPacket(k, Block(j.data, k))
  {
    BlocksAreFile(j.data, k);
    hide FirstBlocks, DataPacket;
  }

  lemma DataServed(server: Server, peer: Endpoint, k: nat, data: Bytes)
    requires k < 0x1_0000 && |data| <= BLOCK_SIZE && peer.addr != BROADCAST
    ensures ServerOn(server, peer, DataPacket(k, data), true) == OnData(server, peer, U16(k) + data, true)
  {
    DataBack(k, data);
    PacketSize(k, data);
    hide GetU16, OnData, DataPacket, U16;
  }

  lemma Accepted(server: Server, j: Job, k: nat)
    requires JobOk(j) && OnePerPeer(server.sessions) && HasPiece(j, k) && Holds(server, j, k - 1)
    ensures OnData(server, j.me, U16(k) + Block(j.data, k), true).Some?
    ensures var turn := OnData(server, j.me, U16(k) + Block(j.data, k), true).value;
      && turn.server.running == server.running && turn.reply != []
      && (k < BlockCount(|j.data|) ==>
        turn.reply == AckPacket(k) && turn.server.files == server.files && Holds(turn.server, j, k))
      && (k == BlockCount(|j.data|) ==>
        turn.reply == LastReply(server, j) && j.name in turn.server.files
        && turn.server.files[j.name] == Outcome(server.files, j))
  {
    DataBack(k, Block(j.data, k));
    BlocksAreFile(j.data, k);
    EraseFound(server.sessions, j.me);
    var i := Find(server.sessions, j.me);
    var session := server.sessions[i];
    var session' := session.(data := session.data + Block(j.data, k));
    UpdateFound(server.sessions, i, session');
    Grown(j, session, k);
    hide GetU16, ErrorPacket, AckPacket, BlockCount, Erased, Find, OnePerPeer, DataPacket, Block, Expected, EXISTS;
  }

  lemma Grown(j: Job, session: Session, k: nat)
    requires JobOk(j) && HasPiece(j, k) && !session.isRead && session.filename == j.name
    requires session.data == j.data[..(k - 1) * BLOCK_SIZE]
    ensures Expected(session) == k
    ensures var data := session.data + Block(j.data, k);
      if k < BlockCount(|j.data|) then |Block(j.data, k)| == BLOCK_SIZE && k * BLOCK_SIZE <= |j.data|
        && data == j.data[..k * BLOCK_SIZE]
      else |Block(j.data, k)| < BLOCK_SIZE && data == j.data
  {
    BlocksAreFile(j.data, k);
    assert Expected(session) == k;
    NextPrefix(j, session, k);
    hide Block, Expected, BlockCount;
  }

  lemma LastAck(s: System, j: Job, reply: Bytes)
    requires Taking(s, j) && reply in s.toClient
    requires reply == AckPacket(BlockCount(|j.data|))
      || reply == AckPacket(BlockCount(|j.data|)) + ErrorPacket(ACCESS_VIOLATION, EXISTS)
    ensures ClientOk(s.client)
    ensures var t := Next(s, j.me, AtClient(reply));
      t.Some? && t.value.server == s.server && t.value.client.Writer? && WritingDone(t.value.client.writing)
  {
    BlocksAreFile(j.data, 0);
    AckBack(BlockCount(|j.data|), []);
    AckBack(BlockCount(|j.data|), ErrorPacket(ACCESS_VIOLATION, EXISTS));
    assert |reply| <= MAX_PACKET;
    assert WriterOk(s.storedBy, j, s.client.writing);
    hide GetU16, ErrorPacket, BlockCount, Inv;
  }
}
