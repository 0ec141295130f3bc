/** What a writer takes for stored is stored, and what its sessions hold is a prefix of
    its data. */
module TftpWriteSafety {
  import opened Options
  import opened Octets
  import opened TftpPackets
  import opened TftpClients
  import opened TftpServer
  import opened TftpTransfer

  // What is being written, and by whom.
  datatype Job = Job(me: Endpoint, name: Bytes, data: Bytes)

  predicate JobOk(j: Job) {
    IsText(j.name) && |j.data| < BLOCK_SIZE * MAX_BLOCKS
  }

  // All blocks but the last are full, so a session that is still open has a whole number.
  predicate HoldsPrefix(j: Job, own: Session) {
    && !own.isRead && own.filename == j.name
    && own.data <= j.data && |own.data| % BLOCK_SIZE == 0
  }

  // A session is only opened for a name that is free.
  predicate SessionOk(s: System, j: Job, own: Option<Session>) {
    own.Some? ==> HoldsPrefix(j, own.value) && (j.name in s.server.files ==> j.name in s.storedBy)
  }

  predicate StoredOk(s: System, j: Job) {
    && (forall n :: n in s.storedBy ==> n in s.server.files)
    && (j.name in s.storedBy && s.storedBy[j.name] == j.me ==> s.server.files[j.name] == j.data)
  }

  // The last acknowledgement is only sent when the name is taken.
  predicate AckOk(storedBy: map<Bytes, Endpoint>, j: Job, packet: Bytes) {
    var op := GetU16(packet);
    op.Some? && op.value.value == ACK ==>
      var block := GetU16(op.value.rest);
      block.Some? && block.value.value == BlockCount(|j.data|) ==> j.name in storedBy
  }

  predicate HasPiece(j: Job, k: nat) {
    1 <= k <= BlockCount(|j.data|) && (k - 1) * BLOCK_SIZE <= |j.data|
  }

  predicate IsPiece(j: Job, packet: Bytes, k: nat) {
    HasPiece(j, k) && packet == DataPacket(k, Block(j.data, k))
  }

  ghost predicate FromWriter(j: Job, packet: Bytes) {
    packet == Request(WRQ, j.name) || exists k: nat :: IsPiece(j, packet, k)
  }

  predicate WriterOk(storedBy: map<Bytes, Endpoint>, j: Job, w: Writing) {
    w.filename == j.name && w.data == j.data && WritingOk(w) && (WritingDone(w) ==> j.name in storedBy)
  }

  ghost predicate Inv(s: System, j: Job) {
    && JobOk(j) && OnePerPeer(s.server.sessions) && StoredOk(s, j)
    && s.client.Writer? && WriterOk(s.storedBy, j, s.client.writing)
    && (forall p :: p in s.toServer ==> FromWriter(j, p))
    && (forall p :: p in s.toClient ==> AckOk(s.storedBy, j, p))
    && SessionOk(s, j, Own(s.server.sessions, j.me))
  }

  /** In every run, each session of the writer's holds a block prefix of its data, and when
      the writer is done a file of that name was stored during the run, with exactly its
      data if it was its own session that stored it. */
  lemma WriteSafe(s: System, j: Job, events: seq<Event>)
    requires JobOk(j) && StartsWriting(s, j.me, j.name, j.data)
    ensures var t := Run(s, j.me, events); t.Some? ==>
      && t.value.client.Writer?
      && var own, files := Own(t.value.server.sessions, j.me), t.value.server.files;
         && (own.Some? ==> HoldsPrefix(j, own.value))
         && (WritingDone(t.value.client.writing) ==> j.name in t.value.storedBy && j.name in files)
         && (j.name in t.value.storedBy && t.value.storedBy[j.name] == j.me ==>
           j.name in files && files[j.name] == j.data)
  {
    BlocksAreFile(j.data, 0);
    RunKeeps(s, j, events);
  }

  lemma {:induction false} RunKeeps(s: System, j: Job, events: seq<Event>)
    requires Inv(s, j)
    ensures var t := Run(s, j.me, events); t.Some? ==> Inv(t.value, j)
    decreases |events|
  {
    if events != [] {
      var t := Next(s, j.me, events[0]);
      StepKeeps(s, j, events[0]);
      hide Next, Inv;
      if t.Some? {
        RunKeeps(t.value, j, events[1..]);
      }
    }
  }

  lemma StepKeeps(s: System, j: Job, e: Event)
    requires Inv(s, j)
    ensures var t := Next(s, j.me, e); t.Some? ==> Inv(t.value, j)
  {
    match e
    case Tick =>
      TickKeeps(s.storedBy, j, s.client.writing);
      hide WritingTick, WriterOk, AckOk, FromWriter, SessionOk, StoredOk, OnePerPeer, Own;
    case AtClient(packet) =>
      if packet in s.toClient {
        AckArrives(s.storedBy, j, s.client.writing, packet);
      }
      hide WritingOn, WriterOk, AckOk, FromWriter, SessionOk, StoredOk, OnePerPeer, Own;
    case AtServer(packet, opens) =>
      if packet in s.toServer {
        TurnKeepsInv(s, j, j.me, packet, opens);
      }
      hide ServerTurns, Inv;
    case FromOther(peer, packet, opens) =>
      if peer != j.me {
        TurnKeepsInv(s, j, peer, packet, opens);
      }
      hide ServerTurns, Inv;
  }

  lemma TickKeeps(storedBy: map<Bytes, Endpoint>, j: Job, w: Writing)
    requires JobOk(j) && WriterOk(storedBy, j, w)
    ensures var m := WritingTick(w); m.Some? ==>
      WriterOk(storedBy, j, m.value.state) && (m.value.sent != [] ==> FromWriter(j, m.value.sent))
  {
    BlocksAreFile(j.data, 0);
    if w.last < BlockCount(|j.data|) {
      assert IsPiece(j, NextBlock(w), w.last + 1);
    }
    hide Block, DataPacket, Request;
  }

  lemma AckArrives(storedBy: map<Bytes, Endpoint>, j: Job, w: Writing, packet: Bytes)
    requires JobOk(j) && WriterOk(storedBy, j, w) && AckOk(storedBy, j, packet)
    ensures var m := WritingOn(w, packet); m.Some? ==>
      WriterOk(storedBy, j, m.value.state) && (m.value.sent != [] ==> FromWriter(j, m.value.sent))
  {
    BlocksAreFile(j.data, 0);
    var m := WritingOn(w, packet);
    if m.Some? && m.value.state.last < BlockCount(|j.data|) {
      assert IsPiece(j, m.value.sent, m.value.state.last + 1);
    }
    hide Block, DataPacket, Request, GetU16;
  }

  lemma TurnKeepsInv(s: System, j: Job, peer: Endpoint, packet: Bytes, opens: bool)
    requires Inv(s, j) && (peer == j.me ==> packet in s.toServer)
    ensures var t := ServerTurns(s, j.me, peer, packet, opens); t.Some? ==> Inv(t.value, j)
  {
    var t := ServerTurns(s, j.me, peer, packet, opens);
    if t.Some? {
      TurnKeeps(s.server, peer, packet, opens);
      var turn := ServerOn(s.server, peer, packet, opens).value;
      if peer == j.me {
        Takes(s, j, packet, opens);
      } else {
        OthersOwn(s.server.sessions, turn.server.sessions, peer, Own(turn.server.sessions, peer), j.me);
        Stored(s, j, t.value, peer);
      }
      hide ServerOn, SessionOk, StoredOk, OnePerPeer, Own, OwnBecomes, FilesGrow, WritingOk, WritingDone, FromWriter;
      forall p | p in s.toClient
        ensures AckOk(t.value.storedBy, j, p)
      {
        assert AckOk(s.storedBy, j, p);
        hide GetU16;
      }
      hide AckOk;
    }
  }

  // A turn for someone else.
  lemma Stored(s: System, j: Job, t: System, peer: Endpoint)
    requires StoredOk(s, j) && FilesGrow(s.server, t.server, peer) && peer != j.me
    requires SessionOk(s, j, Own(s.server.sessions, j.me))
    requires Own(t.server.sessions, j.me) == Own(s.server.sessions, j.me)
    requires t.storedBy == s.storedBy + map n | n in t.server.files && n !in s.server.files :: peer
    ensures StoredOk(t, j) && SessionOk(t, j, Own(t.server.sessions, j.me))
  {
    hide Own, HoldsPrefix;
  }

  // What a turn for the writer comes to: its session may end or begin anew, go on, or
  // end with the last piece.
  predicate TakenOk(server: Server, j: Job, turn: Turn) {
    var own, own' := Own(server.sessions, j.me), Own(turn.server.sessions, j.me);
    || (NotLast(j, turn.reply) && turn.server.files == server.files
        && (own'.Some? ==> HoldsPrefix(j, own'.value) && (own.Some? || j.name !in server.files)
                           && (own.Some? || own' == Some(Session(j.me, j.name, false, [])))))
    || (own' == None && own.Some?
      && turn.server.files == (if j.name in server.files then server.files else server.files[j.name := j.data]))
  }

  // Not the acknowledgement of the last block.
  predicate NotLast(j: Job, packet: Bytes) {
    var op := GetU16(packet);
    op.Some? && op.value.value == ACK ==>
      var block := GetU16(op.value.rest);
      block.Some? ==> block.value.value < BlockCount(|j.data|)
  }

  // The server takes the writer's packets.
  lemma Takes(s: System, j: Job, packet: Bytes, opens: bool)
    requires JobOk(j) && OnePerPeer(s.server.sessions) && StoredOk(s, j)
    requires SessionOk(s, j, Own(s.server.sessions, j.me)) && FromWriter(j, packet)
    ensures var t := ServerTurns(s, j.me, j.me, packet, opens); t.Some? ==>
      && StoredOk(t.value, j) && SessionOk(t.value, j, Own(t.value.server.sessions, j.me))
      && (forall p :: p in t.value.toClient && p !in s.toClient ==> AckOk(t.value.storedBy, j, p))
  {
    TakesTurn(s.server, j, packet, opens);
    hide ServerOn, SessionOk, StoredOk, AckOk, OnePerPeer, Own, TakenOk;
    var t := ServerTurns(s, j.me, j.me, packet, opens);
    if t.Some? {
      AfterTaking(s, j, ServerOn(s.server, j.me, packet, opens).value, t.value);
    }
  }

  lemma TakesTurn(server: Server, j: Job, packet: Bytes, opens: bool)
    requires JobOk(j) && OnePerPeer(server.sessions) && FromWriter(j, packet)
    requires Own(server.sessions, j.me).Some? ==> HoldsPrefix(j, Own(server.sessions, j.me).value)
    ensures var turn := ServerOn(server, j.me, packet, opens); turn.Some? ==> TakenOk(server, j, turn.value)
  {
    StopTaken(server, j);
    if packet == Request(WRQ, j.name) {
      hide *;
      TextIs(j);
      AskingTurns(server, j.me, j.name, opens);
      RequestTaken(server, j);
    } else {
      var k: nat :| IsPiece(j, packet, k);
      PieceIs(j, packet, k);
      hide *;
      DataTurns(server, j.me, k, Block(j.data, k), opens);
      PieceTaken(server, j, k, opens);
    }
  }

  lemma StopTaken(server: Server, j: Job)
    requires Own(server.sessions, j.me).Some? ==> HoldsPrefix(j, Own(server.sessions, j.me).value)
    ensures TakenOk(server, j, Turn(server.(running := false), []))
  {
    hide Own, HoldsPrefix;
  }

  lemma TextIs(j: Job)
    requires JobOk(j)
    ensures IsText(j.name)
  {
    hide IsText;
  }

  lemma PieceIs(j: Job, packet: Bytes, k: nat)
    requires IsPiece(j, packet, k)
    ensures HasPiece(j, k) && k < 0x1_0000 && packet == DataPacket(k, Block(j.data, k))
  {
    hide DataPacket, Block;
  }

  // A turn that is made at all for a packet of these kinds is that of its handler, unless the
  // packet is too long, in which case the server stops.
  lemma AskingTurns(server: Server, peer: Endpoint, name: Bytes, opens: bool)
    requires IsText(name)
    ensures var turn := ServerOn(server, peer, Request(WRQ, name), opens);
      || turn == None
      || turn == Some(Turn(server.(running := false), []))
      || turn == OnRequest(server, peer, false, name + [0] + (OCTET + [0]))
  {
    RequestBack(WRQ, name);
    hide OnRequest, OnAck, OnData, Request, GetU16;
  }

  lemma DataTurns(server: Server, peer: Endpoint, k: nat, data: Bytes, opens: bool)
    requires k < 0x1_0000
    ensures var turn := ServerOn(server, peer, DataPacket(k, data), opens);
      || turn == None
      || turn == Some(Turn(server.(running := false), []))
      || turn == OnData(server, peer, U16(k) + data, opens)
  {
    DataBack(k, data);
    hide OnRequest, OnAck, OnData, DataPacket, GetU16;
  }

  lemma AfterTaking(s: System, j: Job, turn: Turn, t: System)
    requires StoredOk(s, j) && SessionOk(s, j, Own(s.server.sessions, j.me)) && TakenOk(s.server, j, turn)
    requires t.server == turn.server && t.toClient == Sent(s.toClient, turn.reply)
    requires t.storedBy == s.storedBy + map n | n in t.server.files && n !in s.server.files :: j.me
    ensures StoredOk(t, j) && SessionOk(t, j, Own(t.server.sessions, j.me))
    ensures forall p :: p in t.toClient && p !in s.toClient ==> AckOk(t.storedBy, j, p)
  {
    hide Own, HoldsPrefix, GetU16, BlockCount;
  }

  lemma RequestTaken(server: Server, j: Job)
    requires JobOk(j) && OnePerPeer(server.sessions)
    requires Own(server.sessions, j.me).Some? ==> HoldsPrefix(j, Own(server.sessions, j.me).value)
    ensures var turn := OnRequest(server, j.me, false, j.name + [0] + (OCTET + [0])); turn.Some? ==>
      TakenOk(server, j, turn.value)
  {
    var t := server.(sessions := Erased(server.sessions, Find(server.sessions, j.me)));
    EraseFound(server.sessions, j.me);
    RequestBack(WRQ, j.name);
    Refused(server, j, t, ILLEGAL_OPERATION, BAD_MODE);
    Refused(server, j, t, FILE_NOT_FOUND, BAD_NAME);
    Opened(server, j, t);
    hide GetString, ErrorPacket, ValidFilename, Erased, Find, OnePerPeer, Own, TakenOk, StartWrite, StartRead, OCTET,
      BAD_MODE, BAD_NAME;
  }

  lemma Refused(server: Server, j: Job, t: Server, code: nat, text: Bytes)
    requires code < 0x1_0000 && t.files == server.files && Own(t.sessions, j.me) == None
    ensures TakenOk(server, j, Turn(t, ErrorPacket(code, text)))
  {
    ErrorNotLast(j, code, text);
    hide NotLast, Own, ErrorPacket;
  }

  lemma Opened(server: Server, j: Job, t: Server)
    requires JobOk(j) && t.files == server.files && OnePerPeer(t.sessions) && Own(t.sessions, j.me) == None
    requires Own(server.sessions, j.me).Some? ==> HoldsPrefix(j, Own(server.sessions, j.me).value)
    ensures TakenOk(server, j, StartWrite(t, j.me, j.name))
  {
    assert NotLast(j, AckPacket(0)) by {
      AckBack(0, []);
      BlocksAreFile(j.data, 0);
    }
    Refused(server, j, t, ACCESS_VIOLATION, EXISTS);
    PushNew(t.sessions, Session(j.me, j.name, false, []));
    hide NotLast, Own, ErrorPacket, AckPacket, OnePerPeer, EXISTS;
  }

  lemma ErrorNotLast(j: Job, code: nat, text: Bytes)
    requires code < 0x1_0000
    ensures NotLast(j, ErrorPacket(code, text))
  {
    ErrorBack(code, text);
    hide ErrorPacket, GetU16;
  }

  lemma PieceTaken(server: Server, j: Job, k: nat, opens: bool)
    requires JobOk(j) && OnePerPeer(server.sessions) && HasPiece(j, k)
    requires Own(server.sessions, j.me).Some? ==> HoldsPrefix(j, Own(server.sessions, j.me).value)
    ensures var turn := OnData(server, j.me, U16(k) + Block(j.data, k), opens); turn.Some? ==>
      TakenOk(server, j, turn.value)
  {
    var i := Find(server.sessions, j.me);
    DataBack(k, Block(j.data, k));
    AckBack(k, []);
    AckBack(k, ErrorPacket(ACCESS_VIOLATION, EXISTS));
    BlocksAreFile(j.data, k);
    EraseFound(server.sessions, j.me);
    if i < |server.sessions| {
      var session := server.sessions[i];
      var session' := session.(data := session.data + Block(j.data, k));
      UpdateFound(server.sessions, i, session');
      if Expected(session) == k {
        NextPrefix(j, session, k);
      }
    }
    hide GetU16, ErrorPacket, AckPacket, BlockCount, Erased, Find, OnePerPeer, DataPacket, Block, HoldsPrefix, Expected;
  }

  lemma NextPrefix(j: Job, session: Session, k: nat)
    requires JobOk(j) && HoldsPrefix(j, session) && HasPiece(j, k) && Expected(session) == k
    ensures var session' := session.(data := session.data + Block(j.data, k));
      if k < BlockCount(|j.data|) then |Block(j.data, k)| == BLOCK_SIZE && HoldsPrefix(j, session')
      else |Block(j.data, k)| < BLOCK_SIZE && session'.data == j.data
  {
    BlocksAreFile(j.data, k);
    assert |session.data| == (k - 1) * BLOCK_SIZE;
    var b := Block(j.data, k);
    assert b == j.data[|session.data|..][..|b|];
    hide Block, Expected, BlockCount;
    PrefixGrows(session.data, j.data, |b|);
  }

  lemma PrefixGrows(s: Bytes, all: Bytes, n: nat)
    requires s <= all && |s| + n <= |all|
    ensures s + all[|s|..][..n] <= all && (|s| + n == |all| ==> s + all[|s|..][..n] == all)
  {
    assert all[..|s|] + all[|s|..][..n] == all[..|s| + n];
  }

  // ----- rivals -----

  // Nobody else is about to store the name, and nobody has.
  ghost predicate Alone(s: System, j: Job) {
    && (forall x :: x in s.server.sessions && x.peer != j.me && !x.isRead ==> x.filename != j.name)
    && (j.name in s.storedBy ==> s.storedBy[j.name] == j.me)
  }

  // In no event does another peer ask to write the name.
  predicate NoRival(events: seq<Event>, name: Bytes) {
    forall i :: 0 <= i < |events| && events[i].FromOther? ==> !AsksToWrite(events[i].packet, name)
  }

  /** With no rival for the name, a writer that is done has its data stored. */
  lemma DoneIsStored(s: System, j: Job, events: seq<Event>)
    requires JobOk(j) && StartsWriting(s, j.me, j.name, j.data) && Alone(s, j) && NoRival(events, j.name)
    ensures var t := Run(s, j.me, events); t.Some? && t.value.client.Writer? && WritingDone(t.value.client.writing) ==>
      j.name in t.value.server.files && t.value.server.files[j.name] == j.data
  {
    WriteSafe(s, j, events);
    BlocksAreFile(j.data, 0);
    RunAlone(s, j, events);
  }

  lemma {:induction false} RunAlone(s: System, j: Job, events: seq<Event>)
    requires Inv(s, j) && Alone(s, j) && NoRival(events, j.name)
    ensures var t := Run(s, j.me, events); t.Some? ==> Alone(t.value, j)
    decreases |events|
  {
    if events != [] {
      var e, rest := events[0], events[1..];
      assert NoRival(rest, j.name) by {
        assert forall i :: 0 <= i < |rest| ==> rest[i] == events[i + 1];
      }
      assert e.FromOther? ==> !AsksToWrite(e.packet, j.name);
      var t := Next(s, j.me, e);
      StepKeeps(s, j, e);
      StepAlone(s, j, e);
      hide Next, Inv, Alone, NoRival;
      if t.Some? {
        RunAlone(t.value, j, rest);
      }
    }
  }

  lemma StepAlone(s: System, j: Job, e: Event)
    requires Inv(s, j) && Alone(s, j) && (e.FromOther? ==> !AsksToWrite(e.packet, j.name))
    ensures var t := Next(s, j.me, e); t.Some? ==> Alone(t.value, j)
  {
    match e
    case Tick => hide WritingTick, AsksToWrite;
    case AtClient(packet) => hide WritingOn, AsksToWrite;
    case AtServer(packet, opens) =>
      TurnAlone(s, j, j.me, packet, opens);
      hide ServerTurns, Alone;
    case FromOther(peer, packet, opens) =>
      TurnAlone(s, j, peer, packet, opens);
      hide ServerTurns, Alone;
  }

  lemma TurnAlone(s: System, j: Job, peer: Endpoint, packet: Bytes, opens: bool)
    requires OnePerPeer(s.server.sessions) && Alone(s, j) && (peer != j.me ==> !AsksToWrite(packet, j.name))
    ensures var t := ServerTurns(s, j.me, peer, packet, opens); t.Some? ==> Alone(t.value, j)
  {
    var t := ServerTurns(s, j.me, peer, packet, opens);
    if t.Some? {
      TurnKeeps(s.server, peer, packet, opens);
      var own := Own(s.server.sessions, peer);
      var own' := Own(t.value.server.sessions, peer);
      if own.Some? {
        OwnIs(s.server.sessions, peer, own.value);
      }
      NamedSession(s.server, peer, packet, opens);
      hide ServerOn, Own, OnePerPeer, AsksToWrite;
      forall x | x in t.value.server.sessions && x.peer != j.me && !x.isRead
        ensures x.filename != j.name
      {
        if x.peer == peer {
          OwnIs(t.value.server.sessions, peer, x);
        }
      }
    }
  }

  // The name of a write session is that of the session before, or it was asked for.
  lemma NamedSession(server: Server, peer: Endpoint, packet: Bytes, opens: bool)
    requires OnePerPeer(server.sessions)
    ensures var turn := ServerOn(server, peer, packet, opens); turn.Some? ==>
      var own, own' := Own(server.sessions, peer), Own(turn.value.server.sessions, peer);
      own'.Some? && !own'.value.isRead ==>
        AsksToWrite(packet, own'.value.filename)
          || (own.Some? && !own.value.isRead && own.value.filename == own'.value.filename)
  {
    var op := GetU16(packet);
    AsksIs(packet);
    hide *;
    PacketTurns(server, peer, packet, opens);
    if op.Some? {
      NamedByRequest(server, peer, op.value.value == RRQ, op.value.rest);
      NamedByData(server, peer, op.value.rest, opens);
      NamedByAck(server, peer, op.value.rest);
    }
  }

  lemma AsksIs(packet: Bytes)
    ensures var op := GetU16(packet);
      op.Some? && op.value.value == WRQ && GetString(op.value.rest).Some? ==>
        AsksToWrite(packet, GetString(op.value.rest).value.value)
  {
    hide GetU16, GetString;
  }

  // Whose handler a packet comes to, if the sessions change at all.
  lemma PacketTurns(server: Server, peer: Endpoint, packet: Bytes, opens: bool)
    ensures var turn, op := ServerOn(server, peer, packet, opens), GetU16(packet);
      || turn == None || turn.value.server.sessions == server.sessions
      || (op.Some? && (op.value.value == RRQ || op.value.value == WRQ)
          && turn == OnRequest(server, peer, op.value.value == RRQ, op.value.rest))
      || (op.Some? && turn == OnAck(server, peer, op.value.rest))
      || (op.Some? && turn == OnData(server, peer, op.value.rest, opens))
  {
    hide GetU16, OnRequest, OnAck, OnData, ErrorPacket;
  }

  lemma NamedByRequest(server: Server, peer: Endpoint, isRead: bool, rest: Bytes)
    requires OnePerPeer(server.sessions)
    ensures var turn := OnRequest(server, peer, isRead, rest); turn.Some? ==>
      var own' := Own(turn.value.server.sessions, peer);
      own'.Some? && !own'.value.isRead ==>
        !isRead && GetString(rest).Some? && GetString(rest).value.value == own'.value.filename
  {
    var t := Erased(server.sessions, Find(server.sessions, peer));
    RequestTurns(server, peer, isRead, rest);
    EraseFound(server.sessions, peer);
    hide OnRequest, GetString, Erased, Find, OnePerPeer, Own;
    var name := GetString(rest);
    if name.Some? {
      PushNew(t, Session(peer, name.value.value, false, []));
      if name.value.value in server.files {
        PushNew(t, Session(peer, name.value.value, true, server.files[name.value.value]));
      }
    }
  }

  // What a request makes of the sessions: the peer's old one goes, and a new one may come.
  lemma RequestTurns(server: Server, peer: Endpoint, isRead: bool, rest: Bytes)
    ensures var turn, name := OnRequest(server, peer, isRead, rest), GetString(rest); turn.Some? ==>
      && name.Some?
      && var t, after := Erased(server.sessions, Find(server.sessions, peer)), turn.value.server.sessions;
         || after == t
         || (!isRead && after == t + [Session(peer, name.value.value, false, [])])
         || (isRead && name.value.value in server.files
             && after == t + [Session(peer, name.value.value, true, server.files[name.value.value])])
  {
    hide GetString, ErrorPacket, ValidFilename, Erased, Find, SessionBlock, AckPacket;
  }

  lemma NamedByAck(server: Server, peer: Endpoint, rest: Bytes)
    requires OnePerPeer(server.sessions)
    ensures var turn := OnAck(server, peer, rest); turn.Some? ==>
      var own' := Own(turn.value.server.sessions, peer);
      own'.Some? ==> own' == Own(server.sessions, peer)
  {
    EraseFound(server.sessions, peer);
    hide GetU16, Erased, Find, OnePerPeer, SessionBlock;
  }

  lemma NamedByData(server: Server, peer: Endpoint, rest: Bytes, opens: bool)
    requires OnePerPeer(server.sessions)
    ensures var turn := OnData(server, peer, rest, opens); turn.Some? ==>
      var own, own' := Own(server.sessions, peer), Own(turn.value.server.sessions, peer);
      own'.Some? ==> own.Some? && !own.value.isRead && own.value.filename == own'.value.filename
  {
    var block, k := GetU16(rest), Find(server.sessions, peer);
    EraseFound(server.sessions, peer);
    if block.Some? && k < |server.sessions| {
      var session := server.sessions[k];
      UpdateFound(server.sessions, k, session.(data := session.data + block.value.rest));
    }
    hide GetU16, Erased, Find, OnePerPeer, AckPacket, ErrorPacket;
  }

  /** The server's turn on the last piece: the reply acknowledges it either way, and the
      data is stored exactly when the name is free (or holds the same data already). */
  lemma LastPieceExactly(server: Server, j: Job, opens: bool)
    requires JobOk(j) && OnePerPeer(server.sessions)
    requires Own(server.sessions, j.me).Some? ==> HoldsPrefix(j, Own(server.sessions, j.me).value)
    ensures HasPiece(j, BlockCount(|j.data|))
    ensures var k := BlockCount(|j.data|);
      var turn := OnData(server, j.me, U16(k) + Block(j.data, k), opens);
      turn.Some? ==>
        && AckPacket(k) <= turn.value.reply && j.name in turn.value.server.files
        && (turn.value.server.files[j.name] == j.data <==> j.name !in server.files || server.files[j.name] == j.data)
  {
    var k := BlockCount(|j.data|);
    BlocksAreFile(j.data, 0);
    PieceTaken(server, j, k, opens);
    DataBack(k, Block(j.data, k));
    BlocksAreFile(j.data, k);
    EraseFound(server.sessions, j.me);
    if OnData(server, j.me, U16(k) + Block(j.data, k), opens).Some? {
      NextPrefix(j, Own(server.sessions, j.me).value, k);
    }
    hide GetU16, ErrorPacket, BlockCount, Erased, Find, OnePerPeer, DataPacket, Block, HoldsPrefix, Expected, TakenOk;
  }
}
