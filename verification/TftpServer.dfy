/** The server: its sessions, its files, and one turn of its receive loop. */
module TftpServer {
  import opened Options
  import opened Octets
  import opened TftpPackets

  datatype Endpoint = Endpoint(addr: nat, port: nat)
  datatype Session = Session(peer: Endpoint, filename: Bytes, isRead: bool, data: Bytes)

  // The files are what is stored by name; `running` ends with an unsupported request.
  datatype Server = Server(sessions: seq<Session>, files: map<Bytes, Bytes>, running: bool)

  // The server after a turn of its loop, and the reply, which is empty when there is none.
  datatype Turn = Turn(server: Server, reply: Bytes)

  const BROADCAST: nat := 0xFFFF_FFFF
  const MAX_RECEIVED: nat := 1024

  // The texts of its error packets.
  const BAD_MODE: Bytes :=
    [85, 110, 115, 117, 112, 112, 111, 114, 116, 101, 100, 32, 82, 82, 81, 32, 109, 111, 100, 101]
  const BAD_NAME: Bytes := [73, 110, 118, 97, 108, 105, 100, 32, 102, 105, 108, 101, 110, 97, 109, 101]
  const NOT_FOUND: Bytes := [70, 105, 108, 101, 32, 110, 111, 116, 32, 102, 111, 117, 110, 100]
  const EXISTS: Bytes := [70, 105, 108, 101, 32, 101, 120, 105, 115, 116, 115]
  const UNSUPPORTED: Bytes :=
    [85, 110, 115, 117, 112, 112, 111, 114, 116, 101, 100, 32, 84, 70, 84, 80, 32, 111, 112, 99, 111, 100, 101]

  // Letters and digits, and dots but not in front.
  predicate ValidFilename(name: Bytes) {
    forall i :: 0 <= i < |name| ==> ValidChar(name[i]) || (i > 0 && name[i] == 46)
  }

  predicate ValidChar(c: Byte) {
    65 <= c <= 90 || 97 <= c <= 122 || 48 <= c <= 57
  }

  // The place of the first session of `peer`, or the number of sessions.
  function Find(sessions: seq<Session>, peer: Endpoint): (k: nat)
    ensures k <= |sessions| && (k < |sessions| ==> sessions[k].peer == peer)
    ensures forall j :: 0 <= j < k ==> sessions[j].peer != peer
  {
    if sessions == [] || sessions[0].peer == peer then 0 else 1 + Find(sessions[1..], peer)
  }

  function Erased(sessions: seq<Session>, k: nat): seq<Session> {
    if k < |sessions| then sessions[..k] + sessions[k + 1..] else sessions
  }

  // `put_block`; None when a REQUIRE fails.
  function SessionBlock(session: Session, block: nat): Option<Bytes> {
    if !LegalSize(|session.data|) || !session.isRead || block < 1 || block > BlockCount(|session.data|) then None
    else BlocksAreFile(session.data, 0); Some(DataPacket(block, Block(session.data, block)))
  }

  function Expected(session: Session): nat {
    (1 + |session.data| / BLOCK_SIZE) % 0x1_0000
  }

  // One datagram from `peer`, where `opens` says whether a file can be created.
  // None when the server halts.
  function ServerOn(s: Server, peer: Endpoint, packet: Bytes, opens: bool): Option<Turn> {
    if |packet| > MAX_RECEIVED then Some(Turn(s.(running := false), []))
    else if peer.addr == BROADCAST then None
    else
      var op := GetU16(packet);
      if op.None? then None
      else if op.value.value == RRQ || op.value.value == WRQ then
        OnRequest(s, peer, op.value.value == RRQ, op.value.rest)
      else if op.value.value == ACK then OnAck(s, peer, op.value.rest)
      else if op.value.value == DATA then OnData(s, peer, op.value.rest, opens)
      else Some(Turn(s.(running := false), ErrorPacket(ILLEGAL_OPERATION, UNSUPPORTED)))
  }

  function OnRequest(s: Server, peer: Endpoint, isRead: bool, rest: Bytes): Option<Turn> {
    var filename := GetString(rest);
    if filename.None? then None
    else
      var mode := GetString(filename.value.rest);
      if mode.None? then None
      else
        var s' := s.(sessions := Erased(s.sessions, Find(s.sessions, peer)));
        if mode.value.value != OCTET then Some(Turn(s', ErrorPacket(ILLEGAL_OPERATION, BAD_MODE)))
        else if !ValidFilename(filename.value.value) then Some(Turn(s', ErrorPacket(FILE_NOT_FOUND, BAD_NAME)))
        else if isRead then StartRead(s', peer, filename.value.value)
        else Some(StartWrite(s', peer, filename.value.value))
  }

  function StartRead(s: Server, peer: Endpoint, name: Bytes): Option<Turn> {
    if name !in s.files then Some(Turn(s, ErrorPacket(FILE_NOT_FOUND, NOT_FOUND)))
    else
      var session := Session(peer, name, true, s.files[name]);
      var reply := SessionBlock(session, 1);
      if reply.None? then None else Some(Turn(s.(sessions := s.sessions + [session]), reply.value))
  }

  function StartWrite(s: Server, peer: Endpoint, name: Bytes): Turn {
    if name in s.files then Turn(s, ErrorPacket(ACCESS_VIOLATION, EXISTS))
    else Turn(s.(sessions := s.sessions + [Session(peer, name, false, [])]), AckPacket(0))
  }

  function OnAck(s: Server, peer: Endpoint, rest: Bytes): Option<Turn> {
    var block, k := GetU16(rest), Find(s.sessions, peer);
    if block.None? || k == |s.sessions| then None
    else
      var session := s.sessions[k];
      if block.value.value < 1 || block.value.value > BlockCount(|session.data|) then None
      else if block.value.value == BlockCount(|session.data|) then Some(Turn(s.(sessions := Erased(s.sessions, k)), []))
      else
        var reply := SessionBlock(session, block.value.value + 1);
        if reply.None? then None else Some(Turn(s, reply.value))
  }

  function OnData(s: Server, peer: Endpoint, rest: Bytes, opens: bool): Option<Turn> {
    var block, k := GetU16(rest), Find(s.sessions, peer);
    if block.None? || k == |s.sessions| then None
    else
      var session, data := s.sessions[k], block.value.rest;
      if session.isRead || block.value.value == 0 || |data| > BLOCK_SIZE
        || block.value.value != Expected(session) then None
      else
        var session' := session.(data := session.data + data);
        var ack := AckPacket(block.value.value);
        if |data| == BLOCK_SIZE then Some(Turn(s.(sessions := s.sessions[k := session']), ack))
        else
          var s' := s.(sessions := Erased(s.sessions, k));
          if session.filename in s.files then Some(Turn(s', ack + ErrorPacket(ACCESS_VIOLATION, EXISTS)))
          else if !opens then None
          else Some(Turn(s'.(files := s.files[session.filename := session'.data]), ack))
  }

  // Whether a datagram asks to write `name`.
  predicate AsksToWrite(packet: Bytes, name: Bytes) {
    var op := GetU16(packet);
    && op.Some? && op.value.value == WRQ
    && GetString(op.value.rest).Some? && GetString(op.value.rest).value.value == name
  }

  // ----- what every turn keeps -----

  predicate OnePerPeer(sessions: seq<Session>) {
    forall i, j :: 0 <= i < j < |sessions| ==> sessions[i].peer != sessions[j].peer
  }

  function Own(sessions: seq<Session>, peer: Endpoint): Option<Session> {
    var k := Find(sessions, peer);
    if k < |sessions| then Some(sessions[k]) else None
  }

  lemma OwnIs(sessions: seq<Session>, peer: Endpoint, session: Session)
    requires OnePerPeer(sessions)
    ensures session in sessions && session.peer == peer <==> Own(sessions, peer) == Some(session)
  {
  }

  // The sessions of `peer` become `own`, and those of others stay.
  predicate OwnBecomes(before: seq<Session>, after: seq<Session>, peer: Endpoint, own: Option<Session>) {
    && OnePerPeer(after) && Own(after, peer) == own
    && (forall s :: s in before && s.peer != peer ==> s in after)
    && (forall s :: s in after && s.peer != peer ==> s in before)
  }

  lemma EraseFound(sessions: seq<Session>, peer: Endpoint)
    requires OnePerPeer(sessions)
    ensures OwnBecomes(sessions, Erased(sessions, Find(sessions, peer)), peer, None)
  {
    var k := Find(sessions, peer);
    var t := Erased(sessions, k);
    hide *;
    if k < |sessions| {
      ErasedAt(sessions, k);
      SameOthers(sessions, t, k);
      OnceWithout(sessions, t, k);
      NoneOwn(t, peer);
      BecomesNone(sessions, t, k);
    } else {
      ErasedNot(sessions, k, peer);
      BecomesSame(sessions, peer);
    }
  }

  lemma ErasedAt(s: seq<Session>, k: nat)
    requires k < |s|
    ensures var t := Erased(s, k);
      |t| == |s| - 1 && forall i :: 0 <= i < |t| ==> t[i] == s[if i < k then i else i + 1]
  {
  }

  lemma ErasedNot(s: seq<Session>, k: nat, peer: Endpoint)
    requires k >= |s| && k == Find(s, peer)
    ensures Erased(s, k) == s && Own(s, peer) == None
  {
  }

  // Without one of them there is still one to a peer, and none to that one's.
  lemma OnceWithout(s: seq<Session>, t: seq<Session>, k: nat)
    requires OnePerPeer(s) && k < |s| && |t| == |s| - 1
    requires forall i :: 0 <= i < |t| ==> t[i] == s[if i < k then i else i + 1]
    ensures OnePerPeer(t) && forall i :: 0 <= i < |t| ==> t[i].peer != s[k].peer
  {
    forall i, j | 0 <= i < j < |t|
      ensures t[i].peer != t[j].peer
    {
      var i', j' := if i < k then i else i + 1, if j < k then j else j + 1;
      assert t[i] == s[i'] && t[j] == s[j'];
    }
  }

  lemma BecomesNone(s: seq<Session>, t: seq<Session>, k: nat)
    requires k < |s| && OnePerPeer(t) && Own(t, s[k].peer) == None
    requires forall x :: x in s && x != s[k] ==> x in t
    requires forall x :: x in t ==> x in s
    ensures OwnBecomes(s, t, s[k].peer, None)
  {
    hide Own, OnePerPeer;
  }

  lemma SameOthers(s: seq<Session>, t: seq<Session>, k: nat)
    requires k < |s| && |t| == |s| - 1
    requires forall i :: 0 <= i < |t| ==> t[i] == s[if i < k then i else i + 1]
    ensures forall x :: x in s && x != s[k] ==> x in t
    ensures forall x :: x in t ==> x in s
  {
    forall x | x in s && x != s[k]
      ensures x in t
    {
      var i :| 0 <= i < |s| && s[i] == x;
      assert t[if i < k then i else i - 1] == x;
    }
  }

  lemma NoneOwn(t: seq<Session>, peer: Endpoint)
    requires forall i :: 0 <= i < |t| ==> t[i].peer != peer
    ensures Own(t, peer) == None
  {
  }

  lemma PushNew(sessions: seq<Session>, session: Session)
    requires OnePerPeer(sessions) && Own(sessions, session.peer) == None
    ensures OwnBecomes(sessions, sessions + [session], session.peer, Some(session))
  {
    var t := sessions + [session];
    assert t[|sessions|] == session;
    assert OnePerPeer(t);
    OwnIs(t, session.peer, session);
  }

  lemma UpdateFound(sessions: seq<Session>, k: nat, session: Session)
    requires OnePerPeer(sessions) && k < |sessions| && sessions[k].peer == session.peer
    ensures OwnBecomes(sessions, sessions[k := session], session.peer, Some(session))
  {
    var t := sessions[k := session];
    assert t[k] in t;
    assert forall i :: 0 <= i < |sessions| && i != k ==> t[i] == sessions[i];
    OwnIs(t, session.peer, session);
  }

  lemma BecomesTrans(s: seq<Session>, t: seq<Session>, u: seq<Session>, peer: Endpoint, own: Option<Session>,
      own': Option<Session>)
    requires OwnBecomes(s, t, peer, own) && OwnBecomes(t, u, peer, own')
    ensures OwnBecomes(s, u, peer, own')
  {
    hide Own, OnePerPeer;
  }

  lemma BecomesSame(s: seq<Session>, peer: Endpoint)
    requires OnePerPeer(s)
    ensures OwnBecomes(s, s, peer, Own(s, peer))
  {
    hide Own, OnePerPeer;
  }

  lemma OthersOwn(s: seq<Session>, t: seq<Session>, peer: Endpoint, own: Option<Session>, other: Endpoint)
    requires OnePerPeer(s) && OwnBecomes(s, t, peer, own) && other != peer
    ensures Own(t, other) == Own(s, other)
  {
    if Own(t, other).Some? {
      OwnIs(s, other, Own(t, other).value);
    }
    if Own(s, other).Some? {
      OwnIs(t, other, Own(s, other).value);
    }
  }

  // Files stay, and one appears only from the sender's own write session.
  predicate FilesGrow(s: Server, s': Server, peer: Endpoint) {
    && (forall n :: n in s.files ==> n in s'.files && s'.files[n] == s.files[n])
    && (forall n :: n in s'.files && n !in s.files ==>
          Own(s.sessions, peer).Some? && !Own(s.sessions, peer).value.isRead
            && Own(s.sessions, peer).value.filename == n)
  }

  /** A turn keeps one session to each peer, the sessions of the other peers, and every
      file there is; a file appears only from the sender's own write session. */
  lemma TurnKeeps(s: Server, peer: Endpoint, packet: Bytes, opens: bool)
    requires OnePerPeer(s.sessions)
    ensures TurnOk(s, peer, ServerOn(s, peer, packet, opens))
  {
    Stops(s, peer, [], false);
    Stops(s, peer, ErrorPacket(ILLEGAL_OPERATION, UNSUPPORTED), false);
    assert TurnOk(s, peer, None);
    var op := GetU16(packet);
    if op.Some? {
      RequestKeeps(s, peer, op.value.value == RRQ, op.value.rest);
      AckKeeps(s, peer, op.value.rest);
      DataKeeps(s, peer, op.value.rest, opens);
    }
    hide OnRequest, OnAck, OnData, TurnOk, ErrorPacket, UNSUPPORTED;
  }

  predicate TurnOk(s: Server, peer: Endpoint, turn: Option<Turn>) {
    turn.Some? ==>
      && FilesGrow(s, turn.value.server, peer)
      && OwnBecomes(s.sessions, turn.value.server.sessions, peer, Own(turn.value.server.sessions, peer))
  }

  lemma Stops(s: Server, peer: Endpoint, reply: Bytes, running: bool)
    requires OnePerPeer(s.sessions)
    ensures TurnOk(s, peer, Some(Turn(s.(running := running), reply)))
  {
    BecomesSame(s.sessions, peer);
  }

  lemma RequestKeeps(s: Server, peer: Endpoint, isRead: bool, rest: Bytes)
    requires OnePerPeer(s.sessions)
    ensures TurnOk(s, peer, OnRequest(s, peer, isRead, rest))
  {
    var t := s.(sessions := Erased(s.sessions, Find(s.sessions, peer)));
    EraseFound(s.sessions, peer);
    var filename := GetString(rest);
    if filename.Some? {
      StartKeeps(t, peer, filename.value.value);
      hide *;
      RequestBy(s, t, peer, isRead, rest, filename.value.value);
    }
  }

  lemma RequestBy(s: Server, t: Server, peer: Endpoint, isRead: bool, rest: Bytes, name: Bytes)
    requires t == s.(sessions := Erased(s.sessions, Find(s.sessions, peer)))
    requires OwnBecomes(s.sessions, t.sessions, peer, None)
    requires GetString(rest).Some? && name == GetString(rest).value.value
    requires Started(t, peer, StartWrite(t, peer, name))
    requires StartRead(t, peer, name).Some? ==> Started(t, peer, StartRead(t, peer, name).value)
    ensures TurnOk(s, peer, OnRequest(s, peer, isRead, rest))
  {
    hide ValidFilename, GetString, Erased, Find, StartRead, StartWrite, OnePerPeer, Own, ErrorPacket;
  }

  // From a server without a session of `peer`, to one with at most one.
  predicate Started(s: Server, peer: Endpoint, turn: Turn) {
    turn.server.files == s.files && OwnBecomes(s.sessions, turn.server.sessions, peer, Own(turn.server.sessions, peer))
  }

  lemma StartKeeps(s: Server, peer: Endpoint, name: Bytes)
    requires OnePerPeer(s.sessions) && Own(s.sessions, peer) == None
    ensures Started(s, peer, StartWrite(s, peer, name))
    ensures StartRead(s, peer, name).Some? ==> Started(s, peer, StartRead(s, peer, name).value)
  {
    BecomesSame(s.sessions, peer);
    PushNew(s.sessions, Session(peer, name, false, []));
    if name in s.files {
      PushNew(s.sessions, Session(peer, name, true, s.files[name]));
    }
    hide OwnBecomes, Own, OnePerPeer, SessionBlock, ErrorPacket, AckPacket;
  }

  lemma AckKeeps(s: Server, peer: Endpoint, rest: Bytes)
    requires OnePerPeer(s.sessions)
    ensures TurnOk(s, peer, OnAck(s, peer, rest))
  {
    EraseFound(s.sessions, peer);
    BecomesSame(s.sessions, peer);
    hide OwnBecomes, Own, OnePerPeer, Erased, Find, SessionBlock;
  }

  lemma DataKeeps(s: Server, peer: Endpoint, rest: Bytes, opens: bool)
    requires OnePerPeer(s.sessions)
    ensures TurnOk(s, peer, OnData(s, peer, rest, opens))
  {
    var block, k := GetU16(rest), Find(s.sessions, peer);
    EraseFound(s.sessions, peer);
    if block.Some? && k < |s.sessions| {
      var session := s.sessions[k];
      var session' := session.(data := session.data + block.value.rest);
      var erased := s.(sessions := Erased(s.sessions, k));
      UpdateFound(s.sessions, k, session');
      KeptTurn(s, s.(sessions := s.sessions[k := session']), peer, Some(session'), AckPacket(block.value.value));
      KeptTurn(s, erased, peer, None, AckPacket(block.value.value) + ErrorPacket(ACCESS_VIOLATION, EXISTS));
      if session.filename !in s.files {
        StoredTurn(s, erased, peer, session, session'.data, AckPacket(block.value.value));
      }
    }
    hide TurnOk, OwnBecomes, OnePerPeer, Erased, Find, GetU16, AckPacket, ErrorPacket, EXISTS, Expected;
  }

  lemma KeptTurn(s: Server, t: Server, peer: Endpoint, own: Option<Session>, reply: Bytes)
    requires OwnBecomes(s.sessions, t.sessions, peer, own) && t.files == s.files
    ensures TurnOk(s, peer, Some(Turn(t, reply)))
  {
    hide OnePerPeer, Own;
  }

  lemma StoredTurn(s: Server, t: Server, peer: Endpoint, session: Session, data: Bytes, reply: Bytes)
    requires OwnBecomes(s.sessions, t.sessions, peer, None) && t.files == s.files
    requires Own(s.sessions, peer) == Some(session) && session.filename !in s.files
    ensures !session.isRead ==> TurnOk(s, peer, Some(Turn(t.(files := s.files[session.filename := data]), reply)))
  {
    hide OnePerPeer, Own;
  }

  /** An acknowledgement of the last block ends the sender's session, and any other is
      answered with the block after it; nobody else's session changes. */
  lemma AckExactly(s: Server, peer: Endpoint, block: nat)
    requires OnePerPeer(s.sessions) && Own(s.sessions, peer).Some? && 1 <= block < 0x1_0000
    ensures var session := Own(s.sessions, peer).value;
      var turn := OnAck(s, peer, U16(block));
      LegalSize(|session.data|) && session.isRead && block <= BlockCount(|session.data|) ==>
        && turn.Some? && turn.value.server.files == s.files
        && OwnBecomes(s.sessions, turn.value.server.sessions, peer, if block == BlockCount(|session.data|) then None
          else Some(session))
        && (block == BlockCount(|session.data|) ==> turn.value.reply == [])
        && (block < BlockCount(|session.data|) ==>
              block * BLOCK_SIZE <= |session.data|
                && turn.value.reply == DataPacket(block + 1, Block(session.data, block + 1)))
  {
    var session := Own(s.sessions, peer).value;
    hide *;
    OwnAt(s.sessions, peer);
    AckRead(s, peer, block);
    EraseFound(s.sessions, peer);
    BecomesSame(s.sessions, peer);
    if LegalSize(|session.data|) && session.isRead && block < BlockCount(|session.data|) {
      NextServed(session, block);
    }
  }

  lemma OwnAt(sessions: seq<Session>, peer: Endpoint)
    requires Own(sessions, peer).Some?
    ensures Find(sessions, peer) < |sessions| && sessions[Find(sessions, peer)] == Own(sessions, peer).value
  {
    hide Find;
  }

  lemma AckRead(s: Server, peer: Endpoint, block: nat)
    requires 1 <= block < 0x1_0000 && Find(s.sessions, peer) < |s.sessions|
    ensures var k := Find(s.sessions, peer);
      var session := s.sessions[k];
      var reply := SessionBlock(session, block + 1);
      OnAck(s, peer, U16(block)) ==
        if block > BlockCount(|session.data|) then None
        else if block == BlockCount(|session.data|) then Some(Turn(s.(sessions := Erased(s.sessions, k)), []))
        else if reply.None? then None else Some(Turn(s, reply.value))
  {
    AckBack(block, []);
    assert U16(block) + [] == U16(block);
    hide GetU16, Find, BlockCount, SessionBlock, Erased;
  }

  lemma NextServed(session: Session, block: nat)
    requires LegalSize(|session.data|) && session.isRead && block < BlockCount(|session.data|)
    ensures block * BLOCK_SIZE <= |session.data|
    ensures SessionBlock(session, block + 1) == Some(DataPacket(block + 1, Block(session.data, block + 1)))
  {
    BlocksAreFile(session.data, block + 1);
    hide BlockCount, Block, DataPacket, FirstBlocks;
  }

  lemma PacketIs(none: Bytes, block: nat, data: Bytes)
    requires none == [] && block < 0x1_0000
    ensures none + U16(DATA) + U16(block) + data == DataPacket(block, data)
  {
    assert none + U16(DATA) == U16(DATA);
    hide U16;
  }

  /** The server as it runs. A method that returns None has halted it. */
  class TftpServer {
    var sessions: seq<Session>
    var files: map<Bytes, Bytes>
    var running: bool

    function State(): Server
      reads this
    {
      Server(sessions, files, running)
    }

    constructor (files: map<Bytes, Bytes>)
      ensures State() == Server([], files, true)
    {
      sessions, this.files, running := [], files, true;
    }

    method FindSession(peer: Endpoint) returns (k: nat)
      ensures k == Find(sessions, peer)
    {
      k := 0;
      while k < |sessions| && sessions[k].peer != peer
        invariant 0 <= k <= |sessions|
        invariant forall j :: 0 <= j < k ==> sessions[j].peer != peer
      {
        k := k + 1;
      }
    }

    // Sends a block of the session's file.
    method PutBlock(out: array<Byte>, session: Session, block: nat) returns (reply: Option<Bytes>)
      requires out.Length == 516 && block < 0x1_0000
      modifies out
      ensures reply == SessionBlock(session, block)
    {
      if !LegalSize(|session.data|) || !session.isRead || block < 1 || block > BlockCount(|session.data|) {
        return None;
      }
      BlocksAreFile(session.data, block);
      hide BlockCount, FirstBlocks;
      var offset := (block - 1) * BLOCK_SIZE;
      var count := if |session.data| - offset < BLOCK_SIZE then |session.data| - offset else BLOCK_SIZE;
      ghost var bytes := Block(session.data, block);
      assert session.data[offset..][..count] == bytes;
      hide Block;
      var b := PutU16(out, 0, DATA);
      b := PutU16(out, b, block);
      b := PutBytes(out, b, session.data[offset..][..count]);
      PacketIs(out[..0], block, bytes);
      reply := Some(out[..b]);
    }

    method Refuse(out: array<Byte>, code: nat, text: Bytes) returns (reply: Option<Bytes>)
      requires out.Length == 516 && code < 0x1_0000 && |text| <= 30
      modifies out
      ensures reply == Some(ErrorPacket(code, text))
    {
      assert out[..0] == [];
      var b := PutErrorReply(out, 0, code, text);
      assert out[..b] == ErrorPacket(code, text);
      reply := Some(out[..b]);
    }

    method Receive(peer: Endpoint, packet: Bytes, opens: bool) returns (reply: Option<Bytes>)
      modifies this
      ensures reply.Some? ==> ServerOn(old(State()), peer, packet, opens) == Some(Turn(State(), reply.value))
      ensures reply.None? ==> ServerOn(old(State()), peer, packet, opens).None?
    {
      hide OnRequest, OnAck, OnData, ErrorPacket;
      if |packet| > MAX_RECEIVED {
        running := false;
        return Some([]);
      }
      if peer.addr == BROADCAST {
        return None;
      }
      var out := new Byte[516];
      var op := GetU16(packet);
      if op.None? {
        return None;
      }
      if op.value.value == RRQ || op.value.value == WRQ {
        reply := ReceiveRequest(out, peer, op.value.value == RRQ, op.value.rest);
      } else if op.value.value == ACK {
        reply := ReceiveAck(out, peer, op.value.rest);
      } else if op.value.value == DATA {
        reply := ReceiveData(out, peer, op.value.rest, opens);
      } else {
        running := false;
        reply := Refuse(out, ILLEGAL_OPERATION, UNSUPPORTED);
      }
    }

    method ReceiveRequest(out: array<Byte>, peer: Endpoint, isRead: bool, rest: Bytes) returns (reply: Option<Bytes>)
      requires out.Length == 516
      modifies this, out
      ensures reply.Some? ==> OnRequest(old(State()), peer, isRead, rest) == Some(Turn(State(), reply.value))
      ensures reply.None? ==> OnRequest(old(State()), peer, isRead, rest).None?
    {
      var filename := FindString(rest);
      if filename.None? {
        return None;
      }
      var mode := FindString(filename.value.rest);
      if mode.None? {
        return None;
      }
      var name := filename.value.value;
      var k := FindSession(peer);
      if k < |sessions| {
        sessions := sessions[..k] + sessions[k + 1..];
      }
      if mode.value.value != OCTET {
        reply := Refuse(out, ILLEGAL_OPERATION, BAD_MODE);
      } else if !ValidFilename(name) {
        reply := Refuse(out, FILE_NOT_FOUND, BAD_NAME);
      } else if isRead {
        if name !in files {
          reply := Refuse(out, FILE_NOT_FOUND, NOT_FOUND);
        } else {
          sessions := sessions + [Session(peer, name, true, files[name])];
          reply := PutBlock(out, sessions[|sessions| - 1], 1);
        }
      } else if name in files {
        reply := Refuse(out, ACCESS_VIOLATION, EXISTS);
      } else {
        sessions := sessions + [Session(peer, name, false, [])];
        var b := PutAck(out, 0);
        reply := Some(out[..b]);
      }
    }

    method PutAck(out: array<Byte>, block: nat) returns (b: nat)
      requires out.Length == 516 && block < 0x1_0000
      modifies out
      ensures b == 4 && out[..b] == AckPacket(block)
    {
      b := PutU16(out, 0, ACK);
      b := PutU16(out, b, block);
    }

    method ReceiveAck(out: array<Byte>, peer: Endpoint, rest: Bytes) returns (reply: Option<Bytes>)
      requires out.Length == 516
      modifies this`sessions, out
      ensures reply.Some? ==> OnAck(old(State()), peer, rest) == Some(Turn(State(), reply.value))
      ensures reply.None? ==> OnAck(old(State()), peer, rest).None?
    {
      var block := GetU16(rest);
      var k := FindSession(peer);
      if block.None? || k == |sessions| {
        return None;
      }
      var n, session := block.value.value, sessions[k];
      if n < 1 || n > BlockCount(|session.data|) {
        return None;
      }
      if n == BlockCount(|session.data|) {
        sessions := sessions[..k] + sessions[k + 1..];
        return Some([]);
      }
      reply := PutBlock(out, session, n + 1);
    }

    method ReceiveData(out: array<Byte>, peer: Endpoint, rest: Bytes, opens: bool) returns (reply: Option<Bytes>)
      requires out.Length == 516
      modifies this, out
      ensures reply.Some? ==> OnData(old(State()), peer, rest, opens) == Some(Turn(State(), reply.value))
      ensures reply.None? ==> OnData(old(State()), peer, rest, opens).None?
    {
      var block := GetU16(rest);
      var k := FindSession(peer);
      if block.None? || k == |sessions| {
        return None;
      }
      var n, data, session := block.value.value, block.value.rest, sessions[k];
      if session.isRead || n == 0 || |data| > BLOCK_SIZE || n != Expected(session) {
        return None;
      }
      session := session.(data := session.data + data);
      sessions := sessions[k := session];
      var b := PutAck(out, n);
      if |data| < BLOCK_SIZE {
        if session.filename in files {
          b := PutErrorReply(out, b, ACCESS_VIOLATION, EXISTS);
        } else if !opens {
          return None;
        } else {
          files := files[session.filename := session.data];
        }
        sessions := sessions[..k] + sessions[k + 1..];
      }
      reply := Some(out[..b]);
    }
  }
}
