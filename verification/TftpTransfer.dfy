/** A client and the server over a network that loses, repeats and reorders, among any
    other clients. */
module TftpTransfer {
  import opened Options
  import opened Octets
  import opened TftpPackets
  import opened TftpClients
  import opened TftpServer

  datatype Client = Reader(reading: Reading) | Writer(writing: Writing)

  // What was ever sent may arrive at any time, any number of times, or never. `storedBy`
  // remembers whose session stored a file.
  datatype System = System(server: Server, client: Client, toServer: set<Bytes>, toClient: set<Bytes>,
    storedBy: map<Bytes, Endpoint>)

  datatype Event =
    | Tick
    | AtClient(packet: Bytes)
    | AtServer(packet: Bytes, opens: bool)
    | FromOther(peer: Endpoint, packet: Bytes, opens: bool)

  predicate ClientOk(c: Client) {
    c.Writer? ==> WritingOk(c.writing)
  }

  function ClientTick(c: Client): Option<Moved<Client>>
    requires ClientOk(c)
  {
    match c
    case Reader(r) => AsReader(ReadingTick(r))
    case Writer(w) => AsWriter(WritingTick(w))
  }

  function ClientOn(c: Client, packet: Bytes): Option<Moved<Client>>
    requires ClientOk(c)
  {
    match c
    case Reader(r) => AsReader(ReadingOn(r, packet))
    case Writer(w) => AsWriter(WritingOn(w, packet))
  }

  function AsReader(m: Option<Moved<Reading>>): Option<Moved<Client>> {
    if m.None? then None else Some(Moved(Reader(m.value.state), m.value.sent))
  }

  function AsWriter(m: Option<Moved<Writing>>): Option<Moved<Client>> {
    if m.None? then None else Some(Moved(Writer(m.value.state), m.value.sent))
  }

  function Sent(net: set<Bytes>, packet: Bytes): set<Bytes> {
    if packet == [] then net else net + {packet}
  }

  function ClientMoves(s: System, m: Option<Moved<Client>>): Option<System> {
    if m.None? then None else Some(s.(client := m.value.state, toServer := Sent(s.toServer, m.value.sent)))
  }

  function ServerTurns(s: System, me: Endpoint, peer: Endpoint, packet: Bytes, opens: bool): Option<System> {
    var turn := ServerOn(s.server, peer, packet, opens);
    if !s.server.running || turn.None? then None
    else
      var server := turn.value.server;
      Some(s.(
        server := server,
        storedBy := s.storedBy + map n | n in server.files && n !in s.server.files :: peer,
        toClient := if peer == me then Sent(s.toClient, turn.value.reply) else s.toClient))
  }

  // None when the event cannot happen, or one side halts on it.
  function Next(s: System, me: Endpoint, e: Event): Option<System>
    requires ClientOk(s.client)
  {
    match e
    case Tick => ClientMoves(s, ClientTick(s.client))
    case AtClient(packet) => if packet !in s.toClient then None else ClientMoves(s, ClientOn(s.client, packet))
    case AtServer(packet, opens) => if packet !in s.toServer then None else ServerTurns(s, me, me, packet, opens)
    case FromOther(peer, packet, opens) => if peer == me then None else ServerTurns(s, me, peer, packet, opens)
  }

  // What the server's turn makes of the system.
  lemma TurnIs(s: System, me: Endpoint, peer: Endpoint, packet: Bytes, opens: bool)
    requires ClientOk(s.client) && s.server.running && ServerOn(s.server, peer, packet, opens).Some?
    requires peer == me ==> packet in s.toServer
    ensures var turn := ServerOn(s.server, peer, packet, opens).value;
      var t := Next(s, me, if peer == me then AtServer(packet, opens) else FromOther(peer, packet, opens));
      && t.Some? && t.value.server == turn.server && t.value.client == s.client && t.value.toServer == s.toServer
      && t.value.toClient == if peer == me then Sent(s.toClient, turn.reply) else s.toClient
  {
    hide ServerOn, Sent;
  }

  // What an acknowledgement makes of a writer's system.
  lemma MoveIs(s: System, me: Endpoint, packet: Bytes)
    requires ClientOk(s.client) && s.client.Writer? && packet in s.toClient
    requires WritingOn(s.client.writing, packet).Some?
    ensures var m := WritingOn(s.client.writing, packet).value;
      var t := Next(s, me, AtClient(packet));
      && t.Some? && t.value.server == s.server && t.value.toClient == s.toClient
      && t.value.client == Writer(m.state) && t.value.toServer == Sent(s.toServer, m.sent)
  {
    hide WritingOn, WritingOk, Sent;
  }

  lemma NextOk(s: System, me: Endpoint, e: Event)
    requires ClientOk(s.client)
    ensures Next(s, me, e).Some? ==> ClientOk(Next(s, me, e).value.client)
  {
    if s.client.Writer? {
      WritingKeepsOk(s.client.writing, if e.AtClient? then e.packet else []);
    }
    hide WritingOn, WritingTick, WritingOk, ServerOn;
  }

  function Run(s: System, me: Endpoint, events: seq<Event>): Option<System>
    requires ClientOk(s.client)
    decreases |events|
  {
    if events == [] then Some(s)
    else
      NextOk(s, me, events[0]);
      var t := Next(s, me, events[0]);
      if t.None? then None else Run(t.value, me, events[1..])
  }

  // A server that has nothing of `me`, and a client that has just sent its request.
  predicate Starts(s: System, me: Endpoint) {
    && OnePerPeer(s.server.sessions) && Own(s.server.sessions, me) == None
    && s.toClient == {} && s.storedBy == map[]
  }

  predicate StartsReading(s: System, me: Endpoint, name: Bytes) {
    && Starts(s, me) && IsText(name)
    && s.client == Reader(AskToRead(name).state) && s.toServer == {AskToRead(name).sent}
  }

  predicate StartsWriting(s: System, me: Endpoint, name: Bytes, data: Bytes) {
    && Starts(s, me) && IsText(name) && LegalSize(|data|)
    && s.client == Writer(AskToWrite(name, data).state) && s.toServer == {AskToWrite(name, data).sent}
  }
}
