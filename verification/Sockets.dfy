/** The table of open UDP sockets: who is bound to which port, and who gets a datagram. */
module Sockets {
  import opened Options

  const ANY: nat := 0
  const FIRST_PORT: nat := 49152
  const LAST_PORT: nat := 65535
  const BROADCAST: nat := 0xFFFF_FFFF

  // `id` is the socket itself, and who is called with its data.
  datatype Socket = Socket(addr: nat, port: nat, id: nat)

  // The open sockets in order, and the address of this machine, once it is configured.
  datatype Table = Table(sockets: seq<Socket>, addr: nat)

  predicate Matches(s: Socket, addr: nat, port: nat) {
    (s.addr == ANY || s.addr == addr) && s.port == port
  }

  // The place of the first socket that matches, or the number of sockets.
  function FindOpen(sockets: seq<Socket>, addr: nat, port: nat): (k: nat)
    ensures k <= |sockets| && (k < |sockets| ==> Matches(sockets[k], addr, port))
    ensures forall j :: 0 <= j < k ==> !Matches(sockets[j], addr, port)
  {
    if sockets == [] || Matches(sockets[0], addr, port) then 0 else 1 + FindOpen(sockets[1..], addr, port)
  }

  // The first free port from `port` on, or the last.
  function FreePort(sockets: seq<Socket>, addr: nat, port: nat): (p: nat)
    requires port <= LAST_PORT
    ensures port <= p <= LAST_PORT && (p < LAST_PORT ==> FindOpen(sockets, addr, p) == |sockets|)
    ensures forall q :: port <= q < p ==> FindOpen(sockets, addr, q) < |sockets|
    decreases LAST_PORT - port
  {
    if port == LAST_PORT || FindOpen(sockets, addr, port) == |sockets| then port else FreePort(sockets, addr, port + 1)
  }

  function Chosen(t: Table, addr: nat, port: nat): nat {
    if port == 0 then FreePort(t.sockets, addr, FIRST_PORT) else port
  }

  function Open(t: Table, addr: nat, port: nat, id: nat): Option<Table> {
    var p := Chosen(t, addr, port);
    if (addr != t.addr && addr != ANY) || FindOpen(t.sockets, addr, p) < |t.sockets| then None
    else Some(t.(sockets := t.sockets + [Socket(addr, p, id)]))
  }

  function Close(t: Table, addr: nat, port: nat): Option<Table> {
    var k := FindOpen(t.sockets, addr, port);
    if k == |t.sockets| then None else Some(t.(sockets := t.sockets[..k] + t.sockets[k + 1..]))
  }

  // The address is configured once.
  function Configure(t: Table, addr: nat): Option<Table> {
    if t.addr != ANY || addr == ANY || addr == BROADCAST then None else Some(t.(addr := addr))
  }

  // Who gets a datagram, if anyone.
  function Receiver(t: Table, addr: nat, port: nat): Option<Socket> {
    var k := FindOpen(t.sockets, addr, port);
    if k < |t.sockets| then Some(t.sockets[k]) else None
  }

  // ----- what every operation keeps -----

  /** Bindings are unique, and a socket bound to the address precedes one bound to any
      address on the same port. */
  predicate Inv(t: Table) {
    && (forall i :: 0 <= i < |t.sockets| ==> t.sockets[i].addr == ANY || t.sockets[i].addr == t.addr)
    && (forall i, j :: 0 <= i < j < |t.sockets| && t.sockets[i].port == t.sockets[j].port ==>
          t.sockets[i].addr != ANY && t.sockets[j].addr == ANY)
  }

  lemma OpenKeeps(t: Table, addr: nat, port: nat, id: nat)
    requires Inv(t) && Open(t, addr, port, id).Some?
    ensures Inv(Open(t, addr, port, id).value)
  {
    var p := Chosen(t, addr, port);
    assert FindOpen(t.sockets, addr, p) == |t.sockets|;
    assert forall j :: 0 <= j < |t.sockets| ==> !Matches(t.sockets[j], addr, p);
    hide Chosen, FindOpen;
  }

  /** Closing a socket that is open takes out that one, and no other. */
  lemma CloseExactly(t: Table, k: nat)
    requires Inv(t) && k < |t.sockets|
    ensures FindOpen(t.sockets, t.sockets[k].addr, t.sockets[k].port) == k
    ensures Close(t, t.sockets[k].addr, t.sockets[k].port) == Some(t.(sockets := t.sockets[..k] + t.sockets[k + 1..]))
    ensures Inv(t.(sockets := t.sockets[..k] + t.sockets[k + 1..]))
  {
    var s := t.sockets[k];
    var j := FindOpen(t.sockets, s.addr, s.port);
    assert Matches(s, s.addr, s.port);
    assert j <= k;
    Removed(t, k);
    hide FindOpen;
  }

  lemma Removed(t: Table, k: nat)
    requires Inv(t) && k < |t.sockets|
    ensures Inv(t.(sockets := t.sockets[..k] + t.sockets[k + 1..]))
  {
    var u := t.sockets[..k] + t.sockets[k + 1..];
    assert forall i :: 0 <= i < |u| ==> u[i] == t.sockets[if i < k then i else i + 1];
  }

  /** A datagram goes to the socket bound to its address, to the one bound to any address
      when there is no such, and to nobody when there is neither. */
  lemma ReceiverExactly(t: Table, addr: nat, port: nat, s: Socket)
    requires Inv(t) && addr != ANY && s.port == port
    ensures s.addr == addr ==> (Receiver(t, addr, port) == Some(s) <==> s in t.sockets)
    ensures s.addr == ANY ==> (Receiver(t, addr, port) == Some(s) <==>
      s in t.sockets && forall i :: 0 <= i < |t.sockets| ==> t.sockets[i].addr != addr || t.sockets[i].port != port)
    ensures Receiver(t, addr, port).Some? ==>
      Receiver(t, addr, port).value in t.sockets && Matches(Receiver(t, addr, port).value, addr, port)
  {
    var k := FindOpen(t.sockets, addr, port);
    if s in t.sockets {
      var i :| 0 <= i < |t.sockets| && t.sockets[i] == s;
      assert s.addr == addr || s.addr == ANY ==> Matches(t.sockets[i], addr, port) && k <= i;
    }
    hide FindOpen;
  }

  // ----- runs -----

  // The sockets are closed by those that opened them.
  datatype Event = Configured(addr: nat) | Opened(addr: nat, port: nat, id: nat) | Closed(k: nat)

  function Step(t: Table, e: Event): Option<Table> {
    match e
    case Configured(addr) => Configure(t, addr)
    case Opened(addr, port, id) => Open(t, addr, port, id)
    case Closed(k) => if k < |t.sockets| then Close(t, t.sockets[k].addr, t.sockets[k].port) else None
  }

  function Run(t: Table, events: seq<Event>): Option<Table>
    decreases |events|
  {
    if events == [] then Some(t)
    else
      var u := Step(t, events[0]);
      if u.None? then None else Run(u.value, events[1..])
  }

  /** The table is in order in every run, from no sockets and no address. */
  lemma {:induction false} RunKeeps(t: Table, events: seq<Event>)
    requires Inv(t)
    ensures Run(t, events).Some? ==> Inv(Run(t, events).value)
    decreases |events|
  {
    if events != [] && Step(t, events[0]).Some? {
      match events[0] {
        case Configured(addr) =>
        case Opened(addr, port, id) => OpenKeeps(t, addr, port, id);
        case Closed(k) => CloseExactly(t, k);
      }
      hide Open, Close, FindOpen;
      RunKeeps(Step(t, events[0]).value, events[1..]);
    }
  }

  /** The table as it is kept, in a vector. Methods that return false have halted. */
  class SocketTable {
    var slots: array<Socket>
    var count: nat
    var addr: nat

    ghost predicate Valid()
      reads this, slots
    {
      count <= slots.Length
    }

    ghost function State(): Table
      reads this, slots
      requires Valid()
    {
      Table(slots[..count], addr)
    }

    constructor ()
      ensures Valid() && fresh(slots) && State() == Table([], ANY) && Inv(State())
    {
      slots, count, addr := new Socket[10](_ => Socket(0, 0, 0)), 0, ANY;
    }

    method Find(address: nat, port: nat) returns (k: nat)
      requires Valid()
      ensures k == FindOpen(slots[..count], address, port)
    {
      k := 0;
      while k < count && !Matches(slots[k], address, port)
        invariant k <= count && forall j :: 0 <= j < k ==> !Matches(slots[j], address, port)
      {
        k := k + 1;
      }
      FoundAt(slots[..count], address, port, k);
    }

    method UdpOpen(address: nat, port: nat, id: nat) returns (ok: bool)
      requires Valid()
      modifies this, slots
      ensures Valid() && (slots == old(slots) || fresh(slots))
      ensures ok ==> Open(old(State()), address, port, id) == Some(State())
      ensures !ok ==> Open(old(State()), address, port, id).None?
    {
      var p := port;
      if port == 0 {
        p := FirstFree(address);
      }
      var k := Find(address, p);
      if (address != addr && address != ANY) || k < count {
        return false;
      }
      PushBack(Socket(address, p, id));
      ok := true;
    }

    method FirstFree(address: nat) returns (p: nat)
      requires Valid()
      ensures p == FreePort(slots[..count], address, FIRST_PORT)
    {
      p := FIRST_PORT;
      hide FindOpen, FreePort;
      FreeStep(slots[..count], address, LAST_PORT);
      while p < LAST_PORT
        invariant FIRST_PORT <= p <= LAST_PORT
        invariant FreePort(slots[..count], address, FIRST_PORT) == FreePort(slots[..count], address, p)
      {
        var k := Find(address, p);
        FreeStep(slots[..count], address, p);
        if k == count {
          return;
        }
        p := p + 1;
      }
    }

    // The vector grows to twice its size when it is full.
    method PushBack(s: Socket)
      requires Valid()
      modifies this`slots, this`count, slots
      ensures Valid() && (slots == old(slots) || fresh(slots))
      ensures slots[..count] == old(slots[..count]) + [s]
    {
      if count == slots.Length {
        var larger := new Socket[if count == 0 then 10 else 2 * count](_ => s);
        forall i | 0 <= i < count {
          larger[i] := slots[i];
        }
        slots := larger;
      }
      slots[count] := s;
      count := count + 1;
    }

    method UdpClose(address: nat, port: nat) returns (ok: bool)
      requires Valid()
      modifies this`count, slots
      ensures Valid()
      ensures ok ==> Close(old(State()), address, port) == Some(State())
      ensures !ok ==> Close(old(State()), address, port).None?
    {
      var k := Find(address, port);
      if k == count {
        return false;
      }
      ghost var s := slots[..count];
      assert s[..k] == slots[..k] && s[k + 1..] == slots[k + 1..count];
      Erase(k);
      ok := true;
    }

    // Those behind move up, one by one.
    method Erase(k: nat)
      requires Valid() && k < count
      modifies this`count, slots
      ensures Valid() && slots[..count] == old(slots[..k]) + old(slots[k + 1..count])
    {
      var i := k;
      while i + 1 < count
        invariant k <= i < count <= slots.Length && count == old(count)
        invariant forall j :: 0 <= j < k ==> slots[j] == old(slots[j])
        invariant forall j :: k <= j < i ==> slots[j] == old(slots[j + 1])
        invariant forall j :: i < j < count ==> slots[j] == old(slots[j])
      {
        slots[i] := slots[i + 1];
        i := i + 1;
      }
      count := count - 1;
    }
  }

  lemma FoundAt(sockets: seq<Socket>, addr: nat, port: nat, k: nat)
    requires k <= |sockets| && forall j :: 0 <= j < k ==> !Matches(sockets[j], addr, port)
    requires k < |sockets| ==> Matches(sockets[k], addr, port)
    ensures FindOpen(sockets, addr, port) == k
  {
  }

  lemma FreeStep(sockets: seq<Socket>, addr: nat, port: nat)
    requires port <= LAST_PORT
    ensures FreePort(sockets, addr, port) ==
      if port == LAST_PORT || FindOpen(sockets, addr, port) == |sockets| then port
        else FreePort(sockets, addr, port + 1)
  {
  }
}
