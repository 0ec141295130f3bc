/** Datagrams as they are built, and what a receiver makes of them. */
module Datagrams {
  import opened Options
  import opened Octets
  import opened Checksum

  const IP_HEADER: nat := 20
  const ETHERNET_HEADER: nat := 14
  const MAX_FRAME: nat := 1500
  const ICMP: Byte := 1
  const UDP: Byte := 17
  const ECHO_REPLY: Byte := 0

  // An address of four bytes.
  predicate IsAddress(a: Bytes) {
    |a| == 4
  }

  function Plain(protocol: Byte, payload: nat, src: Bytes, dst: Bytes): Bytes
    requires payload + IP_HEADER < 0x1_0000
  {
    [0x45, 0] + U16(IP_HEADER + payload) + [0, 0, 0, 0] + [64, protocol] + [0, 0] + src + dst
  }

  // The header of an IPv4 packet, its checksum filled in.
  function Header(protocol: Byte, payload: nat, src: Bytes, dst: Bytes): Bytes
    requires payload + IP_HEADER < 0x1_0000 && IsAddress(src) && IsAddress(dst)
  {
    var plain := Plain(protocol, payload, src, dst);
    Filled(plain, 10, Csum(plain, 0))
  }

  function UdpPacket(src: Bytes, srcPort: nat, dst: Bytes, dstPort: nat, data: Bytes): Bytes
    requires IsAddress(src) && IsAddress(dst) && srcPort < 0x1_0000 && dstPort < 0x1_0000 && |data| + 28 < 0x1_0000
  {
    Header(UDP, 8 + |data|, src, dst) + (U16(srcPort) + U16(dstPort) + U16(8 + |data|) + [0, 0] + data)
  }

  function EchoPlain(rest: Bytes, data: Bytes): Bytes {
    [ECHO_REPLY, 0, 0, 0] + rest + data
  }

  // The answer to an echo request: its data, and the rest of its header.
  function EchoReply(src: Bytes, dst: Bytes, rest: Bytes, data: Bytes): Bytes
    requires IsAddress(src) && IsAddress(dst) && |rest| == 4 && |data| + 28 < 0x1_0000
  {
    var icmp := EchoPlain(rest, data);
    Header(ICMP, 8 + |data|, src, dst) + Filled(icmp, 2, Csum(icmp, 0))
  }

  // ----- receiving -----

  datatype Received =
    | Datagram(src: Bytes, srcPort: nat, dst: Bytes, dstPort: nat, data: Bytes)
    | Echo(kind: Byte, code: Byte, src: Bytes, dst: Bytes, rest: Bytes, data: Bytes)
    | Ignored

  function Word(data: Bytes, k: nat): nat
    requires k + 2 <= |data|
  {
    256 * (data[k] as int) + data[k + 1]
  }

  // What comes in an Ethernet frame of type IPv4; None when a REQUIRE fails.
  function Ipv4In(frame: Bytes): Option<Received> {
    if |frame| < IP_HEADER || frame[0] / 16 != 4 || frame[0] % 16 < 5 then None
    else
      var header, length := 4 * ((frame[0] as int) % 16), Word(frame, 2);
      if header > |frame| || length > |frame| || length < header || Csum(frame[..header], 0) != 0 then None
      else
        var src, dst, payload := frame[12..16], frame[16..20], frame[header..length];
        if frame[9] == ICMP then IcmpIn(src, dst, payload)
        else if frame[9] == UDP then UdpIn(src, dst, payload)
        else if frame[9] == 2 || frame[9] == 6 then Some(Ignored)
        else None
  }

  function IcmpIn(src: Bytes, dst: Bytes, payload: Bytes): Option<Received> {
    if |payload| < 8 || Csum(payload, 0) != 0 then None
    else Some(Echo(payload[0], payload[1], src, dst, payload[4..8], payload[8..]))
  }

  function UdpIn(src: Bytes, dst: Bytes, payload: Bytes): Option<Received> {
    if |payload| < 8 || Word(payload, 4) < 8 || Word(payload, 4) > |payload| then None
    else Some(Datagram(src, Word(payload, 0), dst, Word(payload, 2), payload[8..Word(payload, 4)]))
  }

  // The fields of a header, where the receiver looks for them.
  predicate HeaderHas(h: Bytes, protocol: Byte, payload: nat, src: Bytes, dst: Bytes) {
    && |h| == IP_HEADER && h[0] == 0x45 && Word(h, 2) == IP_HEADER + payload && h[9] == protocol
    && h[12..16] == src && h[16..20] == dst && Csum(h, 0) == 0
  }

  lemma HeaderOk(protocol: Byte, payload: nat, src: Bytes, dst: Bytes)
    requires payload + IP_HEADER < 0x1_0000 && IsAddress(src) && IsAddress(dst)
    ensures HeaderHas(Header(protocol, payload, src, dst), protocol, payload, src, dst)
  {
    var plain := Plain(protocol, payload, src, dst);
    PlainHas(protocol, payload, src, dst);
    FillVerifies(plain, 10, Csum(plain, 0));
    hide Csum, Plain;
    assert Filled(plain, 10, Csum(plain, 0))[12..16] == plain[12..16];
    assert Filled(plain, 10, Csum(plain, 0))[16..20] == plain[16..20];
  }

  lemma PlainHas(protocol: Byte, payload: nat, src: Bytes, dst: Bytes)
    requires payload + IP_HEADER < 0x1_0000 && IsAddress(src) && IsAddress(dst)
    ensures var h := Plain(protocol, payload, src, dst);
      && |h| == IP_HEADER && h[0] == 0x45 && Word(h, 2) == IP_HEADER + payload && h[9] == protocol
      && h[10] == 0 && h[11] == 0 && h[12..16] == src && h[16..20] == dst
  {
  }

  // A packet with a good header gets as far as its protocol, whatever pads the frame.
  lemma Opens(h: Bytes, protocol: Byte, payload: Bytes, src: Bytes, dst: Bytes, padding: Bytes)
    requires HeaderHas(h, protocol, |payload|, src, dst) && (protocol == ICMP || protocol == UDP)
    ensures Ipv4In(h + payload + padding) == if protocol == ICMP then IcmpIn(src, dst, payload)
      else UdpIn(src, dst, payload)
  {
    var frame := h + payload + padding;
    assert forall k :: 0 <= k < IP_HEADER ==> frame[k] == h[k];
    assert frame[..20] == h && frame[20..20 + |payload|] == payload;
    assert frame[12..16] == h[12..16] && frame[16..20] == h[16..20];
    hide Csum, IcmpIn, UdpIn;
  }

  /** A datagram that is sent passes every check of its receiver, and is what it was. */
  lemma DatagramArrives(src: Bytes, srcPort: nat, dst: Bytes, dstPort: nat, data: Bytes, padding: Bytes)
    requires IsAddress(src) && IsAddress(dst) && srcPort < 0x1_0000 && dstPort < 0x1_0000 && |data| + 28 < 0x1_0000
    ensures Ipv4In(UdpPacket(src, srcPort, dst, dstPort, data) + padding) ==
      Some(Datagram(src, srcPort, dst, dstPort, data))
  {
    var payload := U16(srcPort) + U16(dstPort) + U16(8 + |data|) + [0, 0] + data;
    HeaderOk(UDP, 8 + |data|, src, dst);
    UdpParts(srcPort, dstPort, data);
    hide Header, HeaderHas, Ipv4In;
    Opens(Header(UDP, 8 + |data|, src, dst), UDP, payload, src, dst, padding);
  }

  lemma UdpParts(srcPort: nat, dstPort: nat, data: Bytes)
    requires srcPort < 0x1_0000 && dstPort < 0x1_0000 && |data| + 28 < 0x1_0000
    ensures var p := U16(srcPort) + U16(dstPort) + U16(8 + |data|) + [0, 0] + data;
      |p| == 8 + |data| && Word(p, 0) == srcPort && Word(p, 2) == dstPort && Word(p, 4) == 8 + |data|
        && p[8..8 + |data|] == data
  {
  }

  /** So does the answer to an echo request, with the request's data. */
  lemma EchoArrives(src: Bytes, dst: Bytes, rest: Bytes, data: Bytes, padding: Bytes)
    requires IsAddress(src) && IsAddress(dst) && |rest| == 4 && |data| + 28 < 0x1_0000
    ensures Ipv4In(EchoReply(src, dst, rest, data) + padding) == Some(Echo(ECHO_REPLY, 0, src, dst, rest, data))
  {
    var icmp := EchoPlain(rest, data);
    var payload := Filled(icmp, 2, Csum(icmp, 0));
    HeaderOk(ICMP, 8 + |data|, src, dst);
    FillVerifies(icmp, 2, Csum(icmp, 0));
    assert IcmpIn(src, dst, payload) == Some(Echo(ECHO_REPLY, 0, src, dst, rest, data)) by {
      hide Csum;
      assert payload[4..8] == rest && payload[8..] == data;
    }
    hide Header, HeaderHas, Ipv4In, IcmpIn, Csum;
    Opens(Header(ICMP, 8 + |data|, src, dst), ICMP, payload, src, dst, padding);
  }

  /** Byte by byte, a datagram is what section 3.1 of RFC 791 and RFC 768 ask for: version 4
      and five words of header, the lengths, 64 hops, protocol 17, a header sum of zero, the
      addresses and ports of both ends, no checksum of its own, and the data. */
  lemma DatagramBytes(src: Bytes, srcPort: nat, dst: Bytes, dstPort: nat, data: Bytes)
    requires IsAddress(src) && IsAddress(dst) && srcPort < 0x1_0000 && dstPort < 0x1_0000 && |data| + 28 < 0x1_0000
    ensures var p, n := UdpPacket(src, srcPort, dst, dstPort, data), |data|;
      && |p| == 28 + n && Csum(p[..20], 0) == 0
      && p[..10] == [0x45, 0, (28 + n) / 256, (28 + n) % 256, 0, 0, 0, 0, 64, 17]
      && p[12..] ==
        src + dst + [srcPort / 256, srcPort % 256, dstPort / 256, dstPort % 256, (8 + n) / 256, (8 + n) % 256, 0, 0]
          + data
  {
    HeaderBytes(17, 8 + |data|, src, dst);
    hide Csum, Header;
  }

  /** So is the answer to an echo request: protocol 1, type and code zero, a sum of zero. */
  lemma EchoBytes(src: Bytes, dst: Bytes, rest: Bytes, data: Bytes)
    requires IsAddress(src) && IsAddress(dst) && |rest| == 4 && |data| + 28 < 0x1_0000
    ensures var p, n := EchoReply(src, dst, rest, data), |data|;
      && |p| == 28 + n && Csum(p[..20], 0) == 0 && Csum(p[20..], 0) == 0
      && p[..10] == [0x45, 0, (28 + n) / 256, (28 + n) % 256, 0, 0, 0, 0, 64, 1]
      && p[12..22] == src + dst + [0, 0] && p[24..] == rest + data
  {
    var icmp := EchoPlain(rest, data);
    HeaderBytes(1, 8 + |data|, src, dst);
    FillVerifies(icmp, 2, Csum(icmp, 0));
    hide Csum, Header;
    assert EchoReply(src, dst, rest, data)[20..] == Filled(icmp, 2, Csum(icmp, 0));
  }

  lemma HeaderBytes(protocol: Byte, payload: nat, src: Bytes, dst: Bytes)
    requires payload + IP_HEADER < 0x1_0000 && IsAddress(src) && IsAddress(dst)
    ensures var h, n := Header(protocol, payload, src, dst), 20 + payload;
      && |h| == 20 && Csum(h, 0) == 0
      && h[..10] == [0x45, 0, n / 256, n % 256, 0, 0, 0, 0, 64, protocol] && h[12..] == src + dst
  {
    HeaderOk(protocol, payload, src, dst);
    hide Csum;
  }

  // ----- what is delivered at all -----

  // A frame that carries a datagram: a header with its options, what UDP puts in front of the
  // data, and whatever is behind it in the packet and in the frame.
  datatype Parts = Parts(head: Bytes, checksum: Bytes, slack: Bytes, padding: Bytes)

  predicate Carries(frame: Bytes, p: Parts, src: Bytes, srcPort: nat, dst: Bytes, dstPort: nat, data: Bytes) {
    && srcPort < 0x1_0000 && dstPort < 0x1_0000 && 8 + |data| < 0x1_0000 && |p.checksum| == 2
    && frame ==
      p.head + (U16(srcPort) + U16(dstPort) + U16(8 + |data|) + p.checksum + data + p.slack) + p.padding
    && 20 <= |p.head| <= 60 && p.head[0] == 0x40 + |p.head| / 4 && |p.head| % 4 == 0 && Csum(p.head, 0) == 0
    && Word(p.head, 2) == |p.head| + 8 + |data| + |p.slack|
    && p.head[9] == 17 && p.head[12..16] == src && p.head[16..20] == dst
  }

  /** A frame that carries a datagram is delivered as that datagram, options and all. */
  lemma CarriedIsDelivered(frame: Bytes, p: Parts, src: Bytes, srcPort: nat, dst: Bytes, dstPort: nat, data: Bytes)
    requires Carries(frame, p, src, srcPort, dst, dstPort, data)
    ensures Ipv4In(frame) == Some(Datagram(src, srcPort, dst, dstPort, data))
  {
    var payload := UdpPayload(srcPort, dstPort, p.checksum, data, p.slack);
    CarriesIs(frame, p, src, srcPort, dst, dstPort, data);
    hide *;
    UdpReads(src, srcPort, dst, dstPort, p.checksum, data, p.slack);
    HeadReads(p.head, payload, p.padding);
  }

  function UdpPayload(srcPort: nat, dstPort: nat, checksum: Bytes, data: Bytes, slack: Bytes): Bytes
    requires srcPort < 0x1_0000 && dstPort < 0x1_0000 && 8 + |data| < 0x1_0000
  {
    U16(srcPort) + U16(dstPort) + U16(8 + |data|) + checksum + data + slack
  }

  lemma CarriesIs(frame: Bytes, p: Parts, src: Bytes, srcPort: nat, dst: Bytes, dstPort: nat, data: Bytes)
    requires Carries(frame, p, src, srcPort, dst, dstPort, data)
    ensures srcPort < 0x1_0000 && dstPort < 0x1_0000 && 8 + |data| < 0x1_0000 && |p.checksum| == 2
    ensures frame == p.head + UdpPayload(srcPort, dstPort, p.checksum, data, p.slack) + p.padding
    ensures GoodHead(p.head, |UdpPayload(srcPort, dstPort, p.checksum, data, p.slack)|)
    ensures p.head[12..16] == src && p.head[16..20] == dst
  {
    hide Csum;
  }

  // A header that passes the checks, for a UDP payload of `length` bytes.
  predicate GoodHead(head: Bytes, length: nat) {
    && 20 <= |head| <= 60 && head[0] == 0x40 + |head| / 4 && |head| % 4 == 0 && Csum(head, 0) == 0
    && Word(head, 2) == |head| + length && head[9] == 17
  }

  lemma UdpReads(src: Bytes, srcPort: nat, dst: Bytes, dstPort: nat, checksum: Bytes, data: Bytes, slack: Bytes)
    requires srcPort < 0x1_0000 && dstPort < 0x1_0000 && 8 + |data| < 0x1_0000 && |checksum| == 2
    ensures UdpIn(src, dst, UdpPayload(srcPort, dstPort, checksum, data, slack)) ==
      Some(Datagram(src, srcPort, dst, dstPort, data))
  {
    var payload := UdpPayload(srcPort, dstPort, checksum, data, slack);
    assert Word(payload, 0) == srcPort && Word(payload, 2) == dstPort && Word(payload, 4) == 8 + |data|;
    assert payload[8..8 + |data|] == data;
  }

  lemma HeadReads(head: Bytes, payload: Bytes, padding: Bytes)
    requires GoodHead(head, |payload|)
    ensures |head| >= 20 && Ipv4In(head + payload + padding) == UdpIn(head[12..16], head[16..20], payload)
  {
    var frame, n := head + payload + padding, |head|;
    assert frame[0] == head[0] && Word(frame, 2) == Word(head, 2) && frame[9] == head[9];
    assert frame[..n] == head && frame[n..n + |payload|] == payload;
    assert frame[12..16] == head[12..16] && frame[16..20] == head[16..20];
    hide Csum, UdpIn, IcmpIn, Word;
  }

  /** And nothing else is: every datagram that is delivered is carried by its frame. */
  lemma DeliveredIsCarried(frame: Bytes, src: Bytes, srcPort: nat, dst: Bytes, dstPort: nat, data: Bytes)
    returns (p: Parts)
    requires Ipv4In(frame) == Some(Datagram(src, srcPort, dst, dstPort, data))
    ensures Carries(frame, p, src, srcPort, dst, dstPort, data)
  {
    var head, payload, padding := HeadOnly(frame);
    assert head[12..16] == src && head[16..20] == dst by { UdpKeeps(head[12..16], head[16..20], payload); }
    p := UdpOnly(src, dst, payload, head, padding);
    hide Csum, Ipv4In, UdpIn;
  }

  lemma UdpKeeps(src: Bytes, dst: Bytes, payload: Bytes)
    ensures UdpIn(src, dst, payload).Some? ==>
      var d := UdpIn(src, dst, payload).value;
      d.Datagram? && d.src == src && d.dst == dst
  {
  }

  lemma HeadOnly(frame: Bytes) returns (head: Bytes, payload: Bytes, padding: Bytes)
    requires Ipv4In(frame).Some? && Ipv4In(frame).value.Datagram?
    ensures frame == head + payload + padding && GoodHead(head, |payload|)
    ensures Ipv4In(frame) == UdpIn(head[12..16], head[16..20], payload)
  {
    var n, length := 4 * ((frame[0] as int) % 16), Word(frame, 2);
    head, payload, padding := frame[..n], frame[n..length], frame[length..];
    assert frame[..16][12..16] == frame[12..16];
    assert head[12..16] == frame[12..16] && head[16..20] == frame[16..20];
    hide Csum, UdpIn;
  }

  lemma UdpOnly(src: Bytes, dst: Bytes, payload: Bytes, head: Bytes, padding: Bytes) returns (p: Parts)
    requires UdpIn(src, dst, payload).Some?
    ensures p.head == head && p.padding == padding && |p.checksum| == 2
    ensures var d := UdpIn(src, dst, payload).value;
      && d.Datagram? && d.srcPort < 0x1_0000 && d.dstPort < 0x1_0000 && 8 + |d.data| < 0x1_0000
      && payload == UdpPayload(d.srcPort, d.dstPort, p.checksum, d.data, p.slack)
  {
    var d := UdpIn(src, dst, payload).value;
    p := Parts(head, payload[6..8], payload[8 + |d.data|..], padding);
    WordIs(payload, 0);
    WordIs(payload, 2);
    WordIs(payload, 4);
  }

  lemma WordIs(data: Bytes, k: nat)
    requires k + 2 <= |data|
    ensures Word(data, k) < 0x1_0000 && U16(Word(data, k)) == data[k..k + 2]
  {
  }

  // ----- building -----

  // Writes an IPv4 header and fills in its checksum.
  // The fields of a header, with nothing for the checksum yet.
  method PutPlain(b: array<Byte>, at: nat, protocol: Byte, payload: nat, src: Bytes, dst: Bytes) returns (end: nat)
    requires at + IP_HEADER <= b.Length && payload + IP_HEADER < 0x1_0000 && IsAddress(src) && IsAddress(dst)
    modifies b
    ensures end == at + IP_HEADER && b[..end] == old(b[..at]) + Plain(protocol, payload, src, dst)
  {
    end := PutBytes(b, at, [0x45, 0]);
    end := PutU16(b, end, IP_HEADER + payload);
    end := PutBytes(b, end, [0, 0, 0, 0]);
    end := PutBytes(b, end, [64, protocol]);
    end := PutBytes(b, end, [0, 0]);
    end := PutBytes(b, end, src);
    end := PutBytes(b, end, dst);
    Grouped(old(b[..at]), [0x45, 0], U16(IP_HEADER + payload), [0, 0, 0, 0], [64, protocol], [0, 0], src, dst);
  }

  lemma Grouped(z: Bytes, a: Bytes, b: Bytes, c: Bytes, d: Bytes, e: Bytes, f: Bytes, g: Bytes)
    ensures z + a + b + c + d + e + f + g == z + (a + b + c + d + e + f + g)
  {
  }

  // Two bytes of what was written behind `head` are filled in.
  lemma FilledIn(before: Bytes, after: Bytes, head: Bytes, plain: Bytes, k: nat, c: nat)
    requires before == head + plain && |after| == |before| && k + 2 <= |plain| && c <= ALL_ONES
    requires after == before[|head| + k := c / 256][|head| + k + 1 := c % 256]
    ensures after == head + Filled(plain, k, c)
  {
  }

  method PutHeader(b: array<Byte>, at: nat, protocol: Byte, payload: nat, src: Bytes, dst: Bytes) returns (end: nat)
    requires at + IP_HEADER <= b.Length && payload + IP_HEADER < 0x1_0000 && IsAddress(src) && IsAddress(dst)
    modifies b
    ensures end == at + IP_HEADER && b[at..end] == Header(protocol, payload, src, dst)
    ensures b[..at] == old(b[..at])
  {
    ghost var plain := Plain(protocol, payload, src, dst);
    end := PutPlain(b, at, protocol, payload, src, dst);
    assert |plain| == IP_HEADER;
    assert b[at..end] == plain && b[..at] == old(b[..at]);
    hide Csum, Plain, Filled;
    var c := InetCsum(b, at, IP_HEADER, 0);
    ghost var before := b[..end];
    b[at + 10] := c / 256;
    b[at + 11] := c % 256;
    FilledIn(before, b[..end], before[..at], plain, 10, c);
  }

  // `sendto`: a datagram behind room for the Ethernet header.
  method SendTo(src: Bytes, srcPort: nat, dst: Bytes, dstPort: nat, data: Bytes) returns (b: array<Byte>, end: nat)
    requires IsAddress(src) && IsAddress(dst) && srcPort < 0x1_0000 && dstPort < 0x1_0000
    requires |data| <= MAX_FRAME - (ETHERNET_HEADER + IP_HEADER + 8)
    ensures b.Length == MAX_FRAME && end == ETHERNET_HEADER + IP_HEADER + 8 + |data|
    ensures b[ETHERNET_HEADER..end] == UdpPacket(src, srcPort, dst, dstPort, data)
  {
    b := new Byte[MAX_FRAME];
    hide Header;
    end := PutHeader(b, ETHERNET_HEADER, UDP, 8 + |data|, src, dst);
    ghost var head := b[..end];
    end := PutU16(b, end, srcPort);
    end := PutU16(b, end, dstPort);
    end := PutU16(b, end, 8 + |data|);
    end := PutBytes(b, end, [0, 0]);
    end := PutBytes(b, end, data);
    assert b[..end] == head + (U16(srcPort) + U16(dstPort) + U16(8 + |data|) + [0, 0] + data);
  }

  // The answer that `icmp_in` makes to an echo request.
  method Answer(src: Bytes, dst: Bytes, rest: Bytes, data: Bytes) returns (b: array<Byte>, end: nat)
    requires IsAddress(src) && IsAddress(dst) && |rest| == 4 && |data| < MAX_FRAME - (ETHERNET_HEADER + IP_HEADER + 8)
    ensures b.Length == MAX_FRAME && end == ETHERNET_HEADER + IP_HEADER + 8 + |data|
    ensures b[ETHERNET_HEADER..end] == EchoReply(src, dst, rest, data)
  {
    b := new Byte[MAX_FRAME];
    ghost var icmp := EchoPlain(rest, data);
    hide Header, Csum, Filled;
    var at := PutHeader(b, ETHERNET_HEADER, ICMP, 8 + |data|, src, dst);
    ghost var head := b[..at];
    end := PutEcho(b, at, rest, data);
    assert b[at..end] == icmp;
    var c := InetCsum(b, at, 8 + |data|, 0);
    ghost var before := b[..end];
    b[at + 2] := c / 256;
    b[at + 3] := c % 256;
    FilledIn(before, b[..end], head, icmp, 2, c);
    assert b[ETHERNET_HEADER..end] == b[..end][ETHERNET_HEADER..];
    assert head[ETHERNET_HEADER..] == Header(ICMP, 8 + |data|, src, dst);
  }

  // An echo reply, with nothing for its checksum yet.
  method PutEcho(b: array<Byte>, at: nat, rest: Bytes, data: Bytes) returns (end: nat)
    requires |rest| == 4 && at + 8 + |data| <= b.Length
    modifies b
    ensures end == at + 8 + |data| && b[..end] == old(b[..at]) + EchoPlain(rest, data)
  {
    end := PutBytes(b, at, [ECHO_REPLY, 0]);
    end := PutBytes(b, end, [0, 0]);
    end := PutBytes(b, end, rest);
    end := PutBytes(b, end, data);
    assert [ECHO_REPLY, 0] + [0, 0] == [ECHO_REPLY, 0, 0, 0];
  }
}
