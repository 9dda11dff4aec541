/** The 20-byte IPv4 header (section 3.1 of RFC 791) and the 8-byte UDP
    header (RFC 768) as both sender revisions lay them out in memory through
    `struct iphdr` and `struct udphdr` on a little-endian host: total length,
    identification and the UDP ports and length go through `htons` (network
    order); the fragment field and both checksum fields are stored natively.
    The first byte holds the two 4-bit bit-fields, `ihl` in the low half and
    `version` in the high half. */
module Ipv4Udp {
  import opened Bytes
  import opened Checksum

  const IPV4_HEADER_SIZE: nat := 20
  const UDP_HEADER_SIZE: nat := 8

  /** Addresses (four bytes each, in network order, as `inet_addr` returns
      them) and ports of the device a datagram is sent through. */
  datatype Endpoint = Endpoint(sourceAddress: seq<uint8>, destAddress: seq<uint8>,
                               sourcePort: uint16, destPort: uint16)

  predicate ValidEndpoint(ep: Endpoint)
  {
    |ep.sourceAddress| == 4 && |ep.destAddress| == 4
  }

  /** The header constants a sender writes. */
  datatype HeaderParams = HeaderParams(
    version: uint8,
    ihl: uint8,
    tos: uint8,
    ttl: uint8,
    protocol: uint8,
    fragOff: uint16,
    udpChecksum: uint16,
    initialChecksum: uint16)

  /** IP_VERSION 4, IHL 5, DEFAULT_TOS 0, DEFAULT_TTL 64, PROTOCOL_UDP 17,
      FLAGS_FRAGMENT 0, UDP_CHECKSUM 0, INITIAL_IP_CHECKSUM 0. */
  const STANDARD_PARAMS: HeaderParams := HeaderParams(4, 5, 0, 64, 17, 0, 0, 0)

  datatype Ipv4Header = Ipv4Header(
    version: nat,
    ihl: nat,
    tos: uint8,
    totalLength: uint16,
    id: uint16,
    fragOff: uint16,
    ttl: uint8,
    protocol: uint8,
    check: uint16,
    saddr: seq<uint8>,
    daddr: seq<uint8>)

  predicate ValidIpv4Header(h: Ipv4Header)
  {
    h.version < 16 && h.ihl < 16 && |h.saddr| == 4 && |h.daddr| == 4
  }

  /** The 20 bytes of `struct iphdr`. */
  function EncodeIpv4Header(h: Ipv4Header): (bs: seq<uint8>)
    requires ValidIpv4Header(h)
    ensures |bs| == IPV4_HEADER_SIZE
  {
    [h.ihl + h.version * 16, h.tos] + BigEndian16(h.totalLength) + BigEndian16(h.id) +
    LittleEndian16(h.fragOff) + [h.ttl, h.protocol] + LittleEndian16(h.check) + h.saddr + h.daddr
  }

  /** Reading the fields of `struct iphdr` back from the first 20 bytes. */
  function DecodeIpv4Header(bs: seq<uint8>): (h: Ipv4Header)
    requires |bs| >= IPV4_HEADER_SIZE
    ensures ValidIpv4Header(h)
  {
    Ipv4Header(bs[0] / 16, bs[0] % 16, bs[1], ReadBigEndian16(bs, 2), ReadBigEndian16(bs, 4),
               ReadLittleEndian16(bs, 6), bs[8], bs[9], ReadLittleEndian16(bs, 10),
               bs[12..16], bs[16..20])
  }

  lemma DecodeEncodeIpv4Header(h: Ipv4Header, rest: seq<uint8>)
    requires ValidIpv4Header(h)
    ensures DecodeIpv4Header(EncodeIpv4Header(h) + rest) == h
  {
    var bs := EncodeIpv4Header(h) + rest;
    assert bs[12..16] == h.saddr && bs[16..20] == h.daddr;
  }

  lemma EncodeDecodeIpv4Header(bs: seq<uint8>)
    requires |bs| >= IPV4_HEADER_SIZE
    ensures EncodeIpv4Header(DecodeIpv4Header(bs)) == bs[..IPV4_HEADER_SIZE]
  {
  }

  /** The checksum field is the sixth native 16-bit word of the header, so
      storing a value there is the same as encoding a header that carries it. */
  lemma StoreCheckWord(h: Ipv4Header, c: uint16)
    requires ValidIpv4Header(h)
    ensures HostWord(EncodeIpv4Header(h), 5) == h.check
    ensures StoreWord(EncodeIpv4Header(h), 5, c) == EncodeIpv4Header(h.(check := c))
  {
  }

  /** createIpHeader before the checksum: the constants, the total length,
      `htons(packetID)` of the counter truncated to 16 bits, and the two
      addresses; the 8-bit version and IHL land in 4-bit bit-fields. */
  function HeaderFor(ep: Endpoint, params: HeaderParams, packetID: nat, totalPacketSize: uint16): (h: Ipv4Header)
    requires ValidEndpoint(ep)
    ensures ValidIpv4Header(h)
  {
    Ipv4Header(params.version % 16, params.ihl % 16, params.tos, totalPacketSize,
               packetID % 0x1_0000, params.fragOff, params.ttl, params.protocol,
               params.initialChecksum, ep.sourceAddress, ep.destAddress)
  }

  /** The header with its checksum computed over its own 20 bytes. */
  function SealHeader(h: Ipv4Header): (sealed: Ipv4Header)
    requires ValidIpv4Header(h)
    ensures ValidIpv4Header(sealed)
  {
    h.(check := InternetChecksum(EncodeIpv4Header(h), PlainValue))
  }

  /** RFC 1071 verification on the header: when the checksum field was zero
      while summing, the finished header re-sums to all ones and its own
      checksum is zero. Both odd-byte conventions agree on 20 bytes. */
  lemma SealedHeaderVerifies(h: Ipv4Header, odd: OddByte)
    requires ValidIpv4Header(h) && h.check == 0
    ensures Fold(Accumulated(EncodeIpv4Header(SealHeader(h)), odd)) == 0xFFFF
    ensures InternetChecksum(EncodeIpv4Header(SealHeader(h)), odd) == 0
  {
    var bs := EncodeIpv4Header(h);
    OddByteIrrelevantOnEvenLength(bs);
    StoreCheckWord(h, InternetChecksum(bs, PlainValue));
    ChecksumVerifies(bs, 5, odd);
  }

  datatype UdpHeader = UdpHeader(sourcePort: uint16, destPort: uint16, length: uint16, check: uint16)

  /** The 8 bytes of `struct udphdr`. */
  function EncodeUdpHeader(u: UdpHeader): (bs: seq<uint8>)
    ensures |bs| == UDP_HEADER_SIZE
  {
    BigEndian16(u.sourcePort) + BigEndian16(u.destPort) + BigEndian16(u.length) + LittleEndian16(u.check)
  }

  function DecodeUdpHeader(bs: seq<uint8>): UdpHeader
    requires |bs| >= UDP_HEADER_SIZE
  {
    UdpHeader(ReadBigEndian16(bs, 0), ReadBigEndian16(bs, 2), ReadBigEndian16(bs, 4),
              ReadLittleEndian16(bs, 6))
  }

  lemma DecodeEncodeUdpHeader(u: UdpHeader, rest: seq<uint8>)
    ensures DecodeUdpHeader(EncodeUdpHeader(u) + rest) == u
  {
  }

  lemma EncodeDecodeUdpHeader(bs: seq<uint8>)
    requires |bs| >= UDP_HEADER_SIZE
    ensures EncodeUdpHeader(DecodeUdpHeader(bs)) == bs[..UDP_HEADER_SIZE]
  {
  }

  /** createUdpHeader: the two ports, `htons(UDP_HEADER_SIZE + payloadSize)`
      (16 bits) and the UDP checksum constant. */
  function UdpHeaderFor(ep: Endpoint, payloadSize: uint16, check: uint16): UdpHeader
  {
    UdpHeader(ep.sourcePort, ep.destPort, (UDP_HEADER_SIZE + payloadSize) % 0x1_0000, check)
  }

  /** assemblePacket keeps the payload length in a uint16 and the buffer
      length in a uint16; the copy of the payload stays inside the buffer
      only when the 16-bit total does not wrap. */
  predicate PayloadFits(payload: seq<uint8>)
  {
    |payload| % 0x1_0000 + IPV4_HEADER_SIZE + UDP_HEADER_SIZE < 0x1_0000
  }

  /** The datagram assemblePacket builds: sealed IPv4 header, UDP header,
      then the first `size() mod 2^16` bytes of the payload. */
  function Datagram(ep: Endpoint, params: HeaderParams, packetID: nat, payload: seq<uint8>): (d: seq<uint8>)
    requires ValidEndpoint(ep) && PayloadFits(payload)
    ensures |d| == IPV4_HEADER_SIZE + UDP_HEADER_SIZE + |payload| % 0x1_0000
  {
    var payloadSize := |payload| % 0x1_0000;
    var total := IPV4_HEADER_SIZE + UDP_HEADER_SIZE + payloadSize;
    EncodeIpv4Header(SealHeader(HeaderFor(ep, params, packetID, total))) +
    EncodeUdpHeader(UdpHeaderFor(ep, payloadSize, params.udpChecksum)) +
    payload[..payloadSize]
  }

  /** A datagram splits into its IPv4 header, which reads back as the one
      createIpHeader filled in apart from the checksum, and the rest: the UDP
      header, then the payload. */
  lemma DatagramParts(ep: Endpoint, params: HeaderParams, packetID: nat, payload: seq<uint8>)
    requires ValidEndpoint(ep) && PayloadFits(payload)
    ensures var n := |payload| % 0x1_0000;
            var d := Datagram(ep, params, packetID, payload);
            var udp := UdpHeaderFor(ep, n, params.udpChecksum);
            d[IPV4_HEADER_SIZE..] == EncodeUdpHeader(udp) + payload[..n] &&
            DecodeUdpHeader(d[IPV4_HEADER_SIZE..]) == udp &&
            var h0 := HeaderFor(ep, params, packetID, IPV4_HEADER_SIZE + UDP_HEADER_SIZE + n);
            DecodeIpv4Header(d) == h0.(check := DecodeIpv4Header(d).check)
  {
    var n := |payload| % 0x1_0000;
    var h := SealHeader(HeaderFor(ep, params, packetID, IPV4_HEADER_SIZE + UDP_HEADER_SIZE + n));
    var udp := UdpHeaderFor(ep, n, params.udpChecksum);
    var rest := EncodeUdpHeader(udp) + payload[..n];
    var d := Datagram(ep, params, packetID, payload);
    assert d == EncodeIpv4Header(h) + rest;
    DecodeEncodeIpv4Header(h, rest);
    assert DecodeIpv4Header(d) == h;
    assert d[IPV4_HEADER_SIZE..] == rest;
    DecodeEncodeUdpHeader(udp, payload[..n]);
  }

  lemma SmallModulo(x: nat)
    requires x < 0x1_0000
    ensures x % 0x1_0000 == x
  {
  }

  /** Layout of a datagram whose payload fits: 28 + n bytes, the UDP header
      with both ports and length 8 + n, then the payload verbatim. */
  lemma DatagramLayout(ep: Endpoint, params: HeaderParams, packetID: nat, payload: seq<uint8>)
    requires ValidEndpoint(ep) && |payload| + IPV4_HEADER_SIZE + UDP_HEADER_SIZE < 0x1_0000
    ensures var d := Datagram(ep, params, packetID, payload);
            |d| == IPV4_HEADER_SIZE + UDP_HEADER_SIZE + |payload| &&
            d[IPV4_HEADER_SIZE + UDP_HEADER_SIZE..] == payload &&
            DecodeUdpHeader(d[IPV4_HEADER_SIZE..]) ==
              UdpHeader(ep.sourcePort, ep.destPort, UDP_HEADER_SIZE + |payload|, params.udpChecksum)
  {
    var n := |payload|;
    SmallModulo(n);
    SmallModulo(UDP_HEADER_SIZE + n);
    DatagramParts(ep, params, packetID, payload);
    var d := Datagram(ep, params, packetID, payload);
    assert d[IPV4_HEADER_SIZE + UDP_HEADER_SIZE..] == d[IPV4_HEADER_SIZE..][UDP_HEADER_SIZE..];
  }

  /** The IPv4 header of a datagram reads back as written: the constants
      (version and IHL truncated to their 4-bit fields), the total length
      equal to the datagram's own length, the counter modulo 2^16 as
      identification, and the two addresses. */
  lemma DatagramIpHeader(ep: Endpoint, params: HeaderParams, packetID: nat, payload: seq<uint8>)
    requires ValidEndpoint(ep) && PayloadFits(payload)
    ensures var d := Datagram(ep, params, packetID, payload);
            var ip := DecodeIpv4Header(d);
            ip.version == params.version % 16 && ip.ihl == params.ihl % 16 &&
            ip.tos == params.tos && ip.totalLength == |d| &&
            ip.id == packetID % 0x1_0000 && ip.fragOff == params.fragOff &&
            ip.ttl == params.ttl && ip.protocol == params.protocol &&
            ip.saddr == ep.sourceAddress && ip.daddr == ep.destAddress
  {
    DatagramParts(ep, params, packetID, payload);
  }

  /** Headers built with consecutive counter values carry consecutive
      identifications, 0xFFFF being followed by 0, whatever their devices and
      lengths; DatagramIpHeader carries this over to the datagrams. */
  lemma ConsecutiveIds(ep1: Endpoint, ep2: Endpoint, params: HeaderParams, packetID: nat,
                       total1: uint16, total2: uint16)
    requires ValidEndpoint(ep1) && ValidEndpoint(ep2)
    ensures HeaderFor(ep2, params, packetID + 1, total2).id ==
            (HeaderFor(ep1, params, packetID, total1).id + 1) % 0x1_0000
  {
  }

  /** With the standard constants, the header of every datagram verifies. */
  lemma DatagramHeaderVerifies(ep: Endpoint, packetID: nat, payload: seq<uint8>)
    requires ValidEndpoint(ep) && PayloadFits(payload)
    ensures var d := Datagram(ep, STANDARD_PARAMS, packetID, payload);
            Fold(Accumulated(d[..IPV4_HEADER_SIZE], PlainValue)) == 0xFFFF &&
            InternetChecksum(d[..IPV4_HEADER_SIZE], PlainValue) == 0
  {
    var payloadSize := |payload| % 0x1_0000;
    var total := IPV4_HEADER_SIZE + UDP_HEADER_SIZE + payloadSize;
    var h := HeaderFor(ep, STANDARD_PARAMS, packetID, total);
    var d := Datagram(ep, STANDARD_PARAMS, packetID, payload);
    assert d[..IPV4_HEADER_SIZE] == EncodeIpv4Header(SealHeader(h));
    SealedHeaderVerifies(h, PlainValue);
  }

  /** `memcpy` of `bytes` into `buf` at `offset`, and the field stores through
      a struct overlay: those bytes change, no other. */
  method WriteBytes(buf: array<uint8>, offset: nat, bytes: seq<uint8>)
    requires offset + |bytes| <= buf.Length
    modifies buf
    ensures buf[..] == old(buf[..offset]) + bytes + old(buf[offset + |bytes|..])
  {
    for i := 0 to |bytes|
      invariant forall j :: 0 <= j < buf.Length ==>
                  buf[j] == if offset <= j < offset + i then bytes[j - offset] else old(buf[j])
    {
      buf[offset + i] := bytes[i];
    }
    assert buf[..] == old(buf[..offset]) + bytes + old(buf[offset + |bytes|..]);
  }

  /** Storing the checksum of a header's bytes into its checksum field
      gives the bytes of the sealed header. */
  lemma SealByStore(h: Ipv4Header)
    requires ValidIpv4Header(h)
    ensures StoreWord(EncodeIpv4Header(h), 5, InternetChecksum(EncodeIpv4Header(h), PlainValue)) ==
            EncodeIpv4Header(SealHeader(h))
  {
    StoreCheckWord(h, InternetChecksum(EncodeIpv4Header(h), PlainValue));
  }

  /** `ipHeader->check = ...`: the native store of the checksum into bytes
      10 and 11 of the buffer. */
  method StoreChecksumField(buf: array<uint8>, check: uint16)
    requires buf.Length >= IPV4_HEADER_SIZE
    modifies buf
    ensures buf[..] == StoreWord(old(buf[..IPV4_HEADER_SIZE]), 5, check) + old(buf[IPV4_HEADER_SIZE..])
  {
    buf[10] := check % 0x100;
    buf[11] := check / 0x100;
    assert buf[..] == buf[..IPV4_HEADER_SIZE] + buf[IPV4_HEADER_SIZE..];
  }

  /** The three writes of assemblePacket over a buffer of the final size —
      the IPv4 header at 0, the UDP header at 20, the payload at 28 — leave
      exactly the three pieces, one after the other. */
  lemma AssemblyWrites(b0: seq<uint8>, b1: seq<uint8>, b2: seq<uint8>, b3: seq<uint8>,
                       ip: seq<uint8>, udp: seq<uint8>, payload: seq<uint8>)
    requires |ip| == IPV4_HEADER_SIZE && |udp| == UDP_HEADER_SIZE
    requires |b0| == IPV4_HEADER_SIZE + UDP_HEADER_SIZE + |payload|
    requires b1 == ip + b0[IPV4_HEADER_SIZE..]
    requires b2 == b1[..IPV4_HEADER_SIZE] + udp + b1[IPV4_HEADER_SIZE + UDP_HEADER_SIZE..]
    requires b3 == b2[..IPV4_HEADER_SIZE + UDP_HEADER_SIZE] + payload +
                   b2[IPV4_HEADER_SIZE + UDP_HEADER_SIZE + |payload|..]
    ensures b3 == ip + udp + payload
  {
    assert b2[..IPV4_HEADER_SIZE + UDP_HEADER_SIZE] == ip + udp;
  }

  /** The buffer states after createIpHeader, createUdpHeader and the
      payload copy, as their contracts give them, end in the datagram. */
  lemma AssembledIsDatagram(ep: Endpoint, params: HeaderParams, packetID: nat, payload: seq<uint8>,
                            b0: seq<uint8>, b1: seq<uint8>, b2: seq<uint8>, b3: seq<uint8>)
    requires ValidEndpoint(ep) && PayloadFits(payload)
    requires var n := |payload| % 0x1_0000;
             |b0| == IPV4_HEADER_SIZE + UDP_HEADER_SIZE + n &&
             b1 == EncodeIpv4Header(SealHeader(HeaderFor(ep, params, packetID, IPV4_HEADER_SIZE + UDP_HEADER_SIZE + n))) +
                   b0[IPV4_HEADER_SIZE..] &&
             b2 == b1[..IPV4_HEADER_SIZE] + EncodeUdpHeader(UdpHeaderFor(ep, n, params.udpChecksum)) +
                   b1[IPV4_HEADER_SIZE + UDP_HEADER_SIZE..] &&
             b3 == b2[..IPV4_HEADER_SIZE + UDP_HEADER_SIZE] + payload[..n] +
                   b2[IPV4_HEADER_SIZE + UDP_HEADER_SIZE + n..]
    ensures b3 == Datagram(ep, params, packetID, payload)
  {
    var n := |payload| % 0x1_0000;
    AssemblyWrites(b0, b1, b2, b3,
                   EncodeIpv4Header(SealHeader(HeaderFor(ep, params, packetID, IPV4_HEADER_SIZE + UDP_HEADER_SIZE + n))),
                   EncodeUdpHeader(UdpHeaderFor(ep, n, params.udpChecksum)), payload[..n]);
  }
}
