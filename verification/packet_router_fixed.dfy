/** PacketRouter of packet_router/packet_router.hpp: the revision with
    compile-time offsets, a hard-coded address pair for the tunnel test and a
    16-bit GUI marker. Its router has no state; the routing step works on the
    queues it is handed. */
module FixedRouter {
  import opened Bytes
  import opened DottedQuad
  import opened ThreadSafeQueue
  import Ipv4Udp
  import ConfiguredRouter

  const AIRBORNE_PAYLOAD_IP: string := "192.168.1.1"
  const GROUND_PAYLOAD_IP: string := "192.168.1.1"

  const IPV4_HEADER_SIZE: nat := 20
  const UDP_HEADER_SIZE: nat := 8
  const MIN_PACKET_SIZE: nat := IPV4_HEADER_SIZE + UDP_HEADER_SIZE
  const SRC_IP_OFFSET: nat := 12
  const DEST_IP_OFFSET: nat := 16
  const SRC_PORT_OFFSET: nat := 20
  const DEST_PORT_OFFSET: nat := 22
  const UDP_PAYLOAD_OFFSET: nat := IPV4_HEADER_SIZE + UDP_HEADER_SIZE
  const GUI_PAYLOAD_ICD: uint16 := 0x6464

  datatype UdpPacket = UdpPacket(srcIP: string, destIP: string, payload: seq<uint8>)

  /** The fields parseUdpPacket fills in: the dotted quads of the address
      bytes at 12 and 16 in wire order, and the bytes after the 28 bytes of
      headers, or nothing when the frame is not longer than the headers. */
  function UdpPacketOf(packet: seq<uint8>): (udpPkt: UdpPacket)
    requires |packet| >= DEST_IP_OFFSET + 4
    ensures udpPkt.srcIP == FormatQuad(packet[SRC_IP_OFFSET..SRC_IP_OFFSET + 4])
    ensures udpPkt.destIP == FormatQuad(packet[DEST_IP_OFFSET..DEST_IP_OFFSET + 4])
    ensures |packet| > UDP_PAYLOAD_OFFSET ==> packet == packet[..UDP_PAYLOAD_OFFSET] + udpPkt.payload
    ensures |packet| <= UDP_PAYLOAD_OFFSET ==> udpPkt.payload == []
  {
    UdpPacket(AddressText(packet, SRC_IP_OFFSET), AddressText(packet, DEST_IP_OFFSET),
              if |packet| > UDP_PAYLOAD_OFFSET then packet[UDP_PAYLOAD_OFFSET..] else [])
  }

  /** parseUdpPacket: fills in the fields and reports success for every
      frame, so the `continue` of the routing loop never skips one. */
  method ParseUdpPacket(packet: seq<uint8>) returns (parsed: bool, udpPkt: UdpPacket)
    requires |packet| >= DEST_IP_OFFSET + 4
    ensures parsed
    ensures udpPkt == UdpPacketOf(packet)
  {
    udpPkt := UdpPacketOf(packet);
    parsed := true;
  }

  /** isFromTunnel: true for the airborne-to-ground pair; the ground-to-air
      test can never decide, since the two constants are the same address,
      and every other pair falls off the end of the function. What a caller
      then sees is not defined; `fallOff` stands for it. */
  function IsFromTunnel(srcIP: string, destIP: string, fallOff: bool): (r: bool)
    ensures srcIP == "192.168.1.1" && destIP == "192.168.1.1" ==> r
    ensures !(srcIP == "192.168.1.1" && destIP == "192.168.1.1") ==> r == fallOff
  {
    if srcIP == AIRBORNE_PAYLOAD_IP && destIP == GROUND_PAYLOAD_IP then true
    else if srcIP == GROUND_PAYLOAD_IP && destIP == AIRBORNE_PAYLOAD_IP then false
    else fallOff
  }

  /** isFromGui: the test of the other revision with the fixed 16-bit
      marker 0x6464, which no byte equals; it is never true, and byte
      size - 2 is never read. */
  function IsFromGui(payload: seq<uint8>): (r: bool)
    requires |payload| >= 1
    ensures !r
  {
    ConfiguredRouter.IsFromGui(GUI_PAYLOAD_ICD, payload)
  }

  /** The offsets are those of the datagram a sender assembles: the router
      reads back the addresses, ports and payload the sender wrote. */
  lemma RouterReadsSentDatagram(ep: Ipv4Udp.Endpoint, params: Ipv4Udp.HeaderParams, packetID: nat,
                                payload: seq<uint8>)
    requires Ipv4Udp.ValidEndpoint(ep) && |payload| + MIN_PACKET_SIZE < 0x1_0000
    ensures var d := Ipv4Udp.Datagram(ep, params, packetID, payload);
            |d| >= MIN_PACKET_SIZE &&
            UdpPacketOf(d) == UdpPacket(FormatQuad(ep.sourceAddress), FormatQuad(ep.destAddress), payload) &&
            ReadBigEndian16(d, SRC_PORT_OFFSET) == ep.sourcePort &&
            ReadBigEndian16(d, DEST_PORT_OFFSET) == ep.destPort
  {
    Ipv4Udp.SmallModulo(|payload|);
    Ipv4Udp.DatagramLayout(ep, params, packetID, payload);
    Ipv4Udp.DatagramIpHeader(ep, params, packetID, payload);
    var d := Ipv4Udp.Datagram(ep, params, packetID, payload);
    assert d[SRC_IP_OFFSET..SRC_IP_OFFSET + 4] == Ipv4Udp.DecodeIpv4Header(d).saddr;
    assert d[DEST_IP_OFFSET..DEST_IP_OFFSET + 4] == Ipv4Udp.DecodeIpv4Header(d).daddr;
    var udp := d[IPV4_HEADER_SIZE..];
    assert ReadBigEndian16(d, SRC_PORT_OFFSET) == ReadBigEndian16(udp, 0);
    assert ReadBigEndian16(d, DEST_PORT_OFFSET) == ReadBigEndian16(udp, 2);
  }

  /** As written, a frame carrying 192.168.1.1 as both addresses is read as
      "1.1.168.192" twice, so it is not recognised as the tunnel pair and
      isFromTunnel falls off its end; the corrected parse recognises it. */
  lemma TunnelPairMissedAsWritten(frame: seq<uint8>, fallOff: bool)
    requires |frame| >= DEST_IP_OFFSET + 4
    requires frame[SRC_IP_OFFSET..SRC_IP_OFFSET + 4] == [192, 168, 1, 1]
    requires frame[DEST_IP_OFFSET..DEST_IP_OFFSET + 4] == [192, 168, 1, 1]
    ensures IsFromTunnel(UdpPacketOf(frame).srcIP, UdpPacketOf(frame).destIP, fallOff)
    ensures IsFromTunnel(AddressTextAsWritten(frame, SRC_IP_OFFSET), AddressTextAsWritten(frame, DEST_IP_OFFSET),
                         fallOff) == fallOff
  {
    PairAddressText();
    assert [frame[15], frame[14], frame[13], frame[12]] == [1, 1, 168, 192];
    assert [frame[19], frame[18], frame[17], frame[16]] == [1, 1, 168, 192];
    FormatQuadInjective([1, 1, 168, 192], [192, 168, 1, 1]);
  }

  lemma PairAddressText()
    ensures FormatQuad([192, 168, 1, 1]) == AIRBORNE_PAYLOAD_IP == GROUND_PAYLOAD_IP
  {
    assert FormatDecimal(192) == "192" && FormatDecimal(168) == "168" && FormatDecimal(1) == "1";
  }

  /** One iteration of packetRouteHandler. The frame at the head of the
      receive queue leaves it. A tunnel frame is put on fromTunnelQueue
      before the GUI test and, the GUI test being false, once more after
      it; any other frame is put on toSendQueue once. Frames go on
      unmodified. */
  method RouteOne(receiveQueue: BoundedQueue<seq<uint8>>, toSendQueue: BoundedQueue<seq<uint8>>,
                  fromTunnelQueue: BoundedQueue<seq<uint8>>, fallOff: bool)
    returns (fromTunnel: bool)
    requires receiveQueue != toSendQueue && receiveQueue != fromTunnelQueue && toSendQueue != fromTunnelQueue
    requires receiveQueue.Valid() && toSendQueue.Valid() && fromTunnelQueue.Valid()
    requires |receiveQueue.items| > 0 && |receiveQueue.items[0]| >= DEST_IP_OFFSET + 4
    requires var udpPkt := UdpPacketOf(receiveQueue.items[0]);
             if IsFromTunnel(udpPkt.srcIP, udpPkt.destIP, fallOff)
             then |udpPkt.payload| >= 1 && |fromTunnelQueue.items| + 2 <= fromTunnelQueue.capacity
             else |toSendQueue.items| < toSendQueue.capacity
    modifies receiveQueue, toSendQueue, fromTunnelQueue
    ensures receiveQueue.Valid() && toSendQueue.Valid() && fromTunnelQueue.Valid()
    ensures receiveQueue.items == old(receiveQueue.items[1..])
    ensures var frame := old(receiveQueue.items[0]);
            var udpPkt := UdpPacketOf(frame);
            fromTunnel == IsFromTunnel(udpPkt.srcIP, udpPkt.destIP, fallOff) &&
            fromTunnelQueue.items == old(fromTunnelQueue.items) + (if fromTunnel then [frame, frame] else []) &&
            toSendQueue.items == old(toSendQueue.items) + (if fromTunnel then [] else [frame])
  {
    var rawPacket := receiveQueue.Dequeue();
    var parsed, udpPkt := ParseUdpPacket(rawPacket);
    assert parsed;
    fromTunnel := IsFromTunnel(udpPkt.srcIP, udpPkt.destIP, fallOff);
    if fromTunnel {
      fromTunnelQueue.Enqueue(rawPacket);
      if IsFromGui(udpPkt.payload) {
        assert false;
      } else {
        fromTunnelQueue.Enqueue(rawPacket);
      }
    } else {
      toSendQueue.Enqueue(rawPacket);
    }
  }
}
