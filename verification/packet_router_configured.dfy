/** PacketRouter of packetRouter/packet_router.hpp: the revision whose
    offsets and GUI marker come from the route settings and whose tunnel
    addresses come from the tunnel device. Each frame taken from the receive
    queue is parsed into its two dotted-quad addresses and its payload, and
    the raw frame is put on exactly one of three queues. */
module ConfiguredRouter {
  import opened Bytes
  import opened DottedQuad
  import opened ThreadSafeQueue

  /** The route settings the routing code reads. */
  datatype RouteConfig = RouteConfig(srcIpOffset: nat, destIpOffset: nat, payloadOffset: nat, guiPayloadIcd: uint16)

  /** The tunnel device's own address and its peer's, as dotted quads. */
  datatype TunnelDevice = TunnelDevice(selfIp: string, destIp: string)

  datatype PacketInfo = PacketInfo(srcIP: string, destIP: string, payload: seq<uint8>)

  /** The queue a frame is put on. */
  datatype Route = ToGui | FromTunnel | ToProcess

  /** The two address reads stay inside the frame (the source does not
      check this). */
  predicate AddressesReadable(config: RouteConfig, packet: seq<uint8>)
  {
    config.srcIpOffset + 4 <= |packet| && config.destIpOffset + 4 <= |packet|
  }

  /** parsePacket: the addresses are the dotted quads of the four bytes at
      their offsets, in wire order (AddressTextDenotes), and the payload is
      everything from the payload offset on, or nothing when the frame is not
      longer than that offset. */
  function ParsePacket(config: RouteConfig, packet: seq<uint8>): (info: PacketInfo)
    requires AddressesReadable(config, packet)
    ensures info.srcIP == FormatQuad(packet[config.srcIpOffset..config.srcIpOffset + 4])
    ensures info.destIP == FormatQuad(packet[config.destIpOffset..config.destIpOffset + 4])
    ensures |packet| > config.payloadOffset ==> packet == packet[..config.payloadOffset] + info.payload
    ensures |packet| <= config.payloadOffset ==> info.payload == []
  {
    PacketInfo(AddressText(packet, config.srcIpOffset), AddressText(packet, config.destIpOffset),
               if |packet| > config.payloadOffset then packet[config.payloadOffset..] else [])
  }

  /** parsePacket as written, with the byte-reversed address text. */
  function ParsePacketAsWritten(config: RouteConfig, packet: seq<uint8>): (info: PacketInfo)
    requires AddressesReadable(config, packet)
    ensures info == ParsePacket(config, packet).(srcIP := info.srcIP, destIP := info.destIP)
  {
    PacketInfo(AddressTextAsWritten(packet, config.srcIpOffset), AddressTextAsWritten(packet, config.destIpOffset),
               if |packet| > config.payloadOffset then packet[config.payloadOffset..] else [])
  }

  /** isFromTunnel: exact string equality with the peer and own address.
      The test has a direction: a frame the tunnel device itself sends to
      its peer is from the tunnel only when the two addresses are the same
      text. */
  function IsFromTunnel(tunnel: TunnelDevice, packet: PacketInfo): (r: bool)
    ensures packet.srcIP == tunnel.selfIp && packet.destIP == tunnel.destIp ==>
            (r <==> tunnel.selfIp == tunnel.destIp)
  {
    packet.srcIP == tunnel.destIp && packet.destIP == tunnel.selfIp
  }

  /** The bytes isFromGui reads exist: byte 0 always, and byte size - 2 only
      when byte 0 is the marker (the `&&` stops at the first false test). */
  predicate GuiReadable(guiPayloadIcd: uint16, payload: seq<uint8>)
  {
    |payload| >= 1 && (payload[0] as int == guiPayloadIcd ==> |payload| >= 2)
  }

  /** isFromGui: the first byte and the last-but-one byte both equal the
      marker (a byte compared with a 16-bit value), so a match needs a marker
      that fits in a byte and a payload of at least two bytes. */
  function IsFromGui(guiPayloadIcd: uint16, payload: seq<uint8>): (r: bool)
    requires GuiReadable(guiPayloadIcd, payload)
    ensures r ==> guiPayloadIcd < 0x100 && |payload| >= 2
  {
    payload[0] as int == guiPayloadIcd && payload[|payload| - 2] as int == guiPayloadIcd
  }

  /** The routing decision of packetRouteHandler on a parsed frame: the
      tunnel test first, then the GUI test. */
  function Classify(config: RouteConfig, tunnel: TunnelDevice, info: PacketInfo): (r: Route)
    requires IsFromTunnel(tunnel, info) ==> GuiReadable(config.guiPayloadIcd, info.payload)
    ensures r == ToProcess <==> !IsFromTunnel(tunnel, info)
    ensures r == ToGui <==> IsFromTunnel(tunnel, info) && IsFromGui(config.guiPayloadIcd, info.payload)
    ensures r == ToGui ==> config.guiPayloadIcd < 0x100 && |info.payload| >= 2
  {
    if IsFromTunnel(tunnel, info) then
      if IsFromGui(config.guiPayloadIcd, info.payload) then ToGui else FromTunnel
    else ToProcess
  }

  /** A frame the routing step can handle without undefined behaviour: its
      addresses are readable and, when it comes from the tunnel, the GUI test
      has the bytes it reads. */
  predicate Routable(config: RouteConfig, tunnel: TunnelDevice, packet: seq<uint8>)
  {
    AddressesReadable(config, packet) &&
    (IsFromTunnel(tunnel, ParsePacket(config, packet)) ==>
       GuiReadable(config.guiPayloadIcd, ParsePacket(config, packet).payload))
  }

  /** The route of a raw frame, on the corrected parse. */
  function RouteOf(config: RouteConfig, tunnel: TunnelDevice, packet: seq<uint8>): (r: Route)
    requires Routable(config, tunnel, packet)
    ensures r == ToProcess <==> !IsFromTunnel(tunnel, ParsePacket(config, packet))
    ensures r == ToGui <==> IsFromTunnel(tunnel, ParsePacket(config, packet)) &&
                            IsFromGui(config.guiPayloadIcd, ParsePacket(config, packet).payload)
  {
    Classify(config, tunnel, ParsePacket(config, packet))
  }

  /** The route of a raw frame as the handler is written, on the
      byte-reversed address text. */
  function RouteOfAsWritten(config: RouteConfig, tunnel: TunnelDevice, packet: seq<uint8>): (r: Route)
    requires AddressesReadable(config, packet)
    requires IsFromTunnel(tunnel, ParsePacketAsWritten(config, packet)) ==>
             GuiReadable(config.guiPayloadIcd, ParsePacketAsWritten(config, packet).payload)
    ensures r == ToProcess <==> !IsFromTunnel(tunnel, ParsePacketAsWritten(config, packet))
  {
    Classify(config, tunnel, ParsePacketAsWritten(config, packet))
  }

  /** A configured marker above 255 never matches a byte. */
  lemma WideMarkerNeverMatches(guiPayloadIcd: uint16, payload: seq<uint8>)
    requires GuiReadable(guiPayloadIcd, payload) && guiPayloadIcd > 255
    ensures !IsFromGui(guiPayloadIcd, payload)
  {
  }

  /** When the tunnel device's addresses are the dotted quads of `self` and
      `peer`, a frame is classified as from the tunnel exactly when it
      carries `peer` as source and `self` as destination. */
  lemma TunnelFrameByAddress(config: RouteConfig, tunnel: TunnelDevice, packet: seq<uint8>,
                              self: seq<uint8>, peer: seq<uint8>)
    requires AddressesReadable(config, packet) && |self| == 4 && |peer| == 4
    requires tunnel == TunnelDevice(FormatQuad(self), FormatQuad(peer))
    ensures var s, d := config.srcIpOffset, config.destIpOffset;
            IsFromTunnel(tunnel, ParsePacket(config, packet)) <==>
            packet[s..s + 4] == peer && packet[d..d + 4] == self
  {
    var s, d := config.srcIpOffset, config.destIpOffset;
    FormatQuadInjective(packet[s..s + 4], peer);
    FormatQuadInjective(packet[d..d + 4], self);
  }

  /** Every frame whose addresses are not the tunnel pair goes to the
      process queue, whatever its payload. */
  lemma NonTunnelFrameToProcess(config: RouteConfig, tunnel: TunnelDevice, packet: seq<uint8>,
                                self: seq<uint8>, peer: seq<uint8>)
    requires Routable(config, tunnel, packet) && |self| == 4 && |peer| == 4
    requires tunnel == TunnelDevice(FormatQuad(self), FormatQuad(peer))
    ensures var s, d := config.srcIpOffset, config.destIpOffset;
            RouteOf(config, tunnel, packet) == ToProcess <==>
            packet[s..s + 4] != peer || packet[d..d + 4] != self
  {
    TunnelFrameByAddress(config, tunnel, packet, self, peer);
  }

  /** As written, a frame from the tunnel peer 10.0.0.9 to the tunnel
      device 10.0.0.1 is not recognised, because the extracted strings are
      "9.0.0.10" and "1.0.0.10": the handler puts it on the process queue.
      The corrected parse recognises it. */
  lemma TunnelFrameMissedAsWritten(config: RouteConfig, packet: seq<uint8>)
    requires AddressesReadable(config, packet)
    requires packet[config.srcIpOffset..config.srcIpOffset + 4] == [10, 0, 0, 9]
    requires packet[config.destIpOffset..config.destIpOffset + 4] == [10, 0, 0, 1]
    ensures var tunnel := TunnelDevice(FormatQuad([10, 0, 0, 1]), FormatQuad([10, 0, 0, 9]));
            IsFromTunnel(tunnel, ParsePacket(config, packet)) &&
            !IsFromTunnel(tunnel, ParsePacketAsWritten(config, packet)) &&
            RouteOfAsWritten(config, tunnel, packet) == ToProcess &&
            (Routable(config, tunnel, packet) ==> RouteOf(config, tunnel, packet) != ToProcess)
  {
    var s := config.srcIpOffset;
    assert [packet[s + 3], packet[s + 2], packet[s + 1], packet[s]] == [9, 0, 0, 10];
    FormatQuadInjective([9, 0, 0, 10], [10, 0, 0, 9]);
  }

  class PacketRouter {
    const config: RouteConfig
    const tunnelDevice: TunnelDevice
    const receiveQueue: BoundedQueue<seq<uint8>>
    const processQueue: BoundedQueue<seq<uint8>>
    const fromTunnelQueue: BoundedQueue<seq<uint8>>
    const guiQueue: BoundedQueue<seq<uint8>>

    /** Four distinct queues, each consistent. */
    ghost predicate Valid()
      reads this, receiveQueue, processQueue, fromTunnelQueue, guiQueue
    {
      receiveQueue != processQueue && receiveQueue != fromTunnelQueue && receiveQueue != guiQueue &&
      processQueue != fromTunnelQueue && processQueue != guiQueue && fromTunnelQueue != guiQueue &&
      receiveQueue.Valid() && processQueue.Valid() && fromTunnelQueue.Valid() && guiQueue.Valid()
    }

    /** The router keeps the settings, the tunnel device and the four
        queues it is given. */
    constructor (config: RouteConfig, tunnelDevice: TunnelDevice,
                 receiveQueue: BoundedQueue<seq<uint8>>, processQueue: BoundedQueue<seq<uint8>>,
                 fromTunnelQueue: BoundedQueue<seq<uint8>>, guiQueue: BoundedQueue<seq<uint8>>)
      ensures this.config == config && this.tunnelDevice == tunnelDevice
      ensures this.receiveQueue == receiveQueue && this.processQueue == processQueue
      ensures this.fromTunnelQueue == fromTunnelQueue && this.guiQueue == guiQueue
    {
      this.config := config;
      this.tunnelDevice := tunnelDevice;
      this.receiveQueue := receiveQueue;
      this.processQueue := processQueue;
      this.fromTunnelQueue := fromTunnelQueue;
      this.guiQueue := guiQueue;
    }

    /** One iteration of packetRouteHandler: the frame at the head of the
        receive queue leaves it and is appended, unmodified, to exactly the
        queue its route names; the other queues do not change. */
    method RouteOne() returns (route: Route)
      requires Valid() && |receiveQueue.items| > 0
      requires Routable(config, tunnelDevice, receiveQueue.items[0])
      requires var r := RouteOf(config, tunnelDevice, receiveQueue.items[0]);
               (r == ToGui ==> |guiQueue.items| < guiQueue.capacity) &&
               (r == FromTunnel ==> |fromTunnelQueue.items| < fromTunnelQueue.capacity) &&
               (r == ToProcess ==> |processQueue.items| < processQueue.capacity)
      modifies receiveQueue, processQueue, fromTunnelQueue, guiQueue
      ensures Valid()
      ensures route == RouteOf(config, tunnelDevice, old(receiveQueue.items[0]))
      ensures receiveQueue.items == old(receiveQueue.items[1..])
      ensures guiQueue.items == old(guiQueue.items) + (if route == ToGui then [old(receiveQueue.items[0])] else [])
      ensures fromTunnelQueue.items ==
              old(fromTunnelQueue.items) + (if route == FromTunnel then [old(receiveQueue.items[0])] else [])
      ensures processQueue.items ==
              old(processQueue.items) + (if route == ToProcess then [old(receiveQueue.items[0])] else [])
    {
      var rawPacket := receiveQueue.Dequeue();
      var packet := ParsePacket(config, rawPacket);
      if IsFromTunnel(tunnelDevice, packet) {
        if IsFromGui(config.guiPayloadIcd, packet.payload) {
          guiQueue.Enqueue(rawPacket);
          route := ToGui;
        } else {
          fromTunnelQueue.Enqueue(rawPacket);
          route := FromTunnel;
        }
      } else {
        processQueue.Enqueue(rawPacket);
        route := ToProcess;
      }
    }
  }
}
