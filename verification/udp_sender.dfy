/** PacketSender of packet_send/packet_send.hpp: takes one payload from its
    input queue, builds the IPv4 and UDP headers in place at the front of a
    buffer sized for the datagram, copies the payload in behind them, and
    hands the buffer to the socket. The headers carry the compile-time
    constants; the identification field comes from a counter that grows by
    one per header. */
module UdpSender {
  import opened Bytes
  import opened Checksum
  import opened Ipv4Udp
  import opened ThreadSafeQueue

  /** What `sendto` is asked to transmit, and where to. */
  datatype Transmission = Transmission(frame: seq<uint8>, destAddress: seq<uint8>, destPort: uint16)

  class PacketSender {
    var packetID: nat
    var payloadBuffer: seq<uint8>
    var packetBuffer: array<uint8>

    /** The counter starts at 0 and both buffers are empty. */
    constructor ()
      ensures packetID == 0 && payloadBuffer == [] && packetBuffer.Length == 0
    {
      packetID := 0;
      payloadBuffer := [];
      packetBuffer := new uint8[0];
    }

    /** computeChecksum (span version): native 16-bit words, an odd trailing
        byte shifted into the high half, fold, complement. */
    method ComputeChecksum(buffer: seq<uint8>) returns (r: uint16)
      ensures r == InternetChecksum(buffer, HighHalf)
    {
      var sum: int := 0;
      for i := 0 to |buffer| / 2
        invariant sum == WordSum(buffer, i) % TWO_TO_THE_32
      {
        AddModulo(WordSum(buffer, i), HostWord(buffer, i));
        sum := (sum + HostWord(buffer, i)) % TWO_TO_THE_32;
      }
      if |buffer| % 2 == 1 {
        var high := (buffer[|buffer| - 1] as int * 0x100) % 0x1_0000;
        AddModulo(WordSum(buffer, |buffer| / 2), high);
        sum := (sum + high) % TWO_TO_THE_32;
      }
      assert sum == Accumulated(buffer, HighHalf);
      r := FoldCarries(sum);
      r := 0xFFFF - r;
    }

    /** createUdpHeader: the 8 bytes after the IPv4 header become the UDP
        header for `payloadSize`; nothing else in the buffer changes. */
    method CreateUdpHeader(destDevice: Endpoint, payloadSize: uint16)
      requires packetBuffer.Length >= IPV4_HEADER_SIZE + UDP_HEADER_SIZE
      modifies packetBuffer
      ensures packetBuffer[..] == old(packetBuffer[..IPV4_HEADER_SIZE]) +
                                  EncodeUdpHeader(UdpHeaderFor(destDevice, payloadSize, STANDARD_PARAMS.udpChecksum)) +
                                  old(packetBuffer[IPV4_HEADER_SIZE + UDP_HEADER_SIZE..])
    {
      WriteBytes(packetBuffer, IPV4_HEADER_SIZE,
                 EncodeUdpHeader(UdpHeaderFor(destDevice, payloadSize, STANDARD_PARAMS.udpChecksum)));
    }

    /** createIpHeader: the first 20 bytes become the header with the
        checksum field zero and the id taken from the counter (which then
        grows by one); the checksum of those 20 bytes is then stored in the
        checksum field. */
    method CreateIpHeader(destDevice: Endpoint, totalPacketSize: uint16)
      requires ValidEndpoint(destDevice) && packetBuffer.Length >= IPV4_HEADER_SIZE
      modifies this, packetBuffer
      ensures packetBuffer == old(packetBuffer) && payloadBuffer == old(payloadBuffer)
      ensures packetID == old(packetID) + 1
      ensures packetBuffer[..] ==
                EncodeIpv4Header(SealHeader(HeaderFor(destDevice, STANDARD_PARAMS, old(packetID), totalPacketSize))) +
                old(packetBuffer[IPV4_HEADER_SIZE..])
    {
      var header := HeaderFor(destDevice, STANDARD_PARAMS, packetID, totalPacketSize);
      packetID := packetID + 1;
      WriteBytes(packetBuffer, 0, EncodeIpv4Header(header));
      var bytes := packetBuffer[..IPV4_HEADER_SIZE];
      assert bytes == EncodeIpv4Header(header);
      var check := ComputeChecksum(bytes);
      OddByteIrrelevantOnEvenLength(bytes);
      StoreChecksumField(packetBuffer, check);
      SealByStore(header);
    }

    /** assemblePacket: dequeue the next payload, size the buffer to the
        16-bit total, write both headers and copy the payload behind them. */
    method AssemblePacket(inputQueue: BoundedQueue<seq<uint8>>, destDevice: Endpoint)
      requires inputQueue.Valid() && |inputQueue.items| > 0
      requires PayloadFits(inputQueue.items[0]) && ValidEndpoint(destDevice)
      modifies this, inputQueue
      ensures inputQueue.Valid() && inputQueue.items == old(inputQueue.items)[1..]
      ensures inputQueue.dequeued == old(inputQueue.dequeued) + [payloadBuffer]
      ensures payloadBuffer == old(inputQueue.items)[0]
      ensures packetID == old(packetID) + 1
      ensures fresh(packetBuffer)
      ensures packetBuffer[..] == Datagram(destDevice, STANDARD_PARAMS, old(packetID), payloadBuffer)
    {
      payloadBuffer := inputQueue.Dequeue();
      BuildPacket(destDevice);
    }

    /** The part of assemblePacket after the dequeue: the datagram for the
        current payload in a fresh buffer. */
    method BuildPacket(destDevice: Endpoint)
      requires PayloadFits(payloadBuffer) && ValidEndpoint(destDevice)
      modifies this
      ensures payloadBuffer == old(payloadBuffer) && packetID == old(packetID) + 1
      ensures fresh(packetBuffer)
      ensures packetBuffer[..] == Datagram(destDevice, STANDARD_PARAMS, old(packetID), payloadBuffer)
    {
      var payloadSize := |payloadBuffer| % 0x1_0000;
      var totalPacketSize := (IPV4_HEADER_SIZE + UDP_HEADER_SIZE + payloadSize) % 0x1_0000;
      SmallModulo(IPV4_HEADER_SIZE + UDP_HEADER_SIZE + payloadSize);
      packetBuffer := new uint8[totalPacketSize](_ => 0);
      ghost var b0 := packetBuffer[..];
      CreateIpHeader(destDevice, totalPacketSize);
      ghost var b1 := packetBuffer[..];
      CreateUdpHeader(destDevice, payloadSize);
      ghost var b2 := packetBuffer[..];
      WriteBytes(packetBuffer, IPV4_HEADER_SIZE + UDP_HEADER_SIZE, payloadBuffer[..payloadSize]);
      AssembledIsDatagram(destDevice, STANDARD_PARAMS, old(packetID), payloadBuffer, b0, b1, b2, packetBuffer[..]);
    }

    /** sendPacket: nothing is transmitted while the buffer is empty;
        otherwise the whole buffer goes to the device's destination. */
    method SendPacket(destDevice: Endpoint) returns (sent: Option<Transmission>)
      ensures sent.None? <==> packetBuffer.Length == 0
      ensures sent.Some? ==> sent.value == Transmission(packetBuffer[..], destDevice.destAddress, destDevice.destPort)
    {
      if packetBuffer.Length == 0 {
        return None;
      }
      sent := Some(Transmission(packetBuffer[..], destDevice.destAddress, destDevice.destPort));
    }
  }

  /** A sender that has assembled a packet always transmits it, and what it
      transmits is the datagram for the payload it dequeued. */
  method AssembleThenSend(sender: PacketSender, inputQueue: BoundedQueue<seq<uint8>>, destDevice: Endpoint)
    returns (sent: Option<Transmission>)
    requires inputQueue.Valid() && |inputQueue.items| > 0
    requires PayloadFits(inputQueue.items[0]) && ValidEndpoint(destDevice)
    modifies sender, inputQueue
    ensures sent == Some(Transmission(Datagram(destDevice, STANDARD_PARAMS, old(sender.packetID), old(inputQueue.items)[0]),
                                      destDevice.destAddress, destDevice.destPort))
  {
    sender.AssemblePacket(inputQueue, destDevice);
    sent := sender.SendPacket(destDevice);
  }
}
