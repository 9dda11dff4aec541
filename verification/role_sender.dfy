/** PacketSender of packetSend/packet_send.hpp: the revision that picks the
    outgoing device from the payload itself. Bit 6 of byte 4 (the IS_COMP
    bit of the ICD byte) selects the role, the role selects the device, and
    the datagram is built as in the other revision but with the header
    constants loaded from the sender's settings and the checksum of the free
    `computeChecksum`. */
module RoleSender {
  import opened Bytes
  import opened Checksum
  import opened Ipv4Udp
  import opened ThreadSafeQueue
  import opened EthDevice

  const ICD_INDEX: nat := 4
  const CONVENTION_MASK: bv8 := 64  // IS_COMP_MASK
  const CONVENTION_OFFSET: bv8 := 6
  const PROTOCOL_UDP: uint8 := 17

  /** The constants createIpHeader writes: the configured ones, except the
      protocol field, which is always PROTOCOL_UDP. */
  function IpParams(config: HeaderParams): (params: HeaderParams)
    ensures params.protocol == PROTOCOL_UDP
    ensures params.(protocol := config.protocol) == config
  {
    config.(protocol := PROTOCOL_UDP)
  }

  /** extract_device, up to the role: `(buffer[ICD_INDEX] & CONVENTION_MASK)
      >> CONVENTION_OFFSET`, which is 1 exactly when bit 6 of byte 4 is set. */
  function ExtractDeviceIndex(buffer: seq<uint8>): (index: nat)
    requires |buffer| > ICD_INDEX
    ensures index == 0 || index == 1
    ensures index == 1 <==> (buffer[ICD_INDEX] as bv8) & CONVENTION_MASK != 0
  {
    (((buffer[ICD_INDEX] as bv8) & CONVENTION_MASK) >> CONVENTION_OFFSET) as nat
  }

  /** The role whose device carries the payload: only SOURCE1 or SOURCE2
      can ever be chosen. */
  function ExtractRole(buffer: seq<uint8>): (r: Role)
    requires |buffer| > ICD_INDEX
    ensures r == Source1 || r == Source2
    ensures r == Source2 <==> (buffer[ICD_INDEX] as bv8) & CONVENTION_MASK != 0
  {
    RoleFromIndex(ExtractDeviceIndex(buffer))
  }

  /** Only bit 6 of byte 4 matters: two payloads select the same role
      exactly when they agree on that bit, whatever their other bits and
      bytes. */
  lemma ExtractRoleOnlyReadsBit6(a: seq<uint8>, b: seq<uint8>)
    requires |a| > ICD_INDEX && |b| > ICD_INDEX
    ensures ExtractRole(a) == ExtractRole(b) <==>
            ((a[ICD_INDEX] as bv8) & CONVENTION_MASK == (b[ICD_INDEX] as bv8) & CONVENTION_MASK)
  {
  }

  /** The fields of the ICD byte. */
  datatype Icd = Icd(eop: bv8, isComp: bv8, conv: bv8, seqNum: bv8, msgId: bv8)

  predicate ValidIcd(icd: Icd)
  {
    icd.eop < 2 && icd.isComp < 2 && icd.conv < 4 && icd.seqNum < 4 && icd.msgId < 4
  }

  /** The masks of the ICD fields: EOP bit 7, IS_COMP bit 6, CONV bits 4-5,
      SEQ_NUM bits 2-3, MSG_ID bits 0-1. */
  const EOP_MASK: bv8 := 128
  const IS_COMP_MASK: bv8 := 64
  const CONV_MASK: bv8 := 48
  const SEQ_NUM_MASK: bv8 := 12
  const MSG_ID_MASK: bv8 := 3

  function DecodeIcd(b: bv8): (icd: Icd)
    ensures ValidIcd(icd)
  {
    Icd((b & EOP_MASK) >> 7, (b & IS_COMP_MASK) >> 6, (b & CONV_MASK) >> 4,
        (b & SEQ_NUM_MASK) >> 2, b & MSG_ID_MASK)
  }

  function EncodeIcd(icd: Icd): bv8
  {
    (icd.eop << 7) | (icd.isComp << 6) | (icd.conv << 4) | (icd.seqNum << 2) | icd.msgId
  }

  /** The five masks are disjoint and together cover the byte, so every bit
      belongs to exactly one field. */
  lemma IcdMasksPartition()
    ensures EOP_MASK | IS_COMP_MASK | CONV_MASK | SEQ_NUM_MASK | MSG_ID_MASK == 0xFF
    ensures EOP_MASK & (IS_COMP_MASK | CONV_MASK | SEQ_NUM_MASK | MSG_ID_MASK) == 0
    ensures IS_COMP_MASK & (CONV_MASK | SEQ_NUM_MASK | MSG_ID_MASK) == 0
    ensures CONV_MASK & (SEQ_NUM_MASK | MSG_ID_MASK) == 0
    ensures SEQ_NUM_MASK & MSG_ID_MASK == 0
  {
  }

  /** Re-packing the fields gives the byte back. */
  lemma EncodeDecodeIcd(b: bv8)
    ensures EncodeIcd(DecodeIcd(b)) == b
  {
  }

  /** Unpacking packed fields gives the fields back. */
  lemma DecodeEncodeIcd(icd: Icd)
    requires ValidIcd(icd)
    ensures DecodeIcd(EncodeIcd(icd)) == icd
  {
  }

  /** The device selection bit is the ICD's IS_COMP field. */
  lemma DeviceIndexIsIsComp(buffer: seq<uint8>)
    requires |buffer| > ICD_INDEX
    ensures ExtractDeviceIndex(buffer) == DecodeIcd(buffer[ICD_INDEX] as bv8).isComp as nat
  {
  }

  /** What `sendto` is asked to transmit, and where to. */
  datatype Transmission = Transmission(frame: seq<uint8>, destAddress: seq<uint8>, destPort: uint16)

  class PacketSender {
    var packetID: nat
    var payloadBuffer: seq<uint8>
    var packetBuffer: array<uint8>
    var ethDevice: Endpoint
    /** The header constants read from the sender settings. */
    const senderConfig: HeaderParams
    /** The queue the sender drains. */
    const inputQueue: BoundedQueue<seq<uint8>>
    /** The device of each role, in role order. */
    const devicesByRole: seq<Endpoint>

    ghost predicate Valid()
      reads this
    {
      |devicesByRole| == 4 && forall i :: 0 <= i < 4 ==> ValidEndpoint(devicesByRole[i])
    }

    /** The counter starts at 0; the settings, queue and device table are
        given. The sender's current device is default-constructed; nothing
        reads it before extract_device chooses one, so it starts here as the
        first table entry, a placeholder rather than a value the sender
        sets. */
    constructor (config: HeaderParams, queue: BoundedQueue<seq<uint8>>, devices: seq<Endpoint>)
      requires |devices| == 4 && forall i :: 0 <= i < 4 ==> ValidEndpoint(devices[i])
      ensures Valid() && packetID == 0 && payloadBuffer == [] && packetBuffer.Length == 0
      ensures senderConfig == config && inputQueue == queue && devicesByRole == devices
      ensures ethDevice == devices[0]
    {
      packetID := 0;
      payloadBuffer := [];
      packetBuffer := new uint8[0];
      senderConfig := config;
      inputQueue := queue;
      devicesByRole := devices;
      ethDevice := devices[0];
    }

    /** extract_device: the device of the role selected by the payload. */
    function ExtractDevice(buffer: seq<uint8>): (ep: Endpoint)
      requires Valid() && |buffer| > ICD_INDEX
      reads this
      ensures ValidEndpoint(ep)
      ensures ep == devicesByRole[0] || ep == devicesByRole[1]
    {
      devicesByRole[RoleIndex(ExtractRole(buffer))]
    }

    /** createHeader: the UDP header after the IPv4 header, with the
        configured UDP checksum; nothing else in the buffer changes. */
    method CreateHeader(payloadSize: uint16)
      requires packetBuffer.Length >= IPV4_HEADER_SIZE + UDP_HEADER_SIZE
      modifies packetBuffer
      ensures packetBuffer[..] == old(packetBuffer[..IPV4_HEADER_SIZE]) +
                                  EncodeUdpHeader(UdpHeaderFor(ethDevice, payloadSize, senderConfig.udpChecksum)) +
                                  old(packetBuffer[IPV4_HEADER_SIZE + UDP_HEADER_SIZE..])
    {
      WriteBytes(packetBuffer, IPV4_HEADER_SIZE,
                 EncodeUdpHeader(UdpHeaderFor(ethDevice, payloadSize, senderConfig.udpChecksum)));
    }

    /** createIpHeader: the configured constants with the UDP protocol
        number, the counter as id (then one more), and the checksum of the 20 bytes (the free
        computeChecksum) stored in the checksum field. */
    method CreateIpHeader(totalPacketSize: uint16)
      requires ValidEndpoint(ethDevice) && packetBuffer.Length >= IPV4_HEADER_SIZE
      modifies this, packetBuffer
      ensures packetBuffer == old(packetBuffer) && payloadBuffer == old(payloadBuffer)
      ensures ethDevice == old(ethDevice) && packetID == old(packetID) + 1
      ensures packetBuffer[..] ==
                EncodeIpv4Header(SealHeader(HeaderFor(ethDevice, IpParams(senderConfig), old(packetID), totalPacketSize))) +
                old(packetBuffer[IPV4_HEADER_SIZE..])
    {
      var header := HeaderFor(ethDevice, IpParams(senderConfig), packetID, totalPacketSize);
      packetID := packetID + 1;
      WriteBytes(packetBuffer, 0, EncodeIpv4Header(header));
      var bytes := packetBuffer[..IPV4_HEADER_SIZE];
      assert bytes == EncodeIpv4Header(header);
      var check := ComputeChecksum(bytes);
      StoreChecksumField(packetBuffer, check);
      SealByStore(header);
    }

    /** assemblePacket: the datagram for the current payload and device, in
        a buffer sized to the 16-bit total. */
    method AssemblePacket()
      requires ValidEndpoint(ethDevice) && PayloadFits(payloadBuffer)
      modifies this
      ensures payloadBuffer == old(payloadBuffer) && ethDevice == old(ethDevice)
      ensures packetID == old(packetID) + 1
      ensures fresh(packetBuffer)
      ensures packetBuffer[..] == Datagram(ethDevice, IpParams(senderConfig), old(packetID), payloadBuffer)
    {
      var payloadSize := |payloadBuffer| % 0x1_0000;
      var totalPacketSize := (IPV4_HEADER_SIZE + UDP_HEADER_SIZE + payloadSize) % 0x1_0000;
      SmallModulo(IPV4_HEADER_SIZE + UDP_HEADER_SIZE + payloadSize);
      packetBuffer := new uint8[totalPacketSize](_ => 0);
      ghost var b0 := packetBuffer[..];
      CreateIpHeader(totalPacketSize);
      ghost var b1 := packetBuffer[..];
      CreateHeader(payloadSize);
      ghost var b2 := packetBuffer[..];
      WriteBytes(packetBuffer, IPV4_HEADER_SIZE + UDP_HEADER_SIZE, payloadBuffer[..payloadSize]);
      AssembledIsDatagram(ethDevice, IpParams(senderConfig), old(packetID), payloadBuffer, b0, b1, b2, packetBuffer[..]);
    }

    /** sendPacket: nothing while the buffer is empty, otherwise the whole
        buffer to the current device's destination. */
    method SendPacket() returns (sent: Option<Transmission>)
      ensures sent.None? <==> packetBuffer.Length == 0
      ensures sent.Some? ==> sent.value == Transmission(packetBuffer[..], ethDevice.destAddress, ethDevice.destPort)
    {
      if packetBuffer.Length == 0 {
        return None;
      }
      sent := Some(Transmission(packetBuffer[..], ethDevice.destAddress, ethDevice.destPort));
    }

    /** One pass of runSender: dequeue a payload, select the device from its
        ICD byte, assemble, send. Exactly one payload leaves the queue and
        exactly its datagram is transmitted, through the selected device. */
    method RunSenderStep() returns (sent: Option<Transmission>)
      requires Valid() && inputQueue.Valid() && |inputQueue.items| > 0
      requires |inputQueue.items[0]| > ICD_INDEX && PayloadFits(inputQueue.items[0])
      modifies this, inputQueue
      ensures Valid() && inputQueue.Valid() && inputQueue.items == old(inputQueue.items)[1..]
      ensures payloadBuffer == old(inputQueue.items)[0]
      ensures ethDevice == ExtractDevice(payloadBuffer)
      ensures packetID == old(packetID) + 1
      ensures sent == Some(Transmission(Datagram(ethDevice, IpParams(senderConfig), old(packetID), payloadBuffer),
                                        ethDevice.destAddress, ethDevice.destPort))
    {
      payloadBuffer := inputQueue.Dequeue();
      ethDevice := ExtractDevice(payloadBuffer);
      AssemblePacket();
      sent := SendPacket();
    }
  }
}
