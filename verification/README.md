# must_core forwarding pipeline, modelled in Dafny

`must_core` is a forwarding gateway with four Ethernet ports. Its
NetworkManager configures each port (an EthDevice): either it applies the
user settings, or it runs a self-search. The self-search polls the cable,
then applies candidate addresses one by one until one answers a ping.

Traffic then moves through a chain of bounded queues (ThreadSafeQueue)
between these stages:
- a router sorts each incoming frame into a GUI, from-tunnel or
  process/send queue, by its addresses and a marker byte;
- two tunnel stages strip an 8-byte header from each frame;
- a sender wraps each payload in an IPv4 and a UDP header, with the RFC 1071
  header checksum, and hands the datagram to a socket.

The repository keeps two revisions of the sender and two of the router. Both
of each are modelled. Both routers read a frame's addresses through `ntohl`
and then `inet_ntop`, which prints the address bytes in reverse on a
little-endian host (see "## Findings"). The routing steps (`RouteOf` and both
`RouteOne`s) therefore route on the corrected address text. The as-written
parse and route are modelled beside them: `AddressTextAsWritten`,
`ParsePacketAsWritten` and `RouteOfAsWritten`.

The model works on one sequential step at a time:
- threads, sockets, netlink and file I/O are left out;
- a queue wait becomes a precondition;
- cable probes and pings are oracle sequences of answers;
- the bytes a sender would hand to `sendto` are returned as a value.

The host is taken to be little-endian, as the header layouts assume. Fields
written through `htons` are big-endian. Native 16-bit stores (`frag_off`,
both checksum fields) and native 16-bit loads (the checksum loops) are
little-endian.

Modules, one per source file plus four shared ones:

| module | file | models |
|---|---|---|
| `Bytes` | bytes.dfy | 8/16/32-bit ranges, `Option`, the two byte orders |
| `Checksum` | checksum.dfy | the RFC 1071 sum, fold and complement; the verification rule |
| `DottedQuad` | dotted_quad.dfy | `sscanf("%u.%u.%u.%u")` with glibc's `%u` rules, and `inet_ntop`, as parse/format with a round trip |
| `Ipv4Udp` | ipv4_udp.dfy | the byte layout of `struct iphdr`/`struct udphdr` and of an assembled datagram |
| `ThreadSafeQueue` | bounded_queue.dfy | ThreadSafeQueue/threadSafeQueue.hpp |
| `EthDevice` | eth_device.dfy | EthDevice/EthDevice.cpp |
| `NetworkManager` | network_manager.dfy | NetworkManager/NetworkManager.cpp |
| `UdpSender` | udp_sender.dfy | packet_send/packet_send.hpp |
| `RoleSender` | role_sender.dfy | packetSend/packet_send.hpp |
| `ConfiguredRouter` | packet_router_configured.dfy | packetRouter/packet_router.hpp |
| `FixedRouter` | packet_router_fixed.dfy | packet_router/packet_router.hpp |
| `TunnelFraming` | tunnel_framing.dfy | the 8-byte header strip both tunnel stages share |
| `TunnelTransmitter` | tunnel_transmitter.dfy | tunnel_transmitter_process/tunnel_transmitter_process.hpp |
| `TunnelReceiver` | tunnel_receiver.dfy | tunnel_receiver_process/tunnel_reciver_process.hpp |

## Model

| member | source | states |
|---|---|---|
| Bytes.BigEndian16 | packet_send/packet_send.hpp:47-49 | `htons` stores two bytes, most significant first, whose value is v |
| Bytes.LittleEndian16 | packet_send/packet_send.hpp:60-63 | a native store on the little-endian host writes two bytes, least significant first, whose value is v |
| Bytes.BigEndian16RoundTrip | packet_send/packet_send.hpp:47-49 | reading back a big-endian store gives the value stored |
| Bytes.LittleEndian16RoundTrip | packet_send/packet_send.hpp:60-63 | reading back a native store gives the value stored |
| Checksum.Fold | EthDevice/EthDevice.cpp:413-415 | the end-around-carry fold ends in 16 bits, keeps the value modulo 0xFFFF, and is zero only for zero |
| Checksum.FoldStep | EthDevice/EthDevice.cpp:413-414 | one fold round strictly decreases the sum, keeps it non-zero, and keeps it modulo 0xFFFF |
| Checksum.FoldCarries | EthDevice/EthDevice.cpp:413-415 | the fold loop on the 32-bit accumulator returns exactly Fold of it |
| Checksum.StoreWord | packet_send/packet_send.hpp:68-69 | storing a 16-bit value natively at word k makes that word read back as the value and leaves every other byte unchanged |
| Checksum.WordSumStore | packet_send/packet_send.hpp:68-69 | replacing one word changes the word sum by exactly the difference of the two word values, and not at all when the word is outside the summed prefix |
| Checksum.ChecksumVerifies | EthDevice/EthDevice.cpp:404-416 | RFC 1071 verification rule: for an even-length buffer whose checksum word was zero, storing the checksum there makes the re-summed buffer fold to 0xFFFF and its checksum 0, for either odd-byte convention |
| Checksum.ResumFoldsToAllOnes | EthDevice/EthDevice.cpp:413-415 | any sum plus the complement of its fold folds to 0xFFFF |
| Checksum.OddByteIrrelevantOnEvenLength | packet_send/packet_send.hpp:114-116 | the plain-byte and high-half conventions give the same checksum on every even-length buffer |
| Checksum.OddByteConventionsDiffer | EthDevice/EthDevice.cpp:411-412 | on the one-byte buffer [1] the plain convention gives 0xFFFE and the high-half convention (packet_send/packet_send.hpp:114-116) gives 0xFEFF |
| DottedQuad.DigitSpan | EthDevice/EthDevice.cpp:184 | the digit run a `%u` conversion reads is all digits and is followed by a non-digit or the end |
| DottedQuad.SpaceSpan | EthDevice/EthDevice.cpp:184 | the white-space run a `%u` conversion skips is all white space and is followed by a non-space or the end |
| DottedQuad.Converted | EthDevice/EthDevice.cpp:184 | the unsigned int `%u` stores is the number itself when it fits in 32 bits, and 2^32 minus it after a minus sign |
| DottedQuad.ParseUnsigned | EthDevice/EthDevice.cpp:184 | a successful `%u` conversion consumes at least one character and stops at a non-digit or the end |
| DottedQuad.ParseUnsignedSucceeds | EthDevice/EthDevice.cpp:184 | a `%u` conversion succeeds if and only if, after white space, the text starts with a digit, or with a sign followed by a digit |
| DottedQuad.SignThenDigits | EthDevice/EthDevice.cpp:184 | after a minus sign, `%u` reads the digit run that follows and stores its 64-bit negation's low 32 bits, and fails when no digit follows |
| DottedQuad.SignedDigits | EthDevice/EthDevice.cpp:184 | a minus sign, a digit run and a non-digit: the conversion stores the negated value of the digits and stops at the non-digit |
| DottedQuad.ParseDotUnsigned | EthDevice/EthDevice.cpp:184 | the literal '.' and the conversion after it consume at least two characters |
| DottedQuad.DotThenConversion | EthDevice/EthDevice.cpp:184 | a '.' in the format matches the text's '.' and the conversion then reads the rest exactly as it would alone |
| DottedQuad.ParseQuad | EthDevice/EthDevice.cpp:184 | `sscanf(s, "%u.%u.%u.%u") == 4` holds only of texts of at least seven characters |
| DottedQuad.QuadOfParts | EthDevice/EthDevice.cpp:184 | four successive conversions, the last three each after a '.', make the text parse as those four numbers |
| DottedQuad.FormatDecimal | packetRouter/packet_router.hpp:109 | the decimal text of a number is non-empty and all digits, with one, at most two, and at most three digits below 10, 100 and 1000 |
| DottedQuad.FormatQuad | packetRouter/packet_router.hpp:109 | the text `inet_ntop` writes for four bytes has 7 to 15 characters, so it fits the INET_ADDRSTRLEN buffer with its NUL |
| DottedQuad.ParseUnsignedOfFormat | EthDevice/EthDevice.cpp:184 | a `%u` conversion reads back exactly the number printed, and stops at the following non-digit |
| DottedQuad.ParseFormatQuad | EthDevice/EthDevice.cpp:184 | the text `inet_ntop` writes for four bytes parses with `sscanf("%u.%u.%u.%u")` back to the same four numbers |
| DottedQuad.FormatQuadInjective | packetRouter/packet_router.hpp:95 | two dotted-quad strings are equal if and only if their four bytes are equal, so string comparison of addresses is byte comparison |
| DottedQuad.AddressText | packetRouter/packet_router.hpp:108-114 | (corrected) the extracted text has 7 to 15 characters; AddressTextDenotes gives its meaning |
| DottedQuad.AddressTextAsWritten | packet_router/packet_router.hpp:86-92 | (as written, both routers) the text of the reversed bytes has 7 to 15 characters, as many as the corrected text |
| DottedQuad.AddressTextDenotes | packetRouter/packet_router.hpp:108-114 | the corrected extraction denotes the four address bytes in frame order |
| DottedQuad.AddressTextAsWrittenReversed | packetRouter/packet_router.hpp:108-114 | as written (`ntohl`, then `inet_ntop`), the extracted text denotes the four bytes in reverse order |
| DottedQuad.AddressTextAsWrittenCounterexample | packet_router/packet_router.hpp:86-88 | a frame carrying 10.0.0.9 at byte 12 is read as written as "9.0.0.10", which differs from the corrected "10.0.0.9" |
| DottedQuad.DefaultMaskParses | EthDevice/EthDevice.cpp:397 | the default mask "255.255.255.0" parses as the four numbers 255, 255, 255, 0 |
| DottedQuad.LeadingSpaceSkipped | EthDevice/EthDevice.cpp:184 | a white-space character before a `%u` conversion does not change what it reads |
| DottedQuad.NegatedConversion | EthDevice/EthDevice.cpp:184 | after a minus sign, `%u` reads a printed number n > 0 as 2^32 - n |
| DottedQuad.SpacedMaskParses | EthDevice/EthDevice.cpp:184 | " 255.255.255.0" is four conversions giving 255, 255, 255, 0 |
| DottedQuad.NegativeOctetParses | EthDevice/EthDevice.cpp:184 | "-1.0.0.0" is four conversions, the first storing 0xFFFFFFFF |
| EthDevice.ParseRole | EthDevice/EthDevice.cpp:384-390 | each of "source2", "source3" and "tunnel" maps to its role if and only if the text is exactly that name; every other text, "source1" included, maps to SOURCE1 |
| EthDevice.ParseRoleName | EthDevice/EthDevice.cpp:384-390 | every role's configuration spelling parses back to that role |
| EthDevice.ParseRoleDefaults | EthDevice/EthDevice.cpp:389 | "", "Tunnel" and "SOURCE2" all fall back to SOURCE1 (the match is case-sensitive) |
| EthDevice.RoleFromIndex | packetSend/packet_send.hpp:156 | `EthDevice::Role(i)` is the enumerator whose underlying value is i |
| EthDevice.MaskOf | EthDevice/EthDevice.cpp:185 | for four byte-sized numbers, the mask is the 32-bit value they spell in network order |
| EthDevice.LeadingOnesUnique | EthDevice/EthDevice.cpp:186-189 | a mask has exactly one number of leading one bits |
| EthDevice.PrefixMaskLeadingOnes | EthDevice/EthDevice.cpp:182-189 | the contiguous mask with p ones has exactly p leading ones |
| EthDevice.LeadingRunOnly | EthDevice/EthDevice.cpp:186-189 | bits below the first zero do not change the prefix length |
| EthDevice.SlashTwentyFourMask | EthDevice/EthDevice.cpp:172 | the mask built from 255.255.255.0 has 24 leading ones |
| EthDevice.NonContiguousMask | EthDevice/EthDevice.cpp:185-189 | the non-contiguous mask 255.0.255.0 has prefix length 8: only the leading run counts |
| EthDevice.PrefixLength | EthDevice/EthDevice.cpp:185-189 | the shift-and-count loop returns the number of leading one bits of the 32-bit mask |
| EthDevice.ComputeChecksum | EthDevice/EthDevice.cpp:404-416 | the word loop, the plain-value odd byte, the fold and the complement give InternetChecksum with the odd byte as its plain value; the free `computeChecksum` of packetSend/packet_send.hpp:159-171 is the same code and is modelled by this member |
| EthDevice.EthDevice.constructor | EthDevice/EthDevice.cpp:9-11 | a device keeps the given name, has role SOURCE1 and empty addressing |
| EthDevice.EthDevice.ApplySelfSearchConfig | EthDevice/EthDevice.cpp:150-160 | selfIp becomes ipAddress; destIpAddress, defaultGateway, subnetMask, remoteIp and remoteIpDestination are copied; role becomes ParseRole(config.role); the name is unchanged; an address is programmed if and only if setSelfIP accepts the new fields |
| EthDevice.EthDevice.SetSelfIP | EthDevice/EthDevice.cpp:174-195 | no address is programmed if and only if ipAddress or subnetMask is empty or `sscanf` does not make four `%u` conversions of the mask (white space and a sign before each number are accepted); otherwise the address is programmed with the number of leading ones of the mask as prefix |
| EthDevice.EthDevice.FromJson | EthDevice/EthDevice.cpp:393-402 | each field is read from its key: a missing SubnetMask becomes "255.255.255.0", a missing role becomes SOURCE1, any other missing field becomes ""; the name is untouched |
| EthDevice.EthDevice.ApplySettings | EthDevice/EthDevice.cpp:41-54 | normal mode makes four requests, none twice: the link is brought up first, the MTU is set to 1500 before the virtual address is added, and the interface speed is set last |
| EthDevice.FromJsonDefaults | EthDevice/EthDevice.cpp:394-401 | an empty JSON object gives the /24 default mask, role SOURCE1 and an empty address |
| EthDevice.DefaultMaskIsSlash24 | EthDevice/EthDevice.cpp:397 | the default mask parses and has 24 leading ones |
| EthDevice.VirtualIpOnDefaultSubnet | EthDevice/EthDevice.cpp:355 | the virtual address 192.168.1.101/24 parses as those four numbers, and its prefix 24 is the one setSelfIP derives from the default mask |
| EthDevice.VirtualAddressText | EthDevice/EthDevice.cpp:355 | the virtual address text is the dotted quad of 192, 168, 1, 101 |
| EthDevice.SpacedMaskPrefix | EthDevice/EthDevice.cpp:184-189 | a mask written " 255.255.255.0" is accepted and gives prefix 24 |
| NetworkManager.FirstYesFrom | NetworkManager/NetworkManager.cpp:93-99 | the index of the first "yes" answer in a range, with every earlier answer "no"; the end of the range when there is none |
| NetworkManager.FirstYes | NetworkManager/NetworkManager.cpp:93-99 | the index of the first "yes" among the first n answers, with every earlier answer "no"; n when there is none |
| NetworkManager.PingTargets | NetworkManager/NetworkManager.cpp:93-95 | the first n candidates' ping addresses, in list order |
| NetworkManager.SleepsBounded | NetworkManager/NetworkManager.cpp:77-84 | the cable-poll loop pauses at most 5 times, 12 seconds each, at most 60 seconds in all |
| NetworkManager.SleepsExtremes | NetworkManager/NetworkManager.cpp:79-84 | a cable up at the first probe costs no pause; one that never comes up costs 5 pauses and no candidate is applied |
| NetworkManager.NoLinkNoProbe | NetworkManager/NetworkManager.cpp:85-89 | with the cable still down after polling, no candidate is applied, none is pinged, nothing is committed and the device is unchanged |
| NetworkManager.FirstSuccessCommits | NetworkManager/NetworkManager.cpp:92-99 | if candidate k is the first whose ping answers, exactly k+1 candidates are applied and pinged, and the device holds candidate k's addressing and role |
| NetworkManager.AllFailKeepsLast | NetworkManager/NetworkManager.cpp:92-107 | if every ping fails, every candidate is applied, nothing is committed and the last candidate stays on the device with no rollback; an empty list leaves the device unchanged |
| NetworkManager.CommittedIff | NetworkManager/NetworkManager.cpp:85-107 | a configuration is committed if and only if the link came up and some candidate's ping answered |
| NetworkManager.SecondOfThreeAnswers | NetworkManager/NetworkManager.cpp:92-104 | three candidates with the link up at once, the first ping failing and the second answering: no pause, two candidates applied, the second kept |
| NetworkManager.Manager.constructor | NetworkManager/NetworkManager.cpp:8-14 | four distinct new devices named eth1..eth4 in slots 0..3, each with role SOURCE1 and empty addressing |
| NetworkManager.Manager.RunSelfSearchForDevice | NetworkManager/NetworkManager.cpp:76-108 | the pauses, the addresses pinged (in order), the committed flag and the device's final addressing are exactly those of SelfSearch on the cable and ping answers; the name is unchanged |
| NetworkManager.Manager.ApplySettings | NetworkManager/NetworkManager.cpp:57-68 | normal mode applies the settings to all four ports, changes no device field and sets the system routes; self-search mode runs the search on all four ports, each ending as SelfSearch on its own answers, and sets no routes |
| NetworkManager.Manager.ApplyDeviceSettings | NetworkManager/NetworkManager.cpp:58-63 | every one of the four ports issues the normal-mode kernel requests |
| NetworkManager.Manager.SelfSearchAll | NetworkManager/NetworkManager.cpp:111-122 | each of the four ports ends as SelfSearch from its own previous addressing with its own answers; no name changes |
| ThreadSafeQueue.BoundedQueue.constructor | ThreadSafeQueue/threadSafeQueue.hpp:32 | an empty queue with the given capacity and empty histories |
| ThreadSafeQueue.BoundedQueue.IsEmpty | ThreadSafeQueue/threadSafeQueue.hpp:35-37 | true if and only if the queue holds no element; nothing changes |
| ThreadSafeQueue.BoundedQueue.IsFull | ThreadSafeQueue/threadSafeQueue.hpp:40-42 | true if and only if the size is at least the capacity; nothing changes |
| ThreadSafeQueue.BoundedQueue.QueueSize | ThreadSafeQueue/threadSafeQueue.hpp:45-47 | the number of elements held; nothing changes |
| ThreadSafeQueue.BoundedQueue.Enqueue | ThreadSafeQueue/threadSafeQueue.hpp:50-55 | only when not full: appends at the back, grows by one, never exceeds the capacity, and records the value as enqueued |
| ThreadSafeQueue.BoundedQueue.Dequeue | ThreadSafeQueue/threadSafeQueue.hpp:58-64 | only when non-empty: returns and removes the oldest element, and records it as dequeued |
| ThreadSafeQueue.DequeuedIsPrefix | ThreadSafeQueue/threadSafeQueue.hpp:50-64 | FIFO with no loss or duplication: what was dequeued is a prefix of what was enqueued, and the queue holds exactly the rest, in order |
| ThreadSafeQueue.FifoScenario | ThreadSafeQueue/threadSafeQueue.hpp:50-64 | two values pushed through a queue of capacity 2 come out in the order they went in |
| Ipv4Udp.EncodeIpv4Header | packet_send/packet_send.hpp:54-65 | a header is 20 bytes |
| Ipv4Udp.DecodeIpv4Header | packet_send/packet_send.hpp:54-65 | the fields read back from 20 bytes form a well-formed header (4-bit version and IHL, 4-byte addresses) |
| Ipv4Udp.DecodeEncodeIpv4Header | packet_send/packet_send.hpp:54-65 | decoding an encoded header, whatever follows it, gives the header back |
| Ipv4Udp.EncodeDecodeIpv4Header | packet_send/packet_send.hpp:54-65 | encoding the decoded header gives the first 20 bytes back |
| Ipv4Udp.StoreCheckWord | packet_send/packet_send.hpp:63-69 | the checksum field is native word 5 of the header, so storing a value there encodes the header that carries it |
| Ipv4Udp.HeaderFor | packet_send/packet_send.hpp:54-65 | the header createIpHeader fills in is well formed (version and IHL cut to 4 bits, 4-byte addresses) |
| Ipv4Udp.SealHeader | packet_send/packet_send.hpp:68-69 | sealing keeps the header well formed |
| Ipv4Udp.SealedHeaderVerifies | packet_send/packet_send.hpp:63-69 | a header checksummed with its field at 0 re-sums to 0xFFFF and has checksum 0, for either odd-byte convention |
| Ipv4Udp.EncodeUdpHeader | packet_send/packet_send.hpp:46-51 | a UDP header is 8 bytes |
| Ipv4Udp.DecodeEncodeUdpHeader | packet_send/packet_send.hpp:46-51 | decoding an encoded UDP header gives its ports, length and checksum back |
| Ipv4Udp.EncodeDecodeUdpHeader | packet_send/packet_send.hpp:46-51 | encoding the decoded UDP header gives the first 8 bytes back |
| Ipv4Udp.Datagram | packet_send/packet_send.hpp:73-84 | the assembled datagram is 20 + 8 + (payload size mod 2^16) bytes long |
| Ipv4Udp.DatagramParts | packet_send/packet_send.hpp:78-83 | a datagram is its IPv4 header, which reads back as filled in apart from the checksum, then the UDP header, which reads back as built, then the payload |
| Ipv4Udp.DatagramLayout | packet_send/packet_send.hpp:75-83 | for a payload that fits, the datagram has 28 + n bytes, bytes [28, 28+n) are the payload exactly, and the UDP header carries both ports, length 8 + n and the UDP checksum constant |
| Ipv4Udp.DatagramIpHeader | packet_send/packet_send.hpp:54-65 | the IPv4 header reads back with the configured version, IHL, TOS, fragment field, TTL and protocol, a total length equal to the datagram's length, the counter mod 2^16 as id, and the two addresses |
| Ipv4Udp.ConsecutiveIds | packetSend/packet_send.hpp:107 | headers built with consecutive counter values have consecutive ids mod 2^16 (0xFFFF is followed by 0), whatever their devices and lengths |
| Ipv4Udp.DatagramHeaderVerifies | packet_send/packet_send.hpp:63-69 | with the compile-time constants, the 20-byte header of every datagram re-sums to 0xFFFF and its checksum is 0 |
| Ipv4Udp.WriteBytes | packet_send/packet_send.hpp:83 | after a copy, the bytes at the offset are the copied bytes and no other byte changes |
| Ipv4Udp.SealByStore | packet_send/packet_send.hpp:68-69 | storing the checksum of a header's bytes into its field gives the bytes of the sealed header |
| Ipv4Udp.StoreChecksumField | packet_send/packet_send.hpp:68-69 | storing the checksum changes only bytes 10 and 11, which then hold the value natively |
| Ipv4Udp.AssembledIsDatagram | packet_send/packet_send.hpp:78-83 | the buffer after createIpHeader, createUdpHeader and the payload copy is the datagram |
| UdpSender.PacketSender.constructor | packet_send/packet_send.hpp:40-42 | the counter starts at 0 and both buffers are empty |
| UdpSender.PacketSender.ComputeChecksum | packet_send/packet_send.hpp:104-124 | the span checksum, with the odd byte in the high half, equals InternetChecksum under the high-half convention |
| UdpSender.PacketSender.CreateUdpHeader | packet_send/packet_send.hpp:46-51 | bytes [20, 28) become the UDP header (both ports and 8 + payloadSize, big-endian; checksum 0); nothing else changes |
| UdpSender.PacketSender.CreateIpHeader | packet_send/packet_send.hpp:54-70 | bytes [0, 20) become the sealed header for the constants, with the old counter as id; the counter grows by exactly one; nothing else changes |
| UdpSender.PacketSender.AssemblePacket | packet_send/packet_send.hpp:73-84 | exactly the head payload leaves the queue, the counter grows by one, and the new buffer is the datagram of that payload |
| UdpSender.PacketSender.BuildPacket | packet_send/packet_send.hpp:75-83 | the buffer is resized and filled with the datagram of the current payload |
| UdpSender.PacketSender.SendPacket | packet_send/packet_send.hpp:87-102 | nothing is transmitted if and only if the buffer is empty; otherwise the whole buffer goes to the device's destination address and port |
| UdpSender.AssembleThenSend | packet_send/packet_send.hpp:73-102 | after assembling, the sender always transmits, and what it transmits is the datagram of the dequeued payload |
| RoleSender.IpParams | packetSend/packet_send.hpp:102-111 | the IPv4 header always carries protocol 17; every other constant is the configured one |
| RoleSender.ExtractDeviceIndex | packetSend/packet_send.hpp:153-155 | the device index is 0 or 1, and 1 if and only if bit 6 of byte 4 is set |
| RoleSender.ExtractRole | packetSend/packet_send.hpp:153-156 | only SOURCE1 or SOURCE2 is ever selected, SOURCE2 if and only if bit 6 of byte 4 is set |
| RoleSender.ExtractRoleOnlyReadsBit6 | packetSend/packet_send.hpp:155 | two payloads select the same role if and only if they agree on bit 6 of byte 4 |
| RoleSender.DecodeIcd | packetSend/packet_send.hpp:173-183 | every byte decodes to in-range fields (1-bit EOP and IS_COMP, 2-bit CONV, SEQ_NUM and MSG_ID) |
| RoleSender.IcdMasksPartition | packetSend/packet_send.hpp:173-183 | the five field masks are pairwise disjoint and together cover all 8 bits |
| RoleSender.EncodeDecodeIcd | packetSend/packet_send.hpp:173-183 | re-packing the decoded fields gives the byte back |
| RoleSender.DecodeEncodeIcd | packetSend/packet_send.hpp:173-183 | decoding packed in-range fields gives the fields back |
| RoleSender.DeviceIndexIsIsComp | packetSend/packet_send.hpp:155 | the device index is the ICD's IS_COMP field |
| RoleSender.PacketSender.constructor | packetSend/packet_send.hpp:55-58 | the counter starts at 0, the buffers are empty, and the settings, queue and device table are the ones given |
| RoleSender.PacketSender.ExtractDevice | packetSend/packet_send.hpp:153-157 | the selected device is valid and is always the SOURCE1 or the SOURCE2 device |
| RoleSender.PacketSender.CreateHeader | packetSend/packet_send.hpp:94-99 | bytes [20, 28) become the UDP header of the current device with the configured UDP checksum; nothing else changes |
| RoleSender.PacketSender.CreateIpHeader | packetSend/packet_send.hpp:102-118 | bytes [0, 20) become the sealed header for the configured constants with protocol 17, the current device and the old counter; the counter grows by one |
| RoleSender.PacketSender.AssemblePacket | packetSend/packet_send.hpp:121-133 | the new buffer is the datagram of the current payload through the current device, and the counter grows by one |
| RoleSender.PacketSender.SendPacket | packetSend/packet_send.hpp:136-151 | nothing is transmitted if and only if the buffer is empty; otherwise the whole buffer goes to the current device's destination |
| RoleSender.PacketSender.RunSenderStep | packetSend/packet_send.hpp:61-68 | one iteration dequeues exactly one payload, selects its device from the ICD byte, and transmits exactly that payload's datagram through that device, with the old counter as id |
| ConfiguredRouter.ParsePacket | packetRouter/packet_router.hpp:104-121 | (corrected) the addresses are the dotted quads of the 4 bytes at their offsets; the frame is the bytes before PAYLOAD_OFFSET_ followed by the payload when longer than that offset, otherwise the payload is empty |
| ConfiguredRouter.ParsePacketAsWritten | packetRouter/packet_router.hpp:104-121 | as written, the payload is the same as in the corrected parse, and only the address texts differ |
| ConfiguredRouter.IsFromTunnel | packetRouter/packet_router.hpp:94-96 | the test has a direction: a frame from the tunnel device's own address to its peer counts as from the tunnel only when the two addresses are the same text |
| ConfiguredRouter.IsFromGui | packetRouter/packet_router.hpp:99-101 | a match needs a marker that fits in a byte and a payload of at least two bytes; byte size - 2 is read only when byte 0 is the marker |
| ConfiguredRouter.Classify | packetRouter/packet_router.hpp:81-88 | on a parsed frame: process if and only if not from the tunnel; gui if and only if from the tunnel and GUI-tagged, which needs a byte-sized marker and two payload bytes |
| ConfiguredRouter.RouteOfAsWritten | packetRouter/packet_router.hpp:76-91 | (as written, on the reversed address text) a frame goes to the process queue if and only if the reversed text is not the tunnel pair |
| ConfiguredRouter.RouteOf | packetRouter/packet_router.hpp:81-88 | (corrected parse) the tunnel test comes first: process if and only if the frame is not from the tunnel; gui if and only if it is from the tunnel and GUI-tagged; from-tunnel otherwise |
| ConfiguredRouter.WideMarkerNeverMatches | packetRouter/packet_router.hpp:99-101 | a configured marker above 255 never matches a byte, so no frame is GUI-tagged |
| ConfiguredRouter.TunnelFrameByAddress | packetRouter/packet_router.hpp:94-96 | with the tunnel device at self and its peer at peer, a frame is from the tunnel if and only if its source bytes are peer and its destination bytes are self |
| ConfiguredRouter.NonTunnelFrameToProcess | packetRouter/packet_router.hpp:86-87 | a frame goes to the process queue if and only if its addresses are not the tunnel pair, whatever its payload |
| ConfiguredRouter.TunnelFrameMissedAsWritten | packetRouter/packet_router.hpp:108-114 | as written, a frame from the tunnel peer 10.0.0.9 to the tunnel device 10.0.0.1 is not recognised as from the tunnel and goes to the process queue; the corrected parse recognises it and does not send it there |
| ConfiguredRouter.PacketRouter.constructor | packetRouter/packet_router.hpp:51-73 | the router keeps the route settings, the tunnel device and the four queues given |
| ConfiguredRouter.PacketRouter.RouteOne | packetRouter/packet_router.hpp:76-91 | (corrected parse) the head frame leaves the receive queue and is appended, unmodified, to exactly the queue RouteOf names; the other queues are unchanged |
| FixedRouter.UdpPacketOf | packet_router/packet_router.hpp:83-99 | (corrected) the addresses are the dotted quads of bytes 12-15 and 16-19; the frame is its first 28 bytes followed by the payload when longer than 28, otherwise the payload is empty |
| FixedRouter.ParseUdpPacket | packet_router/packet_router.hpp:83-99 | the parse always reports success, so the `continue` never skips a frame, and fills in UdpPacketOf |
| FixedRouter.IsFromTunnel | packet_router/packet_router.hpp:67-75 | true when both addresses are "192.168.1.1"; every other pair falls off the end, and the result is then the undefined value `fallOff` |
| FixedRouter.IsFromGui | packet_router/packet_router.hpp:78-80 | never true, for any payload of at least one byte: no byte equals 0x6464, so byte size - 2 is never read |
| FixedRouter.RouterReadsSentDatagram | packet_router/packet_router.hpp:17-25 | the offsets agree with the sender's layout: a sent datagram parses back to its two addresses and its payload, with its ports at bytes 20 and 22 |
| FixedRouter.TunnelPairMissedAsWritten | packet_router/packet_router.hpp:67-75 | as written, a frame carrying 192.168.1.1 as both addresses is read as "1.1.168.192", so isFromTunnel falls off its end; the corrected parse returns true |
| FixedRouter.PairAddressText | packet_router/packet_router.hpp:14-15 | both address constants are the dotted quad of 192, 168, 1, 1 |
| FixedRouter.RouteOne | packet_router/packet_router.hpp:46-64 | (corrected parse) the head frame leaves the receive queue; a tunnel frame is appended to fromTunnelQueue twice (before the GUI test and again in its else branch); any other frame is appended to toSendQueue once |
| TunnelFraming.StrippedPayload | tunnel_transmitter_process/tunnel_transmitter_process.hpp:33-35 | a frame longer than 8 bytes is its 8-byte header followed by the new payload; a shorter frame, or one of exactly 8 bytes, leaves the previous payload |
| TunnelFraming.StripPrependedHeader | tunnel_transmitter_process/tunnel_transmitter_process.hpp:33-35 | stripping undoes prepending any 8-byte header to a non-empty payload |
| TunnelFraming.ShortFrameRepeatsPayload | tunnel_transmitter_process/tunnel_transmitter_process.hpp:33 | a frame of at most 8 bytes yields the previous payload, however many times it is stripped |
| TunnelFraming.LongFrameIgnoresPrevious | tunnel_transmitter_process/tunnel_transmitter_process.hpp:33-35 | the payload of a frame longer than 8 bytes has n - 8 bytes and does not depend on the previous payload |
| TunnelTransmitter.TunnelTransmitterProcess.constructor | tunnel_transmitter_process/tunnel_transmitter_process.hpp:26-28 | empty buffers and the two queues given |
| TunnelTransmitter.TunnelTransmitterProcess.GetPayload | tunnel_transmitter_process/tunnel_transmitter_process.hpp:31-36 | the head frame leaves the input queue and becomes the raw buffer, and the payload becomes its stripped payload; the send queue is unchanged |
| TunnelTransmitter.TunnelTransmitterProcess.MainProcess | tunnel_transmitter_process/tunnel_transmitter_process.hpp:39-45 | the payload is appended unchanged to the send queue; the input queue is unchanged |
| TunnelTransmitter.TunnelTransmitterProcess.ProcessOne | tunnel_transmitter_process/tunnel_transmitter_process.hpp:31-45 | one frame moves through the stage: the send queue receives exactly its stripped payload |
| TunnelReceiver.TunnelReceiverProcess.constructor | tunnel_receiver_process/tunnel_reciver_process.hpp:10-17 | both buffers start empty |
| TunnelReceiver.TunnelReceiverProcess.GetPayload | tunnel_receiver_process/tunnel_reciver_process.hpp:25-31 | the head frame leaves the queue and becomes the raw buffer, and the payload becomes its stripped payload |
| TunnelReceiver.TunnelReceiverProcess.MainProcess | tunnel_receiver_process/tunnel_reciver_process.hpp:34-40 | the payload is appended unchanged to the queue |
| TunnelReceiver.HeaderOnlyFrameRepeats | tunnel_receiver_process/tunnel_reciver_process.hpp:25-40 | a long frame followed by a header-only frame sends the first frame's payload twice |

## Left out

- Kernel configuration through netlink and ioctl is not modelled. This covers `initSocket`, `closeSocket`, the rtnl calls of `setSelfIP`, `setDefaultGateway`, `setDeviceFlags`, `setMTU`, `addVirtualIpIfNeeded` and `setInterfaceSpeed`. `setSelfIP` is modelled up to the address/prefix pair it would program. `applySettings` returns the list of requests it would make.
- The socket null checks (`if (!sock_) return;`) are not modelled, because the socket is OS state.
- `isCableConnected` and `pingIP` query hardware and the network. Their answers are given as oracle sequences of booleans, and a missing answer counts as "no".
- `sleep_for` is not modelled. The 12-second pauses are counted instead.
- Each `sendto` call becomes the `Transmission` value a sender returns. Socket errors and `perror` are not modelled.
- File and JSON configuration are not modelled: `parseSettings` in NetworkManager, `loadConfig` of the role sender, and `route_settings.json` of the configured router. Their results are constructor parameters: the header constants, the route offsets and marker, and the tunnel device. NetworkManager's mode flag and candidate list are fields.
- `from_json` is modelled over a JSON object whose values are strings.
- Threads, mutexes and condition variables are not modelled.
  - A queue's waits become preconditions: room to enqueue, an element to dequeue.
  - `runSelfSearchInParallel` runs the four searches one after another. Each search touches only its own device, so the final state is the same.
- The endless handler loops (`runSender`, both `packetRouteHandler`s, `tunnelReceiveHandler`) are modelled one iteration at a time. The sleep after each loop is unreachable and is not modelled.
- Logging and console output are not modelled.
- `packetBuffer.resize` is modelled as a fresh zero-filled array of the new size. Every byte of it is then overwritten.
- The `int` packet counter is unbounded here. Only its 16-bit truncation reaches the header, and signed overflow after 2^31 packets is not modelled.
- The source does not compile as written in these places. The model follows the evident intent:
  - `T item = queue.pop();` (ThreadSafeQueue/threadSafeQueue.hpp:61) is modelled as front-then-pop.
  - `rawPacketBuffer` and `payloadBuffer` (tunnel_receiver_process/tunnel_reciver_process.hpp:27-28) are modelled as the members `rawPacketBuffer_` and `payloadBuffer_`.
  - In packetSend/packet_send.hpp:
    - `inputQueue` is modelled as `toTunnelQueue_`, and the call to `createUdpHeader` as `createHeader`;
    - the header constant names (IHL, IP_VERSION, DEFAULT_TOS, and so on) are modelled as the loaded sender settings;
    - `NetworkManager.getDeviceByRole` is modelled as a table of one device per role given to the constructor.
  - `guiQueue` is undeclared in packet_router/packet_router.hpp:56. Its branch is unreachable because the GUI test is never true, so the fixed router takes no GUI queue.
- FixedRouter.IsFromTunnel: a pair other than ("192.168.1.1", "192.168.1.1") makes the function fall off its end without a return value, which is undefined behaviour. The model leaves the result open as the parameter `fallOff`, so both routes are covered.
- The configured router copies its queues and takes `guiQueue` by value without ever initialising it (packetRouter/packet_router.hpp:40-43, 52-53). The model treats all four queues as the shared ones the constructor is given.
- Reads outside a frame are undefined in the source, and the model requires frames long enough instead:
  - the address reads need 4 bytes at each offset;
  - `isFromGui` reads byte 0 of the payload, and byte `size - 2` only when byte 0 equals the marker, so a tunnel frame needs a payload of at least one byte, and of two when it starts with the marker;
  - `extract_device` reads byte 4.
- When the payload size wraps in its `uint16_t`, `memcpy` would overrun the buffer. The model requires that the 16-bit total does not wrap (`PayloadFits`).
- Self-search idempotence: the system's design says that re-running discovery after a configuration was committed does not re-probe. The code has no such guard: `runSelfSearchForDevice` always polls and applies candidates again. The model follows the code.
- The bit-fields `ihl` and `version` are modelled as taking the low 4 bits of the 8-bit constants.
- The `%u` conversions of `sscanf` are modelled as glibc on a 64-bit host converts it: leading white space and a sign are accepted, the digits go through `strtoul` (ULONG_MAX when they overflow 64 bits, negated after a minus sign), and the low 32 bits are stored. The C standard leaves an out-of-range number undefined; the model takes glibc's result.
- In packetSend/packet_send.hpp:116-117, the checksum call builds a `std::span` from a lone pointer and passes it where the free `computeChecksum(void* buf, int len)` (packetSend/packet_send.hpp:159) expects a pointer, so it does not compile. The model computes that checksum over the 20 header bytes, as the other sender does.
- The senders' addresses and ports are `Endpoint` values: four address bytes and two port numbers per device. `inet_addr` on the device's address text (packetSend/packet_send.hpp:112-113, 145; packet_send/packet_send.hpp:64-65) is not modelled; for text it cannot parse it returns INADDR_NONE, 255.255.255.255, which the model takes only when given those bytes. `getSourceIpAddress`, `getSourcePort`, `getDestPort` and `getSocketFd` are not declared in EthDevice/EthDevice.hpp; the model reads the corresponding `Endpoint` fields, and the socket is left out.
- The role sender holds its input queue by value (`threadSafeQueue<T> toTunnelQueue_`, packetSend/packet_send.hpp:39), and the tunnel transmitter copies both queues it is given (tunnel_transmitter_process/tunnel_transmitter_process.hpp:18-19, 27-28). The copies would share nothing with the callers' queues. The model treats them as the shared queues the constructors are given.

## Findings

| source | as written | input that shows it | evidently intended | confidence | as-written member | corrected member |
|---|---|---|---|---|---|---|
| packetRouter/packet_router.hpp:108-114 | each address is loaded, passed through `ntohl`, and the host-order value is given to `inet_ntop`, which prints the bytes in reverse on a little-endian host | a frame from the tunnel peer 10.0.0.9 to the tunnel device 10.0.0.1 yields "9.0.0.10" and "1.0.0.10", so it goes to processQueue instead of fromTunnelQueue | `inet_ntop` on the address bytes as they lie in the frame, which gives "10.0.0.9" | high; not executed | ConfiguredRouter.TunnelFrameMissedAsWritten | ConfiguredRouter.TunnelFrameByAddress |
| packet_router/packet_router.hpp:86-92 | the same `ntohl` before `inet_ntop` | a frame carrying 192.168.1.1 as both addresses is parsed as "1.1.168.192" twice, so isFromTunnel falls off its end instead of returning true (a frame from 10.0.0.9 likewise gets srcIP "9.0.0.10") | the dotted quad of the bytes in frame order, so that a datagram the sender built parses back to its own addresses | high; not executed | FixedRouter.TunnelPairMissedAsWritten | FixedRouter.RouterReadsSentDatagram |
