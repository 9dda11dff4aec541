/** One physical Ethernet port (EthDevice): its name, the addressing fields
    that normal-mode configuration or self-search write into it, and its
    role. The netlink/ioctl calls that push these fields into the kernel are
    outside the model; what remains is the field updates, the role parser,
    the subnet-mask-to-prefix conversion of setSelfIP, the JSON defaults and
    the device's copy of the Internet checksum. */
module EthDevice {
  import opened Bytes
  import opened DottedQuad
  import opened Checksum

  datatype Role = Source1 | Source2 | Source3 | Tunnel

  /** parseRole: exact, case-sensitive match of the four names; anything
      else is SOURCE1. */
  function ParseRole(roleStr: string): (r: Role)
    ensures r == Source2 <==> roleStr == "source2"
    ensures r == Source3 <==> roleStr == "source3"
    ensures r == Tunnel <==> roleStr == "tunnel"
    ensures r == Source1 <==> roleStr !in {"source2", "source3", "tunnel"}
  {
    if roleStr == "source1" then Source1
    else if roleStr == "source2" then Source2
    else if roleStr == "source3" then Source3
    else if roleStr == "tunnel" then Tunnel
    else Source1
  }

  /** The configuration-file spelling of each role. */
  function RoleName(r: Role): string
  {
    match r
    case Source1 => "source1"
    case Source2 => "source2"
    case Source3 => "source3"
    case Tunnel => "tunnel"
  }

  lemma ParseRoleName(r: Role)
    ensures ParseRole(RoleName(r)) == r
  {
  }

  /** Unknown spellings, the empty string and other capitalisations fall
      back to SOURCE1. */
  lemma ParseRoleDefaults()
    ensures ParseRole("") == Source1
    ensures ParseRole("Tunnel") == Source1
    ensures ParseRole("SOURCE2") == Source1
  {
  }

  /** `EthDevice::Role(i)`: the enumerator with underlying value i. */
  function RoleFromIndex(i: nat): (r: Role)
    requires i < 4
    ensures RoleIndex(r) == i
  {
    if i == 0 then Source1 else if i == 1 then Source2 else if i == 2 then Source3 else Tunnel
  }

  /** The underlying value of an enumerator, in declaration order. */
  function RoleIndex(r: Role): nat
  {
    match r
    case Source1 => 0
    case Source2 => 1
    case Source3 => 2
    case Tunnel => 3
  }

  /** One entry of the self-search list (SelfSearchConfig). */
  datatype SelfSearchConfig = SelfSearchConfig(
    selfIp: string,
    ipToPing: string,
    destIpAddress: string,
    defaultGateway: string,
    subnetMask: string,
    remoteIp: string,
    remoteIpDestination: string,
    role: string)

  /** The addressing fields and role of a device, as one value. */
  datatype Addressing = Addressing(
    ipAddress: string,
    destIpAddress: string,
    defaultGateway: string,
    subnetMask: string,
    remoteIp: string,
    remoteIpDestination: string,
    role: Role)

  /** The addressing a device holds after a self-search candidate has been
      applied to it; nothing of its previous addressing survives. */
  function FromCandidate(config: SelfSearchConfig): Addressing
  {
    Addressing(config.selfIp, config.destIpAddress, config.defaultGateway,
               config.subnetMask, config.remoteIp, config.remoteIpDestination,
               ParseRole(config.role))
  }

  /** An address with a prefix length, "ip/prefix". */
  datatype Cidr = Cidr(address: string, prefix: nat)

  /** What applySettings asks of the kernel for one device. */
  datatype LinkRequest = BringLinkUp | SetMtu(mtu: nat) | AddAddress(cidr: Cidr) | SetInterfaceSpeed

  const NORMAL_MODE_MTU: nat := 1500
  const VIRTUAL_IP: Cidr := Cidr("192.168.1.101", 24)
  const DEFAULT_SUBNET_MASK: string := "255.255.255.0"

  /** What normal mode asks of the kernel for one port: the link is brought
      up before anything else, the MTU is set to 1500 before the virtual
      address is added, the interface speed is set last, and no request is
      made twice. */
  predicate NormalModeRequests(requests: seq<LinkRequest>)
  {
    |requests| == 4 &&
    requests[0] == BringLinkUp &&
    (exists i, j :: 0 < i < j < 3 && requests[i] == SetMtu(NORMAL_MODE_MTU) && requests[j] == AddAddress(VIRTUAL_IP)) &&
    requests[3] == SetInterfaceSpeed &&
    forall i, j :: 0 <= i < j < |requests| ==> requests[i] != requests[j]
  }

  /** Value of `key` in a JSON object of strings, or `default` when absent
      (nlohmann's `j.value(key, default)`). */
  function JsonValue(j: map<string, string>, key: string, default: string): string
  {
    if key in j then j[key] else default
  }

  // ---------------------------------------------------------------------
  // Subnet mask to prefix length (setSelfIP)
  // ---------------------------------------------------------------------

  /** Bit j of m (bit 31 is the most significant). */
  predicate BitSet(m: bv32, j: bv32)
    requires j < 32
  {
    (m >> j) & 1 == 1
  }

  /** k is the number of leading one bits of m: bits 31 down to 32-k are set
      and, unless all 32 are, bit 31-k is clear. */
  ghost predicate IsLeadingOnes(m: bv32, k: bv32)
  {
    k <= 32 &&
    (forall j: bv32 :: 32 - k <= j < 32 ==> BitSet(m, j)) &&
    (k < 32 ==> !BitSet(m, 31 - k))
  }

  lemma LeadingOnesUnique(m: bv32, k1: bv32, k2: bv32)
    requires IsLeadingOnes(m, k1) && IsLeadingOnes(m, k2)
    ensures k1 == k2
  {
  }

  /** `(a << 24) | (b << 16) | (c << 8) | d` on 32-bit unsigned values:
      for four byte-sized numbers, the address they spell in network order. */
  function MaskOf(q: Quad): (m: bv32)
    ensures q.a < 0x100 && q.b < 0x100 && q.c < 0x100 && q.d < 0x100 ==>
            m == ((q.a as bv32 * 0x100 + q.b as bv32) * 0x100 + q.c as bv32) * 0x100 + q.d as bv32
  {
    (q.a as bv32 << 24) | (q.b as bv32 << 16) | (q.c as bv32 << 8) | q.d as bv32
  }

  /** The contiguous mask with p leading ones. */
  function PrefixMask(p: bv32): bv32
    requires p <= 32
  {
    if p == 0 then 0 else 0xFFFF_FFFF << (32 - p)
  }

  /** The prefix length of a contiguous mask is its number of ones. */
  lemma PrefixMaskLeadingOnes(p: bv32)
    requires p <= 32
    ensures IsLeadingOnes(PrefixMask(p), p)
  {
  }

  /** Only the leading run counts: bits below the first zero do not change
      the prefix length. */
  lemma LeadingRunOnly(p: bv32, low: bv32)
    requires p < 32 && low & PrefixMask(p + 1) == 0
    ensures IsLeadingOnes(PrefixMask(p) | low, p)
  {
  }

  /** "255.255.255.0" gives 24. */
  lemma SlashTwentyFourMask()
    ensures IsLeadingOnes(MaskOf(Quad(255, 255, 255, 0)), 24)
  {
    assert MaskOf(Quad(255, 255, 255, 0)) == 0xFFFF_FF00 == PrefixMask(24);
    PrefixMaskLeadingOnes(24);
  }

  /** The non-contiguous "255.0.255.0" gives 8: only the leading run of ones
      is counted. */
  lemma NonContiguousMask()
    ensures IsLeadingOnes(MaskOf(Quad(255, 0, 255, 0)), 8)
  {
    assert MaskOf(Quad(255, 0, 255, 0)) == 0xFF00_FF00 == PrefixMask(8) | 0x0000_FF00;
    LeadingRunOnly(8, 0x0000_FF00);
  }

  /** The prefix loop of setSelfIP: shift the mask left while its top bit is
      set, counting the shifts (the counter is a 32-bit int). */
  method PrefixLength(mask: bv32) returns (prefix: bv32)
    ensures IsLeadingOnes(mask, prefix)
  {
    var m := mask;
    prefix := 0;
    while m & 0x8000_0000 != 0
      invariant prefix <= 32 && m == mask << prefix
      invariant forall j: bv32 :: 32 - prefix <= j < 32 ==> BitSet(mask, j)
      decreases 32 - prefix
    {
      prefix := prefix + 1;
      m := m << 1;
    }
  }

  // ---------------------------------------------------------------------
  // compute_checksum
  // ---------------------------------------------------------------------

  /** compute_checksum: 16-bit words read through `uint16_t*`, an odd trailing byte
      added as its plain value, fold, complement. */
  method ComputeChecksum(buf: seq<uint8>) returns (r: uint16)
    ensures r == InternetChecksum(buf, PlainValue)
  {
    var sum: int := 0;
    var len := |buf|;
    var data := 0;  // word index that `data` has reached
    while len > 1
      invariant 0 <= len <= |buf| && len + 2 * data == |buf|
      invariant sum == WordSum(buf, data) % TWO_TO_THE_32
      decreases len
    {
      AddModulo(WordSum(buf, data), HostWord(buf, data));
      sum := (sum + HostWord(buf, data)) % TWO_TO_THE_32;
      data := data + 1;
      len := len - 2;
    }
    assert data == |buf| / 2;
    if len != 0 {
      AddModulo(WordSum(buf, data), buf[2 * data]);
      sum := (sum + buf[2 * data]) % TWO_TO_THE_32;
    }
    assert sum == Accumulated(buf, PlainValue);
    r := FoldCarries(sum);
    r := 0xFFFF - r;
  }

  // ---------------------------------------------------------------------
  // The device
  // ---------------------------------------------------------------------

  class EthDevice {
    var name: string
    var ipAddress: string
    var destIpAddress: string
    var defaultGateway: string
    var subnetMask: string
    var remoteIp: string
    var remoteIpDestination: string
    var role: Role

    /** The addressing fields and role as one value. */
    function Settings(): Addressing
      reads this
    {
      Addressing(ipAddress, destIpAddress, defaultGateway, subnetMask,
                 remoteIp, remoteIpDestination, role)
    }

    /** `EthDevice(name)`: the given name, role SOURCE1, empty addressing. */
    constructor (deviceName: string)
      ensures name == deviceName
      ensures Settings() == Addressing("", "", "", "", "", "", Source1)
    {
      name := deviceName;
      ipAddress, destIpAddress, defaultGateway := "", "", "";
      subnetMask, remoteIp, remoteIpDestination := "", "", "";
      role := Source1;
    }

    /** applySelfSearchConfig: copy the candidate's addressing and parsed
        role into the device, keep the name, then program the address
        (setSelfIP, returned here) and gateway. */
    method ApplySelfSearchConfig(config: SelfSearchConfig) returns (programmed: Option<Cidr>)
      modifies this
      ensures name == old(name)
      ensures ipAddress == config.selfIp && destIpAddress == config.destIpAddress
      ensures defaultGateway == config.defaultGateway && subnetMask == config.subnetMask
      ensures remoteIp == config.remoteIp && remoteIpDestination == config.remoteIpDestination
      ensures role == ParseRole(config.role)
      ensures Settings() == FromCandidate(config)
      ensures programmed == None <==> (config.selfIp == "" || config.subnetMask == "" ||
                                      ParseQuad(config.subnetMask).None?)
    {
      ipAddress := config.selfIp;
      destIpAddress := config.destIpAddress;
      defaultGateway := config.defaultGateway;
      subnetMask := config.subnetMask;
      remoteIp := config.remoteIp;
      remoteIpDestination := config.remoteIpDestination;
      role := ParseRole(config.role);
      programmed := SetSelfIP();
    }

    /** setSelfIP, up to the netlink call: nothing when the address or mask
        is empty or the mask is not four numbers; otherwise the address with
        the number of leading ones of the mask as prefix length. */
    method SetSelfIP() returns (cidr: Option<Cidr>)
      ensures cidr == None <==> (ipAddress == "" || subnetMask == "" || ParseQuad(subnetMask).None?)
      ensures cidr.Some? ==> cidr.value.address == ipAddress && cidr.value.prefix <= 32 &&
                             IsLeadingOnes(MaskOf(ParseQuad(subnetMask).value), cidr.value.prefix as bv32)
    {
      if |ipAddress| == 0 || |subnetMask| == 0 {
        return None;
      }
      var parsed := ParseQuad(subnetMask);
      if parsed.None? {
        return None;
      }
      var prefix := PrefixLength(MaskOf(parsed.value));
      cidr := Some(Cidr(ipAddress, prefix as nat));
    }

    /** from_json: each field from its key, "" when absent, except the mask
        ("255.255.255.0") and the role ("source1"); the name is untouched. */
    method FromJson(j: map<string, string>)
      modifies this
      ensures name == old(name)
      ensures ipAddress == JsonValue(j, "ipAddress", "")
      ensures destIpAddress == JsonValue(j, "DestIpAddress", "")
      ensures defaultGateway == JsonValue(j, "DefaultGateway", "")
      ensures subnetMask == JsonValue(j, "SubnetMask", DEFAULT_SUBNET_MASK)
      ensures remoteIp == JsonValue(j, "RemoteIp", "")
      ensures remoteIpDestination == JsonValue(j, "RemoteIpDestination", "")
      ensures role == ParseRole(JsonValue(j, "role", "source1"))
    {
      ipAddress := JsonValue(j, "ipAddress", "");
      destIpAddress := JsonValue(j, "DestIpAddress", "");
      defaultGateway := JsonValue(j, "DefaultGateway", "");
      subnetMask := JsonValue(j, "SubnetMask", DEFAULT_SUBNET_MASK);
      remoteIp := JsonValue(j, "RemoteIp", "");
      remoteIpDestination := JsonValue(j, "RemoteIpDestination", "");
      var roleStr := JsonValue(j, "role", "source1");
      role := ParseRole(roleStr);
    }

    /** applySettings (normal mode): the requests made of the kernel, in
        the order NormalModeRequests states; the device's own fields do not
        change. */
    method ApplySettings() returns (requests: seq<LinkRequest>)
      ensures NormalModeRequests(requests)
    {
      requests := [BringLinkUp, SetMtu(NORMAL_MODE_MTU), AddAddress(VIRTUAL_IP), SetInterfaceSpeed];
      assert requests[1] == SetMtu(NORMAL_MODE_MTU) && requests[2] == AddAddress(VIRTUAL_IP);
    }
  }

  /** The virtual address normal mode adds is 192.168.1.101 with the
      prefix length setSelfIP derives from the default mask. */
  lemma VirtualIpOnDefaultSubnet()
    ensures ParseQuad(VIRTUAL_IP.address) == Some(Quad(192, 168, 1, 101))
    ensures ParseQuad(DEFAULT_SUBNET_MASK).Some?
    ensures IsLeadingOnes(MaskOf(ParseQuad(DEFAULT_SUBNET_MASK).value), 24) && VIRTUAL_IP.prefix == 24
  {
    VirtualAddressText();
    ParseFormatQuad([192, 168, 1, 101]);
    DefaultMaskIsSlash24();
  }

  lemma VirtualAddressText()
    ensures FormatQuad([192, 168, 1, 101]) == VIRTUAL_IP.address
  {
    assert FormatDecimal(192) == "192" && FormatDecimal(168) == "168";
    assert FormatDecimal(1) == "1" && FormatDecimal(101) == "101";
  }

  /** `%u` skips leading white space: a mask written with a leading blank
      is still a /24. */
  lemma SpacedMaskPrefix()
    ensures ParseQuad(" 255.255.255.0").Some?
    ensures IsLeadingOnes(MaskOf(ParseQuad(" 255.255.255.0").value), 24)
  {
    SpacedMaskParses();
    SlashTwentyFourMask();
  }

  /** An empty JSON object gives an empty device on the default /24 mask,
      role SOURCE1. */
  lemma FromJsonDefaults()
    ensures JsonValue(map[], "SubnetMask", DEFAULT_SUBNET_MASK) == "255.255.255.0"
    ensures ParseRole(JsonValue(map[], "role", "source1")) == Source1
    ensures JsonValue(map[], "ipAddress", "") == ""
  {
  }

  /** The default mask is a /24. */
  lemma DefaultMaskIsSlash24()
    ensures ParseQuad(DEFAULT_SUBNET_MASK).Some?
    ensures IsLeadingOnes(MaskOf(ParseQuad(DEFAULT_SUBNET_MASK).value), 24)
  {
    DefaultMaskParses();
    SlashTwentyFourMask();
  }
}
