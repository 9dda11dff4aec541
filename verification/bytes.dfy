/** Fixed-width unsigned integers as ranges of int, an Option type, and the
    two byte orders the gateway writes: network order (htons) and the native
    order of its little-endian host. */
module Bytes {

  type uint8 = x: int | 0 <= x < 0x100
  type uint16 = x: int | 0 <= x < 0x1_0000
  type uint32 = x: int | 0 <= x < 0x1_0000_0000

  const TWO_TO_THE_16: int := 0x1_0000
  const TWO_TO_THE_32: int := 0x1_0000_0000

  datatype Option<T> = None | Some(value: T)

  /** The two bytes `htons(v)` stores: most significant byte first. */
  function BigEndian16(v: uint16): (bs: seq<uint8>)
    ensures |bs| == 2 && bs[0] as int * 0x100 + bs[1] == v
  {
    [v / 0x100, v % 0x100]
  }

  /** The value `ntohs` reads from the two bytes at offset i. */
  function ReadBigEndian16(bs: seq<uint8>, i: nat): uint16
    requires i + 2 <= |bs|
  {
    bs[i] as int * 0x100 + bs[i + 1]
  }

  /** The two bytes a native 16-bit store writes on a little-endian host. */
  function LittleEndian16(v: uint16): (bs: seq<uint8>)
    ensures |bs| == 2 && bs[0] + bs[1] as int * 0x100 == v
  {
    [v % 0x100, v / 0x100]
  }

  /** The value a native 16-bit load reads from offset i on a little-endian host. */
  function ReadLittleEndian16(bs: seq<uint8>, i: nat): uint16
    requires i + 2 <= |bs|
  {
    bs[i] + bs[i + 1] as int * 0x100
  }

  lemma BigEndian16RoundTrip(v: uint16, rest: seq<uint8>)
    ensures ReadBigEndian16(BigEndian16(v) + rest, 0) == v
  {
  }

  lemma LittleEndian16RoundTrip(v: uint16, rest: seq<uint8>)
    ensures ReadLittleEndian16(LittleEndian16(v) + rest, 0) == v
  {
  }
}
