/** The Internet checksum of RFC 1071 as the gateway computes it: 16-bit words
    loaded natively (little-endian host), a 32-bit accumulator, an end-around
    carry fold and a one's complement. The three copies in the source differ
    only in how an odd trailing byte enters the sum, captured by OddByte. */
module Checksum {
  import opened Bytes

  /** How a copy of the checksum adds an odd trailing byte. */
  datatype OddByte =
    | PlainValue   // `sum += *(uint8_t*)data`: the byte as is, in the low half
    | HighHalf     // `sum += (uint16_t)(back() << 8)`: the byte in the high half

  /** The i-th 16-bit word of s as a native load reads it. */
  function HostWord(s: seq<uint8>, i: nat): uint16
    requires 2 * i + 1 < |s|
  {
    ReadLittleEndian16(s, 2 * i)
  }

  /** Unbounded sum of the first n words of s. */
  function WordSum(s: seq<uint8>, n: nat): nat
    requires 2 * n <= |s|
    decreases n
  {
    if n == 0 then 0 else WordSum(s, n - 1) + HostWord(s, n - 1)
  }

  /** What the odd trailing byte, if any, adds to the sum. */
  function TrailingWord(s: seq<uint8>, odd: OddByte): nat
  {
    if |s| % 2 == 0 then 0
    else match odd
      case PlainValue => s[|s| - 1]
      case HighHalf => s[|s| - 1] as int * 0x100
  }

  /** The 32-bit accumulator after the summing loop (it wraps modulo 2^32). */
  function Accumulated(s: seq<uint8>, odd: OddByte): uint32
  {
    (WordSum(s, |s| / 2) + TrailingWord(s, odd)) % TWO_TO_THE_32
  }

  /** `while (sum >> 16) sum = (sum & 0xFFFF) + (sum >> 16);` — the fold keeps
      the value modulo 0xFFFF and is zero only for zero. */
  function Fold(x: nat): (r: uint16)
    ensures r % 0xFFFF == x % 0xFFFF
    ensures r == 0 <==> x == 0
    decreases x
  {
    if x < TWO_TO_THE_16 then x
    else
      FoldStep(x);
      Fold(x % TWO_TO_THE_16 + x / TWO_TO_THE_16)
  }

  /** One round of the fold makes the value smaller, keeps it non-zero and
      keeps it modulo 0xFFFF, since 2^16 is 1 modulo 0xFFFF. */
  lemma FoldStep(x: nat)
    requires x >= TWO_TO_THE_16
    ensures var next := x % TWO_TO_THE_16 + x / TWO_TO_THE_16;
            0 < next < x && next % 0xFFFF == x % 0xFFFF
  {
    var q, m := x / TWO_TO_THE_16, x % TWO_TO_THE_16;
    assert x == q * TWO_TO_THE_16 + m;
    assert x == (m + q) + q * 0xFFFF;
    MultipleOfModulus(m + q, q);
  }

  /** Adding a multiple of 0xFFFF does not change the value modulo 0xFFFF. */
  lemma MultipleOfModulus(a: nat, q: nat)
    ensures (a + q * 0xFFFF) % 0xFFFF == a % 0xFFFF
  {
  }

  /** The checksum the source returns: `~sum` truncated to 16 bits. */
  function InternetChecksum(s: seq<uint8>, odd: OddByte): uint16
  {
    0xFFFF - Fold(Accumulated(s, odd))
  }

  /** The bytes of s with the 16-bit word at word index k replaced by v,
      stored natively. */
  function StoreWord(s: seq<uint8>, k: nat, v: uint16): (r: seq<uint8>)
    requires 2 * k + 1 < |s|
    ensures |r| == |s| && HostWord(r, k) == v
    ensures forall i :: 0 <= i < |s| && i != 2 * k && i != 2 * k + 1 ==> r[i] == s[i]
  {
    s[2 * k := v % 0x100][2 * k + 1 := v / 0x100]
  }

  lemma {:induction false} WordSumBound(s: seq<uint8>, n: nat)
    requires 2 * n <= |s|
    ensures WordSum(s, n) <= n * 0xFFFF
  {
    if n > 0 {
      WordSumBound(s, n - 1);
    }
  }

  /** Replacing one word changes the sum by exactly the difference of the
      two word values. */
  lemma {:induction false} WordSumStore(s: seq<uint8>, k: nat, v: uint16, n: nat)
    requires 2 * k + 1 < |s| && 2 * n <= |s|
    ensures k < n ==> WordSum(StoreWord(s, k, v), n) == WordSum(s, n) - HostWord(s, k) + v
    ensures k >= n ==> WordSum(StoreWord(s, k, v), n) == WordSum(s, n)
  {
    var r := StoreWord(s, k, v);
    if n > 0 {
      WordSumStore(s, k, v, n - 1);
      if n - 1 != k {
        assert HostWord(r, n - 1) == HostWord(s, n - 1);
      }
    }
  }

  /** RFC 1071, section 1: sum a buffer whose checksum word is zero, store the
      complemented sum into that word, and the re-computed sum folds to all
      ones, so the re-computed checksum is zero. Holds for both odd-byte
      conventions since the buffer has even length. */
  lemma ChecksumVerifies(s: seq<uint8>, k: nat, odd: OddByte)
    requires |s| % 2 == 0 && |s| < 0x2_0000
    requires 2 * k + 1 < |s| && HostWord(s, k) == 0
    ensures var sealed := StoreWord(s, k, InternetChecksum(s, odd));
            Fold(Accumulated(sealed, odd)) == 0xFFFF &&
            InternetChecksum(sealed, odd) == 0
  {
    var n := |s| / 2;
    var total := WordSum(s, n);
    AccumulatedOfEven(s, odd);
    var c := InternetChecksum(s, odd);
    var sealed := StoreWord(s, k, c);
    WordSumStore(s, k, c, n);
    AccumulatedOfEven(sealed, odd);
    assert Accumulated(sealed, odd) == total + c;
    ResumFoldsToAllOnes(total);
  }

  /** For an even length below 2^17 there is no odd byte and the 32-bit
      accumulator does not wrap. */
  lemma AccumulatedOfEven(s: seq<uint8>, odd: OddByte)
    requires |s| % 2 == 0 && |s| < 0x2_0000
    ensures Accumulated(s, odd) == WordSum(s, |s| / 2)
  {
    WordSumBound(s, |s| / 2);
    assert |s| / 2 * 0xFFFF < TWO_TO_THE_32;
  }

  /** The arithmetic core of the verification rule: adding the complement of
      the folded sum to the sum gives a value that folds to all ones. */
  lemma ResumFoldsToAllOnes(total: nat)
    ensures Fold(total + (0xFFFF - Fold(total))) == 0xFFFF
  {
    var f := Fold(total);
    var total' := total + (0xFFFF - f);
    SameResidueDifference(total, f);
    assert total' != 0 by {
      assert f == 0 ==> total == 0;
    }
    OnlyNonZeroWordMultiple(Fold(total'));
  }

  /** 0xFFFF is the only non-zero 16-bit multiple of 0xFFFF. */
  lemma OnlyNonZeroWordMultiple(g: uint16)
    requires g % 0xFFFF == 0 && g != 0
    ensures g == 0xFFFF
  {
  }

  /** Two values with the same residue modulo 0xFFFF differ by a multiple
      of 0xFFFF. */
  lemma SameResidueDifference(a: nat, b: nat)
    requires a % 0xFFFF == b % 0xFFFF && b <= 0xFFFF
    ensures (a + (0xFFFF - b)) % 0xFFFF == 0
  {
    var qa, qb := a / 0xFFFF, b / 0xFFFF;
    assert a == qa * 0xFFFF + a % 0xFFFF;
    assert b == qb * 0xFFFF + a % 0xFFFF;
    assert a + (0xFFFF - b) == (qa - qb + 1) * 0xFFFF;
  }

  /** The revisions agree on every even-length buffer; the IPv4 header the
      senders checksum is 20 bytes long. */
  lemma OddByteIrrelevantOnEvenLength(s: seq<uint8>)
    requires |s| % 2 == 0
    ensures InternetChecksum(s, PlainValue) == InternetChecksum(s, HighHalf)
  {
  }

  /** On a one-byte buffer the two conventions give different checksums. */
  lemma OddByteConventionsDiffer()
    ensures InternetChecksum([1], PlainValue) == 0xFFFE
    ensures InternetChecksum([1], HighHalf) == 0xFEFF
  {
  }

  /** Adding to a 32-bit accumulator that has already wrapped gives the same
      value as adding first and wrapping once. */
  lemma AddModulo(total: nat, w: nat)
    ensures (total % TWO_TO_THE_32 + w) % TWO_TO_THE_32 == (total + w) % TWO_TO_THE_32
  {
  }

  /** The end-around-carry loop shared by the three copies of the checksum. */
  method FoldCarries(sum: uint32) returns (r: uint16)
    ensures r == Fold(sum)
  {
    var s: int := sum;
    while s >= TWO_TO_THE_16
      invariant 0 <= s < TWO_TO_THE_32 && Fold(s) == Fold(sum)
      decreases s
    {
      s := s % TWO_TO_THE_16 + s / TWO_TO_THE_16;
    }
    r := s;
  }
}
