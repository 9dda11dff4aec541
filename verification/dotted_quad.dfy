/** Dotted-decimal IPv4 text. The gateway reads it with
    `sscanf(s, "%u.%u.%u.%u", ...)` (the subnet mask of a device) and writes it
    with `inet_ntop` (the addresses the routers extract from a frame). Parsing
    the formatted text of four bytes gives the four bytes back, so two
    formatted addresses are equal exactly when the bytes are. */
module DottedQuad {
  import opened Bytes

  /** The four unsigned ints `sscanf` stores. */
  datatype Quad = Quad(a: uint32, b: uint32, c: uint32, d: uint32)

  const TWO_TO_THE_64: int := 0x1_0000_0000_0000_0000

  predicate IsDigit(c: char) {
    '0' <= c <= '9'
  }

  /** The white-space characters of the C locale: space, \t, \n, \v, \f, \r. */
  predicate IsSpace(c: char) {
    c == ' ' || '\t' <= c <= '\r'
  }

  predicate AllDigits(s: string) {
    forall i :: 0 <= i < |s| ==> IsDigit(s[i])
  }

  /** Length of the run of decimal digits at the front of s. */
  function DigitSpan(s: string): (n: nat)
    ensures n <= |s| && AllDigits(s[..n])
    ensures n < |s| ==> !IsDigit(s[n])
  {
    if |s| == 0 || !IsDigit(s[0]) then 0
    else
      var n := 1 + DigitSpan(s[1..]);
      assert s[..n] == [s[0]] + s[1..][..n - 1];
      n
  }

  /** Length of the run of white space at the front of s. */
  function SpaceSpan(s: string): (n: nat)
    ensures n <= |s| && (n < |s| ==> !IsSpace(s[n]))
  {
    if |s| == 0 || !IsSpace(s[0]) then 0 else 1 + SpaceSpan(s[1..])
  }

  /** Value of a string of decimal digits, most significant first. */
  function DecimalValue(ds: string): nat
    requires AllDigits(ds)
  {
    if |ds| == 0 then 0
    else DecimalValue(ds[..|ds| - 1]) * 10 + (ds[|ds| - 1] as int - '0' as int)
  }

  /** The unsigned int a `%u` conversion stores for the digits of value m,
      with or without a minus sign: glibc converts with `strtoul` on a 64-bit
      host (ULONG_MAX when m does not fit in 64 bits, the 64-bit negation
      after a minus sign) and keeps the low 32 bits. */
  function Converted(m: nat, negative: bool): (v: uint32)
    ensures m < TWO_TO_THE_32 && !negative ==> v == m
    ensures 0 < m < TWO_TO_THE_32 && negative ==> v == TWO_TO_THE_32 - m
  {
    if m >= TWO_TO_THE_64 then TWO_TO_THE_32 - 1
    else if negative then (TWO_TO_THE_64 - m) % TWO_TO_THE_32
    else m % TWO_TO_THE_32
  }

  /** A digit, or a sign followed by a digit. */
  predicate StartsNumber(t: string) {
    |t| > 0 && (IsDigit(t[0]) || ((t[0] == '-' || t[0] == '+') && |t| > 1 && IsDigit(t[1])))
  }

  /** One `%u` conversion: white space is skipped, then an optional sign,
      then at least one digit; the digits end at the first non-digit, which
      is where the rest of the text begins. */
  function ParseUnsigned(s: string): (r: Option<(uint32, string)>)
    ensures r.Some? ==> |r.value.1| < |s|
    ensures r.Some? ==> r.value.1 == [] || !IsDigit(r.value.1[0])
  {
    var t := s[SpaceSpan(s)..];
    var negative := |t| > 0 && t[0] == '-';
    var u := if |t| > 0 && (t[0] == '-' || t[0] == '+') then t[1..] else t;
    var n := DigitSpan(u);
    if n == 0 then None
    else Some((Converted(DecimalValue(u[..n]), negative), u[n..]))
  }

  /** A `%u` conversion succeeds exactly when, after the white space it
      skips, the text starts with a digit or with a sign and a digit. */
  lemma ParseUnsignedSucceeds(s: string)
    ensures ParseUnsigned(s).Some? <==> StartsNumber(s[SpaceSpan(s)..])
  {
    var t := s[SpaceSpan(s)..];
    if |t| > 0 && (t[0] == '-' || t[0] == '+') {
      assert |t[1..]| > 0 ==> t[1..][0] == t[1];
    }
  }

  /** A literal '.' in the format (matched as is, with no white space
      before it), then one `%u` conversion. */
  function ParseDotUnsigned(s: string): (r: Option<(uint32, string)>)
    ensures r.Some? ==> |r.value.1| + 1 < |s|
  {
    if |s| > 0 && s[0] == '.' then ParseUnsigned(s[1..]) else None
  }

  /** `sscanf(s, "%u.%u.%u.%u", &a, &b, &c, &d) == 4`: Some of the four
      stored numbers when all four conversions succeed, None when fewer do;
      text after the fourth number is ignored. The shortest text that
      parses, "0.0.0.0", has seven characters. */
  function ParseQuad(s: string): (r: Option<Quad>)
    ensures r.Some? ==> |s| >= 7
  {
    var p1 := ParseUnsigned(s);
    if p1.None? then None else
    var p2 := ParseDotUnsigned(p1.value.1);
    if p2.None? then None else
    var p3 := ParseDotUnsigned(p2.value.1);
    if p3.None? then None else
    var p4 := ParseDotUnsigned(p3.value.1);
    if p4.None? then None else
    Some(Quad(p1.value.0, p2.value.0, p3.value.0, p4.value.0))
  }

  function DigitChar(d: nat): (c: char)
    requires d < 10
    ensures IsDigit(c) && c as int - '0' as int == d
  {
    ('0' as int + d) as char
  }

  /** Shortest decimal text of n, as `%u` prints it. */
  function FormatDecimal(n: nat): (s: string)
    ensures |s| > 0 && AllDigits(s)
    ensures n < 10 ==> |s| == 1
    ensures n < 100 ==> |s| <= 2
    ensures n < 1000 ==> |s| <= 3
  {
    if n < 10 then [DigitChar(n)] else FormatDecimal(n / 10) + [DigitChar(n % 10)]
  }

  /** What `inet_ntop(AF_INET, ...)` writes for the four bytes of an address
      in memory order: at most 15 characters, so it fits the
      INET_ADDRSTRLEN (16) buffer with its terminating NUL. */
  function FormatQuad(bs: seq<uint8>): (s: string)
    requires |bs| == 4
    ensures 7 <= |s| <= 15
  {
    FormatDecimal(bs[0]) + "." + FormatDecimal(bs[1]) + "." +
    FormatDecimal(bs[2]) + "." + FormatDecimal(bs[3])
  }

  lemma {:induction false} DecimalValueOfFormat(n: nat)
    ensures DecimalValue(FormatDecimal(n)) == n
  {
    if n >= 10 {
      var f := FormatDecimal(n / 10);
      var s := f + [DigitChar(n % 10)];
      assert s[..|s| - 1] == f;
      DecimalValueOfFormat(n / 10);
    }
  }

  lemma {:induction false} DigitSpanOfDigits(ds: string, rest: string)
    requires AllDigits(ds)
    requires rest == [] || !IsDigit(rest[0])
    ensures DigitSpan(ds + rest) == |ds|
  {
    if |ds| > 0 {
      assert (ds + rest)[1..] == ds[1..] + rest;
      DigitSpanOfDigits(ds[1..], rest);
    }
  }

  /** A `%u` conversion reads back exactly the number printed before a
      non-digit. */
  lemma ParseUnsignedOfFormat(n: uint32, rest: string)
    requires rest == [] || !IsDigit(rest[0])
    ensures ParseUnsigned(FormatDecimal(n) + rest) == Some((n, rest))
  {
    var f := FormatDecimal(n);
    assert IsDigit((f + rest)[0]);
    assert SpaceSpan(f + rest) == 0;
    assert (f + rest)[0..] == f + rest;
    DigitSpanOfDigits(f, rest);
    assert (f + rest)[..|f|] == f;
    assert (f + rest)[|f|..] == rest;
    DecimalValueOfFormat(n);
  }

  lemma ParseDotUnsignedOfFormat(n: uint32, rest: string)
    requires rest == [] || !IsDigit(rest[0])
    ensures ParseDotUnsigned("." + (FormatDecimal(n) + rest)) == Some((n, rest))
  {
    ParseUnsignedOfFormat(n, rest);
    DotThenConversion(FormatDecimal(n) + rest);
  }

  lemma DotThenConversion(t: string)
    ensures ParseDotUnsigned("." + t) == ParseUnsigned(t)
  {
    assert ("." + t)[1..] == t;
  }

  /** Round trip: the text `inet_ntop` writes parses back to the same four
      bytes. */
  lemma ParseFormatQuad(bs: seq<uint8>)
    requires |bs| == 4
    ensures ParseQuad(FormatQuad(bs)) == Some(Quad(bs[0], bs[1], bs[2], bs[3]))
  {
    var r3 := "." + (FormatDecimal(bs[3]) + []);
    var r2 := "." + (FormatDecimal(bs[2]) + r3);
    var r1 := "." + (FormatDecimal(bs[1]) + r2);
    var s := FormatDecimal(bs[0]) + r1;
    assert FormatQuad(bs) == s;
    assert ParseUnsigned(s) == Some((bs[0], r1)) by {
      ParseUnsignedOfFormat(bs[0], r1);
    }
    assert ParseDotUnsigned(r1) == Some((bs[1], r2)) by {
      ParseDotUnsignedOfFormat(bs[1], r2);
    }
    assert ParseDotUnsigned(r2) == Some((bs[2], r3)) by {
      ParseDotUnsignedOfFormat(bs[2], r3);
    }
    assert ParseDotUnsigned(r3) == Some((bs[3], [])) by {
      ParseDotUnsignedOfFormat(bs[3], []);
    }
    QuadOfParts(s, r1, r2, r3, [], Quad(bs[0], bs[1], bs[2], bs[3]));
  }

  /** Four successful conversions make a parsed quad. */
  lemma QuadOfParts(s: string, r1: string, r2: string, r3: string, r4: string, q: Quad)
    requires ParseUnsigned(s) == Some((q.a, r1)) && ParseDotUnsigned(r1) == Some((q.b, r2))
    requires ParseDotUnsigned(r2) == Some((q.c, r3)) && ParseDotUnsigned(r3) == Some((q.d, r4))
    ensures ParseQuad(s) == Some(q)
  {
  }

  /** Formatted addresses are equal exactly when their bytes are. */
  lemma FormatQuadInjective(x: seq<uint8>, y: seq<uint8>)
    requires |x| == 4 && |y| == 4
    ensures FormatQuad(x) == FormatQuad(y) <==> x == y
  {
    if FormatQuad(x) == FormatQuad(y) {
      ParseFormatQuad(x);
      ParseFormatQuad(y);
      SameQuadSameBytes(x, y);
    }
  }

  lemma SameQuadSameBytes(x: seq<uint8>, y: seq<uint8>)
    requires |x| == 4 && |y| == 4
    requires Quad(x[0], x[1], x[2], x[3]) == Quad(y[0], y[1], y[2], y[3])
    ensures x == y
  {
    assert x == [x[0], x[1], x[2], x[3]];
    assert y == [y[0], y[1], y[2], y[3]];
  }

  /** The text a router extracts for the address at `offset` of a frame:
      the four bytes in network (wire) order. */
  function AddressText(frame: seq<uint8>, offset: nat): (text: string)
    requires offset + 4 <= |frame|
    ensures 7 <= |text| <= 15
  {
    FormatQuad(frame[offset..offset + 4])
  }

  /** As the routers write it: `ntohl` first, then `inet_ntop` of the host
      value, which on a little-endian host lists the bytes in reverse. The
      numbers are the same, so the text is as long as the corrected one. */
  function AddressTextAsWritten(frame: seq<uint8>, offset: nat): (text: string)
    requires offset + 4 <= |frame|
    ensures 7 <= |text| <= 15 && |text| == |AddressText(frame, offset)|
  {
    FormatQuad([frame[offset + 3], frame[offset + 2], frame[offset + 1], frame[offset]])
  }

  /** The extracted text denotes the address carried in the frame. */
  lemma AddressTextDenotes(frame: seq<uint8>, offset: nat)
    requires offset + 4 <= |frame|
    ensures ParseQuad(AddressText(frame, offset)) ==
            Some(Quad(frame[offset], frame[offset + 1], frame[offset + 2], frame[offset + 3]))
  {
    ParseFormatQuad(frame[offset..offset + 4]);
  }

  /** As written, the text denotes the byte-reversed address. */
  lemma AddressTextAsWrittenReversed(frame: seq<uint8>, offset: nat)
    requires offset + 4 <= |frame|
    ensures ParseQuad(AddressTextAsWritten(frame, offset)) ==
            Some(Quad(frame[offset + 3], frame[offset + 2], frame[offset + 1], frame[offset]))
  {
    ParseFormatQuad([frame[offset + 3], frame[offset + 2], frame[offset + 1], frame[offset]]);
  }

  /** Counterexample: a datagram from 10.0.0.9 (source address at byte 12 of
      its IPv4 header) is reported as coming from "9.0.0.10". */
  lemma AddressTextAsWrittenCounterexample(frame: seq<uint8>)
    requires |frame| >= 16 && frame[12..16] == [10, 0, 0, 9]
    ensures AddressText(frame, 12) == FormatQuad([10, 0, 0, 9])
    ensures AddressTextAsWritten(frame, 12) == FormatQuad([9, 0, 0, 10])
    ensures AddressTextAsWritten(frame, 12) != AddressText(frame, 12)
  {
    FormatQuadInjective([9, 0, 0, 10], [10, 0, 0, 9]);
  }

  /** `%u` skips white space before its number, so leading white space
      does not change what a conversion reads. */
  lemma LeadingSpaceSkipped(c: char, s: string)
    requires IsSpace(c)
    ensures ParseUnsigned([c] + s) == ParseUnsigned(s)
  {
    var cs := [c] + s;
    assert cs[1..] == s;
    assert SpaceSpan(cs) == 1 + SpaceSpan(s);
    assert cs[SpaceSpan(cs)..] == s[SpaceSpan(s)..];
  }

  /** After a minus sign, `%u` stores the 32-bit negation of the number. */
  lemma NegatedConversion(n: uint32, rest: string)
    requires 0 < n && (rest == [] || !IsDigit(rest[0]))
    ensures ParseUnsigned("-" + (FormatDecimal(n) + rest)) == Some((TWO_TO_THE_32 - n, rest))
  {
    SignedDigits(FormatDecimal(n), rest);
    DecimalValueOfFormat(n);
  }

  lemma SignedDigits(ds: string, rest: string)
    requires |ds| > 0 && AllDigits(ds) && (rest == [] || !IsDigit(rest[0]))
    ensures ParseUnsigned("-" + (ds + rest)) == Some((Converted(DecimalValue(ds), true), rest))
  {
    var u := ds + rest;
    SignThenDigits(u);
    DigitSpanOfDigits(ds, rest);
    assert u[..|ds|] == ds && u[|ds|..] == rest;
  }

  /** A minus sign directly before the text u: the conversion reads u's
      digits and negates them. */
  lemma SignThenDigits(u: string)
    ensures var n := DigitSpan(u);
            ParseUnsigned("-" + u) ==
            if n == 0 then None else Some((Converted(DecimalValue(u[..n]), true), u[n..]))
  {
    var s := "-" + u;
    assert SpaceSpan(s) == 0;
    assert s[0..] == s && s[1..] == u;
  }

  /** A mask written with a leading blank is read as without it. */
  lemma SpacedMaskParses()
    ensures ParseQuad(" 255.255.255.0") == Some(Quad(255, 255, 255, 0))
  {
    assert " 255.255.255.0" == [' '] + "255.255.255.0";
    LeadingSpaceSkipped(' ', "255.255.255.0");
    DefaultMaskParses();
  }

  /** "-1.0.0.0" is four conversions, the first storing 0xFFFFFFFF. */
  lemma NegativeOctetParses()
    ensures ParseQuad("-1.0.0.0") == Some(Quad(0xFFFF_FFFF, 0, 0, 0))
  {
    var r3 := "." + (FormatDecimal(0) + []);
    var r2 := "." + (FormatDecimal(0) + r3);
    var r1 := "." + (FormatDecimal(0) + r2);
    var s := "-" + (FormatDecimal(1) + r1);
    assert "-1.0.0.0" == s;
    assert ParseUnsigned(s) == Some((0xFFFF_FFFF, r1)) by {
      NegatedConversion(1, r1);
    }
    assert ParseDotUnsigned(r1) == Some((0, r2)) by {
      ParseDotUnsignedOfFormat(0, r2);
    }
    assert ParseDotUnsigned(r2) == Some((0, r3)) by {
      ParseDotUnsignedOfFormat(0, r3);
    }
    assert ParseDotUnsigned(r3) == Some((0, [])) by {
      ParseDotUnsignedOfFormat(0, []);
    }
    QuadOfParts(s, r1, r2, r3, [], Quad(0xFFFF_FFFF, 0, 0, 0));
  }

  /** The subnet mask every device defaults to parses as 255.255.255.0. */
  lemma DefaultMaskParses()
    ensures ParseQuad("255.255.255.0") == Some(Quad(255, 255, 255, 0))
  {
    assert FormatQuad([255, 255, 255, 0]) == "255.255.255.0";
    ParseFormatQuad([255, 255, 255, 0]);
  }
}
