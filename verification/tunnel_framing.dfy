/** The header strip shared by the two tunnel stages: both drop a fixed
    8-byte prefix from each frame, and both leave their payload buffer as it
    was when a frame is too short to have anything after that prefix. */
module TunnelFraming {
  import opened Bytes

  const HEADER_SIZE: nat := 8

  /** The payload buffer after `getPayload` has read `frame`, given what the
      buffer held before: the bytes after the header when there are any,
      otherwise the previous contents, untouched. */
  function StrippedPayload(frame: seq<uint8>, previous: seq<uint8>): (payload: seq<uint8>)
    ensures |frame| > HEADER_SIZE ==> frame == frame[..HEADER_SIZE] + payload
    ensures |frame| <= HEADER_SIZE ==> payload == previous
  {
    if |frame| > HEADER_SIZE then frame[HEADER_SIZE..] else previous
  }

  /** Stripping undoes prepending any 8-byte header to a non-empty
      payload, whatever the buffer held before. */
  lemma StripPrependedHeader(header: seq<uint8>, payload: seq<uint8>, previous: seq<uint8>)
    requires |header| == HEADER_SIZE && |payload| > 0
    ensures StrippedPayload(header + payload, previous) == payload
  {
    assert (header + payload)[HEADER_SIZE..] == payload;
  }

  /** A frame that is only a header, or shorter, yields the previous
      payload again: the stale buffer is passed on a second time. */
  lemma ShortFrameRepeatsPayload(frame: seq<uint8>, previous: seq<uint8>)
    requires |frame| <= HEADER_SIZE
    ensures StrippedPayload(frame, previous) == previous
    ensures StrippedPayload(frame, StrippedPayload(frame, previous)) == previous
  {
  }

  /** The payload of a long frame is exactly n - 8 bytes long and depends
      on the frame alone. */
  lemma LongFrameIgnoresPrevious(frame: seq<uint8>, previous: seq<uint8>, other: seq<uint8>)
    requires |frame| > HEADER_SIZE
    ensures |StrippedPayload(frame, previous)| == |frame| - HEADER_SIZE
    ensures StrippedPayload(frame, previous) == StrippedPayload(frame, other)
  {
  }
}
