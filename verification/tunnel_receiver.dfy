/** TunnelReceiverProcess of tunnel_receiver_process/tunnel_reciver_process.hpp:
    takes frames that came out of the tunnel, strips their 8-byte header into
    its payload buffer and passes the payload on. Its queues are handed to
    each call rather than kept. */
module TunnelReceiver {
  import opened Bytes
  import opened ThreadSafeQueue
  import opened TunnelFraming

  class TunnelReceiverProcess {
    var rawPacketBuffer: seq<uint8>
    var payloadBuffer: seq<uint8>

    /** Both buffers start empty. */
    constructor ()
      ensures rawPacketBuffer == [] && payloadBuffer == []
    {
      rawPacketBuffer := [];
      payloadBuffer := [];
    }

    /** getPayload: the next frame becomes the raw buffer; its bytes after
        the header become the payload, or the payload stays as it was. */
    method GetPayload(fromTunnelQueue: BoundedQueue<seq<uint8>>)
      requires fromTunnelQueue.Valid() && |fromTunnelQueue.items| > 0
      modifies this, fromTunnelQueue
      ensures fromTunnelQueue.Valid() && fromTunnelQueue.items == old(fromTunnelQueue.items[1..])
      ensures rawPacketBuffer == old(fromTunnelQueue.items[0])
      ensures payloadBuffer == StrippedPayload(rawPacketBuffer, old(payloadBuffer))
    {
      rawPacketBuffer := fromTunnelQueue.Dequeue();
      if |rawPacketBuffer| > HEADER_SIZE {
        payloadBuffer := rawPacketBuffer[HEADER_SIZE..];
      }
    }

    /** mainProcess: the payload buffer goes to the queue unchanged. */
    method MainProcess(sendQueue: BoundedQueue<seq<uint8>>)
      requires sendQueue.Valid() && |sendQueue.items| < sendQueue.capacity
      modifies sendQueue
      ensures sendQueue.Valid() && sendQueue.items == old(sendQueue.items) + [payloadBuffer]
    {
      sendQueue.Enqueue(payloadBuffer);
    }
  }

  /** Two frames through the receiver, the second only a header: the queue
      receives the first frame's payload twice. */
  method HeaderOnlyFrameRepeats(first: seq<uint8>, header: seq<uint8>) returns (sent: seq<seq<uint8>>)
    requires |first| > HEADER_SIZE && |header| == HEADER_SIZE
    ensures sent == [first[HEADER_SIZE..], first[HEADER_SIZE..]]
  {
    var fromTunnel := new BoundedQueue<seq<uint8>>(2);
    var sendQueue := new BoundedQueue<seq<uint8>>(2);
    fromTunnel.Enqueue(first);
    fromTunnel.Enqueue(header);
    assert fromTunnel.items == [first, header];
    var receiver := new TunnelReceiverProcess();
    receiver.GetPayload(fromTunnel);
    assert receiver.payloadBuffer == first[HEADER_SIZE..] && fromTunnel.items == [header];
    receiver.MainProcess(sendQueue);
    receiver.GetPayload(fromTunnel);
    receiver.MainProcess(sendQueue);
    sent := sendQueue.items;
  }
}
