/** TunnelTransmitterProcess of
    tunnel_transmitter_process/tunnel_transmitter_process.hpp: takes frames
    bound for the tunnel from one queue, strips their 8-byte header into its
    payload buffer and passes the payload on to the send queue. */
module TunnelTransmitter {
  import opened Bytes
  import opened ThreadSafeQueue
  import opened TunnelFraming

  class TunnelTransmitterProcess {
    var rawPacketBuffer: seq<uint8>
    var payloadBuffer: seq<uint8>
    const toSendProcessQueue: BoundedQueue<seq<uint8>>
    const sendQueue: BoundedQueue<seq<uint8>>

    ghost predicate Valid()
      reads this, toSendProcessQueue, sendQueue
    {
      toSendProcessQueue != sendQueue && toSendProcessQueue.Valid() && sendQueue.Valid()
    }

    /** Both buffers start empty; the two queues are the ones given. */
    constructor (toSendProcessQueue: BoundedQueue<seq<uint8>>, sendQueue: BoundedQueue<seq<uint8>>)
      ensures rawPacketBuffer == [] && payloadBuffer == []
      ensures this.toSendProcessQueue == toSendProcessQueue && this.sendQueue == sendQueue
    {
      rawPacketBuffer := [];
      payloadBuffer := [];
      this.toSendProcessQueue := toSendProcessQueue;
      this.sendQueue := sendQueue;
    }

    /** getPayload: the next frame becomes the raw buffer; its bytes after
        the header become the payload, or the payload stays as it was. */
    method GetPayload()
      requires Valid() && |toSendProcessQueue.items| > 0
      modifies this, toSendProcessQueue
      ensures Valid()
      ensures toSendProcessQueue.items == old(toSendProcessQueue.items[1..])
      ensures sendQueue.items == old(sendQueue.items)
      ensures rawPacketBuffer == old(toSendProcessQueue.items[0])
      ensures payloadBuffer == StrippedPayload(rawPacketBuffer, old(payloadBuffer))
    {
      rawPacketBuffer := toSendProcessQueue.Dequeue();
      if |rawPacketBuffer| > HEADER_SIZE {
        payloadBuffer := rawPacketBuffer[HEADER_SIZE..];
      }
    }

    /** mainProcess: the payload buffer goes to the send queue unchanged. */
    method MainProcess()
      requires Valid() && |sendQueue.items| < sendQueue.capacity
      modifies sendQueue
      ensures Valid()
      ensures sendQueue.items == old(sendQueue.items) + [payloadBuffer]
      ensures toSendProcessQueue.items == old(toSendProcessQueue.items)
    {
      sendQueue.Enqueue(payloadBuffer);
    }

    /** A getPayload followed by a mainProcess moves one frame through the
        stage: what reaches the send queue is the frame without its header,
        or the previous payload again for a frame of at most 8 bytes. */
    method ProcessOne()
      requires Valid() && |toSendProcessQueue.items| > 0 && |sendQueue.items| < sendQueue.capacity
      modifies this, toSendProcessQueue, sendQueue
      ensures Valid()
      ensures toSendProcessQueue.items == old(toSendProcessQueue.items[1..])
      ensures sendQueue.items ==
              old(sendQueue.items) + [StrippedPayload(old(toSendProcessQueue.items[0]), old(payloadBuffer))]
    {
      GetPayload();
      MainProcess();
    }
  }
}
