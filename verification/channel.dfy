/**
 * The bounded tokio mpsc channels that decouple the session from the serial
 * tasks: the command channel (capacity 100, src/comm_async/mod.rs line 17)
 * and the response channel (capacity 42, src/websocket/actor.rs line 22).
 *
 * A send that would suspend because the queue is full is reported as `Full`
 * and changes nothing; a receive that would suspend because the queue is
 * empty while a sender is still alive is reported as `Pending`.
 */
module Channels {

  datatype SendResult = Sent | Full | Disconnected

  datatype RecvResult = Item(msg: string) | Pending | Closed

  class Channel {
    const capacity: nat
    /** Messages sent and not yet received, oldest first. */
    var buffer: seq<string>
    /** Some sender handle is still alive. */
    var senderOpen: bool
    /** The receiver has not been dropped. */
    var receiverOpen: bool
    /** Every message ever accepted, and every message ever handed out. */
    ghost var sent: seq<string>
    ghost var received: seq<string>

    /** Never over capacity, and first in, first out: nothing lost, nothing reordered. */
    ghost predicate Valid()
      reads this`buffer, this`sent, this`received
    {
      0 < capacity && |buffer| <= capacity && sent == received + buffer
    }

    /** `channel::<String>(capacity)`; tokio refuses a zero capacity. */
    constructor (capacity: nat)
      requires 0 < capacity
      ensures Valid() && this.capacity == capacity
      ensures buffer == [] && senderOpen && receiverOpen
      ensures sent == [] && received == []
    {
      this.capacity := capacity;
      buffer := [];
      senderOpen := true;
      receiverOpen := true;
      sent := [];
      received := [];
    }

    /** `Sender::send`: fails once the receiver is gone, waits while the queue is full. */
    method Send(msg: string) returns (r: SendResult)
      requires Valid()
      modifies this
      ensures Valid()
      ensures r == if !receiverOpen then Disconnected
                   else if |old(buffer)| < capacity then Sent
                   else Full
      ensures buffer == if r == Sent then old(buffer) + [msg] else old(buffer)
      ensures sent == if r == Sent then old(sent) + [msg] else old(sent)
      ensures received == old(received)
      ensures senderOpen == old(senderOpen) && receiverOpen == old(receiverOpen)
    {
      if !receiverOpen {
        r := Disconnected;
      } else if |buffer| < capacity {
        buffer := buffer + [msg];
        sent := sent + [msg];
        r := Sent;
      } else {
        r := Full;
      }
    }

    /**
     * `Receiver::recv`: the oldest message if there is one; end of stream
     * (`None`) only once the queue is empty and every sender is gone.
     */
    method Recv() returns (r: RecvResult)
      requires Valid() && receiverOpen
      modifies this
      ensures Valid()
      ensures old(buffer) != [] ==> r == Item(old(buffer)[0]) && buffer == old(buffer)[1..]
      ensures old(buffer) != [] ==> received == old(received) + [old(buffer)[0]]
      ensures old(buffer) == [] ==> buffer == [] && received == old(received)
      ensures old(buffer) == [] ==> r == if senderOpen then Pending else Closed
      ensures sent == old(sent)
      ensures senderOpen == old(senderOpen) && receiverOpen == old(receiverOpen)
    {
      if buffer != [] {
        r := Item(buffer[0]);
        received := received + [buffer[0]];
        buffer := buffer[1..];
      } else if senderOpen {
        r := Pending;
      } else {
        r := Closed;
      }
    }

    /** The last sender handle is dropped. */
    method CloseSender()
      requires Valid()
      modifies this`senderOpen
      ensures Valid() && !senderOpen
    {
      senderOpen := false;
    }

    /** The receiver is dropped; whatever is still queued is never delivered. */
    method CloseReceiver()
      requires Valid()
      modifies this`receiverOpen
      ensures Valid() && !receiverOpen
    {
      receiverOpen := false;
    }
  }
}
