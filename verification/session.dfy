/**
 * The per-connection session (src/websocket/actor.rs): one `WebSocketActor`
 * per websocket client. It owns the serial link, relays the client's text
 * frames to the device as commands, relays the device's lines to the client
 * as text frames, and drops a client whose heartbeats stop.
 *
 * The actor's callbacks run one at a time on its context; each is a method
 * here, and a run of the session is a sequence of such calls. Time is a
 * count of nanoseconds read from a monotonic clock and passed in as `now`.
 */
module WebSocket {
  import opened Wrappers
  import opened Channels
  import Utf8
  import CommAsync
  import LineFramer

  /** Capacity of the response channel from the reader task to the session. */
  const RESPONSE_CAPACITY: nat := 42
  /** Baud rate the serial port is opened with. */
  const BAUD_RATE: nat := 115200

  const NANOS_PER_SECOND: nat := 1_000_000_000
  /** Period of the heartbeat tick: five seconds. */
  const HEARTBEAT_INTERVAL: nat := 5 * NANOS_PER_SECOND
  /** Silence after which the client is dropped: ten seconds. */
  const CLIENT_TIMEOUT: nat := 10 * NANOS_PER_SECOND

  /** The status code and optional text of a websocket close frame. */
  datatype CloseReason = CloseReason(code: nat, description: Option<string>)

  /** A decoded websocket frame from the client. */
  datatype Message =
    | Text(text: string)
    | Binary(data: seq<Utf8.byte>)
    | Continuation
    | Ping(payload: seq<Utf8.byte>)
    | Pong(payload: seq<Utf8.byte>)
    | Close(reason: Option<CloseReason>)
    | Nop

  /** An item of the client's frame stream: a frame, or a protocol error. */
  datatype Inbound = Frame(msg: Message) | ProtocolError

  /** A frame the session sends to the client. */
  datatype Outbound =
    | PongFrame(payload: seq<Utf8.byte>)
    | PingFrame(payload: seq<Utf8.byte>)
    | CloseFrame(reason: Option<CloseReason>)
    | TextFrame(text: string)

  /** The actor's lifecycle: created, started, stopped, or its thread panicked. */
  datatype Status = Created | Running | Stopped | Panicked

  /** `Instant::duration_since`: the time from `since` to `now`, zero if `since` is later. */
  function Elapsed(now: nat, since: nat): (d: nat)
    ensures since <= now ==> since + d == now
    ensures now < since ==> d == 0
  {
    if since <= now then now - since else 0
  }

  /** The heartbeat check: more than ten seconds since the last heartbeat, strictly. */
  predicate TimedOut(now: nat, lastHeartbeat: nat)
    ensures TimedOut(now, lastHeartbeat) <==> now > lastHeartbeat + CLIENT_TIMEOUT
  {
    Elapsed(now, lastHeartbeat) > CLIENT_TIMEOUT
  }

  /** The timeout is strict: exactly ten seconds of silence is still alive, one more nanosecond is not. */
  lemma TimeoutIsStrict(lastHeartbeat: nat)
    ensures !TimedOut(lastHeartbeat + CLIENT_TIMEOUT, lastHeartbeat)
    ensures TimedOut(lastHeartbeat + CLIENT_TIMEOUT + 1, lastHeartbeat)
  {
  }

  /** The time of the `k`-th heartbeat tick after one at `start`. */
  function TickTime(start: nat, k: nat): nat {
    start + k * HEARTBEAT_INTERVAL
  }

  /**
   * With ticks every five seconds from `start` and no heartbeat after
   * `lastHeartbeat`, the number of ticks until the one that drops the
   * client: no tick before it times out, and it comes at most fifteen
   * seconds after the last heartbeat (or at `start` itself).
   */
  function TicksUntilTimeout(start: nat, lastHeartbeat: nat): (k: nat)
    ensures TimedOut(TickTime(start, k), lastHeartbeat)
    ensures forall j :: 0 <= j < k ==> !TimedOut(TickTime(start, j), lastHeartbeat)
    ensures k == 0 || TickTime(start, k) <= lastHeartbeat + CLIENT_TIMEOUT + HEARTBEAT_INTERVAL
    decreases lastHeartbeat + CLIENT_TIMEOUT + 1 - start
  {
    if TimedOut(start, lastHeartbeat) then 0
    else
      var k := 1 + TicksUntilTimeout(start + HEARTBEAT_INTERVAL, lastHeartbeat);
      assert forall j :: 1 <= j < k ==> TickTime(start, j) == TickTime(start + HEARTBEAT_INTERVAL, j - 1);
      k
  }

  /** The device lines among the frames sent to the client, in order. */
  function Texts(frames: seq<Outbound>): seq<string> {
    if frames == [] then []
    else
      var last := frames[|frames| - 1];
      if last.TextFrame? then Texts(frames[..|frames| - 1]) + [last.text] else Texts(frames[..|frames| - 1])
  }

  /** One more frame sent: its text joins the others if it is a text frame. */
  lemma TextsSnoc(frames: seq<Outbound>, frame: Outbound)
    ensures frame.TextFrame? ==> Texts(frames + [frame]) == Texts(frames) + [frame.text]
    ensures !frame.TextFrame? ==> Texts(frames + [frame]) == Texts(frames)
  {
    assert (frames + [frame])[..|frames|] == frames;
  }

  /** The texts of two runs of frames are those of the first, then of the second. */
  lemma {:induction false} TextsAppend(a: seq<Outbound>, b: seq<Outbound>)
    ensures Texts(a + b) == Texts(a) + Texts(b)
    decreases |b|
  {
    if b == [] {
      assert a + b == a;
    } else {
      var init, last := b[..|b| - 1], b[|b| - 1];
      assert a + b == (a + init) + [last];
      assert b == init + [last];
      TextsSnoc(a + init, last);
      TextsSnoc(init, last);
      TextsAppend(a, init);
    }
  }

  /** The text frames carrying the given lines, in order. */
  function TextFrames(lines: seq<string>): seq<Outbound> {
    if lines == [] then [] else TextFrames(lines[..|lines| - 1]) + [TextFrame(lines[|lines| - 1])]
  }

  /** Relaying lines as text frames loses, adds and reorders none of them. */
  lemma {:induction false} TextsOfTextFrames(lines: seq<string>)
    ensures |TextFrames(lines)| == |lines|
    ensures Texts(TextFrames(lines)) == lines
    decreases |lines|
  {
    if lines != [] {
      var init, last := lines[..|lines| - 1], lines[|lines| - 1];
      TextsOfTextFrames(init);
      TextsSnoc(TextFrames(init), TextFrame(last));
      assert init + [last] == lines;
    }
  }

  /** One more line relayed: one more text frame. */
  lemma TextFramesSnoc(lines: seq<string>, line: string)
    ensures TextFrames(lines + [line]) == TextFrames(lines) + [TextFrame(line)]
  {
    assert (lines + [line])[..|lines|] == lines;
  }

  /** `WebSocketActor`: the state of one client connection. */
  class Session {
    /** Time of the last ping or pong from the client. */
    var lastHeartbeat: nat
    /** `serial_comm`: the serial link, whose command sender this session holds. */
    const serial: CommAsync.SerialComm
    /** The response channel from the reader task. */
    const responses: Channel
    /** `response_receiver`: the receiver until `started` takes it. */
    var responseReceiver: Option<Channel>
    /** `spawn_handle` is set: the response stream is attached to the context. */
    var streaming: bool
    /** The heartbeat interval has been scheduled on the context. */
    var heartbeatScheduled: bool
    var status: Status
    /** Frames sent to the client, in order. */
    var outbox: seq<Outbound>
    /** Payloads of spawned command sends not completed yet, in the order they were spawned. */
    var pending: seq<string>
    /** Every text payload the client sent, in order. */
    ghost var texts: seq<string>

    /**
     * The serial link is consistent and reports to this session's response
     * channel; until the session stops, every client text is queued to the
     * device or pending, in order, and afterwards the ones queued are a
     * prefix of them; the text frames sent are exactly the device lines
     * taken from the response channel, in order.
     */
    ghost predicate Valid()
      reads this, serial, serial.commands, responses
    {
      LinkValid() && LifecycleValid() && RelayValid()
    }

    /** The serial link is consistent and reports to the response channel of capacity 42. */
    ghost predicate LinkValid()
      reads serial, serial.commands, responses
    {
      && serial.responses == responses
      && serial.Valid() && serial.InputValid()
      && responses.capacity == RESPONSE_CAPACITY
    }

    /**
     * The receiver is held exactly until the session starts; a running
     * session holds both channel ends and every client text is queued to
     * the device or pending, and still is after a spawned send panicked; a
     * stopped one has dropped both ends and the texts queued are a prefix of
     * those the client sent.
     */
    ghost predicate LifecycleValid()
      reads this`responseReceiver, this`status, this`streaming, this`heartbeatScheduled,
        this`pending, this`texts, serial.commands, responses
    {
      && (responseReceiver.Some? <==> status == Created)
      && (responseReceiver.Some? ==> responseReceiver.value == responses)
      && (status == Running ==> streaming && heartbeatScheduled)
      && (status == Created || status == Running ==>
            responses.receiverOpen && serial.commands.senderOpen
            && serial.commands.sent + pending == texts)
      && (status == Panicked ==> serial.commands.sent + pending == texts)
      && (status == Stopped ==>
            !responses.receiverOpen && !serial.commands.senderOpen
            && pending == [] && serial.commands.sent <= texts)
    }

    /** The text frames sent are exactly the device lines taken from the response channel, in order. */
    ghost predicate RelayValid()
      reads this`outbox, responses
    {
      Texts(outbox) == responses.received
    }

    /**
     * `WebSocketActor::new`: a response channel of capacity 42, the serial
     * link at 115200 baud reporting to it, the heartbeat set to `now`, the
     * receiver held and no stream attached.
     */
    constructor (tty: string, now: nat)
      ensures Valid() && status == Created
      ensures fresh(serial) && fresh(serial.commands) && fresh(responses)
      ensures lastHeartbeat == now && responseReceiver == Some(responses) && !streaming
      ensures serial.tty == tty && serial.baudRate == BAUD_RATE
      ensures responses.buffer == [] && responses.sent == []
      ensures serial.commands.buffer == [] && serial.commands.sent == []
      ensures serial.writer == CommAsync.Running && serial.reader == CommAsync.Running
      ensures serial.blocked == [] && serial.stringBuf == [] && serial.input == [] && serial.written == []
      ensures outbox == [] && pending == [] && texts == []
    {
      var channel := new Channel(RESPONSE_CAPACITY);
      responses := channel;
      serial := new CommAsync.SerialComm(tty, BAUD_RATE, channel);
      lastHeartbeat := now;
      responseReceiver := Some(channel);
      streaming := false;
      heartbeatScheduled := false;
      status := Created;
      outbox := [];
      pending := [];
      texts := [];
    }

    /**
     * `started`: schedule the heartbeat, take the response receiver and
     * attach the stream of its lines. The receiver can be taken once: were
     * it already gone, the `unwrap` would panic.
     */
    method Started()
      requires Valid() && (status == Created || status == Running)
      modifies this`heartbeatScheduled, this`responseReceiver, this`streaming, this`status
      ensures Valid() && heartbeatScheduled && responseReceiver == None
      ensures old(status) == Created ==> status == Running && streaming
      ensures old(status) == Running ==> status == Panicked
    {
      heartbeatScheduled := true;
      match responseReceiver {
        case Some(_) =>
          responseReceiver := None;
          streaming := true;
          status := Running;
        case None =>
          status := Panicked;
      }
    }

    /**
     * `ctx.stop()`, and the drop of the actor that follows it: the spawned
     * sends are cancelled, the command sender and the response receiver
     * are dropped.
     */
    method Stop()
      requires Valid() && status == Running
      modifies this`status, this`pending, serial.commands`senderOpen, responses`receiverOpen
      ensures Valid() && status == Stopped && pending == []
      ensures serial.commands.sent == old(serial.commands.sent)
      ensures responses.received == old(responses.received)
    {
      assert serial.commands.sent <= serial.commands.sent + pending;
      status := Stopped;
      pending := [];
      serial.commands.CloseSender();
      responses.CloseReceiver();
    }

    /**
     * The heartbeat tick: more than ten seconds since the last heartbeat
     * stops the session without a frame; otherwise it sends one empty ping.
     */
    method Tick(now: nat)
      requires Valid() && status == Running
      modifies this`status, this`pending, this`outbox, serial.commands`senderOpen, responses`receiverOpen
      ensures Valid() && lastHeartbeat == old(lastHeartbeat)
      ensures TimedOut(now, lastHeartbeat) ==> status == Stopped && outbox == old(outbox)
      ensures !TimedOut(now, lastHeartbeat) ==>
        status == Running && outbox == old(outbox) + [PingFrame([])] && pending == old(pending)
        && serial.commands.senderOpen && responses.receiverOpen
    {
      if TimedOut(now, lastHeartbeat) {
        Stop();
        return;
      }
      Emit(PingFrame([]));
    }

    /** Send a control frame to the client; it carries no device line. */
    method Emit(frame: Outbound)
      requires RelayValid() && !frame.TextFrame?
      modifies this`outbox
      ensures RelayValid() && outbox == old(outbox) + [frame]
    {
      TextsSnoc(outbox, frame);
      outbox := outbox + [frame];
    }

    /**
     * The handler for the client's frames: a ping refreshes the heartbeat
     * and is answered by a pong with the same payload; a pong refreshes the
     * heartbeat; a close is echoed with the same reason and stops the
     * session; a text is handed to a spawned send towards the device;
     * anything else stops the session.
     */
    method Handle(msg: Inbound, now: nat)
      requires Valid() && status == Running
      modifies this`lastHeartbeat, this`status, this`pending, this`outbox, this`texts,
        serial.commands`senderOpen, responses`receiverOpen
      ensures Valid()
      ensures msg.Frame? && (msg.msg.Ping? || msg.msg.Pong?) ==> lastHeartbeat == now
      ensures !(msg.Frame? && (msg.msg.Ping? || msg.msg.Pong?)) ==> lastHeartbeat == old(lastHeartbeat)
      ensures msg.Frame? && msg.msg.Ping? ==> outbox == old(outbox) + [PongFrame(msg.msg.payload)]
      ensures msg.Frame? && msg.msg.Close? ==> outbox == old(outbox) + [CloseFrame(msg.msg.reason)]
      ensures !(msg.Frame? && (msg.msg.Ping? || msg.msg.Close?)) ==> outbox == old(outbox)
      ensures msg.Frame? && msg.msg.Text? ==>
        pending == old(pending) + [msg.msg.text] && texts == old(texts) + [msg.msg.text]
      ensures !(msg.Frame? && msg.msg.Text?) ==> texts == old(texts)
      ensures status == if msg.Frame? && (msg.msg.Ping? || msg.msg.Pong? || msg.msg.Text?) then Running else Stopped
      ensures status == Running ==>
        serial.commands.senderOpen && responses.receiverOpen
        && (!(msg.Frame? && msg.msg.Text?) ==> pending == old(pending))
    {
      if msg.ProtocolError? {
        Stop();
        return;
      }
      match msg.msg {
        case Ping(payload) => OnPing(payload, now);
        case Pong(_) => OnPong(now);
        case Close(reason) => OnClose(reason);
        case Text(text) => OnText(text);
        case Binary(_) => Stop();
        case Continuation => Stop();
        case Nop => Stop();
      }
    }

    /** A ping: refresh the heartbeat and answer with a pong carrying the same payload. */
    method OnPing(payload: seq<Utf8.byte>, now: nat)
      requires Valid() && status == Running
      modifies this`lastHeartbeat, this`outbox
      ensures Valid() && lastHeartbeat == now && outbox == old(outbox) + [PongFrame(payload)]
    {
      lastHeartbeat := now;
      Emit(PongFrame(payload));
    }

    /** A pong: refresh the heartbeat, nothing else. */
    method OnPong(now: nat)
      requires Valid() && status == Running
      modifies this`lastHeartbeat
      ensures Valid() && lastHeartbeat == now
    {
      lastHeartbeat := now;
    }

    /** A close: echo it with the same reason, then stop. */
    method OnClose(reason: Option<CloseReason>)
      requires Valid() && status == Running
      modifies this`status, this`pending, this`outbox, serial.commands`senderOpen, responses`receiverOpen
      ensures Valid() && status == Stopped && outbox == old(outbox) + [CloseFrame(reason)]
    {
      Emit(CloseFrame(reason));
      Stop();
    }

    /** A text: spawn its send to the command channel, payload unchanged. */
    method OnText(text: string)
      requires Valid() && status == Running
      modifies this`pending, this`texts
      ensures Valid() && pending == old(pending) + [text] && texts == old(texts) + [text]
    {
      pending := pending + [text];
      texts := texts + [text];
    }

    /**
     * The spawned command sends make progress: in spawn order each payload
     * goes to the command channel while it has room. A send whose receiver
     * is gone (the writer task has ended) fails the `unwrap` and panics.
     */
    method PollSends()
      requires Valid() && status == Running
      modifies this`pending, this`status, serial.commands
      ensures Valid()
      ensures serial.commands.sent + pending == old(serial.commands.sent + pending)
      ensures serial.commands.received == old(serial.commands.received)
      ensures serial.commands.receiverOpen == old(serial.commands.receiverOpen)
      ensures serial.commands.senderOpen == old(serial.commands.senderOpen)
      ensures status == if !serial.commands.receiverOpen && old(pending) != [] then Panicked else Running
      ensures status == Running ==> pending == [] || |serial.commands.buffer| == CommAsync.COMMAND_CAPACITY
    {
      var r := Sent;
      while pending != [] && r == Sent
        invariant Valid() && status == Running
        invariant serial.commands.sent + pending == old(serial.commands.sent + pending)
        invariant serial.commands.received == old(serial.commands.received)
        invariant serial.commands.receiverOpen == old(serial.commands.receiverOpen)
        invariant serial.commands.receiverOpen ==> r != Disconnected
        invariant !serial.commands.receiverOpen ==>
          pending == old(pending) && r != Full && (r == Disconnected ==> pending != [])
        invariant r == Full ==> |serial.commands.buffer| == CommAsync.COMMAND_CAPACITY
        decreases |pending|, if r == Sent then 1 else 0
      {
        r := ForwardPending();
      }
      if r == Disconnected {
        status := Panicked;
      }
    }

    /**
     * The oldest spawned send is polled once through a sender obtained from
     * the serial link: it completes, waits for room, or fails.
     */
    method ForwardPending() returns (r: SendResult)
      requires Valid() && status == Running && pending != []
      modifies this`pending, serial.commands
      ensures Valid() && status == Running
      ensures serial.commands.sent + pending == old(serial.commands.sent + pending)
      ensures serial.commands.received == old(serial.commands.received)
      ensures serial.commands.receiverOpen == old(serial.commands.receiverOpen)
      ensures r == if !serial.commands.receiverOpen then Disconnected
                   else if |old(serial.commands.buffer)| < CommAsync.COMMAND_CAPACITY then Sent
                   else Full
      ensures pending == if r == Sent then old(pending)[1..] else old(pending)
      ensures r == Full ==> |serial.commands.buffer| == CommAsync.COMMAND_CAPACITY
    {
      ghost var before := serial.commands.sent;
      var sender := serial.GetSender();
      r := sender.Send(pending[0]);
      if r == Sent {
        CommAsync.ShiftOne(before, pending);
        pending := pending[1..];
      }
    }

    /**
     * The response stream is polled: every device line waiting in the
     * response channel is sent to the client as a text frame, unchanged and
     * in order. Once the channel is empty and the reader has dropped its
     * sender the stream ends, and the default `finished` stops the session.
     */
    method PollResponses()
      requires Valid() && status == Running
      modifies this`outbox, this`status, this`pending, responses, serial.commands`senderOpen
      ensures Valid()
      ensures outbox == old(outbox) + TextFrames(old(responses.buffer))
      ensures responses.received == old(responses.received) + old(responses.buffer)
      ensures responses.buffer == [] && responses.sent == old(responses.sent)
      ensures status == if old(responses.senderOpen) then Running else Stopped
      ensures pending == if old(responses.senderOpen) then old(pending) else []
    {
      var ended := DrainResponses();
      if ended {
        Stop();
      }
    }

    /**
     * The loop of the response stream: receive and relay until the channel
     * is empty; `ended` when no sender is left.
     */
    method DrainResponses() returns (ended: bool)
      requires responses.Valid() && responses.receiverOpen
      modifies this`outbox, responses
      ensures responses.Valid() && responses.receiverOpen
      ensures outbox == old(outbox) + TextFrames(old(responses.buffer))
      ensures Texts(outbox) == old(Texts(outbox)) + old(responses.buffer)
      ensures responses.received == old(responses.received) + old(responses.buffer)
      ensures responses.buffer == [] && responses.sent == old(responses.sent)
      ensures responses.senderOpen == old(responses.senderOpen)
      ensures ended == !responses.senderOpen
    {
      ghost var queued0 := responses.buffer;
      ghost var taken: seq<string> := [];
      var r := responses.Recv();
      while r.Item?
        invariant responses.Valid() && responses.receiverOpen
        invariant responses.sent == old(responses.sent) && responses.senderOpen == old(responses.senderOpen)
        invariant r.Item? ==>
          (responses.received == old(responses.received) + taken + [r.msg]
           && queued0 == taken + [r.msg] + responses.buffer)
        invariant !r.Item? ==>
          (responses.received == old(responses.received) + taken
           && queued0 == taken && responses.buffer == []
           && r == if responses.senderOpen then Pending else Closed)
        invariant outbox == old(outbox) + TextFrames(taken)
        decreases |responses.buffer|, if r.Item? then 1 else 0
      {
        TextFramesSnoc(taken, r.msg);
        outbox := outbox + [TextFrame(r.msg)];
        taken := taken + [r.msg];
        r := responses.Recv();
      }
      TextsAppend(old(outbox), TextFrames(taken));
      TextsOfTextFrames(taken);
      ended := r == Closed;
    }

    /** The client's frame stream has ended: the default `finished` stops the session. */
    method ClientGone()
      requires Valid() && status == Running
      modifies this`status, this`pending, serial.commands`senderOpen, responses`receiverOpen
      ensures Valid() && status == Stopped && outbox == old(outbox)
    {
      Stop();
    }
  }

  /**
   * Device to client: the text frames sent so far are, in order, a prefix
   * of the lines the reader task has sent, and those are a prefix of the
   * lines of all the text read from the device, framed at once; the
   * response queue never holds more than 42 lines.
   */
  lemma RelayedLinesInOrder(session: Session)
    requires session.Valid()
    ensures Texts(session.outbox) <= session.responses.sent
    ensures session.responses.sent <= LineFramer.FrameStep([], session.serial.input).lines
    ensures |session.responses.buffer| <= RESPONSE_CAPACITY
  {
    var serial, responses := session.serial, session.responses;
    assert session.RelayValid() && responses.Valid() && session.LinkValid();
    assert serial.ReaderValid() && serial.InputValid();
    var lines := responses.sent + serial.blocked;
    assert [] + serial.input == serial.input;
    LineFramer.FrameUnique([], serial.input, lines, serial.stringBuf);
    assert lines[..|responses.sent|] == responses.sent;
  }

  /**
   * Client to device: unless the writer task has panicked, the bytes
   * written to the device are the UTF-8 encodings of a prefix of the texts
   * the client sent, in order and unchanged.
   */
  lemma ForwardedTextsInOrder(session: Session)
    requires session.Valid() && session.serial.writer != CommAsync.Panicked
    ensures session.serial.commands.received <= session.texts
    ensures session.serial.written == Utf8.EncodeAll(session.serial.commands.received)
  {
    var commands := session.serial.commands;
    assert session.LinkValid() && session.LifecycleValid() && session.serial.WriterValid();
    assert commands.received <= commands.sent;
    PrefixTransitive(commands.received, commands.sent, session.texts, session.pending);
  }

  /** A prefix of a prefix is a prefix. */
  lemma PrefixTransitive(a: seq<string>, b: seq<string>, c: seq<string>, pending: seq<string>)
    requires a <= b && (b <= c || b + pending == c)
    ensures a <= c
  {
    if b + pending == c {
      assert c[..|b|] == b;
    }
  }
}
