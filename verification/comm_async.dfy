/**
 * The serial link (src/comm_async/mod.rs): a reader task that frames the
 * device's output into lines, and a writer task that drains the command
 * channel into the device. When the writer sees the end of the command
 * stream it stops and aborts the reader.
 *
 * The tasks run concurrently in the source; here each is a method that runs
 * its loop until the task would suspend, so a run of the system is a
 * sequence of such calls.
 */
module CommAsync {
  import opened LineFramer
  import opened Utf8
  import opened Channels

  /** Capacity of the command channel. */
  const COMMAND_CAPACITY: nat := 100

  /**
   * The body of the reader loop for one chunk: append it to the accumulator,
   * split, send every segment but the last in order, keep the last segment
   * (or clear the accumulator when it is empty).
   */
  method FrameChunk(sent: seq<string>, stringBuf: string, chunk: string)
    returns (sent': seq<string>, stringBuf': string)
    ensures var step := FrameStep(stringBuf, chunk);
      sent' == sent + step.lines && stringBuf' == step.rest
  {
    sent', stringBuf' := sent, stringBuf + chunk;
    var res := Split(stringBuf');
    for k := 0 to |res| - 1
      invariant sent' == sent + res[..k]
    {
      sent' := sent' + [res[k]];
    }
    if res[|res| - 1] == [] {
      stringBuf' := [];
    } else {
      stringBuf' := res[|res| - 1];
    }
  }

  /** The text of one more chunk read. */
  lemma ConcatPrefix(chunks: seq<string>, n: nat)
    requires n < |chunks|
    ensures Concat(chunks[..n + 1]) == Concat(chunks[..n]) + chunks[n]
  {
    assert chunks[..n + 1] == chunks[..n] + [chunks[n]];
    ConcatSnoc(chunks[..n], chunks[n]);
  }

  /**
   * One more chunk framed after lines already produced: what has been
   * produced is still the framing of everything taken in, all at once.
   */
  lemma FrameMore(prior: seq<string>, acc: string, text: string, more: string,
                  produced: seq<string>, buf: string, produced': seq<string>, buf': string)
    requires produced == prior + FrameStep(acc, text).lines && buf == FrameStep(acc, text).rest
    requires produced' == produced + FrameStep(buf, more).lines && buf' == FrameStep(buf, more).rest
    ensures produced' == prior + FrameStep(acc, text + more).lines
    ensures buf' == FrameStep(acc, text + more).rest
  {
    ChunkingInvariance(acc, text, more);
    var first, whole := FrameStep(acc, text), FrameStep(acc, text + more);
    assert whole.lines == first.lines + FrameStep(buf, more).lines;
    assert (prior + first.lines) + FrameStep(buf, more).lines == prior + whole.lines;
  }

  /** Framing more text onto the accumulator loses nothing of all the text taken in. */
  lemma InputMore(produced: seq<string>, buf: string, input: string, more: string,
                  produced': seq<string>, buf': string)
    requires Terminated(produced) + buf == input && AllNoNewline(produced)
    requires produced' == produced + FrameStep(buf, more).lines && buf' == FrameStep(buf, more).rest
    ensures Terminated(produced') + buf' == input + more && AllNoNewline(produced')
  {
    var step := FrameStep(buf, more);
    assert [] + input == input && [] + (input + more) == input + more;
    Rejoin([], input, more, produced, buf, step.lines, step.rest);
    AllNoNewlineAppend(produced, step.lines);
  }

  /**
   * After `prior`, the lines `produced` and the accumulator `buf` are those
   * of framing `text` onto the accumulator `acc`.
   */
  ghost predicate FramedSoFar(prior: seq<string>, acc: string, text: string, produced: seq<string>, buf: string) {
    produced == prior + FrameStep(acc, text).lines && buf == FrameStep(acc, text).rest
  }

  /** Moving the first waiting line over to the sent ones keeps their order. */
  lemma ShiftOne(sent: seq<string>, waiting: seq<string>)
    requires waiting != []
    ensures (sent + [waiting[0]]) + waiting[1..] == sent + waiting
  {
    assert waiting == [waiting[0]] + waiting[1..];
  }

  /** Lifecycle of a spawned task. */
  datatype TaskState = Running | Finished | Aborted | Panicked

  /** `SerialComm`: the command sender and the two tasks over one serial port. */
  class SerialComm {
    const tty: string
    const baudRate: nat
    /** The command channel: its sender is kept here, its receiver belongs to the writer task. */
    const commands: Channel
    /** The response channel, whose only sender belongs to the reader task. */
    const responses: Channel
    /** Bytes the writer task has written to the device, in order. */
    var written: seq<byte>
    var writer: TaskState
    var reader: TaskState
    /** The reader task's accumulator `string_buf`. */
    var stringBuf: string
    /**
     * Lines the reader has framed but the response channel has not accepted
     * yet: the line whose send is waiting for room, then the rest of `res`.
     */
    var blocked: seq<string>
    /** Everything the reader has taken from the device so far, in order. */
    ghost var input: string

    /**
     * The writer has written exactly the messages it received, in order; it
     * holds the command receiver while it runs and finishes only after the
     * end of the command stream; the reader holds the response sender while
     * it runs and is aborted only after the writer finished.
     */
    ghost predicate Valid()
      reads this`written, this`writer, this`reader, this`stringBuf, commands, responses
    {
      && commands != responses
      && WriterValid()
      && ReaderValid()
      && (reader == Aborted ==> writer == Finished)
    }

    /**
     * The writer holds the command receiver while it runs, has written
     * exactly the messages it received, in order, and finishes only after
     * the end of the command stream.
     */
    ghost predicate WriterValid()
      reads this`written, this`writer, commands
    {
      && commands.Valid()
      && commands.capacity == COMMAND_CAPACITY
      && (writer == Running <==> commands.receiverOpen)
      && writer != Aborted
      && (writer != Panicked ==> written == EncodeAll(commands.received))
      && (writer == Finished ==> !commands.senderOpen && commands.buffer == [])
    }

    /**
     * The reader holds the response sender while it runs, and its
     * accumulator never holds a delimiter.
     */
    ghost predicate ReaderValid()
      reads this`reader, this`stringBuf, responses
    {
      && responses.Valid()
      && (reader == Running <==> responses.senderOpen)
      && NoNewline(stringBuf)
    }

    /**
     * Nothing read is lost or altered: the lines sent to the response
     * channel, then those waiting, each followed by "\n", and then the
     * accumulator spell out all the device text taken so far; no line holds
     * a delimiter.
     */
    ghost predicate InputValid()
      reads this`input, this`blocked, this`stringBuf, responses`sent
    {
      && Terminated(responses.sent + blocked) + stringBuf == input
      && AllNoNewline(responses.sent + blocked)
    }

    /**
     * `SerialComm::new` once the port is open: a command channel of
     * capacity 100, both tasks running, the reader owning the response sender.
     */
    constructor (tty: string, baudRate: nat, responses: Channel)
      requires responses.Valid() && responses.senderOpen && responses.sent == []
      ensures Valid() && InputValid() && fresh(commands) && this.responses == responses
      ensures this.tty == tty && this.baudRate == baudRate
      ensures commands.buffer == [] && commands.sent == [] && commands.senderOpen
      ensures written == [] && writer == Running && reader == Running
      ensures blocked == [] && stringBuf == [] && input == []
    {
      this.tty := tty;
      this.baudRate := baudRate;
      commands := new Channel(COMMAND_CAPACITY);
      this.responses := responses;
      written := [];
      writer := Running;
      reader := Running;
      stringBuf := [];
      blocked := [];
      input := [];
      assert responses.sent + [] == [];
    }

    /** `get_sender`: a clone of the command sender, feeding the same queue. */
    method GetSender() returns (sender: Channel)
      ensures sender == commands
    {
      sender := commands;
    }

    /**
     * The reader task's pending sends: the blocked lines go to the response
     * channel in order while it has room. A send to a dropped receiver fails
     * the `expect`: the task panics and drops its sender.
     */
    method SendBlocked()
      requires ReaderValid() && reader == Running
      modifies this`blocked, this`reader, responses
      ensures ReaderValid()
      ensures responses.sent + blocked == old(responses.sent + blocked)
      ensures responses.received == old(responses.received)
      ensures responses.receiverOpen == old(responses.receiverOpen)
      ensures reader == (if !responses.receiverOpen && old(blocked) != [] then Panicked else Running)
      ensures reader == Running ==> blocked == [] || |responses.buffer| == responses.capacity
    {
      var r := Sent;
      while blocked != [] && r == Sent
        invariant ReaderValid() && reader == Running
        invariant responses.sent + blocked == old(responses.sent + blocked)
        invariant responses.received == old(responses.received)
        invariant responses.receiverOpen == old(responses.receiverOpen)
        invariant responses.receiverOpen ==> r != Disconnected
        invariant !responses.receiverOpen ==> blocked == old(blocked) && r != Full && (r == Disconnected ==> blocked != [])
        invariant r == Full ==> |responses.buffer| == responses.capacity
        decreases |blocked|, if r == Sent then 1 else 0
      {
        ghost var before := responses.sent;
        r := responses.Send(blocked[0]);
        if r == Sent {
          ShiftOne(before, blocked);
          blocked := blocked[1..];
        }
      }
      if r == Disconnected {
        reader := Panicked;
        responses.CloseSender();
      }
    }

    /**
     * The reader loop over the device's next reads, until the task would
     * wait: the reads return the chunks `chunks` and then, if `failed`, an
     * I/O error. Each chunk is framed and its lines are sent in order; the
     * loop stops reading while a send waits for room, and the failed read
     * ends the task, dropping its sender (`failureSeen`). `consumed` chunks
     * are taken, and the lines produced are those of framing them all at
     * once onto the accumulator. A reader that is no longer running takes
     * nothing, so a partial line it held is never delivered.
     */
    method Read(chunks: seq<string>, failed: bool) returns (consumed: nat, failureSeen: bool)
      requires Valid() && InputValid()
      modifies this`stringBuf, this`blocked, this`reader, this`input, responses
      ensures Valid() && InputValid()
      ensures consumed <= |chunks| && input == old(input) + Concat(chunks[..consumed])
      ensures FramedSoFar(old(responses.sent + blocked), old(stringBuf), Concat(chunks[..consumed]),
                          responses.sent + blocked, stringBuf)
      ensures responses.received == old(responses.received)
      ensures responses.receiverOpen == old(responses.receiverOpen)
      ensures old(reader) != Running ==>
        consumed == 0 && !failureSeen && reader == old(reader) && blocked == old(blocked)
        && responses.sent == old(responses.sent)
      ensures failureSeen ==> failed && consumed == |chunks|
      ensures old(reader) == Running ==> (reader == Finished <==> failureSeen)
      ensures reader == Running ==> blocked != [] || (consumed == |chunks| && !failed)
      ensures reader == Running ==> blocked == [] || |responses.buffer| == responses.capacity
      ensures reader == Aborted ==> old(reader) == Aborted
      ensures reader == Panicked ==> old(reader) == Panicked || (old(reader) == Running && !responses.receiverOpen)
    {
      consumed, failureSeen := 0, false;
      ghost var produced, buf := responses.sent + blocked, stringBuf;
      if reader == Running {
        consumed, failureSeen := RunReader(chunks, failed);
        InputMore(produced, buf, input, Concat(chunks[..consumed]), responses.sent + blocked, stringBuf);
        Remember(Concat(chunks[..consumed]));
      } else {
        FrameEmpty(stringBuf);
        assert responses.sent + blocked + [] == responses.sent + blocked;
        assert input + Concat(chunks[..0]) == input;
      }
    }

    /** Record the text the reader took from the device. */
    method Remember(ghost text: string)
      requires Terminated(responses.sent + blocked) + stringBuf == input + text
      requires AllNoNewline(responses.sent + blocked)
      modifies this`input
      ensures InputValid() && input == old(input) + text
    {
      input := input + text;
    }

    /** The body of `Read` for a running reader: the pending sends, the chunks, then a failed read. */
    method RunReader(chunks: seq<string>, failed: bool) returns (consumed: nat, failureSeen: bool)
      requires Valid() && reader == Running
      modifies this`stringBuf, this`blocked, this`reader, responses
      ensures Valid() && reader != Aborted
      ensures consumed <= |chunks|
      ensures FramedSoFar(old(responses.sent + blocked), old(stringBuf), Concat(chunks[..consumed]),
                          responses.sent + blocked, stringBuf)
      ensures responses.received == old(responses.received)
      ensures responses.receiverOpen == old(responses.receiverOpen)
      ensures failureSeen ==> failed && consumed == |chunks|
      ensures reader == Finished <==> failureSeen
      ensures reader == Running ==> blocked != [] || (consumed == |chunks| && !failed)
      ensures reader == Running ==> blocked == [] || |responses.buffer| == responses.capacity
      ensures reader == Panicked ==> !responses.receiverOpen
    {
      SendBlocked();
      consumed := ReadChunks(chunks);
      failureSeen := false;
      if consumed == |chunks| && failed && blocked == [] && reader == Running {
        reader := Finished;
        responses.CloseSender();
        failureSeen := true;
      }
    }

    /**
     * The reader loop while the reads succeed: frame each chunk and send its
     * lines, until the chunks run out, a send waits or the task panics.
     */
    method ReadChunks(chunks: seq<string>) returns (consumed: nat)
      requires ReaderValid() && (reader == Running || reader == Panicked)
      requires reader == Running ==> blocked == [] || |responses.buffer| == responses.capacity
      modifies this`stringBuf, this`blocked, this`reader, responses
      ensures ReaderValid() && (reader == Running || reader == Panicked)
      ensures consumed <= |chunks|
      ensures FramedSoFar(old(responses.sent + blocked), old(stringBuf), Concat(chunks[..consumed]),
                          responses.sent + blocked, stringBuf)
      ensures responses.received == old(responses.received)
      ensures responses.receiverOpen == old(responses.receiverOpen)
      ensures reader == Running ==> consumed == |chunks| || blocked != []
      ensures reader == Running ==> blocked == [] || |responses.buffer| == responses.capacity
      ensures reader == Panicked ==> old(reader) == Panicked || !responses.receiverOpen
    {
      consumed := 0;
      ghost var prior, acc := responses.sent + blocked, stringBuf;
      FrameEmpty(acc);
      assert prior + [] == prior;
      assert chunks[..0] == [];
      while consumed < |chunks| && blocked == [] && reader == Running
        invariant ReaderValid() && (reader == Running || reader == Panicked) && consumed <= |chunks|
        invariant FramedSoFar(prior, acc, Concat(chunks[..consumed]), responses.sent + blocked, stringBuf)
        invariant reader == Running ==> blocked == [] || |responses.buffer| == responses.capacity
        invariant responses.received == old(responses.received)
        invariant responses.receiverOpen == old(responses.receiverOpen)
        invariant reader == Panicked ==> old(reader) == Panicked || !responses.receiverOpen
        decreases |chunks| - consumed
      {
        ReadChunkAfter(prior, acc, Concat(chunks[..consumed]), chunks[consumed]);
        ConcatPrefix(chunks, consumed);
        consumed := consumed + 1;
      }
    }

    /**
     * A turn of the reader loop after the text `text` was framed onto the
     * accumulator `acc`: everything produced is the framing of `text` followed
     * by the new chunk.
     */
    method ReadChunkAfter(ghost prior: seq<string>, ghost acc: string, ghost text: string, data: string)
      requires ReaderValid() && reader == Running && blocked == []
      requires FramedSoFar(prior, acc, text, responses.sent + blocked, stringBuf)
      modifies this`stringBuf, this`blocked, this`reader, responses
      ensures ReaderValid()
      ensures FramedSoFar(prior, acc, text + data, responses.sent + blocked, stringBuf)
      ensures reader == Running || reader == Panicked
      ensures reader == Panicked ==> !responses.receiverOpen
      ensures reader == Running ==> blocked == [] || |responses.buffer| == responses.capacity
      ensures responses.received == old(responses.received)
      ensures responses.receiverOpen == old(responses.receiverOpen)
    {
      ghost var produced, buf := responses.sent + blocked, stringBuf;
      ReadChunk(data);
      FrameMore(prior, acc, text, data, produced, buf, responses.sent + blocked, stringBuf);
    }

    /** One turn of the reader loop on a chunk: frame it and send its lines. */
    method ReadChunk(data: string)
      requires ReaderValid() && reader == Running && blocked == []
      modifies this`stringBuf, this`blocked, this`reader, responses
      ensures ReaderValid()
      ensures var step := FrameStep(old(stringBuf), data);
        responses.sent + blocked == old(responses.sent + blocked) + step.lines && stringBuf == step.rest
      ensures reader == Running || reader == Panicked
      ensures reader == Panicked ==> !responses.receiverOpen
      ensures reader == Running ==> blocked == [] || |responses.buffer| == responses.capacity
      ensures responses.received == old(responses.received)
      ensures responses.receiverOpen == old(responses.receiverOpen)
    {
      ReaderTakes(data);
      SendBlocked();
    }

    /** Frame one chunk onto the accumulator; its lines become the blocked ones. */
    method ReaderTakes(data: string)
      requires ReaderValid() && reader == Running && blocked == []
      modifies this`stringBuf, this`blocked
      ensures ReaderValid()
      ensures Framed(blocked, stringBuf) == FrameStep(old(stringBuf), data)
    {
      blocked, stringBuf := FrameChunk([], stringBuf, data);
    }

    /**
     * The writer task runs until it would suspend: it takes the queued
     * commands in FIFO order and writes each one's bytes unchanged; on the
     * end of the command stream it leaves its loop and then aborts the reader.
     * The device accepts the first `failAt` writes of this run and fails the
     * next one, if any; a failed write panics the task, which drops the
     * command receiver without aborting the reader.
     */
    method RunWriter(failAt: nat)
      requires Valid()
      modifies this`written, this`writer, this`reader, commands, responses`senderOpen
      ensures Valid() && (old(InputValid()) ==> InputValid())
      ensures commands.sent == old(commands.sent) && commands.senderOpen == old(commands.senderOpen)
      ensures responses.sent == old(responses.sent) && responses.received == old(responses.received)
      ensures responses.receiverOpen == old(responses.receiverOpen)
      ensures old(writer) != Running ==>
        writer == old(writer) && reader == old(reader) && written == old(written)
        && commands.buffer == old(commands.buffer) && commands.received == old(commands.received)
      ensures old(writer) == Running ==>
        WroteQueue(failAt, old(commands.buffer), old(commands.received), old(written))
        && writer == (if failAt < |old(commands.buffer)| then Panicked
                      else if commands.senderOpen then Running else Finished)
      ensures writer == Finished && old(writer) == Running ==>
        reader == if old(reader) == Running then Aborted else old(reader)
      ensures writer != Finished || old(writer) != Running ==> reader == old(reader)
    {
      if writer != Running {
        return;
      }
      var endOfStream := WriteQueued(failAt);
      if endOfStream {
        EndWriter();
      }
    }

    /**
     * The writer leaves its loop at the end of the command stream: it drops
     * the command receiver, then aborts the reader, which drops its sender.
     */
    method EndWriter()
      requires Valid() && writer == Running && !commands.senderOpen && commands.buffer == []
      modifies this`writer, this`reader, commands`receiverOpen, responses`senderOpen
      ensures Valid() && writer == Finished
      ensures reader == if old(reader) == Running then Aborted else old(reader)
    {
      writer := Finished;
      commands.CloseReceiver();
      if reader == Running {
        reader := Aborted;
        responses.CloseSender();
      }
    }

    /**
     * The writer loop proper: receive and write until the queue is empty, a
     * write fails, or the stream has ended (`endOfStream`, the loop's exit).
     * The first `failAt` writes succeed and the next one fails.
     */
    method WriteQueued(failAt: nat) returns (endOfStream: bool)
      requires WriterValid() && writer == Running
      modifies this`written, this`writer, commands
      ensures WriterValid()
      ensures commands.sent == old(commands.sent) && commands.senderOpen == old(commands.senderOpen)
      ensures WroteQueue(failAt, old(commands.buffer), old(commands.received), old(written))
      ensures writer == if failAt < |old(commands.buffer)| then Panicked else Running
      ensures endOfStream <==> failAt >= |old(commands.buffer)| && !commands.senderOpen
    {
      ghost var received0, queued0 := commands.received, commands.buffer;
      assert received0 + queued0[..0] == received0;
      var n: nat := 0;
      var msg;
      msg, n := WriteAnother(failAt, received0, queued0, n);
      while msg.Item? && n <= failAt
        invariant WriterValid() && DrainedSoFar(received0, queued0, n, Accepted(failAt, n))
        invariant commands.sent == old(commands.sent) && commands.senderOpen == old(commands.senderOpen)
        invariant n <= failAt + 1 && writer == if failAt < n then Panicked else Running
        invariant !msg.Item? ==> n <= failAt && commands.buffer == [] && msg == if commands.senderOpen then Pending else Closed
        decreases |commands.buffer|, if msg.Item? then 1 else 0
      {
        msg, n := WriteAnother(failAt, received0, queued0, n);
      }
      assert n == Taken(failAt, |queued0|);
      EncodeAllAppend(received0, queued0[..Accepted(failAt, n)]);
      endOfStream := !msg.Item? && msg.Closed?;
    }

    /**
     * A writer run over the queue `queued`, whose write at index `failAt`
     * fails, took the commands up to and including the failed one, FIFO,
     * after those received before (`received0`), left the rest queued, and
     * appended to `written0` the bytes of the commands before the failed one.
     */
    ghost predicate WroteQueue(failAt: nat, queued: seq<string>, received0: seq<string>, written0: seq<byte>)
      reads this`written, commands`received, commands`buffer
    {
      var taken, accepted := Taken(failAt, |queued|), Accepted(failAt, |queued|);
      && commands.received == received0 + queued[..taken] && commands.buffer == queued[taken..]
      && written == written0 + EncodeAll(queued[..accepted])
    }

    /**
     * After the first `n` of the commands `queued0` were taken onto those
     * received before, `received0`, and the first `accepted` of them written.
     */
    ghost predicate DrainedSoFar(received0: seq<string>, queued0: seq<string>, n: nat, accepted: nat)
      reads this`written, commands
    {
      && accepted <= n <= |queued0|
      && commands.received == received0 + queued0[..n] && commands.buffer == queued0[n..]
      && written == EncodeAll(received0 + queued0[..accepted])
    }

    /** A turn of the writer loop after `n` commands of this run were taken and written. */
    method WriteAnother(failAt: nat, ghost received0: seq<string>, ghost queued0: seq<string>, n: nat)
      returns (msg: RecvResult, n': nat)
      requires WriterValid() && writer == Running && DrainedSoFar(received0, queued0, n, n) && n <= failAt
      modifies this`written, this`writer, commands
      ensures WriterValid() && DrainedSoFar(received0, queued0, n', Accepted(failAt, n'))
      ensures commands.sent == old(commands.sent) && commands.senderOpen == old(commands.senderOpen)
      ensures writer == if failAt < n' then Panicked else Running
      ensures msg.Item? ==> n' == n + 1
      ensures !msg.Item? ==> n' == n && commands.buffer == [] && msg == if commands.senderOpen then Pending else Closed
    {
      msg := WriteNext(n < failAt);
      n' := n;
      if msg.Item? {
        TakeOne(received0, queued0, n);
        n' := n + 1;
      }
    }

    /**
     * One pass of the writer loop: receive the next command and write its
     * bytes, which the device takes when `accepted`; a failed write panics
     * the task and drops the receiver.
     */
    method WriteNext(accepted: bool) returns (msg: RecvResult)
      requires WriterValid() && writer == Running
      modifies this`written, this`writer, commands
      ensures WriterValid()
      ensures commands.sent == old(commands.sent) && commands.senderOpen == old(commands.senderOpen)
      ensures old(commands.buffer) != [] ==>
        msg == Item(old(commands.buffer)[0]) && commands.buffer == old(commands.buffer)[1..]
        && commands.received == old(commands.received) + [msg.msg]
      ensures old(commands.buffer) == [] ==>
        commands.buffer == [] && commands.received == old(commands.received)
        && msg == if commands.senderOpen then Pending else Closed
      ensures writer == if msg.Item? && !accepted then Panicked else Running
      ensures writer == Panicked ==> written == old(written)
    {
      msg := commands.Recv();
      if msg.Item? {
        if accepted {
          EncodeAllSnoc(old(commands.received), msg.msg);
          written := written + Encode(msg.msg);
        } else {
          writer := Panicked;
          commands.CloseReceiver();
        }
      }
    }
  }

  /** How many of `queued` commands the writer takes when the write at index `failAt` fails. */
  function Taken(failAt: nat, queued: nat): nat {
    if failAt < queued then failAt + 1 else queued
  }

  /** How many of `queued` commands the writer writes when the write at index `failAt` fails. */
  function Accepted(failAt: nat, queued: nat): nat {
    if failAt < queued then failAt else queued
  }

  /** Taking the next queued command extends what was taken and shortens what waits. */
  lemma TakeOne(received0: seq<string>, queued0: seq<string>, n: nat)
    requires n < |queued0|
    ensures received0 + queued0[..n + 1] == (received0 + queued0[..n]) + [queued0[n]]
    ensures queued0[n..][1..] == queued0[n + 1..] && queued0[n..][0] == queued0[n]
  {
    assert queued0[..n + 1] == queued0[..n] + [queued0[n]];
  }

  /** The command queue never holds more than 100 messages. */
  lemma CommandsBounded(comm: SerialComm)
    requires comm.WriterValid()
    ensures |comm.commands.buffer| <= COMMAND_CAPACITY
  {
  }
}
