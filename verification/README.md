# cncd relay core in Dafny

This project models the duplex relay at the heart of `cncd`, a server that
links a serial-attached CNC controller to a websocket client. It has two parts.

**The serial link** (`SerialComm`, in `src/comm_async/mod.rs`) runs two tasks.
- The *reader task* appends each chunk read from the device to the
  accumulator `string_buf` and splits the result on `"\n"`. It sends every
  segment but the last to the response channel as a completed line. The last
  segment becomes the new accumulator.
- The *writer task* takes commands from a bounded command channel of capacity
  100. It writes each command's bytes to the device unchanged. At the end of
  the command stream it leaves its loop and aborts the reader.

**The session** (`WebSocketActor`, in `src/websocket/actor.rs`) serves one
client connection.
- It owns the serial link and the receiving end of a response channel of
  capacity 42.
- It answers pings with pongs and echoes close frames.
- It hands each text frame to a spawned send on the command channel.
- It relays device lines to the client as text frames.
- A heartbeat tick every 5 s drops a client that has sent no ping or pong
  for more than 10 s. Text frames do not refresh the heartbeat.

Files:

- `framer.dfy` (module `LineFramer`) holds the framing step as pure
  functions (`Split` is `str::split("\n")`, `FrameStep` is one turn of the
  reader loop) and its properties:
  - it is lossless and leaves no delimiter in any line or in the accumulator;
  - it gives one line per delimiter;
  - the accumulator is the text after the last delimiter;
  - framing has a unique outcome;
  - it does not depend on how the input is cut into chunks.
- `utf8.dfy` (module `Utf8`) defines `String::as_bytes` as UTF-8 encoding
  (RFC 3629, section 3) of the characters.
- `channel.dfy` (module `Channels`) models a tokio bounded mpsc channel as
  a class. It keeps ghost logs of everything sent and received. Its
  invariant says the queue stays within capacity and is first in, first out.
  - A send that would wait for room reports `Full`.
  - A receive that would wait reports `Pending`.
  - `None` (`Closed`) comes only once the queue is empty and every sender is
    gone.
- `comm_async.dfy` (module `CommAsync`) holds the `SerialComm` class.
  - Its reader and writer loops are methods proved against `FrameStep` and
    `EncodeAll`.
  - A ghost record of all the text read so far keeps nothing lost: the lines
    sent, then those waiting, then the accumulator spell it out.
  - A task that would suspend returns. A run of the link is a sequence of
    such calls.
- `session.dfy` (module `WebSocket`) holds the `Session` class, one method
  per actor callback.
  - Its invariant ties the client's texts to the bytes written to the device.
  - It also ties the device's lines to the text frames sent to the client.
- `wrappers.dfy` holds `Option`.

Time is a `nat` count of nanoseconds from a monotonic clock. The caller
passes it in. `Instant::duration_since` saturates at zero.

Two behaviours of the code are easy to misread, and the model follows the
code in both.
- **Failed device write.** It is not reported to the session as an error.
  `expect` panics the writer task, which drops the command receiver without
  aborting the reader. The model's writer becomes `Panicked`, and the
  session's next send to the command channel panics too.
- **End of the response stream.** The session stops when the stream ends
  (after the reader task has dropped its sender). This is actix's default
  `StreamHandler::finished`, which the code does not override.

## Model

| member | source | states |
|---|---|---|
| LineFramer.Split | src/comm_async/mod.rs:29 | `str::split("\n")` always yields at least one segment, so the last segment the loop keeps always exists |
| LineFramer.SplitJoin | src/comm_async/mod.rs:29 | the segments but the last, each followed by `"\n"`, then the last segment, give back the text exactly |
| LineFramer.SplitNoNewline | src/comm_async/mod.rs:29 | no segment of a split holds `'\n'` |
| LineFramer.SplitTerminated | src/comm_async/mod.rs:29 | delimiter-free lines joined with `"\n"`, then a delimiter-free tail, split back into exactly those lines and that tail |
| LineFramer.FrameStep | src/comm_async/mod.rs:27-41 | one turn of the reader loop is lossless: the lines each followed by `"\n"`, then the new accumulator, spell out exactly the old accumulator plus the chunk; no line and no accumulator holds `'\n'` |
| LineFramer.FrameUnique | src/comm_async/mod.rs:27-41 | any delimiter-free lines and accumulator that spell out the old accumulator plus the chunk are the ones the step produces |
| LineFramer.LinesPerNewline | src/comm_async/mod.rs:29-36 | the number of lines sent equals the number of `'\n'` in the old accumulator plus the chunk |
| LineFramer.RestIsTailAfterLastNewline | src/comm_async/mod.rs:37-41 | the new accumulator is the delimiter-free suffix after the last `'\n'`, and is cleared when the text ends with `'\n'` |
| LineFramer.FrameEmpty | src/comm_async/mod.rs:27-41 | an empty chunk on a delimiter-free accumulator sends nothing and keeps the accumulator |
| LineFramer.ChunkingInvariance | src/comm_async/mod.rs:24-41 | framing `a` then `b` sends the same lines in the same order, and keeps the same accumulator, as framing `a + b` at once |
| LineFramer.FrameAll | src/comm_async/mod.rs:24-41 | over any number of reads nothing is lost: the lines each followed by `"\n"`, then the final accumulator, spell out the starting accumulator and every chunk in order; no line holds `'\n'`, nor does the accumulator when the starting one did not |
| LineFramer.FrameAllIsFrameOnce | src/comm_async/mod.rs:24-41 | framing any sequence of chunks one at a time equals framing their concatenation once |
| LineFramer.ReassemblyExample | src/comm_async/mod.rs:24-41 | `"ok\na"` then `"\n"` sends `["ok"]` keeping `"a"`, then `["a"]` keeping nothing |
| LineFramer.SingleDeliveryExample | src/comm_async/mod.rs:24-41 | `"ok\na\n"` in one read sends `["ok", "a"]` and clears the accumulator |
| Utf8.EncodeChar | src/comm_async/mod.rs:59 | a character's UTF-8 encoding is 1 to 4 bytes; ASCII is its own byte; every byte of a longer encoding has the high bit set |
| Utf8.Encode | src/comm_async/mod.rs:59 | `as_bytes` gives one to four bytes per character, and one byte per character when all are ASCII |
| Utf8.EncodeAppend | src/comm_async/mod.rs:59 | encoding distributes over string concatenation |
| Utf8.EncodeKeepsNewlines | src/comm_async/mod.rs:56-61 | the bytes written hold exactly as many LF bytes as the command has `'\n'`: no terminator is added or removed |
| Utf8.EncodeAllIsEncodeConcat | src/comm_async/mod.rs:53-67 | the bytes of commands written one after another are the encoding of their text put together: no command boundary adds or drops a byte |
| Utf8.EncodeAllAppend | src/comm_async/mod.rs:53-67 | the bytes of two batches of commands are the first batch's bytes, then the second's |
| Channels.Channel.constructor | src/comm_async/mod.rs:17 | a new channel is empty, open at both ends and within its (non-zero) capacity |
| Channels.Channel.Send | src/comm_async/mod.rs:32-35 | a send fails once the receiver is dropped, waits while the queue is full, and otherwise appends the message at the back |
| Channels.Channel.Recv | src/comm_async/mod.rs:54 | a receive takes the oldest message; with an empty queue it waits while a sender lives and yields end of stream otherwise |
| Channels.Channel.CloseSender | src/comm_async/mod.rs:43-49 | dropping the sender ends the stream and keeps the queue invariant |
| Channels.Channel.CloseReceiver | src/comm_async/mod.rs:63-66 | dropping the receiver keeps the queue invariant |
| CommAsync.FrameChunk | src/comm_async/mod.rs:27-41 | the loop body (append, split, send all but the last segment, keep or clear the last) sends exactly the lines of `FrameStep` and keeps its accumulator |
| CommAsync.FrameMore | src/comm_async/mod.rs:24-41 | framing one more chunk after earlier ones extends the framing of all of the text at once |
| CommAsync.CommandsBounded | src/comm_async/mod.rs:17 | the command queue never holds more than 100 messages |
| CommAsync.SerialComm.constructor | src/comm_async/mod.rs:12-80 | a command channel of capacity 100; both tasks running; empty accumulator; nothing read yet; the reader holds the response sender |
| CommAsync.SerialComm.GetSender | src/comm_async/mod.rs:81-83 | the sender returned feeds the same command queue the writer drains |
| CommAsync.SerialComm.SendBlocked | src/comm_async/mod.rs:30-36 | waiting lines go to the response channel in order while it has room; a dropped receiver panics the reader |
| CommAsync.SerialComm.Read | src/comm_async/mod.rs:20-50 | the lines sent or waiting are exactly those of framing all chunks taken onto the old accumulator, and the lines sent, then those waiting, then the accumulator spell out all the text ever taken; a failed read, and only that, finishes the task; the task panics only when the response receiver is gone; lines wait only while the response channel is full; a task no longer running takes nothing |
| CommAsync.SerialComm.RunReader | src/comm_async/mod.rs:24-47 | for a running reader: pending sends, then chunks, then the failed read that finishes it; a panic means the response receiver is gone; lines wait only while the response channel is full |
| CommAsync.SerialComm.ReadChunks | src/comm_async/mod.rs:24-42 | the loop over successful reads keeps the framing equation and stops only when input runs out, a send waits or the task panics, which happens only once the response receiver is gone |
| CommAsync.SerialComm.ReadChunkAfter | src/comm_async/mod.rs:26-41 | one turn of the loop extends the framing of everything read so far; the task panics only if the response receiver is gone |
| CommAsync.SerialComm.ReadChunk | src/comm_async/mod.rs:26-41 | one chunk is framed and its lines are sent or left waiting, in order; the task panics only if the response receiver is gone, and lines wait only while the response channel is full |
| CommAsync.SerialComm.ReaderTakes | src/comm_async/mod.rs:27-41 | the accumulator and the lines to send become those of `FrameStep` |
| CommAsync.SerialComm.RunWriter | src/comm_async/mod.rs:51-78 | queued commands are received in FIFO order and their bytes written verbatim; when the write at index `failAt` fails, the commands before it are written, it is taken but not written, the rest stay queued and the writer panics without aborting the reader; otherwise the loop ends only on end of stream, after which the reader is aborted |
| CommAsync.SerialComm.EndWriter | src/comm_async/mod.rs:63-69 | at the end of the command stream the writer finishes, dropping its receiver, and a running reader is aborted |
| CommAsync.SerialComm.WriteQueued | src/comm_async/mod.rs:53-67 | the writer loop takes the queue in order up to and including the first failed write, appends the bytes of every command before it, and reports end of stream exactly when every write succeeded and no sender is left |
| CommAsync.SerialComm.WriteAnother | src/comm_async/mod.rs:53-62 | one turn of the writer loop takes the next command, and the bytes written stay those of the commands taken before the failed one |
| CommAsync.SerialComm.WriteNext | src/comm_async/mod.rs:54-61 | one pass takes the oldest command and appends its bytes, or panics on a failed write |
| WebSocket.TimedOut | src/websocket/actor.rs:37 | the session times out exactly when more than 10 s have passed since the last heartbeat |
| WebSocket.TimeoutIsStrict | src/websocket/actor.rs:37 | the comparison is strict: 10 s exactly does not time out, 10 s plus 1 ns does |
| WebSocket.TicksUntilTimeout | src/websocket/actor.rs:36-42 | with ticks every 5 s and a silent client, the first tick that times out comes at most 15 s after the last heartbeat, and no earlier tick times out |
| WebSocket.TextsOfTextFrames | src/websocket/actor.rs:96-99 | relaying lines as text frames loses, adds and reorders none of them |
| WebSocket.TextsAppend | src/websocket/actor.rs:96-99 | the texts of two runs of frames are those of the first run, then those of the second |
| WebSocket.RelayedLinesInOrder | src/websocket/actor.rs:55-62 | the text frames sent are a prefix, in order, of the lines the reader sent, and those are a prefix of the lines of all the text read from the device, framed at once; the response queue never holds more than 42 lines |
| WebSocket.ForwardedTextsInOrder | src/websocket/actor.rs:83-89 | while the writer task has not panicked, and with spawned sends completing in spawn order, the bytes written to the device are the encodings of a prefix, in order, of the texts the client sent |
| WebSocket.Session.constructor | src/websocket/actor.rs:21-30 | a fresh response channel of capacity 42; a fresh serial link at 115200 baud whose reader has taken nothing (empty accumulator, no waiting lines) and whose writer has written nothing; heartbeat set to now; receiver held; no stream attached |
| WebSocket.Session.Started | src/websocket/actor.rs:51-65 | schedules the heartbeat, takes the receiver and attaches the stream; a second take panics |
| WebSocket.Session.Stop | src/websocket/actor.rs:80-81 | stopping cancels the spawned sends and drops the command sender and the response receiver |
| WebSocket.Session.Tick | src/websocket/actor.rs:36-42 | if more than 10 s have passed, the session stops with no frame; otherwise exactly one empty ping is sent |
| WebSocket.Session.Handle | src/websocket/actor.rs:70-93 | Ping and Pong refresh the heartbeat and only a Ping is answered; Close is echoed and stops; Text is queued for the device; anything else, or a protocol error, stops with no frame |
| WebSocket.Session.Emit | src/websocket/actor.rs:41-82 | a ping, pong or close frame is appended to what the client receives and carries no device line |
| WebSocket.Session.OnPing | src/websocket/actor.rs:72-75 | the heartbeat becomes now and one pong with the same payload is sent |
| WebSocket.Session.OnPong | src/websocket/actor.rs:76-78 | the heartbeat becomes now; nothing else changes |
| WebSocket.Session.OnClose | src/websocket/actor.rs:79-82 | a close with the identical reason is sent, then the session stops |
| WebSocket.Session.OnText | src/websocket/actor.rs:83-89 | the payload, unchanged, joins the spawned sends after those before it |
| WebSocket.Session.PollSends | src/websocket/actor.rs:84-89 | spawned sends enter the command channel in spawn order (assumed scheduling order) while it has room, and the command sender stays open; a dropped receiver panics the `unwrap` |
| WebSocket.Session.ForwardPending | src/websocket/actor.rs:84-86 | through the sender `get_sender` hands out, the oldest spawned send completes when the command channel has room, waits when it is full, and fails once the receiver is gone |
| WebSocket.Session.PollResponses | src/websocket/actor.rs:54-64 | every waiting device line goes out as one text frame, unchanged and in order; the end of the stream stops the session |
| WebSocket.Session.DrainResponses | src/websocket/actor.rs:55-62 | the stream loop receives until the queue is empty and reports end of stream exactly when no sender is left |
| WebSocket.Session.ClientGone | src/websocket/actor.rs:69 | the end of the client's frame stream stops the session with no frame |

## Left out

- Opening the serial port and splitting it into halves (`src/comm_async/mod.rs:13-16`) are foreign calls. The model starts from an open port; the panic when opening fails is not modelled.
- The lossy UTF-8 decoding of each read, and the 1024-byte read buffer, are left out. Chunks are already-decoded characters. Chunking invariance is stated over characters; it would fail over raw bytes when a multi-byte sequence straddles two reads.
- Concurrency is left out. Tasks, `task::spawn`, actix's `ctx.spawn`, `add_stream` and `run_interval` become methods that the caller invokes in some order.
- The reader abort is modelled as the reader moving to `Aborted` at the writer's exit. Awaiting the aborted reader and logging the result (`src/comm_async/mod.rs:69-77`) is left out.
- Logging is left out throughout.
- `src/main.rs` and `src/websocket/mod.rs` are not part of this model. They cover process start-up, the HTTP server and the websocket upgrade.
- Panics (`expect`, `unwrap`) become a `Panicked` state of the task or session. What a panic does to the rest of the process is not modelled.
- The real waiting of tokio channels is not modelled. A send or receive that would suspend reports `Full` or `Pending`, and the caller repeats it later.
- CommAsync.SerialComm.RunWriter: a failed `write_all` is modelled as writing no byte of that command, although the device may have accepted a prefix of it. Which write fails is given by its index in the run (`failAt`); the device itself is not modelled.
- WebSocket.Session.PollSends: spawned sends are assumed to complete in the order they were spawned. This is an assumption about the order in which actix polls a context's spawned futures. tokio does not give it: a bounded `send` queues on the channel's semaphore only when no permit is free, so while the command channel has room each send completes on its first poll. actix's scheduler is not part of this model.
- WebSocket.ForwardedTextsInOrder: its "in order" rests on the spawn-order assumption of `PollSends`. It also says nothing once the writer task has panicked, because a failed write may have put part of a command on the wire.
- WebSocket.TicksUntilTimeout: when the very first tick already times out, the tick time is not bounded by the last heartbeat plus 15 s.
- WebSocket.Session.Handle: the handler requires a running session. actix delivers no frames to a stopped actor, so the model does not describe that case.
- The `spawn_handle` value itself is not kept. Only whether the stream is attached (`streaming`) is recorded, because the code never uses the handle again.
