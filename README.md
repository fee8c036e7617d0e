# Streaming chat-message handler of the Dify Go SDK, modelled in Dafny

The SDK's `ChatMessagesStream` starts a goroutine, `chatMessagesStreamHandle`,
that consumes the HTTP response body of a streaming chat request. The body is
a server-sent-event style stream of `\n`-terminated lines. The handler loops:

1. It checks the context. If it is done, it returns without sending anything.
2. It reads one line with `bufio.Reader.ReadBytes('\n')`. If the read fails
   (at end of stream this happens even when a partial line is left over), it
   sends one error and returns.
3. It drops a line that does not start with `data:`.
4. It strips one `data:` marker and hands the rest to the JSON decoder.
5. A malformed payload sends one error and returns. An event tagged `error`
   sends one error carrying the stripped line and returns. An event tagged
   `message_end` is sent and ends the loop. Any other event is sent and the
   loop goes on.

Its two deferred calls close the channel and then the body.

The project has one module per layer:

- `Bytes` (bytes.dfy): `bytes.HasPrefix` and `bytes.TrimPrefix`.
- `Lines` (lines.dfy): `ReadBytes('\n')` as a function `NextLine` on the
  unread bytes, and `SplitLines`, the lines that repeated reads return.
- `Events` (events.dfy): the event record `ChatMessageStreamResponse`
  (`StreamEvent`), the event-or-error envelope
  `ChatMessageStreamChannelResponse` (`Outcome`), and `Classify`, what one
  line read leads to.
- `StreamSpec` (stream_spec.dfy): `Run` and `Stream`, the whole run as a
  `Trace` (the outcomes sent, the number of reads, the way the loop ended).
  This module also holds the properties of a run and a reference description
  without the loop (`Expected`).
- `StreamHandler` (stream_handler.dfy): the handler as imperative code.
  It is a `while` loop over the body with a read position. Each pass of the
  `select` is the method `Iteration`. The outcomes sent are appended to the
  channel sequence `sent`. It is proved to send exactly `Stream(...)`.
  It makes exactly `Stream(...).readCalls` reads, and it releases the
  channel and then the body.

The environment becomes parameters:

- The body is a byte sequence.
- The context is an oracle `cancel`, where `cancel[k]` tells whether the
  context is done when iteration `k` begins.
- The JSON decoder is a function `Decoder` from a payload to an optional
  event.

## Model

| member | source | states |
|---|---|---|
| Bytes.HasPrefix | api_chat_stream.go:85 | `bytes.HasPrefix`: no contract of its own; stated by Bytes.TrimPrefixInverse and Events.Classify |
| Bytes.TrimPrefix | api_chat_stream.go:88 | `bytes.TrimPrefix`: no contract of its own; stated by Bytes.TrimPrefixRemovesOneCopy, Bytes.TrimPrefixInverse and Bytes.TrimDataPrefixOnlyOnce |
| Lines.FirstNewline | api_chat_stream.go:77 | the delimiter scan of `ReadBytes('\n')`: any index found lies inside the bytes; the rest is stated by Lines.FirstNewlineSpec |
| Lines.NextLine | api_chat_stream.go:77-78 | one `ReadBytes('\n')` call: a line it returns is non-empty and no longer than the unread bytes, so every successful read consumes input; the rest is stated by Lines.NextLineSpec |
| Lines.SplitLines | api_chat_stream.go:77-83 | the lines of repeated reads and the partial tail of the last one: no contract of its own; stated by Lines.SplitLinesSpec and Lines.SplitLinesUnique |
| Events.Payload | api_chat_stream.go:88 | the line after `TrimPrefix`: no contract of its own; stated by Events.PayloadOfDataLine |
| StreamSpec.Run | api_chat_stream.go:72-107 | the loop from iteration k over the unread lines: no contract of its own; stated by StreamSpec.RunCons, StreamSpec.LineEffect, StreamSpec.RunShape, StreamSpec.RunReads, StreamSpec.RunWithoutCancel and StreamSpec.CancelledRun |
| StreamSpec.Stream | api_chat_stream.go:67-108 | the whole run over a body: no contract of its own; stated by StreamSpec.StreamWithoutCancel, StreamSpec.ExactlyOneTerminal, StreamSpec.PartialTailIgnored, StreamSpec.NonDataLineIgnored and StreamSpec.CancelledStream |
| Bytes.TrimPrefixRemovesOneCopy | api_chat_stream.go:88 | trimming "data:" from "data:" + s gives back s, even when s itself starts with "data:": exactly one marker is removed |
| Bytes.TrimPrefixInverse | api_chat_stream.go:85-88 | putting the marker back in front of a trimmed data line restores the line; bytes without the marker pass through unchanged |
| Bytes.TrimDataPrefixOnlyOnce | api_chat_stream.go:88 | "data:data:" + s becomes "data:" + s (TrimPrefix, not TrimLeft) |
| Lines.FirstNewlineSpec | api_chat_stream.go:77 | the delimiter scan finds a '\n' with none before it, or reports there is none at all |
| Lines.NextLineSpec | api_chat_stream.go:77-83 | a read returns a complete line (ends in '\n', no other '\n') taken from the front of the unread bytes; at the end it returns all remaining bytes, which hold no '\n' |
| Lines.NextLineAt | api_chat_stream.go:77 | the line returned runs up to and including the first '\n' |
| Lines.NextLineNone | api_chat_stream.go:77-78 | with no '\n' left, the read returns everything together with the end-of-stream error |
| Lines.NextLineOfLine | api_chat_stream.go:77 | a complete line at the front of the unread bytes is exactly what the next read returns |
| Lines.SplitLinesSpec | api_chat_stream.go:77-83 | the successive reads cut the body into complete lines and a '\n'-free partial tail that concatenate back to the body |
| Lines.SplitLinesUnique | api_chat_stream.go:77-83 | that cut is the only one: any lines-plus-partial decomposition of the body is the one the reads produce |
| Lines.SplitLinesAppend | api_chat_stream.go:77-83 | a body that is two parts meeting at a line boundary yields the lines of the first part, then those of the second |
| Lines.BoundaryHasNoPartial | api_chat_stream.go:77-83 | a body ending in '\n' leaves no partial tail |
| Lines.SplitLinesOfLine | api_chat_stream.go:77 | a single complete line is read back as that one line |
| Lines.EofLeavesNoLine | api_chat_stream.go:77-78 | a read that meets the end of the body leaves no complete line unread |
| Lines.ReadTakesFirstLine | api_chat_stream.go:77 | the line a read returns is the first unread line, and the bytes after it hold the remaining lines and the same partial tail |
| Lines.ReadAt | api_chat_stream.go:77 | the same for a reader at byte position pos, which then advances by the length of the line |
| Events.Classify | api_chat_stream.go:85-105 | a line is skipped iff it lacks "data:"; a rejected payload stops with DecodeError, and only then, whatever its tag; the loop stops with ErrorEvent iff the decoded tag is "error", and the protocol error carries the line without its marker; it stops with MessageEnd iff the tag is "message_end", sending the decoded event; it forwards iff the tag is anything else, sending the decoded event; a stop is terminal and names its exit |
| Events.StepOutcomes | api_chat_stream.go:79-105 | one line read sends at most one outcome, and none exactly when the line is skipped |
| Events.PayloadOfDataLine | api_chat_stream.go:77-91 | the decoder sees the line minus one marker, with its trailing '\n' still there |
| StreamSpec.RunCons | api_chat_stream.go:72-107 | an iteration that is not cancelled and reads line l either stops with its one outcome after one read, or sends its outcome ahead of the rest of the run |
| StreamSpec.LineEffect | api_chat_stream.go:85-105 | a non-data line adds nothing; a rejected payload ends the run with one DecodeError whatever its tag; an "error" event ends it with one ProtocolError holding the stripped line; "message_end" is sent unchanged and ends it after one read; any other event is sent unchanged ahead of the rest |
| StreamSpec.RunShape | api_chat_stream.go:72-107 | no terminal outcome is followed by another outcome; a run ends with a terminal outcome iff it was not cancelled, and that outcome tells how it ended |
| StreamSpec.RunReads | api_chat_stream.go:72-83 | no read happens after cancellation is seen; a cancelled run stopped at a cancelled iteration; at most one read per line plus one; a run ending in a read error read every line and then the end |
| StreamSpec.RunWithoutCancel | api_chat_stream.go:72-107 | without cancellation the loop sends the outcomes of the data lines in order, cut after the first terminal one, or followed by one read error if none is terminal |
| StreamSpec.StreamWithoutCancel | api_chat_stream.go:72-107 | the same for a whole body, and such a run always ends by itself |
| StreamSpec.CountOfShape | api_chat_stream.go:72-107 | an output with nothing after a terminal outcome holds exactly one terminal outcome if it ends with one, otherwise none |
| StreamSpec.ExactlyOneTerminal | api_chat_stream.go:77-83 | without cancellation every finite body yields exactly one terminal outcome, and it is the last one |
| StreamSpec.CancelledRunHasNoTerminal | api_chat_stream.go:73-75 | a cancelled run sends no terminal outcome at all |
| StreamSpec.PartialTailIgnored | api_chat_stream.go:77-83 | bytes after the last '\n' change nothing: they are never decoded |
| StreamSpec.SplitWithLine | api_chat_stream.go:77 | a complete line placed at a line boundary is read as one line between the lines before and after it |
| StreamSpec.LineOutcomesAppend | api_chat_stream.go:85-105 | the per-line outcomes of two runs of lines concatenate |
| StreamSpec.NonDataLineIgnored | api_chat_stream.go:85-87 | inserting a complete line without "data:" anywhere at a line boundary leaves the outcomes unchanged |
| StreamSpec.CancelledRun | api_chat_stream.go:73-75 | a cancelled run read no more lines than there are and sent exactly the outcomes of the lines it read |
| StreamSpec.CancelledRunIsPrefix | api_chat_stream.go:73-75 | whatever cancellation does, what was sent is a prefix of what the uncancelled run sends |
| StreamSpec.CancelledStream | api_chat_stream.go:73-75 | over a whole body: output is a prefix of the uncancelled output; a cancelled run sent the outcomes of the lines it read; cancellation before the first iteration sends nothing and reads nothing |
| StreamSpec.DeltasThenEndRun | api_chat_stream.go:101-105 | data lines with non-terminal events then a message_end line send those events unchanged and in order, then the message_end event, after one read per line |
| StreamSpec.DeltasThenEnd | api_chat_stream.go:101-105 | the same for the body made of those lines, whatever the events' answers (empty ones included) |
| StreamHandler.IndexOfNewline | api_chat_stream.go:77 | the scan stops at the first '\n' at or after the position, or at the end |
| StreamHandler.ReadBytes | api_chat_stream.go:77-83 | the read returns exactly NextLine of the unread bytes, with the end-of-stream flag; the position moves past the line and strictly forward unless at the end |
| StreamHandler.HandleLine | api_chat_stream.go:85-105 | the sends and the return decision of one iteration after its read agree with Classify |
| StreamHandler.Iteration | api_chat_stream.go:73-105 | one pass of the select: it reads iff not cancelled; if the loop returns, it sent all that is left of the run; otherwise the reader is past one line and the rest of the run is what follows that line |
| StreamHandler.ChatMessagesStreamHandle | api_chat_stream.go:67-108 | the channel receives exactly Stream(body, cancel, decode).outcomes with exactly that many reads; the channel is closed, then the body, once each |

## Left out

- ChatMessagesStreamRaw and ChatMessagesStream (api_chat_stream.go:46-65)
  are not modelled. They build and send the HTTP request and start the
  goroutine, and they wrap `net/http` and code that is not part of this
  model.
- The goroutine and the unbuffered channel are not modelled. A send is an
  append to `sent`, and blocking is not represented. In the code the sends
  sit outside the `select`, so a blocked send does not see cancellation;
  the model likewise checks cancellation only at the top of an iteration.
- JSON decoding is a function parameter, so field matching and whitespace
  handling are not modelled. Only the outcome matters: rejected, or an event
  with its tag.
- The usage metadata block (api_chat_stream.go:24-39) is not part of the
  event record, because it holds a float64 latency and no logic.
- Error values are kinds (`ReadError`, `DecodeError`, `ProtocolError`), not
  the text of `fmt.Errorf`. `ProtocolError` keeps the stripped line the
  message is built from.
- A read error in the middle of the body is not distinguished from the end
  of the body. Either way the read returns an error, one `ReadError` is sent
  and the loop returns.
- `context.Context` is the oracle `cancel`. It covers only the cancellation
  the `select` sees at the top of an iteration (api_chat_stream.go:73-75).
- A cancellation that fails a blocked body read is modelled as the body
  ending there. The request is built with the same context
  (api_chat_stream.go:49), so cancelling it can make `ReadBytes` return an
  error. The handler then sends one read error and returns
  (api_chat_stream.go:77-82). The model shows that as a run that was not
  cancelled and ends with `ReadError`. So `CancelledRunHasNoTerminal` speaks
  only of cancellation seen by the `select`.
- The response body is a read-only byte sequence with a read position, not
  a stateful reader object. The reader's internal buffering is not
  modelled, because it is not observable in what the handler sends.
- StreamHandler.ChatMessagesStreamHandle: the two closes are recorded in a
  ghost log in the order the deferred calls run. The runtime's LIFO
  execution of `defer` is therefore written out, not derived.

Three facts about the code that the model keeps:

- On cancellation the handler sends nothing and returns (api_chat_stream.go:74-75). The consumer sees only the channel closing.
- The decode error wraps only the decoder's error, not the payload (api_chat_stream.go:92-94). So `DecodeError` carries no bytes.
- The sends sit outside the `select` (api_chat_stream.go:79, 92, 97, 102, 105). A send that blocks is not raced against cancellation.
