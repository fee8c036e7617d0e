/**
 * The decoded stream event, the event-or-error envelope placed on the
 * output channel, and the classification of one line read from the body.
 */
module Events {

  import opened Options
  import opened Bytes
  import opened Lines

  newtype int64 = x: int | -0x8000_0000_0000_0000 <= x < 0x8000_0000_0000_0000

  /** ChatMessageStreamResponse: one decoded event. The `event` tag is an
      open-ended string; the usage metadata block is not modelled. */
  datatype StreamEvent = StreamEvent(
    event: string,
    taskId: string,
    id: string,
    answer: string,
    createdAt: int64,
    conversationId: string)

  /** Why the stream stopped with an error. Only an explicit error event
      carries bytes: the data line with its "data:" marker removed. */
  datatype StreamError =
    | ReadError
    | DecodeError
    | ProtocolError(line: seq<byte>)

  /** ChatMessageStreamChannelResponse: either an event or an error. */
  datatype Outcome = Event(ev: StreamEvent) | Failure(err: StreamError)

  /** The JSON decoder, which lies outside this model: given a payload it
      yields an event or reports that the payload is malformed. */
  type Decoder = seq<byte> -> Option<StreamEvent>

  /** An outcome after which the handler sends nothing more. */
  predicate IsTerminal(o: Outcome)
  {
    o.Failure? || o.ev.event == "message_end"
  }

  /** How the handler's loop ended. */
  datatype Exit = Cancelled | ReadFailed | DecodeFailed | ErrorEvent | MessageEnd

  /** The exit that a terminal outcome stands for. */
  function ExitOf(o: Outcome): Exit
    requires IsTerminal(o)
  {
    match o
    case Event(_) => MessageEnd
    case Failure(ReadError) => ReadFailed
    case Failure(DecodeError) => DecodeFailed
    case Failure(ProtocolError(_)) => ErrorEvent
  }

  predicate IsDataLine(line: seq<byte>)
  {
    HasPrefix(line, DataPrefix)
  }

  /** What the decoder is given for a data line: the line without its one
      leading "data:" marker. */
  function Payload(line: seq<byte>): seq<byte>
  {
    TrimPrefix(line, DataPrefix)
  }

  /** What one line read from the body leads to: nothing, a forwarded event
      (the loop goes on), or a terminal outcome (the loop stops). */
  datatype LineStep = Skip | Forward(ev: StreamEvent) | Stop(outcome: Outcome, exit: Exit)

  /** The body of one loop iteration after a successful read. */
  function Classify(line: seq<byte>, decode: Decoder): (r: LineStep)
    ensures r.Skip? <==> !IsDataLine(line)
    ensures r.Forward? ==> decode(Payload(line)) == Some(r.ev) && !IsTerminal(Event(r.ev))
    ensures r.Stop? ==> IsTerminal(r.outcome) && ExitOf(r.outcome) == r.exit
    ensures r.Stop? && r.outcome.Event? ==> decode(Payload(line)) == Some(r.outcome.ev)
    ensures r.Stop? && r.outcome.Failure? && r.outcome.err.ProtocolError? ==>
              DataPrefix + r.outcome.err.line == line
    ensures r == Stop(Failure(DecodeError), DecodeFailed) <==>
              IsDataLine(line) && decode(Payload(line)).None?
    ensures r.Stop? && r.exit == ErrorEvent <==>
              IsDataLine(line) && decode(Payload(line)).Some? && decode(Payload(line)).value.event == "error"
    ensures r.Stop? && r.exit == MessageEnd <==>
              IsDataLine(line) && decode(Payload(line)).Some? && decode(Payload(line)).value.event == "message_end"
    ensures r.Forward? <==>
              IsDataLine(line) && decode(Payload(line)).Some?
              && decode(Payload(line)).value.event != "error" && decode(Payload(line)).value.event != "message_end"
  {
    if !IsDataLine(line) then Skip
    else
      var payload := Payload(line);
      TrimPrefixInverse(line, DataPrefix);
      match decode(payload)
      case None => Stop(Failure(DecodeError), DecodeFailed)
      case Some(ev) =>
        if ev.event == "error" then Stop(Failure(ProtocolError(payload)), ErrorEvent)
        else if ev.event == "message_end" then Stop(Event(ev), MessageEnd)
        else Forward(ev)
  }

  /** What the handler sends for one line it has read. */
  function StepOutcomes(step: LineStep): (r: seq<Outcome>)
    ensures |r| <= 1
    ensures r == [] <==> step.Skip?
  {
    match step
    case Skip => []
    case Forward(ev) => [Event(ev)]
    case Stop(o, _) => [o]
  }

  /** The decoder sees a complete data line minus its marker, still ending
      with its '\n'. */
  lemma PayloadOfDataLine(line: seq<byte>)
    requires IsLine(line) && IsDataLine(line)
    ensures DataPrefix + Payload(line) == line
    ensures |Payload(line)| > 0 && Payload(line)[|Payload(line)| - 1] == NL
  {
    TrimPrefixInverse(line, DataPrefix);
  }
}
