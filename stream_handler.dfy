/**
 * The stream handler as the program runs it: a loop over a buffered
 * reader on the response body, sending outcomes on a channel, with the two
 * deferred closes run when the loop ends.
 *
 * The response body is read-only input, a byte sequence consumed through a
 * read position. The channel is the sequence of outcomes sent on it, in
 * order; the goroutine and the blocking of sends are not modelled. The two
 * closes are recorded in a ghost log of released resources.
 */
module StreamHandler {

  import opened Options
  import opened Bytes
  import opened Lines
  import opened Events
  import opened StreamSpec

  /** The resources the handler releases, in the order it releases them. */
  datatype Release = ChannelClosed | BodyClosed

  /** First index at or after `from` holding '\n', or |s| if there is none:
      the scan bufio.Reader makes for the delimiter. */
  method IndexOfNewline(s: seq<byte>, from: nat) returns (k: nat)
    requires from <= |s|
    ensures from <= k <= |s|
    ensures k < |s| ==> s[k] == NL
    ensures forall j :: from <= j < k ==> s[j] != NL
  {
    k := from;
    while k < |s| && s[k] != NL
      invariant from <= k <= |s|
      invariant forall j :: from <= j < k ==> s[j] != NL
    {
      k := k + 1;
    }
  }

  /** reader.ReadBytes('\n') on a reader positioned at `pos`: the next line,
      delimiter included, and the position after it; at the end of the body,
      the partial bytes left over, with eof set and the position at the end. */
  method ReadBytes(body: seq<byte>, pos: nat) returns (line: seq<byte>, eof: bool, next: nat)
    requires pos <= |body|
    ensures NextLine(body[pos..]) == if eof then Eof(line) else Line(line)
    ensures pos < next <= |body| || (eof && next == |body|)
    ensures next == pos + |line|
    ensures body[pos..next] == line
  {
    var k := IndexOfNewline(body, pos);
    ghost var unread := body[pos..];
    assert forall j :: 0 <= j < k - pos ==> unread[j] == body[pos + j];
    if k < |body| {
      line := body[pos..k + 1];
      NextLineAt(unread, k - pos);
      assert unread[..k - pos + 1] == line;
      next := k + 1;
      eof := false;
    } else {
      line := body[pos..];
      NextLineNone(unread);
      next := |body|;
      eof := true;
    }
  }

  /** The rest of one iteration once a line has been read: drop a line
      without the "data:" marker, strip the marker once, decode, and look at
      the event tag. `out` is what goes on the channel and `stop` tells
      whether the iteration returns. */
  method HandleLine(line: seq<byte>, decode: Decoder) returns (out: seq<Outcome>, stop: bool)
    ensures out == StepOutcomes(Classify(line, decode))
    ensures stop <==> Classify(line, decode).Stop?
  {
    out := [];
    stop := false;
    if !HasPrefix(line, DataPrefix) {
      return;
    }
    var payload := TrimPrefix(line, DataPrefix);
    match decode(payload)
    case None =>
      out, stop := [Failure(DecodeError)], true;
    case Some(ev) =>
      if ev.event == "error" {
        out, stop := [Failure(ProtocolError(payload))], true;
      } else if ev.event == "message_end" {
        out, stop := [Event(ev)], true;
      } else {
        out := [Event(ev)];
      }
  }

  /** One pass of the select loop, at iteration `k` with the reader at
      `pos`: what it sends, whether it read, and whether the loop returns;
      otherwise the reader has moved past one line and the run goes on with
      the lines after it. */
  method Iteration(body: seq<byte>, pos: nat, k: nat, cancel: seq<bool>, decode: Decoder,
                   ghost unread: seq<seq<byte>>, ghost partial: seq<byte>)
    returns (out: seq<Outcome>, ghost read: bool, done: bool, next: nat)
    requires pos <= |body| && IsSplit(body[pos..], unread, partial)
    ensures read <==> !CancelledAt(cancel, k)
    ensures done ==> out == Run(unread, k, cancel, decode).outcomes
                     && Run(unread, k, cancel, decode).readCalls == (if read then 1 else 0)
    ensures !done ==> unread != [] && read && pos < next <= |body|
                      && IsSplit(body[next..], unread[1..], partial)
                      && Run(unread, k, cancel, decode).outcomes
                         == out + Run(unread[1..], k + 1, cancel, decode).outcomes
                      && Run(unread, k, cancel, decode).readCalls
                         == 1 + Run(unread[1..], k + 1, cancel, decode).readCalls
  {
    // select: the context is done
    if CancelledAt(cancel, k) {
      return [], false, true, pos;
    }
    // default: read the next line
    var line, eof;
    line, eof, next := ReadBytes(body, pos);
    read := true;
    if eof {
      EofLeavesNoLine(body[pos..], unread, partial);
      return [Failure(ReadError)], true, true, next;
    }
    ReadAt(body, pos, unread, partial, line);
    out, done := HandleLine(line, decode);
  }

  /**
   * chatMessagesStreamHandle. `cancel[k]` tells whether the context is done
   * when iteration k begins; `decode` is the JSON decoder; `sent` is what
   * the channel receives. The loop stops where the Go handler returns; the
   * two closes after it are its deferred calls, run in the reverse of the
   * order in which they were deferred.
   */
  method ChatMessagesStreamHandle(body: seq<byte>, cancel: seq<bool>, decode: Decoder)
    returns (sent: seq<Outcome>, ghost readCalls: nat, ghost released: seq<Release>)
    ensures sent == Stream(body, cancel, decode).outcomes
    ensures readCalls == Stream(body, cancel, decode).readCalls
    ensures released == [ChannelClosed, BodyClosed]
  {
    ghost var unread := SplitLines(body).0;
    ghost var partial := SplitLines(body).1;
    ghost var whole := Run(unread, 0, cancel, decode);
    SplitFromStart(body);
    sent := [];
    readCalls := 0;
    var pos: nat := 0;
    var iteration: nat := 0;
    var done := false;
    while !done
      invariant pos <= |body|
      invariant !done ==> IsSplit(body[pos..], unread, partial)
      invariant !done ==> whole.outcomes == sent + Run(unread, iteration, cancel, decode).outcomes
      invariant !done ==> whole.readCalls == readCalls + Run(unread, iteration, cancel, decode).readCalls
      invariant done ==> whole.outcomes == sent && whole.readCalls == readCalls
      decreases |body| - pos, !done
    {
      var out, next;
      ghost var read;
      out, read, done, next := Iteration(body, pos, iteration, cancel, decode, unread, partial);
      sent := sent + out;
      readCalls := readCalls + if read then 1 else 0;
      if !done {
        unread := unread[1..];
        pos := next;
        iteration := iteration + 1;
      }
    }
    // the deferred calls, last deferred first
    released := [ChannelClosed];            // close(streamChannel)
    released := released + [BodyClosed];    // resp.Body.Close()
  }
}
