/** The session of package chat: a read loop that parses each frame and
    answers it on the user's outbound queue, "ok" for a valid frame and an
    error for an invalid one. Handlers are not wired in yet, so a valid frame
    changes nothing but the queue. The read loop consumes a finite list of
    read outcomes; the concurrent write flow is not modelled, so the queue is
    everything enqueued and not yet written. */
module ChatClient {
  import opened Wire
  import opened ChatProtocol

  /** The capacity of the outbound channel a session creates. */
  const OutboundCapacity: nat := 8

  /** One outcome of reading from the connection: a failure (end of stream
      included), or a frame together with whether the session was cancelled
      by the time it arrived. */
  datatype Read = ReadFailed | Received(frame: RawFrame, cancelled: bool)

  /** Why the read loop returned. */
  datatype Exit = ReadError | Cancelled | SendFailed

  /** The answer to one frame: the parse error, or OK. */
  function Reply(frame: RawFrame): (m: Message)
    ensures ParseMessage(frame).Accepted? ==> m == OKMessage()
    ensures ParseMessage(frame).Rejected? ==>
      m == ErrMessage("invalid message: " + ErrorText(ParseMessage(frame).err))
  {
    match ParseMessage(frame)
    case Rejected(e, _) => ErrMessage("invalid message: " + ErrorText(e))
    case Accepted(_) => OKMessage()
  }

  /** The reference definition of the loop: how it ends, and what its queue
      holds then, from the reads still to come and the queue so far. A failed
      enqueue of an error ends the session; a failed enqueue of an OK is only
      logged. */
  function Session(rs: seq<Read>, out: seq<Message>): (r: (Exit, seq<Message>))
    ensures out <= r.1 && |r.1| <= |out| + |rs|
    decreases |rs|
  {
    if rs == [] then (ReadError, out)
    else match rs[0]
      case ReadFailed => (ReadError, out)
      case Received(frame, cancelled) =>
        if cancelled then (Cancelled, out)
        else if ParseMessage(frame).Rejected? && |out| >= OutboundCapacity then (SendFailed, out)
        else Session(rs[1..], Offer(out, OutboundCapacity, Reply(frame)))
  }

  /** The read loop. It returns how the session ended and the messages it
      queued, exactly as `Session` describes from an empty queue. */
  method HandleClient(rs: seq<Read>) returns (exit: Exit, out: seq<Message>)
    ensures (exit, out) == Session(rs, [])
  {
    out := [];
    var i := 0;
    while i < |rs|
      invariant i <= |rs|
      invariant Session(rs[i..], out) == Session(rs, [])
    {
      assert rs[i..][1..] == rs[i + 1..];
      var read := rs[i];
      if read.ReadFailed? {
        exit := ReadError;
        return;
      }
      if read.cancelled {
        exit := Cancelled;
        return;
      }
      match ParseMessage(read.frame) {
        case Rejected(e, _) =>
          var emsg := ErrMessage("invalid message: " + ErrorText(e));
          if |out| >= OutboundCapacity {
            exit := SendFailed;
            return;
          }
          out := out + [emsg];
        case Accepted(_) =>
          // a failed enqueue is logged and the loop goes on
          if |out| < OutboundCapacity {
            out := out + [OKMessage()];
          }
      }
      i := i + 1;
    }
    exit := ReadError;
  }

  /** An "ok", or an "err" with its description. */
  predicate IsAnswer(m: Message)
  {
    m.data == ["ok"] || (|m.data| == 2 && m.data[0] == "err")
  }

  /** The queue only grows, never past its capacity, and holds nothing but
      answers: every message queued is an "ok" or an "err". */
  lemma {:induction false} SessionQueue(rs: seq<Read>, out: seq<Message>)
    requires |out| <= OutboundCapacity
    ensures out <= Session(rs, out).1
    ensures |Session(rs, out).1| <= OutboundCapacity
    ensures forall i :: |out| <= i < |Session(rs, out).1| ==> IsAnswer(Session(rs, out).1[i])
    decreases |rs|
  {
    if rs != [] && rs[0].Received? && !rs[0].cancelled
      && !(ParseMessage(rs[0].frame).Rejected? && |out| >= OutboundCapacity)
    {
      var next := Offer(out, OutboundCapacity, Reply(rs[0].frame));
      SessionQueue(rs[1..], next);
    }
  }

  /** A frame read before cancellation whose answer can be queued, or that
      needs none, moves the session on to the next read. */
  lemma SessionStep(rs: seq<Read>, out: seq<Message>)
    requires rs != [] && rs[0].Received? && !rs[0].cancelled
    requires ParseMessage(rs[0].frame).Accepted? || |out| < OutboundCapacity
    ensures Session(rs, out) == Session(rs[1..], Offer(out, OutboundCapacity, Reply(rs[0].frame)))
  {
  }

  /** Frames read before cancellation, none of them a read failure. */
  predicate AllReceived(rs: seq<Read>)
  {
    forall i :: 0 <= i < |rs| ==> rs[i].Received? && !rs[i].cancelled
  }

  /** The answers owed to the frames, in order. */
  function Replies(rs: seq<Read>): (ms: seq<Message>)
    requires AllReceived(rs)
    ensures |ms| == |rs|
    ensures forall i :: 0 <= i < |rs| ==> ms[i] == Reply(rs[i].frame)
  {
    if rs == [] then [] else [Reply(rs[0].frame)] + Replies(rs[1..])
  }

  /** Reads that leave room in the queue can be run first and the rest
      continued from the queue they leave. */
  lemma {:induction false} SessionPrefix(rs: seq<Read>, rest: seq<Read>, out: seq<Message>)
    requires AllReceived(rs) && |out| + |rs| <= OutboundCapacity
    ensures Session(rs + rest, out) == Session(rest, out + Replies(rs))
    decreases |rs|
  {
    if rs == [] {
      assert rs + rest == rest;
      assert out + Replies(rs) == out;
    } else {
      AllReceivedTail(rs);
      var next := out + [Reply(rs[0].frame)];
      PrefixStep(rs, rest, out);
      SessionPrefix(rs[1..], rest, next);
      RepliesCons(rs, out);
    }
  }

  /** Answering the first frame, then the rest, answers them all. */
  lemma RepliesCons(rs: seq<Read>, out: seq<Message>)
    requires rs != [] && AllReceived(rs)
    ensures AllReceived(rs[1..])
    ensures (out + [Reply(rs[0].frame)]) + Replies(rs[1..]) == out + Replies(rs)
  {
    AllReceivedTail(rs);
    assert Replies(rs) == [Reply(rs[0].frame)] + Replies(rs[1..]);
  }

  lemma AllReceivedTail(rs: seq<Read>)
    requires rs != [] && AllReceived(rs)
    ensures AllReceived(rs[1..])
  {
    forall i | 0 <= i < |rs[1..]| ensures rs[1..][i].Received? && !rs[1..][i].cancelled {
      assert rs[1..][i] == rs[i + 1];
    }
  }

  /** The first of several frames with room for its answer. */
  lemma PrefixStep(rs: seq<Read>, rest: seq<Read>, out: seq<Message>)
    requires rs != [] && AllReceived(rs) && |out| < OutboundCapacity
    ensures Session(rs + rest, out) == Session(rs[1..] + rest, out + [Reply(rs[0].frame)])
  {
    var both := rs + rest;
    assert both[0] == rs[0];
    assert both[1..] == rs[1..] + rest;
    SessionStep(both, out);
  }

  /** While the queue has room for all of them, every frame gets its answer,
      in order, and the session ends only when the reads run out. */
  lemma SessionWithRoom(rs: seq<Read>, out: seq<Message>)
    requires AllReceived(rs) && |out| + |rs| <= OutboundCapacity
    ensures Session(rs, out) == (ReadError, out + Replies(rs))
  {
    SessionPrefix(rs, [], out);
    assert rs + [] == rs;
  }

  /** The frames of the package's own connection test. */
  const ConnectionTestFrames: seq<Read> := [
    Received(StringArray(["ping"]), false),
    Received(StringArray(["nick", "bobby"]), false),
    Received(StringArray(["join", "dark-room"]), false),
    Received(StringArray(["nick", "Bobby"]), false),
    Received(StringArray(["say", "dark-room", "hello there!"]), false),
    Received(StringArray(["quit", "dark-room"]), false)
  ]

  /** Each of those frames is valid, so each is answered OK. */
  lemma ConnectionTestFramesValid()
    ensures AllReceived(ConnectionTestFrames)
    ensures Replies(ConnectionTestFrames) == seq(6, _ => OKMessage())
  {
    var fs := ConnectionTestFrames;
    assert ParseMessage(fs[0].frame).Accepted?;
    assert ParseMessage(fs[1].frame).Accepted?;
    assert ParseMessage(fs[2].frame).Accepted?;
    assert ParseMessage(fs[3].frame).Accepted?;
    assert ParseMessage(fs[4].frame).Accepted?;
    assert ParseMessage(fs[5].frame).Accepted?;
  }

  /** The session of that test: the six frames, then end of stream. Six OK
      messages are queued, one per frame, and the loop ends on the read. */
  lemma ConnectionTestSession()
    ensures Session(ConnectionTestFrames + [ReadFailed], []) == (ReadError, seq(6, _ => OKMessage()))
  {
    ConnectionTestFramesValid();
    var answers := Replies(ConnectionTestFrames);
    SessionPrefix(ConnectionTestFrames, [ReadFailed], []);
    assert [] + answers == answers;
    assert Session([ReadFailed], answers) == (ReadError, answers);
  }

  /** With a full queue the two kinds of frame part ways: a valid frame's OK
      is dropped and the loop goes on, an invalid frame ends the session with
      its error unsent. */
  lemma FullQueue(frame: RawFrame, rest: seq<Read>, out: seq<Message>)
    requires |out| == OutboundCapacity
    ensures ParseMessage(frame).Accepted? ==>
      Session([Received(frame, false)] + rest, out) == Session(rest, out)
    ensures ParseMessage(frame).Rejected? ==>
      Session([Received(frame, false)] + rest, out) == (SendFailed, out)
  {
    assert ([Received(frame, false)] + rest)[1..] == rest;
  }

  /** A frame that arrives after cancellation is not answered, and a failed
      read ends the session, whatever follows. */
  lemma StopsOnCancelOrReadError(frame: RawFrame, rest: seq<Read>, out: seq<Message>)
    ensures Session([Received(frame, true)] + rest, out) == (Cancelled, out)
    ensures Session([ReadFailed] + rest, out) == (ReadError, out)
  {
  }
}
