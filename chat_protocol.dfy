/** The older positional dialect of package chat: every frame is
    `[kind, args...]`, checked against the same schema of client kinds, with
    no request id. */
module ChatProtocol {
  import opened Wire

  /** Client message kinds and the number of arguments each takes. */
  const ClientMessageSchema: map<string, nat> :=
    map["nick" := 1, "join" := 1, "quit" := 1, "say" := 2, "ping" := 0, "ok" := 0]

  /** A message: the decoded string array. (The JSON bytes stored beside it
      are not modelled.) */
  datatype Message = Message(data: seq<string>) {

    /** The first element; Go's `data[0]` panics on empty data. */
    function Kind(): (k: string)
      requires |data| >= 1
      ensures data == [k] + data[1..]
    {
      data[0]
    }

    /** Everything after the kind. */
    function Content(): (c: seq<string>)
      requires |data| >= 1
      ensures data == [Kind()] + c
    {
      data[1..]
    }
  }

  datatype ParseError =
    | CannotUnmarshal(reason: string)
    | EmptyMessage
    | UnknownKind(kind: string)
    | WrongArgumentCount(kind: string, want: nat, got: nat)

  /** The text of each error, as `Error()` returns it. */
  function ErrorText(e: ParseError): (t: string)
    ensures "invalid format: " <= t <==> e.WrongArgumentCount?
  {
    match e
    case CannotUnmarshal(reason) =>
      var t := "cannot unmarshal message: " + reason;
      assert t[0] != 'i';
      t
    case EmptyMessage => "empty message"
    case UnknownKind(kind) =>
      var t := "unknown message kind: " + Quote(kind);
      assert t[0] != 'i';
      t
    case WrongArgumentCount(kind, want, got) =>
      "invalid format: " + "message of kind " + Quote(kind) + " required " + Decimal(want)
      + " arguments, got " + Decimal(got)
  }

  /** What `ParseMessage` returns: a message and no error, or an error with the
      message built so far (non-nil only for the empty array). */
  datatype ParseOutcome =
    | Accepted(msg: Message)
    | Rejected(err: ParseError, partial: Option<Message>)

  /** The acceptance condition, stated on its own: a known kind first and
      exactly its number of arguments after it. */
  predicate WellFormed(data: seq<string>)
  {
    |data| >= 1 && data[0] in ClientMessageSchema && |data| - 1 == ClientMessageSchema[data[0]]
  }

  function ParseMessage(raw: RawFrame): (r: ParseOutcome)
    ensures r.Accepted? <==> raw.StringArray? && WellFormed(raw.data)
    ensures r.Accepted? ==> r.msg.data == raw.data
    ensures r.Rejected? && r.partial.Some? <==> raw.StringArray? && raw.data == []
    ensures r.Rejected? && r.partial.Some? ==> r.partial.value.data == []
  {
    match raw
    case Malformed(reason) => Rejected(CannotUnmarshal(reason), None)
    case StringArray(data) =>
      if |data| == 0 then Rejected(EmptyMessage, Some(Message(data)))
      else if data[0] !in ClientMessageSchema then Rejected(UnknownKind(data[0]), None)
      else if |data| - 1 != ClientMessageSchema[data[0]] then
        Rejected(WrongArgumentCount(data[0], ClientMessageSchema[data[0]], |data| - 1), None)
      else Accepted(Message(data))
  }

  /** The checks run in a fixed order: decoding, then emptiness, then kind,
      then argument count. */
  lemma CheckOrder(reason: string, data: seq<string>)
    ensures ParseMessage(Malformed(reason)) == Rejected(CannotUnmarshal(reason), None)
    ensures data == [] ==> ParseMessage(StringArray(data)) == Rejected(EmptyMessage, Some(Message([])))
    ensures |data| >= 1 && data[0] !in ClientMessageSchema ==>
      ParseMessage(StringArray(data)) == Rejected(UnknownKind(data[0]), None)
    ensures |data| >= 1 && data[0] in ClientMessageSchema && |data| - 1 != ClientMessageSchema[data[0]] ==>
      ParseMessage(StringArray(data)) == Rejected(WrongArgumentCount(data[0], ClientMessageSchema[data[0]], |data| - 1), None)
  {
  }

  /** `OKMessage()`. */
  function OKMessage(): (m: Message)
    ensures |m.data| == 1 && m.Kind() == "ok" && m.Content() == []
  {
    Message(["ok"])
  }

  /** `ErrMessage(description)`. */
  function ErrMessage(description: string): (m: Message)
    ensures |m.data| == 2 && m.Kind() == "err" && m.Content() == [description]
  {
    Message(["err", description])
  }

  /** `NewMessage(args...)`: the arguments are stored unchanged, the first
      being the kind. (Serialising strings cannot fail, so there is no error.) */
  function NewMessage(args: seq<string>): (m: Message)
    ensures m.data == args
    ensures |args| >= 1 ==> m.Kind() == args[0] && m.Content() == args[1..]
  {
    Message(args)
  }

  /** The OK response is itself a valid client message: kind "ok", no content. */
  lemma OKMessageParses()
    ensures ParseMessage(StringArray(OKMessage().data)) == Accepted(OKMessage())
  {
  }

  /** An error response never parses: "err" is not a client kind. */
  lemma ErrMessageNeverParses(description: string)
    ensures ParseMessage(StringArray(ErrMessage(description).data)) == Rejected(UnknownKind("err"), None)
  {
  }

  /** Construct-then-parse for `NewMessage`: it parses back, to itself, exactly
      when its first argument is a client kind with the right argument count. */
  lemma NewMessageRoundTrip(args: seq<string>)
    ensures ParseMessage(StringArray(NewMessage(args).data)).Accepted? <==>
      |args| >= 1 && args[0] in ClientMessageSchema && |args| - 1 == ClientMessageSchema[args[0]]
    ensures ParseMessage(StringArray(NewMessage(args).data)).Accepted? ==>
      ParseMessage(StringArray(NewMessage(args).data)).msg == NewMessage(args)
  {
  }
}
