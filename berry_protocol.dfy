/** The request-id dialect of package berry: every frame is
    `[requestID, kind, args...]`, checked against a fixed schema of client
    message kinds. */
module BerryProtocol {
  import opened Wire
  import BerryId

  /** Client message kinds and the number of arguments each takes. */
  const ClientMessageSchema: map<string, nat> :=
    map["nick" := 1, "join" := 1, "quit" := 1, "say" := 2, "ping" := 0, "ok" := 0]

  /** A message: the decoded string array. (The JSON bytes stored beside it
      are not modelled.) */
  datatype Message = Message(data: seq<string>) {

    /** The first element, or "" when there is none. */
    function RequestID(): (id: string)
      ensures |data| >= 1 ==> data == [id] + data[1..]
      ensures |data| == 0 ==> id == ""
    {
      if |data| == 0 then "" else data[0]
    }

    /** The second element, or "" when there are fewer than two. */
    function Kind(): (k: string)
      ensures |data| >= 2 ==> data[..2] == [RequestID(), k]
      ensures |data| < 2 ==> k == ""
    {
      if |data| < 2 then "" else data[1]
    }

    /** Everything after the kind; Go's `data[2:]` panics on shorter data. */
    function Content(): (c: seq<string>)
      requires |data| >= 2
      ensures data == [RequestID(), Kind()] + c
    {
      data[2..]
    }
  }

  datatype ParseError =
    | CannotUnmarshal(reason: string)
    | EmptyMessage
    | IncompleteMessage
    | UnknownKind(kind: string)
    | WrongArgumentCount(kind: string, want: nat, got: nat)
    | RequestIDTooLong
    | RequestIDTooShort

  /** The text of each error, as `Error()` returns it. */
  function ErrorText(e: ParseError): (t: string)
    ensures "invalid format: " <= t <==>
      e.WrongArgumentCount? || e.RequestIDTooLong? || e.RequestIDTooShort?
  {
    match e
    case CannotUnmarshal(reason) =>
      var t := "cannot unmarshal message: " + reason;
      assert t[0] != 'i';
      t
    case EmptyMessage => "empty message"
    case IncompleteMessage =>
      assert "incomplete message"[2] != "invalid format: "[2];
      "incomplete message"
    case UnknownKind(kind) =>
      var t := "unknown message kind: " + Quote(kind);
      assert t[0] != 'i';
      t
    case WrongArgumentCount(kind, want, got) =>
      "invalid format: " + "message of kind " + Quote(kind) + " required " + Decimal(want)
      + " arguments, got " + Decimal(got)
    case RequestIDTooLong => "invalid format: " + "request ID must not be longer than 8 characters"
    case RequestIDTooShort => "invalid format: " + "request ID must be at least 4 characters long"
  }

  /** What `ParseMessage` returns: a message and no error, or an error with the
      message it had built so far (non-nil only for the two length errors). */
  datatype ParseOutcome =
    | Accepted(msg: Message)
    | Rejected(err: ParseError, partial: Option<Message>)

  /** The acceptance condition, stated on its own: a known kind in second
      place, exactly its number of arguments after it, and a request id of
      4 to 8 bytes. */
  predicate WellFormed(data: seq<string>)
  {
    && |data| >= 2
    && data[1] in ClientMessageSchema
    && |data| - 2 == ClientMessageSchema[data[1]]
    && 4 <= Utf8Len(data[0]) <= 8
  }

  function ParseMessage(raw: RawFrame): (r: ParseOutcome)
    ensures r.Accepted? <==> raw.StringArray? && WellFormed(raw.data)
    ensures r.Accepted? ==> r.msg.data == raw.data
    ensures r.Rejected? && r.partial.Some? <==> raw.StringArray? && |raw.data| < 2
    ensures r.Rejected? && r.partial.Some? ==> r.partial.value.data == raw.data
  {
    match raw
    case Malformed(reason) => Rejected(CannotUnmarshal(reason), None)
    case StringArray(data) =>
      var msg := Message(data);
      if |data| == 0 then Rejected(EmptyMessage, Some(msg))
      else if |data| == 1 then Rejected(IncompleteMessage, Some(msg))
      else
        var kind := data[1];
        if kind !in ClientMessageSchema then Rejected(UnknownKind(kind), None)
        else if |data| - 2 != ClientMessageSchema[kind] then
          Rejected(WrongArgumentCount(kind, ClientMessageSchema[kind], |data| - 2), None)
        else
          var n := Utf8Len(msg.RequestID());
          if n > 8 then Rejected(RequestIDTooLong, None)
          else if n < 4 then Rejected(RequestIDTooShort, None)
          else Accepted(msg)
  }

  /** The checks run in a fixed order: decoding, then length, then kind, then
      argument count, then request-id length; the first one that fails is
      reported. */
  lemma CheckOrder(reason: string, data: seq<string>)
    ensures ParseMessage(Malformed(reason)) == Rejected(CannotUnmarshal(reason), None)
    ensures |data| == 0 ==> ParseMessage(StringArray(data)) == Rejected(EmptyMessage, Some(Message(data)))
    ensures |data| == 1 ==> ParseMessage(StringArray(data)) == Rejected(IncompleteMessage, Some(Message(data)))
    ensures |data| >= 2 && data[1] !in ClientMessageSchema ==>
      ParseMessage(StringArray(data)) == Rejected(UnknownKind(data[1]), None)
    ensures |data| >= 2 && data[1] in ClientMessageSchema && |data| - 2 != ClientMessageSchema[data[1]] ==>
      ParseMessage(StringArray(data)) == Rejected(WrongArgumentCount(data[1], ClientMessageSchema[data[1]], |data| - 2), None)
    ensures |data| >= 2 && data[1] in ClientMessageSchema && |data| - 2 == ClientMessageSchema[data[1]] ==>
      (Utf8Len(data[0]) > 8 ==> ParseMessage(StringArray(data)) == Rejected(RequestIDTooLong, None))
      && (Utf8Len(data[0]) < 4 ==> ParseMessage(StringArray(data)) == Rejected(RequestIDTooShort, None))
  {
  }

  /** A three-character request id with the wrong number of arguments is
      reported as an argument-count error, not as a request-id error. */
  lemma ArityBeatsRequestID()
    ensures ParseMessage(StringArray(["abc", "join"])) == Rejected(WrongArgumentCount("join", 1, 0), None)
  {
  }

  /** The server-side kinds are not client kinds: a frame of one of them is
      always rejected as unknown. */
  lemma ServerKindsRejected(data: seq<string>)
    requires |data| >= 2 && data[1] in {"err", "msg", "joined", "parted", "renamed", "roomusers"}
    ensures ParseMessage(StringArray(data)) == Rejected(UnknownKind(data[1]), None)
  {
  }

  /** Request-id length counts bytes: three two-byte characters pass the
      check, three three-byte characters fail it. */
  lemma RequestIDLengthCountsBytes()
    ensures ParseMessage(StringArray(["ééé", "ping"])).Accepted?
    ensures ParseMessage(StringArray(["日本語", "ping"])) == Rejected(RequestIDTooLong, None)
  {
    assert Utf8Len("ééé") == 6;
    assert Utf8Len("日本語") == 9;
  }

  /** For ASCII request ids the length check is on characters. */
  lemma AsciiRequestIDs(data: seq<string>)
    requires |data| >= 2 && data[1] in ClientMessageSchema && |data| - 2 == ClientMessageSchema[data[1]]
    requires IsAscii(data[0])
    ensures ParseMessage(StringArray(data)).Accepted? <==> 4 <= |data[0]| <= 8
  {
    AsciiUtf8Len(data[0]);
  }

  /** The accessors on data too short for them. */
  lemma AccessorsOnShortData(m: Message)
    ensures |m.data| == 0 ==> m.RequestID() == ""
    ensures |m.data| < 2 ==> m.Kind() == ""
    ensures |m.data| >= 2 ==> m.data == [m.RequestID(), m.Kind()] + m.Content()
  {
  }

  /** `OKMessage(requestID)`. */
  function OKMessage(requestID: string): (m: Message)
    ensures m.RequestID() == requestID && m.Kind() == "ok"
    ensures |m.data| == 2 && m.Content() == []
  {
    Message([requestID, "ok"])
  }

  /** `ErrMessage(requestID, description)`. */
  function ErrMessage(requestID: string, description: string): (m: Message)
    ensures m.RequestID() == requestID && m.Kind() == "err"
    ensures |m.data| == 3 && m.Content() == [description]
  {
    Message([requestID, "err", description])
  }

  /** `NewMessage(kind, args...)`, with the id `generateID()` returned passed
      in as `id`. (Serialising strings cannot fail, so there is no error.) */
  function NewMessage(id: string, kind: string, args: seq<string>): (m: Message)
    ensures m.RequestID() == id && m.Kind() == kind
    ensures |m.data| == |args| + 2 && m.Content() == args
  {
    Message([id, kind] + args)
  }

  /** An OK response parses back whenever its request id passes the check. */
  lemma OKMessageParses(requestID: string)
    requires 4 <= Utf8Len(requestID) <= 8
    ensures ParseMessage(StringArray(OKMessage(requestID).data)) == Accepted(OKMessage(requestID))
  {
  }

  /** An error response never parses: "err" is not a client kind. */
  lemma ErrMessageNeverParses(requestID: string, description: string)
    ensures ParseMessage(StringArray(ErrMessage(requestID, description).data)) == Rejected(UnknownKind("err"), None)
  {
  }

  /** Construct-then-parse for `NewMessage` with a generated id: the id always
      passes the request-id check, so the message parses back exactly when its
      kind and argument count fit the schema, and then to itself. */
  lemma NewMessageRoundTrip(id: string, kind: string, args: seq<string>)
    requires BerryId.IsGeneratedId(id)
    ensures ParseMessage(StringArray(NewMessage(id, kind, args).data)).Accepted?
        <==> kind in ClientMessageSchema && |args| == ClientMessageSchema[kind]
    ensures ParseMessage(StringArray(NewMessage(id, kind, args).data)).Accepted? ==>
        ParseMessage(StringArray(NewMessage(id, kind, args).data)).msg == NewMessage(id, kind, args)
  {
    GeneratedIdLength(id);
  }

  /** A generated id is eight bytes long. */
  lemma GeneratedIdLength(id: string)
    requires BerryId.IsGeneratedId(id)
    ensures Utf8Len(id) == 8
  {
    assert IsAscii(id) by {
      forall i | 0 <= i < |id| ensures id[i] as int < 0x80 {
        assert BerryId.IsLowerHex(id[i]);
      }
    }
    AsciiUtf8Len(id);
  }
}
