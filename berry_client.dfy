/** The session of package berry: the dispatch table from message kind to
    handler, and the read loop that parses each frame, runs its handler and
    answers on the user's own queue. The read loop is a fold over a finite
    list of read outcomes; the concurrent write flow is not modelled. */
module BerryClient {
  import opened Wire
  import opened BerryProtocol
  import opened BerryChat
  import BerryId

  /** The capacity of the outbound channel a session creates. */
  const OutboundCapacity: nat := 8

  /** The kinds the dispatch table has a handler for. */
  const HandlerKinds: set<string> := {"nick", "join", "quit", "say", "ping", "ok", "err"}

  /** The reply to one frame, before it is addressed to a request id. */
  datatype Response = Ok | Err(description: string)

  /** One outcome of reading from the connection: a failure (end of stream
      included), or a frame together with whether the session was cancelled
      by the time it arrived and the two random bytes the id producer reads
      for the next id, used when the frame's handler needs one. */
  datatype Read =
    | ReadFailed
    | Received(frame: RawFrame, cancelled: bool, random: BerryId.RandomPair)

  /** Why the read loop returned. */
  datatype Exit = ReadError | Cancelled | SendFailed

  /** Every kind the parser accepts has a handler, so "unknown message" cannot
      be answered; and the "err" handler is never reached. */
  lemma DispatchTableCoversSchema()
    ensures ClientMessageSchema.Keys <= HandlerKinds
    ensures "err" in HandlerKinds && "err" !in ClientMessageSchema
  {
  }

  /** The request id a reply to `frame` carries: the frame's own, when it has
      one. */
  function CorrelationID(frame: RawFrame): (id: string)
    ensures frame.StringArray? && |frame.data| >= 1 ==> id == frame.data[0]
    ensures frame.Malformed? || frame.data == [] ==> id == ""
  {
    match frame
    case Malformed(_) => ""
    case StringArray(data) => Message(data).RequestID()
  }

  /** The reply the read loop gives to a frame, which depends on the frame
      alone: the parse error, "not implemented" for `nick`, OK otherwise. */
  function ResponseFor(frame: RawFrame): (r: Response)
    ensures r.Ok? <==> ParseMessage(frame).Accepted? && ParseMessage(frame).msg.Kind() != "nick"
    ensures ParseMessage(frame).Rejected? ==>
      r == Err("invalid message: " + ErrorText(ParseMessage(frame).err))
    ensures ParseMessage(frame).Accepted? && ParseMessage(frame).msg.Kind() == "nick" ==>
      r == Err("not implemented")
  {
    match ParseMessage(frame)
    case Rejected(e, _) => Err("invalid message: " + ErrorText(e))
    case Accepted(msg) =>
      if msg.Kind() !in HandlerKinds then Err("unknown message")
      else if msg.Kind() == "nick" then Err("not implemented")
      else Ok
  }

  /** The wire message of a reply. */
  function ResponseMessage(requestID: string, r: Response): (m: Message)
    ensures m.RequestID() == requestID
    ensures m.Kind() == (if r.Ok? then "ok" else "err")
    ensures r.Ok? ==> |m.data| == 2 && m.Content() == []
    ensures r.Err? ==> |m.data| == 3 && m.Content() == [r.description]
  {
    match r
    case Ok => OKMessage(requestID)
    case Err(description) => ErrMessage(requestID, description)
  }

  /** The reply to `frame`, addressed to its request id. */
  function ReplyTo(frame: RawFrame): (m: Message)
    ensures m.RequestID() == CorrelationID(frame)
    ensures IsReply(m)
    ensures m.Kind() == "ok" <==> ResponseFor(frame).Ok?
    ensures ResponseFor(frame).Ok? ==> |m.data| == 2 && m.Content() == []
    ensures ResponseFor(frame).Err? ==> |m.data| == 3 && m.Content() == [ResponseFor(frame).description]
  {
    ResponseMessage(CorrelationID(frame), ResponseFor(frame))
  }

  /** The reply messages the read loop owes for the frames read, in order. */
  function Replies(rs: seq<Read>): (ms: seq<Message>)
    ensures |ms| <= |rs|
  {
    if rs == [] then []
    else
      var last := rs[|rs| - 1];
      Replies(rs[..|rs| - 1])
      + (if last.Received? then [ReplyTo(last.frame)] else [])
  }

  /** One more frame read adds exactly its reply. */
  lemma RepliesStep(rs: seq<Read>, n: nat)
    requires n < |rs| && rs[n].Received?
    ensures Replies(rs[..n + 1]) == Replies(rs[..n]) + [ReplyTo(rs[n].frame)]
  {
    assert rs[..n + 1][..n] == rs[..n];
  }

  predicate IsReply(m: Message)
  {
    m.Kind() == "ok" || m.Kind() == "err"
  }

  /** The replies in a queue, leaving out broadcast traffic. */
  function RepliesIn(queue: seq<Message>): (rs: seq<Message>)
    ensures |rs| <= |queue|
    ensures forall i :: 0 <= i < |rs| ==> IsReply(rs[i])
  {
    if queue == [] then []
    else (if IsReply(queue[0]) then [queue[0]] else []) + RepliesIn(queue[1..])
  }

  lemma {:induction false} RepliesInAppend(a: seq<Message>, b: seq<Message>)
    ensures RepliesIn(a + b) == RepliesIn(a) + RepliesIn(b)
  {
    if a == [] {
      assert a + b == b;
    } else {
      assert (a + b)[1..] == a[1..] + b;
      RepliesInAppend(a[1..], b);
    }
  }

  /** Offering a non-reply message leaves the replies in a queue as they were. */
  lemma RepliesInOffer(queue: seq<Message>, capacity: nat, msg: Message)
    requires !IsReply(msg)
    ensures RepliesIn(Offer(queue, capacity, msg)) == RepliesIn(queue)
  {
    RepliesInAppend(queue, [msg]);
  }

  /** Why the loop stopped at read `n`: the reads ran out or failed there, the
      frame there arrived after cancellation, or its reply could not be
      queued. */
  function ExitAt(rs: seq<Read>, n: nat): (e: Exit)
    requires n <= |rs|
    ensures e == ReadError <==> n == |rs| || rs[n].ReadFailed?
    ensures e == Cancelled <==> n < |rs| && rs[n].Received? && rs[n].cancelled
    ensures e == SendFailed <==> n < |rs| && rs[n].Received? && !rs[n].cancelled
  {
    if n == |rs| || rs[n].ReadFailed? then ReadError
    else if rs[n].cancelled then Cancelled
    else SendFailed
  }

  /** The `msg` broadcast for `say`: sender, room and body, no timestamp. */
  function SayMessage(id: string, userID: string, roomID: string, body: string): (m: Message)
    ensures m.Kind() == "msg" && !IsReply(m)
    ensures |m.data| == 5 && m.Content() == [userID, roomID, body]
  {
    NewMessage(id, "msg", [userID, roomID, body])
  }

  /** A handler's error value as the text the reply carries. */
  function ErrorOf(e: Option<SendError>): Option<string>
  {
    match e
    case None => None
    case Some(SlowClient) => Some("slow client")
  }

  /** What the handlers may rely on: the message carries as many arguments as
      the schema asks for its kind. */
  predicate HasSchemaArguments(msg: Message)
  {
    |msg.data| >= 2
    && (msg.Kind() in ClientMessageSchema ==> |msg.Content()| == ClientMessageSchema[msg.Kind()])
  }

  /** The frame parses to a request of the given kind. */
  predicate IsRequest(frame: RawFrame, kind: string)
  {
    ParseMessage(frame).Accepted? && ParseMessage(frame).msg.Kind() == kind
  }

  /** The room a `join`, `quit` or `say` request names. */
  function RoomOf(frame: RawFrame): string
    requires IsRequest(frame, "join") || IsRequest(frame, "quit") || IsRequest(frame, "say")
  {
    ParseMessage(frame).msg.data[2]
  }

  /** The `msg` a `say` request broadcasts, once its id is `id`. */
  function SayOf(frame: RawFrame, senderID: string, id: string): Message
    requires IsRequest(frame, "say")
  {
    SayMessage(id, senderID, RoomOf(frame), ParseMessage(frame).msg.data[3])
  }

  /** The membership of every room once the handler of `frame` ran for
      `user`: `join` adds the user, `quit` removes it, and both, like `say`,
      create the room when it is missing; other frames change nothing. */
  function MembershipAfterFrame(membership: map<string, map<string, User>>, user: User, frame: RawFrame)
    : map<string, map<string, User>>
  {
    if IsRequest(frame, "join") then
      membership[RoomOf(frame) := MembersIn(membership, RoomOf(frame))[user.id := user]]
    else if IsRequest(frame, "quit") then
      membership[RoomOf(frame) := MembersIn(membership, RoomOf(frame)) - {user.id}]
    else if IsRequest(frame, "say") then
      membership[RoomOf(frame) := MembersIn(membership, RoomOf(frame))]
    else membership
  }

  /** User `u`'s queue once the handler of `frame`, sent by `senderID`, ran:
      a `say` offers its `msg` to the members of its room as they were. */
  function QueueAfterFrame(queue: seq<Message>, u: User, frame: RawFrame,
                           membership: map<string, map<string, User>>, senderID: string, id: string)
    : seq<Message>
  {
    if IsRequest(frame, "say") && u in MembersIn(membership, RoomOf(frame)).Values
    then Offer(queue, u.capacity, SayOf(frame, senderID, id))
    else queue
  }

  /** The membership once the handlers of the frames among the first `n`
      reads ran, in order. */
  function MembershipAfter(membership: map<string, map<string, User>>, user: User, rs: seq<Read>, n: nat)
    : map<string, map<string, User>>
    requires n <= |rs|
  {
    if n == 0 then membership
    else
      var before := MembershipAfter(membership, user, rs, n - 1);
      if rs[n - 1].Received? then MembershipAfterFrame(before, user, rs[n - 1].frame) else before
  }

  /** The number of `say` requests among the first `n` reads: each takes one
      id. */
  function SaysIn(rs: seq<Read>, n: nat): nat
    requires n <= |rs|
  {
    if n == 0 then 0
    else SaysIn(rs, n - 1) + (if rs[n - 1].Received? && IsRequest(rs[n - 1].frame, "say") then 1 else 0)
  }

  /** The id counter once the handlers of the frames among the first `n`
      reads ran: each `say` advances it by one. */
  function CounterAfterReads(counter: int, rs: seq<Read>, n: nat): (c: int)
    requires 0 <= counter <= BerryId.MaxUint16 && n <= |rs|
    ensures 0 <= c <= BerryId.MaxUint16
  {
    if n == 0 then counter
    else
      var before := CounterAfterReads(counter, rs, n - 1);
      if rs[n - 1].Received? && IsRequest(rs[n - 1].frame, "say") then BerryId.NextCounter(before) else before
  }

  /** The counter after the reads is the counter advanced once per `say`. */
  lemma {:induction false} CounterAfterReadsCountsSays(counter: int, rs: seq<Read>, n: nat)
    requires 0 <= counter <= BerryId.MaxUint16 && n <= |rs|
    ensures CounterAfterReads(counter, rs, n) == BerryId.CounterAfter(counter, SaysIn(rs, n))
  {
    if n > 0 {
      CounterAfterReadsCountsSays(counter, rs, n - 1);
    }
  }

  /** The folds over the frames read advance by one frame's effect. */
  lemma FoldStep(membership0: map<string, map<string, User>>, counter0: int, user: User, rs: seq<Read>, n: nat,
                 membership: map<string, map<string, User>>, counter: int,
                 membership': map<string, map<string, User>>, counter': int)
    requires 0 <= counter0 <= BerryId.MaxUint16
    requires n < |rs| && rs[n].Received?
    requires membership == MembershipAfter(membership0, user, rs, n)
    requires counter == CounterAfterReads(counter0, rs, n)
    requires membership' == MembershipAfterFrame(membership, user, rs[n].frame)
    requires counter' == (if IsRequest(rs[n].frame, "say") then BerryId.NextCounter(counter) else counter)
    ensures membership' == MembershipAfter(membership0, user, rs, n + 1)
    ensures counter' == CounterAfterReads(counter0, rs, n + 1)
  {
  }

  /** User `u`'s queue, starting as `queue`, once the handlers of the frames
      among the first `n` reads ran for `user`: each `say` among them offers
      its `msg`, under the id the counter gave it, to the members of its room
      as they were at that point. */
  function QueueAfter(u: User, queue: seq<Message>, membership: map<string, map<string, User>>, counter: int,
                      user: User, rs: seq<Read>, n: nat): seq<Message>
    requires 0 <= counter <= BerryId.MaxUint16 && n <= |rs|
  {
    if n == 0 then queue
    else
      var before := QueueAfter(u, queue, membership, counter, user, rs, n - 1);
      if rs[n - 1].Received? then
        QueueAfterFrame(before, u, rs[n - 1].frame, MembershipAfter(membership, user, rs, n - 1), user.id,
                        BerryId.IdFor(rs[n - 1].random, CounterAfterReads(counter, rs, n)))
      else before
  }

  /** The queues of the registered users other than `user`. */
  ghost function OthersQueues(chat: Chat, user: User): map<User, seq<Message>>
    reads chat`Known, chat.Known`out
  {
    map u | u in chat.Known && u != user :: u.out
  }

  /** Every queue in `queues` after the frames among the first `n` reads. */
  function QueuesAfter(queues: map<User, seq<Message>>, membership: map<string, map<string, User>>, counter: int,
                       user: User, rs: seq<Read>, n: nat): map<User, seq<Message>>
    requires 0 <= counter <= BerryId.MaxUint16 && n <= |rs|
  {
    map u | u in queues :: QueueAfter(u, queues[u], membership, counter, user, rs, n)
  }

  /** Before any read, the queues are as they were. */
  lemma QueuesAfterNone(queues: map<User, seq<Message>>, membership: map<string, map<string, User>>, counter: int,
                        user: User, rs: seq<Read>)
    requires 0 <= counter <= BerryId.MaxUint16
    ensures QueuesAfter(queues, membership, counter, user, rs, 0) == queues
  {
  }

  /** The queue fold over the frames read advances by one frame's effect, for
      every queue at once. */
  lemma QueuesStep(queues0: map<User, seq<Message>>, membership0: map<string, map<string, User>>, counter0: int,
                   user: User, rs: seq<Read>, n: nat, before: map<User, seq<Message>>, after: map<User, seq<Message>>)
    requires 0 <= counter0 <= BerryId.MaxUint16
    requires n < |rs| && rs[n].Received?
    requires before == QueuesAfter(queues0, membership0, counter0, user, rs, n)
    requires after.Keys == before.Keys
    requires forall u :: u in after ==>
      after[u] == QueueAfterFrame(before[u], u, rs[n].frame, MembershipAfter(membership0, user, rs, n), user.id,
                                  BerryId.IdFor(rs[n].random, CounterAfterReads(counter0, rs, n + 1)))
    ensures after == QueuesAfter(queues0, membership0, counter0, user, rs, n + 1)
  {
  }

  /** The user's own queue once the handler of the frame at read `n` ran,
      before its reply is queued: the queue after the first `n` reads, with
      the `msg` of a `say` to a room the user is in. */
  function OwnQueueBeforeReply(queue: seq<Message>, membership: map<string, map<string, User>>, counter: int,
                               user: User, rs: seq<Read>, n: nat): seq<Message>
    requires 0 <= counter <= BerryId.MaxUint16 && n < |rs| && rs[n].Received?
    decreases n, 1
  {
    QueueAfterFrame(OwnQueueAfter(queue, membership, counter, user, rs, n), user, rs[n].frame,
                    MembershipAfter(membership, user, rs, n), user.id,
                    BerryId.IdFor(rs[n].random, CounterAfterReads(counter, rs, n + 1)))
  }

  /** The user's own queue, starting as `queue`, once the first `n` reads
      were served: each frame's handler may queue broadcast traffic there,
      then its reply is offered, and dropped when the queue is full. */
  function OwnQueueAfter(queue: seq<Message>, membership: map<string, map<string, User>>, counter: int,
                         user: User, rs: seq<Read>, n: nat): seq<Message>
    requires 0 <= counter <= BerryId.MaxUint16 && n <= |rs|
    decreases n, 0
  {
    if n == 0 then queue
    else if rs[n - 1].Received? then
      Offer(OwnQueueBeforeReply(queue, membership, counter, user, rs, n - 1), user.capacity, ReplyTo(rs[n - 1].frame))
    else OwnQueueAfter(queue, membership, counter, user, rs, n - 1)
  }

  /** Every one of the first `n` frames found room on the user's own queue
      for its reply, once its handler ran. */
  predicate RepliesFit(queue: seq<Message>, membership: map<string, map<string, User>>, counter: int,
                       user: User, rs: seq<Read>, n: nat)
    requires 0 <= counter <= BerryId.MaxUint16 && n <= |rs|
  {
    n == 0
    || (&& RepliesFit(queue, membership, counter, user, rs, n - 1)
        && (rs[n - 1].Received? ==>
              |OwnQueueBeforeReply(queue, membership, counter, user, rs, n - 1)| < user.capacity))
  }

  /** `RepliesFit` read frame by frame. */
  lemma {:induction false} RepliesFitEach(queue: seq<Message>, membership: map<string, map<string, User>>,
                                          counter: int, user: User, rs: seq<Read>, n: nat)
    requires 0 <= counter <= BerryId.MaxUint16 && n <= |rs|
    ensures RepliesFit(queue, membership, counter, user, rs, n) <==>
      forall i :: 0 <= i < n && rs[i].Received? ==>
        |OwnQueueBeforeReply(queue, membership, counter, user, rs, i)| < user.capacity
  {
    if n > 0 {
      RepliesFitEach(queue, membership, counter, user, rs, n - 1);
    }
  }

  /** Appending a reply adds it to the replies in a queue. */
  lemma RepliesInReply(queue: seq<Message>, m: Message)
    requires IsReply(m)
    ensures RepliesIn(queue + [m]) == RepliesIn(queue) + [m]
  {
    RepliesInAppend(queue, [m]);
    assert [m][1..] == [];
  }

  /** A frame's handler queues no reply: only broadcast traffic. */
  lemma RepliesInQueueAfterFrame(queue: seq<Message>, u: User, frame: RawFrame,
                                 membership: map<string, map<string, User>>, senderID: string, id: string)
    ensures RepliesIn(QueueAfterFrame(queue, u, frame, membership, senderID, id)) == RepliesIn(queue)
  {
    if IsRequest(frame, "say") && u in MembersIn(membership, RoomOf(frame)).Values {
      RepliesInOffer(queue, u.capacity, SayOf(frame, senderID, id));
    }
  }

  /** The user's own queue steps by one served frame: its handler's traffic,
      then its reply when there is room for it. */
  lemma OwnQueueStep(queue0: seq<Message>, membership0: map<string, map<string, User>>, counter0: int,
                     user: User, rs: seq<Read>, n: nat, queue: seq<Message>, sent: bool)
    requires 0 <= counter0 <= BerryId.MaxUint16 && n < |rs| && rs[n].Received?
    requires RepliesFit(queue0, membership0, counter0, user, rs, n)
    requires sent <==> |OwnQueueBeforeReply(queue0, membership0, counter0, user, rs, n)| < user.capacity
    requires queue == Offer(OwnQueueBeforeReply(queue0, membership0, counter0, user, rs, n), user.capacity,
                            ReplyTo(rs[n].frame))
    ensures queue == OwnQueueAfter(queue0, membership0, counter0, user, rs, n + 1)
    ensures sent ==> RepliesFit(queue0, membership0, counter0, user, rs, n + 1)
    ensures !sent ==> queue == OwnQueueBeforeReply(queue0, membership0, counter0, user, rs, n)
  {
  }

  /** Replies on the user's own queue: when every one of the first `n`
      frames found room for its reply, those replies are on the queue, in
      order, and nothing else the handlers queued there is a reply. */
  lemma {:induction false} OwnQueueReplies(queue: seq<Message>, membership: map<string, map<string, User>>,
                                           counter: int, user: User, rs: seq<Read>, n: nat)
    requires 0 <= counter <= BerryId.MaxUint16 && n <= |rs| && Served(rs, n)
    requires forall i :: 0 <= i < n ==>
      |OwnQueueBeforeReply(queue, membership, counter, user, rs, i)| < user.capacity
    ensures RepliesIn(OwnQueueAfter(queue, membership, counter, user, rs, n)) == RepliesIn(queue) + Replies(rs[..n])
  {
    if n > 0 {
      assert Served(rs, n - 1);
      OwnQueueReplies(queue, membership, counter, user, rs, n - 1);
      OwnQueueRepliesStep(queue, membership, counter, user, rs, n - 1);
    }
  }

  /** One served frame whose reply found room adds that reply, and no other,
      to the replies on the user's own queue. */
  lemma OwnQueueRepliesStep(queue: seq<Message>, membership: map<string, map<string, User>>,
                            counter: int, user: User, rs: seq<Read>, n: nat)
    requires 0 <= counter <= BerryId.MaxUint16 && n < |rs| && rs[n].Received?
    requires |OwnQueueBeforeReply(queue, membership, counter, user, rs, n)| < user.capacity
    requires RepliesIn(OwnQueueAfter(queue, membership, counter, user, rs, n)) == RepliesIn(queue) + Replies(rs[..n])
    ensures RepliesIn(OwnQueueAfter(queue, membership, counter, user, rs, n + 1))
         == RepliesIn(queue) + Replies(rs[..n + 1])
  {
    var q := OwnQueueAfter(queue, membership, counter, user, rs, n);
    var before := OwnQueueBeforeReply(queue, membership, counter, user, rs, n);
    var reply := ReplyTo(rs[n].frame);
    assert RepliesIn(before) == RepliesIn(q) by {
      RepliesInQueueAfterFrame(q, user, rs[n].frame, MembershipAfter(membership, user, rs, n), user.id,
                               BerryId.IdFor(rs[n].random, CounterAfterReads(counter, rs, n + 1)));
    }
    assert OwnQueueAfter(queue, membership, counter, user, rs, n + 1) == before + [reply];
    RepliesInReply(before, reply);
    RepliesStep(rs, n);
    AppendAssociative(RepliesIn(queue), Replies(rs[..n]), [reply]);
  }

  /** After a served `join` frame the user is a member of its room, under its
      own id; after a served `quit` frame it is not. */
  lemma JoinAndQuitTakeEffect(membership: map<string, map<string, User>>, user: User, rs: seq<Read>, n: nat)
    requires n < |rs| && rs[n].Received?
    ensures IsRequest(rs[n].frame, "join") ==>
      var after := MembershipAfter(membership, user, rs, n + 1);
      RoomOf(rs[n].frame) in after && user.id in after[RoomOf(rs[n].frame)]
      && after[RoomOf(rs[n].frame)][user.id] == user
    ensures IsRequest(rs[n].frame, "quit") ==>
      var after := MembershipAfter(membership, user, rs, n + 1);
      RoomOf(rs[n].frame) in after && user.id !in after[RoomOf(rs[n].frame)]
  {
  }

  /** Frames other than `join` and `quit` leave every room's members as they
      were, though a `say` may create its room empty. */
  lemma OnlyJoinAndQuitChangeMembers(membership: map<string, map<string, User>>, user: User, frame: RawFrame, roomID: string)
    requires !IsRequest(frame, "join") && !IsRequest(frame, "quit")
    ensures MembersIn(MembershipAfterFrame(membership, user, frame), roomID) == MembersIn(membership, roomID)
  {
  }

  /** What the dispatch table does to the rooms, for the message `frame`
      parses to, is the frame's effect on the membership. */
  lemma DispatchedMembership(before: map<string, map<string, User>>, after: map<string, map<string, User>>,
                             user: User, frame: RawFrame)
    requires ParseMessage(frame).Accepted?
    requires var msg := ParseMessage(frame).msg;
      && (msg.Kind() in {"join", "quit", "say"} ==>
            var room := msg.Content()[0];
            after == before[room := if msg.Kind() == "join" then MembersIn(before, room)[user.id := user]
                                    else if msg.Kind() == "quit" then MembersIn(before, room) - {user.id}
                                    else MembersIn(before, room)])
      && (msg.Kind() !in {"join", "quit", "say"} ==> after == before)
    ensures after == MembershipAfterFrame(before, user, frame)
  {
  }

  /** What the dispatch table does to one user's queue, for the message
      `frame` parses to, is the frame's effect on that queue. */
  lemma DispatchedQueue(before: seq<Message>, after: seq<Message>, u: User, frame: RawFrame,
                        membership: map<string, map<string, User>>, senderID: string, id: string)
    requires ParseMessage(frame).Accepted?
    requires var msg := ParseMessage(frame).msg;
      && (msg.Kind() == "say" ==>
            after == if u in MembersIn(membership, msg.Content()[0]).Values
                     then Offer(before, u.capacity, SayMessage(id, senderID, msg.Content()[0], msg.Content()[1]))
                     else before)
      && (msg.Kind() != "say" ==> after == before)
    ensures after == QueueAfterFrame(before, u, frame, membership, senderID, id)
  {
  }

  /** `room.Subscribe(user)` on a registered room: only that room's
      membership changes. */
  method SubscribeIn(chat: Chat, room: Room, user: User)
    requires chat.Valid() && user in chat.Known
    requires room.id in chat.rooms && chat.rooms[room.id] == room
    modifies room
    ensures chat.Valid()
    ensures room.members == old(room.members)[user.id := user]
    ensures chat.Membership() == old(chat.Membership())[room.id := room.members]
  {
    ghost var before := room.members;
    assert room in chat.rooms.Values;
    room.Subscribe(user);
    UpdateKeepsValuesWithin(before, user.id, user, chat.Known);
    chat.OneRoomChanged(room);
  }

  /** `room.Unsubscribe(user)` on a registered room: only that room's
      membership changes. */
  method UnsubscribeIn(chat: Chat, room: Room, user: User)
    requires chat.Valid()
    requires room.id in chat.rooms && chat.rooms[room.id] == room
    modifies room
    ensures chat.Valid()
    ensures room.members == old(room.members) - {user.id}
    ensures chat.Membership() == old(chat.Membership())[room.id := room.members]
  {
    assert room in chat.rooms.Values;
    room.Unsubscribe(user);
    chat.OneRoomChanged(room);
  }

  /** The `join` handler: subscribe the user to the room, creating it if
      needed. */
  method Join(chat: Chat, user: User, roomID: string)
    requires chat.Valid() && user in chat.Known
    modifies chat, chat.rooms.Values
    ensures chat.Valid()
    ensures chat.users == old(chat.users) && chat.Known == old(chat.Known)
    ensures forall r :: r in chat.rooms.Values ==> r in old(chat.rooms.Values) || fresh(r)
    ensures chat.Membership() == old(chat.Membership())[roomID := old(chat.MembersOf(roomID))[user.id := user]]
  {
    var room := chat.Room(roomID);
    ghost var before := old(chat.Membership());
    ghost var joined := room.members[user.id := user];
    UpdateTwice(before, roomID, room.members, joined);
    SubscribeIn(chat, room, user);
  }

  /** The `quit` handler: unsubscribe the user from the room, creating it if
      needed. */
  method Quit(chat: Chat, user: User, roomID: string)
    requires chat.Valid()
    modifies chat, chat.rooms.Values
    ensures chat.Valid()
    ensures chat.users == old(chat.users) && chat.Known == old(chat.Known)
    ensures forall r :: r in chat.rooms.Values ==> r in old(chat.rooms.Values) || fresh(r)
    ensures chat.Membership() == old(chat.Membership())[roomID := old(chat.MembersOf(roomID)) - {user.id}]
  {
    var room := chat.Room(roomID);
    ghost var before := old(chat.Membership());
    ghost var left := room.members - {user.id};
    UpdateTwice(before, roomID, room.members, left);
    UnsubscribeIn(chat, room, user);
  }

  /** `chat.Room(roomID).Broadcast(m)`: offer `m` to every member of the room,
      creating the room if needed. */
  method BroadcastTo(chat: Chat, roomID: string, m: Message) returns (err: Option<SendError>)
    requires chat.Valid()
    modifies chat, chat.Known`out
    ensures chat.Valid()
    ensures err == None
    ensures chat.users == old(chat.users) && chat.Known == old(chat.Known)
    ensures forall r :: r in chat.rooms.Values ==> r in old(chat.rooms.Values) || fresh(r)
    ensures chat.Membership() == old(chat.Membership())[roomID := old(chat.MembersOf(roomID))]
    ensures forall u :: u in chat.Known ==>
      u.out == (if u in old(chat.MembersOf(roomID)).Values then Offer(old(u.out), u.capacity, m) else old(u.out))
  {
    var room := chat.Room(roomID);
    ghost var members := room.members;
    ghost var membership := chat.Membership();
    assert members.Values <= chat.Known;
    label Found:
    err := room.Broadcast(m);
    assert chat.Membership() == membership;
    forall u | u in chat.Known
      ensures u.out == (if u in members.Values then Offer(old@Found(u.out), u.capacity, m) else old@Found(u.out))
    {
    }
  }

  /** The `say` handler: broadcast a `msg` from the user to the room, creating
      it if needed. Its result is the broadcast's, which is always nil. */
  method Say(chat: Chat, gen: BerryId.IdGenerator, user: User, roomID: string, body: string, random: BerryId.RandomPair)
    returns (err: Option<string>)
    requires chat.Valid() && gen.Valid()
    modifies chat, chat.Known`out, gen, gen.raw
    ensures chat.Valid() && gen.Valid()
    ensures err == None
    ensures chat.users == old(chat.users) && chat.Known == old(chat.Known)
    ensures forall r :: r in chat.rooms.Values ==> r in old(chat.rooms.Values) || fresh(r)
    ensures chat.Membership() == old(chat.Membership())[roomID := old(chat.MembersOf(roomID))]
    ensures gen.counter == BerryId.NextCounter(old(gen.counter))
    ensures forall u :: u in chat.Known ==>
      u.out == (if u in old(chat.MembersOf(roomID)).Values
                then Offer(old(u.out), u.capacity, SayMessage(BerryId.IdFor(random, gen.counter), user.id, roomID, body))
                else old(u.out))
  {
    var id := gen.Next(random);
    var m := SayMessage(id, user.UserID(), roomID, body);
    assert chat.Membership() == old(chat.Membership()) && chat.MembersOf(roomID) == old(chat.MembersOf(roomID));
    var broadcastErr := BroadcastTo(chat, roomID, m);
    err := ErrorOf(broadcastErr);
  }

  /** The dispatch table: looks the kind up and runs its handler. `found` is
      false for a kind without a handler; `err` is the handler's error. */
  method Dispatch(chat: Chat, gen: BerryId.IdGenerator, user: User, msg: Message, random: BerryId.RandomPair)
    returns (found: bool, err: Option<string>)
    requires chat.Valid() && gen.Valid() && user in chat.Known
    requires HasSchemaArguments(msg)
    modifies chat, chat.rooms.Values, chat.Known`out, gen, gen.raw
    ensures chat.Valid() && gen.Valid()
    ensures found == (msg.Kind() in HandlerKinds)
    ensures err == (if msg.Kind() == "nick" then Some("not implemented") else None)
    ensures chat.users == old(chat.users) && chat.Known == old(chat.Known)
    ensures forall r :: r in chat.rooms.Values ==> r in old(chat.rooms.Values) || fresh(r)
    ensures msg.Kind() == "join" ==>
      chat.Membership() == old(chat.Membership())[msg.Content()[0] := old(chat.MembersOf(msg.Content()[0]))[user.id := user]]
    ensures msg.Kind() == "quit" ==>
      chat.Membership() == old(chat.Membership())[msg.Content()[0] := old(chat.MembersOf(msg.Content()[0])) - {user.id}]
    ensures msg.Kind() == "say" ==>
      && chat.Membership() == old(chat.Membership())[msg.Content()[0] := old(chat.MembersOf(msg.Content()[0]))]
      && gen.counter == BerryId.NextCounter(old(gen.counter))
      && forall u :: u in chat.Known ==>
           u.out == (if u in old(chat.MembersOf(msg.Content()[0])).Values
                     then Offer(old(u.out), u.capacity,
                                SayMessage(BerryId.IdFor(random, gen.counter), user.id, msg.Content()[0], msg.Content()[1]))
                     else old(u.out))
    ensures msg.Kind() != "say" ==>
      gen.counter == old(gen.counter) && forall u :: u in chat.Known ==> u.out == old(u.out)
    ensures msg.Kind() !in {"join", "quit", "say"} ==> chat.Membership() == old(chat.Membership())
  {
    var kind := msg.Kind();
    found := kind in HandlerKinds;
    err := None;
    if kind == "nick" {
      err := Some("not implemented");
    } else if kind == "join" {
      Join(chat, user, msg.Content()[0]);
    } else if kind == "quit" {
      Quit(chat, user, msg.Content()[0]);
    } else if kind == "say" {
      err := Say(chat, gen, user, msg.Content()[0], msg.Content()[1], random);
    }
  }

  /** One frame's processing, up to the reply: parse it, and when it parses
      run its handler. The reply depends on the frame alone; the only change
      to the user's own queue is broadcast traffic, never a reply. */
  method HandleFrame(chat: Chat, gen: BerryId.IdGenerator, user: User, frame: RawFrame, random: BerryId.RandomPair)
    returns (reply: Message)
    requires chat.Valid() && gen.Valid() && user in chat.Known && user.Valid()
    modifies chat, chat.rooms.Values, chat.Known`out, gen, gen.raw
    ensures chat.Valid() && gen.Valid() && user.Valid()
    ensures reply == ReplyTo(frame)
    ensures chat.users == old(chat.users) && chat.Known == old(chat.Known)
    ensures forall r :: r in chat.rooms.Values ==> r in old(chat.rooms.Values) || fresh(r)
    ensures chat.Membership() == MembershipAfterFrame(old(chat.Membership()), user, frame)
    ensures gen.counter == (if IsRequest(frame, "say") then BerryId.NextCounter(old(gen.counter)) else old(gen.counter))
    ensures forall u :: u in chat.Known ==>
      u.out == QueueAfterFrame(old(u.out), u, frame, old(chat.Membership()), user.id, BerryId.IdFor(random, gen.counter))
    ensures RepliesIn(user.out) == RepliesIn(old(user.out))
  {
    var requestID := CorrelationID(frame);
    var parsed := ParseMessage(frame);
    if parsed.Rejected? {
      reply := ErrMessage(requestID, "invalid message: " + ErrorText(parsed.err));
      return;
    }
    var msg := parsed.msg;
    ghost var membership := chat.Membership();
    ghost var roomID := if msg.Kind() in {"join", "quit", "say"} then msg.Content()[0] else "";
    chat.MembersOfIsMembersIn(roomID);
    var found, herr := Dispatch(chat, gen, user, msg, random);
    DispatchedMembership(membership, chat.Membership(), user, frame);
    ghost var id := BerryId.IdFor(random, gen.counter);
    forall u | u in chat.Known
      ensures u.out == QueueAfterFrame(old(u.out), u, frame, membership, user.id, id)
    {
      DispatchedQueue(old(u.out), u.out, u, frame, membership, user.id, id);
    }
    if !found {
      reply := ErrMessage(requestID, "unknown message");
    } else if herr.Some? {
      reply := ErrMessage(requestID, herr.value);
    } else {
      reply := OKMessage(requestID);
    }
    if msg.Kind() == "say" {
      RepliesInOffer(old(user.out), user.capacity, SayOf(frame, user.id, id));
    }
  }

  /** `user.Send(m)` for a registered user: the rooms are untouched. */
  method Enqueue(chat: Chat, user: User, m: Message) returns (err: Option<SendError>)
    requires chat.Valid() && user in chat.Known && user.Valid()
    modifies user`out
    ensures chat.Valid() && user.Valid()
    ensures chat.Membership() == old(chat.Membership())
    ensures err == (if |old(user.out)| < user.capacity then None else Some(SlowClient))
    ensures user.out == Offer(old(user.out), user.capacity, m)
  {
    err := user.Send(m);
  }

  /** The rest of one turn of the read loop, once a frame has arrived before
      cancellation: handle it, then queue its reply on the user's own queue,
      after whatever broadcast traffic the handler queued there. `sent` is
      false when the queue was full, and then the reply was not queued. */
  method Serve(chat: Chat, gen: BerryId.IdGenerator, user: User, frame: RawFrame, random: BerryId.RandomPair)
    returns (sent: bool)
    requires chat.Valid() && gen.Valid() && user in chat.Known && user.Valid()
    modifies chat, chat.rooms.Values, chat.Known`out, gen, gen.raw
    ensures chat.Valid() && gen.Valid() && user.Valid()
    ensures chat.users == old(chat.users) && chat.Known == old(chat.Known)
    ensures forall r :: r in chat.rooms.Values ==> r in old(chat.rooms.Values) || fresh(r)
    ensures chat.Membership() == MembershipAfterFrame(old(chat.Membership()), user, frame)
    ensures gen.counter == (if IsRequest(frame, "say") then BerryId.NextCounter(old(gen.counter)) else old(gen.counter))
    ensures forall u :: u in chat.Known && u != user ==>
      u.out == QueueAfterFrame(old(u.out), u, frame, old(chat.Membership()), user.id, BerryId.IdFor(random, gen.counter))
    ensures user.out == Offer(QueueAfterFrame(old(user.out), user, frame, old(chat.Membership()), user.id,
                                              BerryId.IdFor(random, gen.counter)),
                              user.capacity, ReplyTo(frame))
    ensures sent <==> |QueueAfterFrame(old(user.out), user, frame, old(chat.Membership()), user.id,
                                       BerryId.IdFor(random, gen.counter))| < user.capacity
    ensures sent ==> |user.out| > 0 && user.out[|user.out| - 1] == ReplyTo(frame)
    ensures !sent ==> |user.out| == user.capacity && RepliesIn(user.out) == RepliesIn(old(user.out))
    ensures sent ==> RepliesIn(user.out) == RepliesIn(old(user.out)) + [ReplyTo(frame)]
  {
    var reply := HandleFrame(chat, gen, user, frame, random);
    ghost var queued := user.out;
    var sendErr := Enqueue(chat, user, reply);
    if sendErr.Some? {
      return false;
    }
    RepliesInAppend(queued, [reply]);
    sent := true;
  }

  /** The first `n` reads all delivered a frame before cancellation. */
  predicate Served(rs: seq<Read>, n: nat)
    requires n <= |rs|
  {
    forall i :: 0 <= i < n ==> rs[i].Received? && !rs[i].cancelled
  }

  lemma ServedStep(rs: seq<Read>, n: nat)
    requires n < |rs| && Served(rs, n) && rs[n].Received? && !rs[n].cancelled
    ensures Served(rs, n + 1)
  {
  }

  /** The replies owed for the frames the read loop served are one per
      frame, in the order the frames came. */
  lemma RepliesInOrder(rs: seq<Read>, n: nat)
    requires n <= |rs| && Served(rs, n)
    ensures |Replies(rs[..n])| == n
    ensures forall i :: 0 <= i < n ==> Replies(rs[..n])[i] == ReplyTo(rs[i].frame)
  {
    RepliesCount(rs, n);
    forall i | 0 <= i < n
      ensures Replies(rs[..n])[i] == ReplyTo(rs[i].frame)
    {
      ReplyAt(rs, n, i);
    }
  }

  /** One reply is owed per frame served. */
  lemma {:induction false} RepliesCount(rs: seq<Read>, n: nat)
    requires n <= |rs| && Served(rs, n)
    ensures |Replies(rs[..n])| == n
  {
    if n > 0 {
      assert Served(rs, n - 1);
      RepliesCount(rs, n - 1);
      RepliesStep(rs, n - 1);
    }
  }

  /** The `i`th reply owed is the reply to the `i`th frame. */
  lemma {:induction false} ReplyAt(rs: seq<Read>, n: nat, i: nat)
    requires i < n <= |rs| && Served(rs, n)
    ensures |Replies(rs[..n])| == n && Replies(rs[..n])[i] == ReplyTo(rs[i].frame)
  {
    assert Served(rs, n - 1);
    RepliesCount(rs, n - 1);
    RepliesCount(rs, n);
    RepliesStep(rs, n - 1);
    if i < n - 1 {
      ReplyAt(rs, n - 1, i);
    }
    SnocAt(Replies(rs[..n]), Replies(rs[..n - 1]), ReplyTo(rs[n - 1].frame), i);
  }

  lemma AppendAssociative<T>(a: seq<T>, b: seq<T>, c: seq<T>)
    ensures (a + b) + c == a + (b + c)
  {
  }

  /** Indexing into a sequence extended by one element. */
  lemma SnocAt<T>(s: seq<T>, prefix: seq<T>, x: T, i: nat)
    requires s == prefix + [x] && i <= |prefix|
    ensures |s| == |prefix| + 1
    ensures s[i] == if i < |prefix| then prefix[i] else x
  {
  }

  /** The user's own queue when the read loop has returned `exit` after
      queueing the replies to the first `handled` frames: each of those
      replies found room once its frame's handler ran, the queue is the fold
      of the frames handled, and when the loop stopped on a failed send, the
      queue is the one the handler of the next frame left behind, without
      that frame's reply. */
  predicate LoopQueue(queue: seq<Message>, queue0: seq<Message>, membership0: map<string, map<string, User>>,
                      counter0: int, user: User, rs: seq<Read>, handled: nat, exit: Exit)
    requires 0 <= counter0 <= BerryId.MaxUint16 && handled <= |rs| && Served(rs, handled)
    requires exit == ExitAt(rs, handled)
  {
    && (forall i :: 0 <= i < handled ==>
          |OwnQueueBeforeReply(queue0, membership0, counter0, user, rs, i)| < user.capacity)
    && queue == OwnQueueAfter(queue0, membership0, counter0, user, rs, if exit == SendFailed then handled + 1 else handled)
    && (exit == SendFailed ==> queue == OwnQueueBeforeReply(queue0, membership0, counter0, user, rs, handled))
  }

  /** `LoopQueue` from the account the read loop keeps turn by turn. */
  lemma LoopQueueOf(queue: seq<Message>, queue0: seq<Message>, membership0: map<string, map<string, User>>,
                    counter0: int, user: User, rs: seq<Read>, handled: nat, exit: Exit)
    requires 0 <= counter0 <= BerryId.MaxUint16 && handled <= |rs| && Served(rs, handled)
    requires exit == ExitAt(rs, handled)
    requires RepliesFit(queue0, membership0, counter0, user, rs, handled)
    requires queue == OwnQueueAfter(queue0, membership0, counter0, user, rs, if exit == SendFailed then handled + 1 else handled)
    requires exit == SendFailed ==> queue == OwnQueueBeforeReply(queue0, membership0, counter0, user, rs, handled)
    ensures LoopQueue(queue, queue0, membership0, counter0, user, rs, handled, exit)
  {
    RepliesFitEach(queue0, membership0, counter0, user, rs, handled);
  }

  /** The read loop's account of the registry once it has queued the
      replies to the first `replied` frames and run the handlers of the first
      `ran`: the user's replies, its own queue in full, that every reply so
      far found room, the rooms' membership, the id counter and the other
      users' queues, from `queue0`, `queues0`, `membership0` and `counter0`
      at the start. */
  ghost predicate LoopState(chat: Chat, gen: BerryId.IdGenerator, user: User, rs: seq<Read>, replied: nat, ran: nat,
                            queue0: seq<Message>, queues0: map<User, seq<Message>>,
                            membership0: map<string, map<string, User>>, counter0: int)
    requires replied <= |rs| && ran <= |rs| && 0 <= counter0 <= BerryId.MaxUint16
    reads user`out, chat`Known, chat.Known`out, chat`rooms, chat.rooms.Values`members, gen`counter
  {
    && RepliesIn(user.out) == Replies(rs[..replied])
    && user.out == OwnQueueAfter(queue0, membership0, counter0, user, rs, ran)
    && RepliesFit(queue0, membership0, counter0, user, rs, replied)
    && chat.Membership() == MembershipAfter(membership0, user, rs, ran)
    && gen.counter == CounterAfterReads(counter0, rs, ran)
    && OthersQueues(chat, user) == QueuesAfter(queues0, membership0, counter0, user, rs, ran)
  }

  /** One turn of the read loop, at the `n`th read: stop with the exit the
      read calls for, changing nothing, or serve its frame. It carries the
      loop's account (`LoopState`) from the first `n` reads to the first
      `n + 1`; a frame whose reply could not be queued was still handled. */
  method Turn(chat: Chat, gen: BerryId.IdGenerator, user: User, rs: seq<Read>, n: nat,
              ghost queue0: seq<Message>, ghost queues0: map<User, seq<Message>>,
              ghost membership0: map<string, map<string, User>>, ghost counter0: int)
    returns (stop: Option<Exit>)
    requires n < |rs| && Served(rs, n)
    requires chat.Valid() && gen.Valid() && user in chat.Known && user.Valid()
    requires 0 <= counter0 <= BerryId.MaxUint16
    requires LoopState(chat, gen, user, rs, n, n, queue0, queues0, membership0, counter0)
    modifies chat, chat.rooms.Values, chat.Known`out, gen, gen.raw
    ensures chat.Valid() && gen.Valid() && user.Valid()
    ensures chat.users == old(chat.users) && chat.Known == old(chat.Known)
    ensures forall r :: r in chat.rooms.Values ==> r in old(chat.rooms.Values) || fresh(r)
    ensures stop.Some? ==> stop.value == ExitAt(rs, n)
    ensures stop.None? ==> Served(rs, n + 1) && LoopState(chat, gen, user, rs, n + 1, n + 1, queue0, queues0, membership0, counter0)
    ensures stop == Some(SendFailed) ==>
      && |user.out| == user.capacity
      && user.out == OwnQueueBeforeReply(queue0, membership0, counter0, user, rs, n)
      && LoopState(chat, gen, user, rs, n, n + 1, queue0, queues0, membership0, counter0)
    ensures stop.Some? && stop.value != SendFailed ==>
      && (forall u :: u in chat.Known ==> u.out == old(u.out))
      && LoopState(chat, gen, user, rs, n, n, queue0, queues0, membership0, counter0)
  {
    var read := rs[n];
    if read.ReadFailed? {
      return Some(ReadError);
    }
    if read.cancelled {
      return Some(Cancelled);
    }
    ServedStep(rs, n);
    RepliesStep(rs, n);
    ghost var membership, counter := chat.Membership(), gen.counter;
    ghost var before := OthersQueues(chat, user);
    var sent := Serve(chat, gen, user, read.frame, read.random);
    FoldStep(membership0, counter0, user, rs, n, membership, counter, chat.Membership(), gen.counter);
    assert user.out == OwnQueueAfter(queue0, membership0, counter0, user, rs, n + 1)
        && (sent ==> RepliesFit(queue0, membership0, counter0, user, rs, n + 1))
        && (!sent ==> user.out == OwnQueueBeforeReply(queue0, membership0, counter0, user, rs, n)) by {
      assert QueueAfterFrame(old(user.out), user, read.frame, membership, user.id, BerryId.IdFor(read.random, gen.counter))
          == OwnQueueBeforeReply(queue0, membership0, counter0, user, rs, n);
      OwnQueueStep(queue0, membership0, counter0, user, rs, n, user.out, sent);
    }
    assert OthersQueues(chat, user) == QueuesAfter(queues0, membership0, counter0, user, rs, n + 1) by {
      QueuesStep(queues0, membership0, counter0, user, rs, n, before, OthersQueues(chat, user));
    }
    stop := if sent then None else Some(SendFailed);
  }

  /** The read loop of `HandleClient`, for a registered user. Each frame read
      gets exactly one reply, queued in the order the frames came, until a
      read fails, a frame arrives after cancellation, or a reply cannot be
      queued. `handled` counts the frames whose replies were queued; the
      handlers ran for one frame more when the last reply could not be
      queued. `LoopQueue` states the user's own queue, the `say` traffic
      coming back to the user included, and with it the frame at which a
      full queue stops the loop. */
  method ReadLoop(chat: Chat, gen: BerryId.IdGenerator, user: User, rs: seq<Read>)
    returns (exit: Exit, handled: nat)
    requires chat.Valid() && gen.Valid() && user in chat.Known && user.Valid()
    requires RepliesIn(user.out) == []
    modifies chat, chat.rooms.Values, chat.Known`out, gen, gen.raw
    ensures chat.Valid() && gen.Valid() && user.Valid()
    ensures chat.users == old(chat.users) && chat.Known == old(chat.Known)
    ensures handled <= |rs| && Served(rs, handled)
    ensures exit == ExitAt(rs, handled)
    ensures exit == SendFailed ==> handled < |rs| && |user.out| == user.capacity
    ensures LoopQueue(user.out, old(user.out), old(chat.Membership()), old(gen.counter), user, rs, handled, exit)
    ensures LoopState(chat, gen, user, rs, handled, if exit == SendFailed then handled + 1 else handled,
                      old(user.out), old(OthersQueues(chat, user)), old(chat.Membership()), old(gen.counter))
  {
    ghost var queue0, queues0 := user.out, OthersQueues(chat, user);
    ghost var membership0, counter0 := chat.Membership(), gen.counter;
    QueuesAfterNone(queues0, membership0, counter0, user, rs);
    handled := 0;
    while handled < |rs|
      invariant handled <= |rs| && Served(rs, handled)
      invariant chat.Valid() && gen.Valid() && user.Valid()
      invariant chat.users == old(chat.users) && chat.Known == old(chat.Known)
      invariant forall r :: r in chat.rooms.Values ==> r in old(chat.rooms.Values) || fresh(r)
      invariant LoopState(chat, gen, user, rs, handled, handled, queue0, queues0, membership0, counter0)
    {
      var stop := Turn(chat, gen, user, rs, handled, queue0, queues0, membership0, counter0);
      if stop.Some? {
        LoopQueueOf(user.out, queue0, membership0, counter0, user, rs, handled, stop.value);
        return stop.value, handled;
      }
      handled := handled + 1;
    }
    exit := ReadError;
    LoopQueueOf(user.out, queue0, membership0, counter0, user, rs, handled, exit);
  }

  /** `HandleClient`: register a user whose queue holds 8 messages, then run
      the read loop for it. */
  method HandleClient(chat: Chat, gen: BerryId.IdGenerator, userRandom: BerryId.RandomPair, rs: seq<Read>)
    returns (user: User, exit: Exit, handled: nat)
    requires chat.Valid() && gen.Valid()
    modifies chat, chat.rooms.Values, chat.Known`out, gen, gen.raw
    ensures chat.Valid() && gen.Valid()
    ensures fresh(user) && user.nickname == user.id && user.capacity == OutboundCapacity
    ensures chat.users == old(chat.users)[user.id := user]
    ensures handled <= |rs| && Served(rs, handled)
    ensures exit == ExitAt(rs, handled)
    ensures RepliesIn(user.out) == Replies(rs[..handled])
    ensures |user.out| <= user.capacity
    ensures exit == SendFailed ==> |user.out| == user.capacity
    ensures user.id == BerryId.IdFor(userRandom, BerryId.NextCounter(old(gen.counter)))
    ensures exit == SendFailed ==> handled < |rs|
    ensures chat.Membership()
         == MembershipAfter(old(chat.Membership()), user, rs, if exit == SendFailed then handled + 1 else handled)
    ensures gen.counter
         == CounterAfterReads(BerryId.NextCounter(old(gen.counter)), rs, if exit == SendFailed then handled + 1 else handled)
    ensures forall u :: u in old(chat.Known) ==>
      u.out == QueueAfter(u, old(u.out), old(chat.Membership()), BerryId.NextCounter(old(gen.counter)), user, rs,
                          if exit == SendFailed then handled + 1 else handled)
    ensures LoopQueue(user.out, [], old(chat.Membership()), BerryId.NextCounter(old(gen.counter)), user, rs, handled, exit)
  {
    user := chat.CreateUser(gen, userRandom, OutboundCapacity);
    ghost var others := OthersQueues(chat, user);
    ghost var queue0, membership0, counter0 := user.out, chat.Membership(), gen.counter;
    exit, handled := ReadLoop(chat, gen, user, rs);
    assert LoopQueue(user.out, queue0, membership0, counter0, user, rs, handled, exit);
    forall u | u in old(chat.Known)
      ensures u.out == QueueAfter(u, old(u.out), old(chat.Membership()), BerryId.NextCounter(old(gen.counter)), user, rs,
                                  if exit == SendFailed then handled + 1 else handled)
    {
      assert u in others && others[u] == old(u.out);
      assert u in OthersQueues(chat, user) && OthersQueues(chat, user)[u] == u.out;
    }
  }
}
