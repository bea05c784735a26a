# berrychat, modelled in Dafny

berrychat is a small chat server in Go. Clients exchange JSON arrays of
strings over a connection. The server keeps a registry of rooms and users,
answers every client frame with "ok" or "err", and broadcasts `say` messages
to the members of a room. This project models the core of the server and
proves properties of the model. The core has two wire dialects and two
session loops:

- **Package berry** frames look like `[requestID, kind, args...]`. Its
  session loop dispatches each frame to a handler (`nick`, `join`, `quit`,
  `say`, `ping`, `ok`, `err`). The registry behind it holds rooms, users and
  bounded outbound queues. Ids come from a producer that writes a wrapping
  16-bit counter after two random bytes and hex-encodes the four bytes.
- **Package chat** frames look like `[kind, args...]`. Its session loop
  validates each frame and answers it, with no handlers wired in yet.

Modules, one file each:

| file | module | what it holds |
|---|---|---|
| `wire.dfy` | `Wire` | the decoded frame, the bounded non-blocking enqueue `Offer`, Go's `%q`/`%d` formatting, and Go's `len` on strings (UTF-8 bytes) |
| `berry_id.dfy` | `BerryId` | the id producer as a class (`counter`, `failures`, a 4-byte `raw` buffer) and its reference definition `Emitted` |
| `berry_protocol.dfy` | `BerryProtocol` | the request-id dialect: the schema, `ParseMessage`, and the constructors |
| `chat_protocol.dfy` | `ChatProtocol` | the positional dialect: the same, without request ids |
| `berry_chat.dfy` | `BerryChat` | the registry as classes `Chat`, `Room` and `User`, whose methods update maps and queues in place |
| `berry_client.dfy` | `BerryClient` | the dispatch table, the handlers, and the read loop of `HandleClient` |
| `chat_client.dfy` | `ChatClient` | the read loop of package chat, and the reference function `Session` it is proved against |

Inputs and assumptions:

- The nondeterministic inputs are parameters:
  - what the connection delivers is a list of read outcomes (`Read`);
  - whether the session context was cancelled by the time a frame arrived is a flag on each frame;
  - the two bytes the random source yields are an `Option<RandomPair>` (`None` for a failed read).
- The berry read loop takes, with each frame, the random pair that `say` consumes through `generateID()`.
- The writer goroutine of each session is not modelled, so a user's queue is everything enqueued and not yet written.

Where the code and its documentation disagree, the model follows the code:

- **Request-id length.** The request id is checked with Go's `len`, which counts UTF-8 bytes, not characters.
  - `"ééé"` (three characters) is accepted.
  - `"日本語"` is rejected as too long.
  - The argument count is checked before the id length. So `["abc", "join"]` is reported as an argument-count error, not an id error.
- **Reply addressing in package berry.** `pkg/berry/client.go` calls `ErrMessage(description)` and `OKMessage()` with one argument fewer than `pkg/berry/protocol.go` declares. The model addresses every reply to the frame's own request id, or `""` when the frame has none (`CorrelationID`).
- **Stubs.** `RemoveUser` does nothing and `UsersCount` returns 0. Removing a user does not cascade to room membership.
- **No timestamp in `say`.** The `msg` broadcast for `say` carries sender, room and body, with no timestamp.
- **Unreachable `unknown message` reply.** Every kind the parser accepts has a handler, so this reply cannot occur (`DispatchTableCoversSchema`).

## Model

| member | source | states |
|---|---|---|
| Wire.Offer | pkg/berry/chat.go:148-157 | a non-blocking send onto a buffered channel: when there is room `x` is appended after what was queued; the queue is unchanged exactly when it was full, and it never exceeds its capacity |
| Wire.Quote | pkg/berry/protocol.go:79 | `%q` of a string that needs no escaping is the string between double quotes, and dropping the quotes gives it back |
| Wire.Decimal | pkg/berry/protocol.go:83 | `%d` yields a non-empty string of decimal digits |
| Wire.DecimalRoundTrip | pkg/berry/protocol.go:83 | reading the `%d` digits back gives the number, so the count in an argument-count error is exact |
| Wire.Utf8Len | pkg/berry/protocol.go:86 | Go's `len` on a string is between its character count and four times that |
| Wire.AsciiUtf8Len | pkg/berry/protocol.go:86 | on ASCII text the byte length equals the character count |
| Wire.Utf8LenIsCountOnlyForAscii | pkg/berry/protocol.go:86 | and only on ASCII text |
| BerryId.NextCounter | pkg/berry/id.go:34-37 | one counter turn, reset at 65535 and then incremented, gives `c mod 65535 + 1`, always in 1..65535 |
| BerryId.CounterAfter | pkg/berry/id.go:34-37 | the counter after k turns from a valid value stays in 0..65535 |
| BerryId.CounterAfterClosedForm | pkg/berry/id.go:34-37 | after k ≥ 1 turns from c the counter is `(c + k - 1) mod 65535 + 1` |
| BerryId.CounterPeriodic | pkg/berry/id.go:34-37 | the counter repeats with period 65535 |
| BerryId.CounterDistinctWithinPeriod | pkg/berry/id.go:34-37 | within one period the counter takes no value twice |
| BerryId.BigEndian16 | pkg/berry/id.go:39 | `PutUint16` writes two bytes, high byte first, that spell the counter |
| BerryId.IdBytes | pkg/berry/id.go:23-39 | the buffer is the two random bytes followed by the big-endian counter |
| BerryId.Hex | pkg/berry/id.go:41 | `hex.EncodeToString` gives two lower-case hex digits per byte |
| BerryId.HexInjective | pkg/berry/id.go:41 | hex encoding of equal-length byte strings is injective |
| BerryId.HexAppend | pkg/berry/id.go:41 | the hex of a concatenation is the concatenation of the hex strings |
| BerryId.IdFor | pkg/berry/id.go:39-41 | an id is eight lower-case hex digits whose last four encode the counter |
| BerryId.CounterHexInjective | pkg/berry/id.go:39-41 | different counter values give different last four digits |
| BerryId.IdsWithDistinctCountersDiffer | pkg/berry/id.go:26-41 | ids built on different counter values differ, whatever the random bytes |
| BerryId.EmittedAreIds | pkg/berry/id.go:25-42 | every id the producer emits is eight lower-case hex digits |
| BerryId.EmittedLength | pkg/berry/id.go:25-42 | the producer emits one id per successful random read and none for a failed one |
| BerryId.EmittedCounter | pkg/berry/id.go:25-42 | the i-th emitted id carries the counter after i + 1 turns |
| BerryId.EmittedDistinctWithinPeriod | pkg/berry/id.go:25-42 | any 65535 consecutive emitted ids are pairwise distinct |
| BerryId.IdGenerator.constructor | pkg/berry/id.go:19-23 | the producer starts with counter 0 and a fresh 4-byte buffer |
| BerryId.IdGenerator.Step | pkg/berry/id.go:26-41 | one loop turn: a failed read emits nothing and changes nothing (the panic branch is unreachable because `failures` is never incremented); a successful one advances the counter, fills the buffer with `IdBytes` and emits its hex |
| BerryId.IdGenerator.Next | pkg/berry/id.go:11-13 | `generateID()` returns the id for the next counter value |
| BerryId.IdGenerator.Produce | pkg/berry/id.go:17-44 | the producer loop over a list of read outcomes emits exactly `Emitted` and leaves the counter after one turn per success |
| BerryProtocol.ParseMessage | pkg/berry/protocol.go:62-94 | a frame is accepted exactly when it is a string array with a schema kind second, exactly that kind's argument count after it, and a request id of 4 to 8 bytes; then the message is the array; a partial message comes back exactly for arrays shorter than two |
| BerryProtocol.CheckOrder | pkg/berry/protocol.go:66-91 | the checks run in order (JSON decoding, length, kind, argument count, request-id length) and the first failing one is reported with its own error |
| BerryProtocol.ArityBeatsRequestID | pkg/berry/protocol.go:82-91 | a three-character id with the wrong argument count gets the argument-count error |
| BerryProtocol.ServerKindsRejected | pkg/berry/protocol.go:34-80 | server-side kinds sent by a client are rejected as unknown |
| BerryProtocol.RequestIDLengthCountsBytes | pkg/berry/protocol.go:86-91 | the id length is counted in bytes: `"ééé"` passes, `"日本語"` is too long |
| BerryProtocol.AsciiRequestIDs | pkg/berry/protocol.go:86-91 | for an ASCII id the frame is accepted exactly when the id has 4 to 8 characters |
| BerryProtocol.AccessorsOnShortData | pkg/berry/protocol.go:141-157 | `RequestID` and `Kind` give "" on data too short for them; otherwise the data is id, kind, then content |
| BerryProtocol.Message.RequestID | pkg/berry/protocol.go:141-146 | the first element of the data, which is the data minus its tail; "" on empty data |
| BerryProtocol.Message.Kind | pkg/berry/protocol.go:148-153 | the second element, following the request id; "" on data shorter than two |
| BerryProtocol.Message.Content | pkg/berry/protocol.go:155-157 | what follows the request id and the kind: the data is exactly those three parts |
| BerryProtocol.ErrorText | pkg/berry/protocol.go:67-90 | the text of each parse error; exactly the argument-count and the two request-id errors begin with "invalid format: " |
| BerryProtocol.OKMessage | pkg/berry/protocol.go:96-106 | `[requestID, "ok"]` with no content |
| BerryProtocol.ErrMessage | pkg/berry/protocol.go:108-118 | `[requestID, "err", description]` |
| BerryProtocol.NewMessage | pkg/berry/protocol.go:120-134 | the generated id, the kind, then the arguments unchanged |
| BerryProtocol.OKMessageParses | pkg/berry/protocol.go:62-106 | an OK reply with a valid id parses back to itself |
| BerryProtocol.ErrMessageNeverParses | pkg/berry/protocol.go:62-118 | an error reply is never accepted as a client frame |
| BerryProtocol.NewMessageRoundTrip | pkg/berry/protocol.go:62-134 | a constructed message parses back, to itself, exactly when its kind and argument count fit the schema (a generated id always passes the id check) |
| BerryProtocol.GeneratedIdLength | pkg/berry/id.go:39-41 | a generated id is eight bytes long |
| ChatProtocol.ParseMessage | pkg/chat/protocol.go:62-83 | a frame is accepted exactly when it is a string array with a schema kind first and exactly its argument count after it; a partial message comes back exactly for the empty array |
| ChatProtocol.CheckOrder | pkg/chat/protocol.go:66-80 | JSON decoding, then emptiness, then kind, then argument count, each with its own error |
| ChatProtocol.Message.Kind | pkg/chat/protocol.go:121-123 | the first element, followed by the rest of the data |
| ChatProtocol.Message.Content | pkg/chat/protocol.go:125-127 | what follows the kind: the data is exactly the kind then the content |
| ChatProtocol.ErrorText | pkg/chat/protocol.go:67-79 | the text of each parse error; exactly the argument-count error begins with "invalid format: " |
| ChatProtocol.OKMessage | pkg/chat/protocol.go:85-90 | `["ok"]` |
| ChatProtocol.ErrMessage | pkg/chat/protocol.go:92-102 | `["err", description]` |
| ChatProtocol.NewMessage | pkg/chat/protocol.go:104-114 | the arguments unchanged, the first being the kind |
| ChatProtocol.OKMessageParses | pkg/chat/protocol.go:62-90 | the OK reply parses back to itself |
| ChatProtocol.ErrMessageNeverParses | pkg/chat/protocol.go:62-102 | an error reply is never accepted as a client frame |
| ChatProtocol.NewMessageRoundTrip | pkg/chat/protocol.go:62-114 | a constructed message parses back, to itself, exactly when it fits the schema |
| BerryChat.User.constructor | pkg/berry/chat.go:68-74 | a user starts with nickname equal to its id and an empty queue of the given capacity |
| BerryChat.User.UserID | pkg/berry/chat.go:140-142 | the id the user was created with (a constant, so it never changes) |
| BerryChat.User.Nickname | pkg/berry/chat.go:144-146 | the current nickname |
| BerryChat.User.Send | pkg/berry/chat.go:148-157 | enqueue when there is room; otherwise `ErrSlowClient` and the queue is untouched |
| BerryChat.Room.constructor | pkg/berry/chat.go:60-63 | a new room has its id and no members |
| BerryChat.Room.RoomID | pkg/berry/chat.go:94-96 | the id the room was created with |
| BerryChat.Room.UsersCount | pkg/berry/chat.go:118-120 | always 0 |
| BerryChat.Room.Subscribe | pkg/berry/chat.go:122-126 | the user is stored under its id, and nothing else changes |
| BerryChat.Room.Unsubscribe | pkg/berry/chat.go:128-132 | the user's id is removed, and nothing else changes |
| BerryChat.Room.Broadcast | pkg/berry/chat.go:102-112 | every member is offered the message, a full queue only misses it, and the result is nil |
| BerryChat.Chat.constructor | pkg/berry/chat.go:39-44 | the registry starts with no rooms and no users |
| BerryChat.Chat.Room | pkg/berry/chat.go:52-66 | an existing room is returned unchanged; otherwise an empty one is created and registered; membership changes at most by that new empty room |
| BerryChat.Chat.CreateUser | pkg/berry/chat.go:68-81 | a fresh user under the next generated id, nickname equal to id, registered in `users`; rooms untouched |
| BerryChat.Chat.RemoveUser | pkg/berry/chat.go:83-85 | changes nothing |
| BerryChat.Chat.OneRoomChanged | pkg/berry/chat.go:122-132 | when one registered room changes only its own members, the registry stays valid and its membership changes at that room alone |
| BerryChat.Chat.MembersOfIsMembersIn | pkg/berry/chat.go:52-66 | the members of a room as the registry holds them are its entry in the membership map, or none when the room is missing |
| BerryClient.DispatchTableCoversSchema | pkg/berry/client.go:71-72 | every kind the parser accepts has a handler, so "unknown message" is never the reply; the `err` handler is never reached |
| BerryClient.CorrelationID | pkg/berry/protocol.go:141-146 | the request id a reply carries: the frame's first element, or "" for a malformed or empty frame |
| BerryClient.ResponseFor | pkg/berry/client.go:61-79 | the reply is OK exactly for accepted frames other than `nick`; a rejected frame gets "invalid message: " and the parse error; `nick` gets "not implemented" |
| BerryClient.ResponseMessage | pkg/berry/client.go:63-77 | a reply carries the request id and the kind "ok" or "err"; an "ok" has no content, an "err" has exactly its description |
| BerryClient.ReplyTo | pkg/berry/client.go:61-79 | the reply to a frame is addressed to the frame's request id; it is `[id, "ok"]`, with no content, exactly when `ResponseFor` is OK, and otherwise an "err" carrying `ResponseFor`'s description |
| BerryClient.Replies | pkg/berry/client.go:47-84 | the replies owed for a list of reads, one per frame received, so never more than the reads |
| BerryClient.RepliesIn | pkg/berry/client.go:81 | the replies in a queue, with broadcast traffic left out; each is an "ok" or "err" |
| BerryClient.RepliesInAppend | pkg/berry/client.go:81 | the replies in two queues joined are the replies of each, in order |
| BerryClient.ExitAt | pkg/berry/client.go:49-65 | the loop ends with a read error exactly at the end of the reads or a failed read, with cancellation exactly at a frame that arrived after it, and with a send failure otherwise |
| BerryClient.RepliesInOffer | pkg/berry/client.go:101-106 | a broadcast `msg` in a user's queue is never mistaken for a reply |
| BerryClient.SayMessage | pkg/berry/client.go:101-102 | the `say` broadcast is a `msg` of sender, room and body, and is not a reply |
| BerryClient.SubscribeIn | pkg/berry/client.go:94 | subscribing to a registered room changes that room's membership alone |
| BerryClient.UnsubscribeIn | pkg/berry/client.go:98 | unsubscribing from a registered room changes that room's membership alone |
| BerryClient.Join | pkg/berry/client.go:93-96 | the room, created if needed, gains the user under its id; no other room and no queue changes |
| BerryClient.Quit | pkg/berry/client.go:97-100 | the room, created if needed, loses the user's id; no other room and no queue changes |
| BerryClient.BroadcastTo | pkg/berry/client.go:106 | each member of the room, as it was before the call, is offered the message; other users' queues and all memberships are unchanged; the result is nil |
| BerryClient.Say | pkg/berry/client.go:101-107 | one id is generated, the `msg` is offered to every member of the room, and the handler returns nil |
| BerryClient.Dispatch | pkg/berry/client.go:71-79 | looks the kind up and runs its handler, with each handler's effect on membership, queues and the id counter; only `nick` fails |
| BerryClient.HandleFrame | pkg/berry/client.go:61-79 | the reply is `ReplyTo(frame)`; the membership becomes `MembershipAfterFrame` (join adds the user, quit removes it, both and say create a missing room); the counter advances once exactly for `say`; every user's queue becomes `QueueAfterFrame` (a `say` offers its `msg` to the members of its room as they were); a rejected frame therefore changes no membership, counter or queue; handlers add no reply to the user's own queue |
| BerryClient.Enqueue | pkg/berry/client.go:81 | `user.Send` inside the registry: the user's queue becomes `Offer` of the reply, the error is `ErrSlowClient` exactly when it was full, and the registry stays valid |
| BerryClient.Serve | pkg/berry/client.go:61-83 | the handler's effects as in `HandleFrame`, then the reply offered to the user's queue; the reply is sent exactly when the queue the handler left has room, and then it is the last message in the queue; when the queue is full nothing is queued and the loop must stop |
| BerryClient.RepliesInOrder | pkg/berry/client.go:47-84 | the replies owed are one per frame served, in the order the frames came |
| BerryClient.RepliesCount | pkg/berry/client.go:47-84 | while every read so far was a frame, there is one reply per read |
| BerryClient.ReplyAt | pkg/berry/client.go:47-84 | the i-th reply owed is the reply to the i-th frame |
| BerryClient.DispatchedMembership | pkg/berry/client.go:71-107 | the membership after the handler the dispatch table picks for an accepted frame is `MembershipAfterFrame` of that frame |
| BerryClient.DispatchedQueue | pkg/berry/client.go:101-107 | a queue after the dispatched handler is `QueueAfterFrame`: offered the `say` broadcast when its user was in the room, untouched otherwise |
| BerryClient.JoinAndQuitTakeEffect | pkg/berry/client.go:93-100 | after a served `join` the user is a member of the frame's room under its own id; after a served `quit` it is not |
| BerryClient.OnlyJoinAndQuitChangeMembers | pkg/berry/client.go:89-110 | any other frame leaves every room's members as they were |
| BerryClient.CounterAfterReads | pkg/berry/client.go:101-102 | the id counter after the frames of a list of reads stays a valid 16-bit counter |
| BerryClient.CounterAfterReadsCountsSays | pkg/berry/client.go:101-102 | that counter is the start advanced once per `say` frame, as `CounterAfter` counts turns |
| BerryClient.FoldStep | pkg/berry/client.go:47-84 | one more served frame extends the membership and counter folds over the reads by exactly its own effect |
| BerryClient.QueuesAfterNone | pkg/berry/client.go:47-84 | before any frame is read the other users' queues are as they were |
| BerryClient.RepliesInQueueAfterFrame | pkg/berry/client.go:101-107 | a frame's handler puts no reply on any queue, only broadcast traffic |
| BerryClient.RepliesInReply | pkg/berry/client.go:81 | queueing a reply appends it to the replies in that queue |
| BerryClient.OwnQueueStep | pkg/berry/client.go:61-83 | the user's own queue steps by one served frame: the handler's `say` traffic, then the reply when there is room; a reply that finds no room leaves the queue as the handler left it |
| BerryClient.OwnQueueRepliesStep | pkg/berry/client.go:61-83 | a served frame whose reply found room adds exactly that reply to the replies on the user's own queue |
| BerryClient.OwnQueueReplies | pkg/berry/client.go:47-84 | when every one of the handled frames found room for its reply, the replies on the user's own queue are those of the frames handled, in order, whatever `say` traffic the handlers added there |
| BerryClient.RepliesFitEach | pkg/berry/client.go:81-83 | the loop's record that every reply so far found room holds exactly when each handled frame's handler left room on the user's own queue |
| BerryClient.LoopQueueOf | pkg/berry/client.go:47-84 | the loop's turn-by-turn record of the user's own queue gives `LoopQueue`: every handled frame's reply found room, the queue is the fold of the frames handled, and on a failed send it is the queue the next frame's handler left, full and without that reply |
| BerryClient.QueuesStep | pkg/berry/client.go:101-107 | one more served frame extends the fold of the other users' queues by exactly its `say` broadcast, offered to the room's members as they were |
| BerryClient.Turn | pkg/berry/client.go:48-83 | one iteration of the read loop: at a failed read or a cancelled frame it stops with `ExitAt` and changes no queue, membership or counter; otherwise it serves the frame and advances `LoopState` (replies owed, the user's own queue in full, membership, counter and the other users' queues) by that frame; it continues exactly when the reply found room, and a failed send leaves the user's queue full, as the frame's handler left it, with the handler already run |
| BerryClient.ReadLoop | pkg/berry/client.go:47-84 | the loop stops with `ExitAt`: at the first failed read, the first frame after cancellation, or the first reply that finds the queue full; the stopping frame is pinned by `LoopQueue`: every reply before it found room on the user's own queue and, on a failed send, the queue that frame's handler left was full; `LoopState` then holds: the replies queued are those of the frames handled, in order, and the user's own queue (`say` echoes included), the membership, the id counter and every other user's queue are the folds of the handled frames' effects (one frame further when the last reply could not be sent) |
| BerryClient.HandleClient | pkg/berry/client.go:15-84 | a fresh user with a queue of 8 is registered under the next generated id, then the read loop runs for it: its replies, the membership, the counter, each previously registered user's queue (offered every `say` broadcast to a room it was in) and, through `LoopQueue`, the new user's own queue (its `say` echoes and its replies, every reply having found room, and on a failed send the full queue the next frame's handler left) are the folds over the frames handled |
| ChatClient.Reply | pkg/chat/client.go:70-82 | a valid frame is answered "ok"; an invalid one "invalid message: " and the parse error |
| ChatClient.HandleClient | pkg/chat/client.go:55-85 | the loop's exit reason and queue are exactly `Session` from an empty queue |
| ChatClient.Session | pkg/chat/client.go:55-85 | the reference definition of the loop: the queue it ends with extends the one it started from by at most one answer per read |
| ChatClient.SessionQueue | pkg/chat/client.go:55-85 | the queue only grows, never past 8, and holds nothing but "ok" and "err" |
| ChatClient.SessionStep | pkg/chat/client.go:70-84 | a frame whose answer can be queued, or needs none, moves the session to the next read |
| ChatClient.Replies | pkg/chat/client.go:70-82 | one answer per frame, in order |
| ChatClient.RepliesCons | pkg/chat/client.go:70-82 | the answers to a frame followed by more reads are its answer then theirs |
| ChatClient.SessionPrefix | pkg/chat/client.go:55-85 | frames that fit in the queue can be run first and the session continued from the queue they leave |
| ChatClient.SessionWithRoom | pkg/chat/client.go:55-85 | while the queue has room, every frame gets its answer in order and only the end of the reads stops the loop |
| ChatClient.ConnectionTestFramesValid | pkg/chat/client_test.go:18-25 | each frame of the connection test is valid and is answered "ok" |
| ChatClient.ConnectionTestSession | pkg/chat/client_test.go:11-39 | the six test frames then end of stream queue six messages, as the test expects to see written |
| ChatClient.FullQueue | pkg/chat/client.go:71-84 | with a full queue a valid frame's "ok" is dropped and the loop goes on, while an invalid frame ends the session |
| ChatClient.StopsOnCancelOrReadError | pkg/chat/client.go:57-68 | a failed read or a frame after cancellation ends the session without an answer |

## Left out

- JSON encoding and decoding. A frame reaches the model already decoded as `RawFrame`, and the `json` bytes stored beside each message are not modelled. `%q` is modelled only for strings that need no escaping.
- The writer goroutines that drain each queue onto the connection, and the draining after cancellation. Queues only grow in the model.
- BerryChat.User.Send: cancellation is not modelled. Go's `select` may return `ctx.Err()` when the context is done, even if the queue has room. The model fails only on a full queue.
- Locks (`sync.Mutex`) only serialise operations, so the model is sequential.
- Logging (`log.Printf`) and the `String()` helpers of room and user.
- `Room.Users()` only panics and has no caller.
- The random source, `time.Sleep` and the `readyid` channel of 32 ids:
  - the random bytes are parameters;
  - a failed read is retried with no delay;
  - `generateID()` returns the next id directly.
- BerryId.IdGenerator.Step: the panic after more than ten failures cannot happen, because `failures` is never incremented. A failed `rand.Read` may partly overwrite `raw[:2]`; the model leaves the buffer unchanged, and the next successful read overwrites those bytes anyway.
- `pkg/chat/chat.go`, the registry of package chat, is not part of this model. The chat session's `user.Send` is taken to be the same bounded non-blocking enqueue as package berry's, with capacity 8. `CreateUser` and `RemoveUser` of package chat are left out.
- `cmd/berryd/main.go`, the HTTP and WebSocket server wiring.
- Deferred `cancel()`, `conn.Close()` and `RemoveUser` at the end of a session. `RemoveUser` is a no-op in package berry.
- Error values are modelled by their text (`ErrorText`) or as datatypes. Go's error wrapping with `fmt.Errorf` on the session's return value is reduced to the `Exit` reason.
