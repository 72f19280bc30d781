# chat-app-server core, modelled in Dafny

This project models the live session layer of the chat server and the small decision
rules around it:

- **call signalling**: the in-memory `activeCalls` registry, the persisted call
  lifecycle RINGING → ONGOING / REJECTED / ENDED, the `call:*` handlers, the opaque
  `rtc:*` relay and the disconnect cleanup;
- **message delivery**: `message:send` (membership check, create at SENT, touch the
  conversation, broadcast, promotion to DELIVERED when another participant is online),
  `message:delivered` and `message:read`, with the status order SENT < DELIVERED < READ;
- **the socket server**: the CORS origin callback, the handshake token gate, the
  personal and conversation rooms, presence on connect and disconnect, and the typing
  relay;
- **the conversation controller**: the participant set of a new conversation, the
  `lastMessage` of the listing, the participant-only lookup and the
  look-up-then-create of a direct conversation;
- **the HTTP edges**: the Bearer authentication middleware, `AppError` and the error
  handler, and the upload rules (MIME allow-list, stored file name, media type, URL).

Persistence is a `Db` object holding one map per table (users, conversations,
participants keyed by (conversation, user), messages, calls). socket.io is an `Io`
object holding the live sessions, the rooms of each socket, and an outbox. Each emit
appends a packet to the outbox, recording its target, the sockets it reaches at that
moment, the event name and the payload. Each handler is one atomic method. Time is an
integer number of milliseconds passed in. An id the database would assign (`newId`) and
a database call that throws (`fault`, `dbError`) are parameters, so the error paths can
be stated.

Files:

- `common.dfy`: Option, Result and id aliases.
- `store.dfy`: the tables and their referential invariant.
- `net.dfy`: sessions, rooms and the outbox.
- `signaling.dfy`: the call handlers.
- `messaging.dfy`: the message handlers.
- `socket_server.dfy`: the socket server.
- `conversations.dfy`: the conversation controller.
- `auth_middleware.dfy`: the authentication middleware.
- `error_handler.dfy`: `AppError` and the error handler.
- `upload.dfy`: the upload rules.

The model follows the code as written, including:

- `call:accept` on an unknown call emits CALL_NOT_FOUND to the caller. `call:reject`
  and `call:end` on an unknown call are silent.
- No call handler checks the current status or which party is calling. `call:end`
  ends a RINGING call, and anyone may accept.
- The disconnect cleanup marks calls ENDED with `endedAt` but writes no duration.
- The socket CORS callback reads `process.env.NODE_ENV` directly, so an unset NODE_ENV
  is not development there. The HTTP error handler's `isDev` defaults it to development.
- `message:read` announces READ to the conversation room named in the request, not to
  the message's own conversation. Neither `message:read` nor `message:delivered` checks
  that the caller takes part in the conversation.
- The offline presence broadcast goes out once per closing socket, even when the same
  user still has another socket open.

## Model

| member | source | states |
|---|---|---|
| Signaling.SignalingEngine.Initiate | src/socket/handlers/signalingHandler.ts:49-107 | An unknown receiver gets USER_NOT_FOUND and an offline one USER_OFFLINE, with no call and no registry change. A failed create gets CALL_FAILED. Otherwise exactly one RINGING call between caller and receiver is stored and exactly one fresh registry entry is added; `call:incoming` goes to `user:<receiver>` and `call:initiated` to the calling socket only. |
| Signaling.SignalingEngine.Ring | src/socket/handlers/signalingHandler.ts:76-100 | The success path: the new record, the registry gaining exactly the new key, the two emits, and the registry invariant kept. |
| Signaling.SignalingEngine.Accept | src/socket/handlers/signalingHandler.ts:110-131 | An unknown call gets CALL_NOT_FOUND and nothing changes. A known one becomes ONGOING with startedAt = now, and only the initiator's room hears `call:accepted`. The registry is unchanged, and no status or caller check is made. |
| Signaling.SignalingEngine.Reject | src/socket/handlers/signalingHandler.ts:134-155 | An unknown call changes nothing and emits nothing. A known one becomes REJECTED, ended now, and exactly that key leaves the registry. The initiator is told. |
| Signaling.SignalingEngine.End | src/socket/handlers/signalingHandler.ts:158-189 | An unknown call is a no-op. A known one becomes ENDED with the computed duration, and exactly that key leaves the registry. The party other than the caller is told. |
| Signaling.SignalingEngine.Relay | src/socket/handlers/signalingHandler.ts:192-225 | An unknown call delivers nothing. Otherwise the body is forwarded unchanged, under the same event name, to the counterpart's personal room. |
| Signaling.SignalingEngine.Disconnect | src/socket/handlers/signalingHandler.ts:228-248 | The registry becomes the entries not involving the user. The call records become DropAll of the old ones. The outbox gains exactly the `call:ended` notices, in registry order. The registry invariant is kept. |
| Signaling.SignalingEngine.Cleanup | src/socket/handlers/signalingHandler.ts:230-247 | The for-loop over the registry snapshot, proved against Survivors, DropAll and EndedNotices. |
| Signaling.SignalingEngine.DropEntry | src/socket/handlers/signalingHandler.ts:233-245 | One involved call: marked ENDED now (duration untouched), deleted, and `call:ended` sent to its other party. |
| Signaling.RegistryKeys | src/socket/handlers/signalingHandler.ts:41-45 | The keys of the map the entry list denotes are exactly the listed call ids. |
| Signaling.DeleteRegistry | src/socket/handlers/signalingHandler.ts:146 | `activeCalls.delete(id)` removes exactly that key; every other entry is unchanged. |
| Signaling.KeepRegistry | src/socket/handlers/signalingHandler.ts:230-238 | Filtering the entry list filters the map and keeps keys distinct. |
| Signaling.KeepConcat | src/socket/handlers/signalingHandler.ts:230-238 | Filtering distributes over concatenation, so the loop's prefix can be extended one entry at a time. |
| Signaling.AppendFresh | src/socket/handlers/signalingHandler.ts:86-90 | Setting a key not yet registered keeps the keys distinct. |
| Signaling.TracksAdd | src/socket/handlers/signalingHandler.ts:76-90 | Registering a freshly stored RINGING call adds exactly its key and keeps every registered call tracked by its record. |
| Signaling.Counterpart | src/socket/handlers/signalingHandler.ts:179-181 | The other party is a party of the call, differs from the sender when the sender is a party (and the parties differ), and is the initiator for an outsider. |
| Signaling.RelayTarget | src/socket/handlers/signalingHandler.ts:193-198 | No target exactly for an unknown call. Otherwise the counterpart: a party of the call other than the sender when the sender is a party, and the initiator for an outsider. |
| Signaling.Duration | src/socket/handlers/signalingHandler.ts:164-167 | 0 without startedAt. Otherwise the floor of the elapsed milliseconds over 1000, which is never negative when now >= startedAt. |
| Signaling.Accepted | src/socket/handlers/signalingHandler.ts:119-122 | ONGOING with startedAt = now, every other field unchanged. |
| Signaling.RejectedAt | src/socket/handlers/signalingHandler.ts:140-143 | REJECTED with endedAt = now, every other field unchanged. |
| Signaling.EndedAt | src/socket/handlers/signalingHandler.ts:164-173 | ENDED, endedAt = now, duration = Duration(now, startedAt), every other field unchanged. |
| Signaling.DroppedAt | src/socket/handlers/signalingHandler.ts:233-236 | ENDED, endedAt = now, duration left as it was. |
| Signaling.SurvivorsRegistry | src/socket/handlers/signalingHandler.ts:230-238 | After the cleanup no registered call involves the user. Every call that did not involve the user is still registered, unchanged. |
| Signaling.NoticesFromInvolved | src/socket/handlers/signalingHandler.ts:240-245 | Every `call:ended` notice of the cleanup belongs to a listed call involving the user. |
| Signaling.NoticeIds | src/socket/handlers/signalingHandler.ts:245 | Every notice names a registered call. |
| Signaling.ExactlyOneNotice | src/socket/handlers/signalingHandler.ts:240-245 | Each call involving the user gets exactly one `call:ended`, addressed to its other party. |
| Signaling.DropAllEffect | src/socket/handlers/signalingHandler.ts:231-236 | The cleanup marks exactly the registered calls involving the user ENDED at now and leaves every other record as it was. |
| Messaging.Send | src/socket/handlers/messageHandler.ts:17-82 | A lookup failure gives MESSAGE_FAILED to the sender only. A non-participant gets NOT_PARTICIPANT with nothing created or broadcast. A create failure gives MESSAGE_FAILED with nothing written. Otherwise the message exists at SENT and Published holds. |
| Messaging.Publish | src/socket/handlers/messageHandler.ts:35-77 | The message is stored; then, unless the touch throws, updatedAt = now and `message:new` goes to the conversation room, followed by the fan-out. A failure stops the rest without undoing earlier steps. |
| Messaging.FanOut | src/socket/handlers/messageHandler.ts:55-81 | With another participant online, the message becomes DELIVERED and the room hears `message:status`. Otherwise nothing more happens. A failing step gives MESSAGE_FAILED. |
| Messaging.SendStatus | src/socket/handlers/messageHandler.ts:55-77 | With no failure, the new message is DELIVERED iff some other participant is online, and SENT iff none is. `message:status` is broadcast only in the first case. |
| Messaging.Fresh | src/socket/handlers/messageHandler.ts:35-43 | The created row has the caller as sender, type TEXT, status SENT, the given content and conversation. |
| Messaging.OnlineRecipients | src/socket/handlers/messageHandler.ts:55-65 | Exactly the participants of the conversation other than the sender whose user is online. |
| Messaging.MarkDelivered | src/socket/handlers/messageHandler.ts:85-108 | An unknown id is a no-op. A SENT message becomes DELIVERED and its own conversation room is told. A DELIVERED or READ message is left alone, so the status never regresses. |
| Messaging.MarkRead | src/socket/handlers/messageHandler.ts:111-143 | The caller's lastReadAt in the conversation becomes now when that row exists. A message written by someone else becomes READ, and the request's conversation room is told. Otherwise the message and the outbox are unchanged. |
| Messaging.NextAdvances | src/socket/handlers/messageHandler.ts:94-98 | Every status event is one of: no change, SENT → DELIVERED, or → READ. It never lowers the rank. |
| Messaging.Replay | src/socket/handlers/messageHandler.ts:91-138 | Any run of status events changes only the status and never lowers its rank. |
| Messaging.ReplayStaysSent | src/socket/handlers/messageHandler.ts:94-98 | Nothing sets SENT again: after any run of events a message is SENT iff it started SENT and every event was its own sender reading it. |
| Messaging.ReadIsFinal | src/socket/handlers/messageHandler.ts:129-133 | Once READ, a message stays READ whatever events follow. |
| SocketServer.CheckOrigin | src/socket/index.ts:25-31 | Allowed requests get Ok(true). Every refusal is "Not allowed by CORS". |
| SocketServer.OriginPolicy | src/socket/index.ts:16-31 | A request passes iff it has no origin (or an empty one), its origin is a development origin or the configured CORS_ORIGIN, or NODE_ENV is development. |
| SocketServer.AllowedOrigins | src/socket/index.ts:16-21 | The allow-list holds exactly the three development origins and a non-empty CORS_ORIGIN, and never the empty string. |
| SocketServer.NonEmpty | src/socket/index.ts:21 | `.filter(Boolean)` keeps exactly the non-empty strings. |
| SocketServer.Handshake | src/socket/index.ts:39-54 | A missing or empty token gives "Authentication required". An unverifiable one gives "Invalid token". Otherwise the session carries the token's userId and email. |
| SocketServer.Connect | src/socket/index.ts:56-73 | A refused handshake changes nothing. Otherwise the socket joins `user:<id>`. When the user row exists, the user is marked online and `presence:update{isOnline:true}` goes to every socket but this one. |
| SocketServer.Disconnect | src/socket/index.ts:80-93 | The socket leaves every room, and the call cleanup runs. The user is marked offline with lastSeen = now, and an offline `presence:update` goes to every other socket, once per closing connection. |
| SocketServer.PresenceSkipsItsSocket | src/socket/index.ts:70-73 | A presence broadcast never reaches its own socket and reaches every other live socket. |
| SocketServer.RelayTyping | src/socket/index.ts:107-121 | `typing:update{conversationId, userId, isTyping}` goes to the conversation room excluding the sender. |
| SocketServer.TypingReachesTheOthers | src/socket/index.ts:107-121 | The typing notice reaches exactly the other sockets in the conversation room and names the typist and the conversation. |
| Net.Io.Attach | src/socket/index.ts:61 | A new socket is registered in its personal room only, and room membership stays consistent with the sessions. |
| Net.Io.JoinConversation | src/socket/index.ts:96-99 | `room:join` adds exactly `conversation:<id>` to the socket's rooms; membership of every other room is unchanged. |
| Net.Io.LeaveConversation | src/socket/index.ts:102-104 | `room:leave` removes exactly `conversation:<id>`; membership of every other room is unchanged, and the socket keeps its personal room. |
| Net.RoomChangeTouchesOneRoom | src/socket/index.ts:96-104 | Joining or leaving a conversation room changes membership of no other room, the personal room included. |
| Net.RoomKindsDisjoint | src/socket/index.ts:61 | A personal room `user:<id>` is never a conversation room `conversation:<id>`. |
| Net.UserRoomInjective | src/socket/index.ts:61 | Different users have different personal rooms. |
| Net.BroadcastExcludesSender | src/socket/index.ts:70 | `socket.broadcast.emit` reaches every live socket but the sender. |
| Net.PersonalRoomReachesUser | src/socket/handlers/signalingHandler.ts:93 | An emit to `user:<u>` reaches exactly the live sockets of u. |
| Conversations.CreateConversation | src/controllers/conversationController.ts:105-154 | A missing or non-array participantIds is refused with 400 INVALID_REQUEST before any write. The type defaults to DIRECT. The name is kept only for GROUP, else null. A database refusal writes nothing. Otherwise the conversation and exactly one row per member are written. |
| Conversations.Members | src/controllers/conversationController.ts:118 | The list starts with the creator, contains every requested id and nothing else, and has no duplicates. |
| Conversations.Dedup | src/controllers/conversationController.ts:118 | `[...new Set(xs)]` has no duplicates, the same elements as xs, and the same first element. |
| Conversations.DedupOfDistinct | src/controllers/conversationController.ts:118 | A list without duplicates is left as it is. |
| Conversations.NewRows | src/controllers/conversationController.ts:124-129 | One row per member of the new conversation, isAdmin exactly for the creator, lastReadAt unset. |
| Conversations.NewConversationRows | src/controllers/conversationController.ts:118-129 | The creator's row exists and is the only admin row. Every requested user has a row. There are as many rows as distinct members. |
| Conversations.RowsCount | src/controllers/conversationController.ts:125-128 | Distinct members give exactly as many rows. |
| Conversations.Format | src/controllers/conversationController.ts:44-48 | Each entry is its row with `lastMessage` = the first message of the row or null. |
| Conversations.ListingSummaries | src/controllers/conversationController.ts:13-48 | The formatted listing holds exactly the caller's conversations, newest update first. Each lastMessage is a newest message of its conversation, and is null exactly when the conversation has none. |
| Conversations.FindForUser | src/controllers/conversationController.ts:65-97 | The conversation is returned iff it exists and the caller takes part in it. Otherwise the result is 404 CONVERSATION_NOT_FOUND. |
| Conversations.NotFoundIs404 | src/controllers/conversationController.ts:95-97 | The refusal is answered 404 with that message and code in any mode. |
| Conversations.GetOrCreateDirect | src/controllers/conversationController.ts:156-236 | An existing DIRECT conversation of both users is returned with nothing written. Otherwise one is created with exactly the two non-admin participant rows, or the database refusal is reported with nothing written. |
| AuthMiddleware.Authenticate | src/middleware/authMiddleware.ts:19-39 | The request proceeds iff the header starts with "Bearer " and the rest verifies, and then the user is the decoded payload. A missing or non-Bearer header is 401 UNAUTHORIZED. A failed verification is 401 INVALID_TOKEN. |
| AuthMiddleware.BearerRoundTrip | src/middleware/authMiddleware.ts:30 | The token is exactly what follows "Bearer ": `Bearer <t>` authenticates as t verifies. |
| AuthMiddleware.RefusalsAre401 | src/middleware/authMiddleware.ts:26-38 | Every refusal is handled as a 401 with UNAUTHORIZED or INVALID_TOKEN. |
| ErrorHandler.MakeAppError | src/middleware/errorHandler.ts:4-13 | An AppError keeps message and code. Its status is the given one, or 500 when omitted. |
| ErrorHandler.Handle | src/middleware/errorHandler.ts:15-39 | An AppError answers with its own status, message and code. Anything else is 500 INTERNAL_ERROR, with its message only in development and "Internal server error" otherwise. |
| ErrorHandler.AppErrorRoundTrip | src/middleware/errorHandler.ts:4-30 | Handling a built AppError gives back what it was built from, with 500 for an omitted status, whatever the mode. |
| ErrorHandler.ProductionHidesMessages | src/middleware/errorHandler.ts:32-37 | Outside development all unexpected errors get the same reply. |
| ErrorHandler.IsDev | src/config/env.ts:8-15 | Development mode iff NODE_ENV is unset, empty or "development". |
| Upload.FileFilter | src/controllers/uploadController.ts:26-54 | Accepted iff the MIME type is one of the 15 listed. Otherwise the error is "Tipo de arquivo não permitido: " followed by the MIME type. |
| Upload.Extname | src/controllers/uploadController.ts:19 | `path.extname`: empty, or a single leading dot with no other dot and no slash, taken from the end of the last path component. |
| Upload.ExtnameOfStemAndExt | src/controllers/uploadController.ts:19 | A plain name `stem.ext` has extension `.ext`. |
| Upload.NoDotNoExtension | src/controllers/uploadController.ts:19 | A last component without a dot has no extension. |
| Upload.StoredName | src/controllers/uploadController.ts:18-22 | The stored name is the UUID followed by the original name's extension. |
| Upload.StoredNamesDistinct | src/controllers/uploadController.ts:18-22 | Different UUIDs never give the same stored name. |
| Upload.Classify | src/controllers/uploadController.ts:76-83 | IMAGE for `image/`, VIDEO for `video/`, AUDIO for `audio/`, FILE otherwise. |
| Upload.AcceptedClassification | src/controllers/uploadController.ts:27-83 | Of the accepted types, the four `image/` ones are IMAGE, the three `video/` ones VIDEO, the five `audio/` ones AUDIO and the three documents FILE. |
| Upload.MediaUrl | src/controllers/uploadController.ts:72-73 | The URL is `<protocol>://<host>/uploads/` followed by the stored name. |
| Upload.MediaUrlInjective | src/controllers/uploadController.ts:72-73 | Under one server, different stored names give different URLs. |
| Upload.UploadFile | src/controllers/uploadController.ts:65-98 | No file gives 400 "Nenhum arquivo enviado" without metadata. Otherwise success, with name, size and MIME type echoed unchanged and the URL and media type added. |

## Left out

- Concurrency: each handler is one atomic step. Interleavings of in-flight `await`s
  across handlers and sockets are not modelled, including two disconnect handlers of one
  socket running side by side.
- Database failures in `call:accept`, `call:reject`, `call:end`, `message:delivered` and
  `message:read`: these handlers only log them. The model treats their writes as
  succeeding; the registry invariant guarantees the call rows exist.
- Signaling.SignalingEngine.Disconnect, Signaling.SignalingEngine.Cleanup and
  Signaling.SignalingEngine.DropEntry assume every `call.update` of the cleanup loop
  succeeds. The loop awaits it without a try/catch. A throw at the k-th involved call
  would stop the loop there: that call and every involved call after it would stay
  registered, none of them would get `call:ended`, and the rejection would go unhandled.
  SurvivorsRegistry and ExactlyOneNotice describe only the run where every write succeeds.
- SocketServer.Connect and SocketServer.Disconnect assume the presence writes succeed
  whenever the user row exists. The only failure modelled is a missing row. Neither
  write is caught and the server installs no unhandled-rejection handler, so under
  Node's default since version 15 such a failure ends the process. `live = false` in
  Connect describes the connection only on a runtime that survives the rejection.
- Conversations.FindForUser and Conversations.ListingSummaries have no failure case. A
  failing lookup is passed to the error handler and answered as a 500 (ErrorHandler.Handle
  of an OtherError).
- Signaling.SignalingEngine.Initiate: the other failures that lead to CALL_FAILED are
  not modelled. Only a taken id and a caller without a user row are.
- The text of Prisma errors: it is a parameter (`dbError`) of the conversation methods.
- The `include`/`select` projections of the conversation queries, the 50-message page
  of `getConversation` and `getOrCreateDirectConversation`, and the 201 response body:
  the model returns the conversation id or record.
- Conversations.ListingSummaries: the database query is specified by what it promises
  (ListingAnswer), not computed. Prisma's query engine is not part of this model.
- Conversations.GetOrCreateDirect: a user asking for a direct conversation with
  themselves is modelled as refused by the database. The two rows would share one
  participant key; the schema's uniqueness rule is not part of this model.
- JWT signing and verification: a token verifier is a partial map from token to payload.
- The 50 MiB limit (`Upload.MaxFileSize`) is declared but not enforced in the model;
  multer enforces it. Multer's disk storage, directory creation and UUID generation are
  also out: the UUID is a parameter.
- Environment loading, route tables, the Express and socket.io wiring, `console` logging
  and the wall clock. The time is a parameter.
- The handlers `createGroup`, `updateGroup` and `leaveGroup` do not appear in the
  conversation controller and are not modelled.
- Handler registration after a failed connect: `Connect` reports it through `live`
  rather than modelling the missing handlers.
