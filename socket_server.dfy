/**
 * The socket server around the handlers: the CORS origin rule, the handshake token
 * gate, the connection handler (personal room, presence online, broadcast to the
 * others), the disconnect path (call cleanup, presence offline, broadcast) and the
 * room and typing events.
 */
module SocketServer {
  import opened Common
  import opened Store
  import opened Net
  import opened Signaling
  import opened AuthMiddleware

  // ---------------------------------------------------------------------------
  // CORS

  /** The fixed development origins. */
  const DevOrigins: seq<string> := ["http://localhost:5173", "http://localhost:5174", "http://localhost:5175"]

  /** `.filter(Boolean)` on a list of strings: the empty ones go, the order stays. */
  function NonEmpty(xs: seq<string>): (r: seq<string>)
    ensures forall x :: x in r <==> x in xs && x != ""
    ensures |r| <= |xs|
  {
    if xs == [] then []
    else
      var rest := NonEmpty(xs[1..]);
      assert forall x :: x in xs <==> x == xs[0] || x in xs[1..];
      if xs[0] == "" then rest else [xs[0]] + rest
  }

  /** The allow-list: the development origins and CORS_ORIGIN when it is set and not empty. */
  function AllowedOrigins(corsOrigin: Option<string>): (r: seq<string>)
    ensures forall o :: o in r <==> o in DevOrigins || (corsOrigin == Some(o) && o != "")
    ensures "" !in r
  {
    NonEmpty(DevOrigins + [corsOrigin.GetOr("")])
  }

  /** The origin callback: Ok(true) lets the request through, Err is "Not allowed by CORS".
      `nodeEnv` is NODE_ENV read straight from the environment (no default). */
  function CheckOrigin(origin: Option<string>, corsOrigin: Option<string>, nodeEnv: Option<string>): (r: Result<bool, string>)
    ensures r.Ok? ==> r.value
    ensures r.Err? ==> r.error == "Not allowed by CORS"
  {
    if origin.None? || origin.value == "" then Ok(true)
    else if origin.value in AllowedOrigins(corsOrigin) || nodeEnv == Some("development") then Ok(true)
    else Err("Not allowed by CORS")
  }

  /** The origin rule in full: a request passes exactly when it has no origin, its origin
      is a development origin or the configured CORS_ORIGIN, or NODE_ENV is development. */
  lemma OriginPolicy(origin: Option<string>, corsOrigin: Option<string>, nodeEnv: Option<string>)
    ensures CheckOrigin(origin, corsOrigin, nodeEnv).Ok? <==>
      || origin.None? || origin == Some("")
      || origin.value in DevOrigins || origin == corsOrigin
      || nodeEnv == Some("development")
  {
  }

  // ---------------------------------------------------------------------------
  // The handshake

  /** The `io.use` gate: no token (or an empty one) is refused with "Authentication
      required", a token that does not verify with "Invalid token"; otherwise the session
      carries the token's user id and email. */
  function Handshake(sid: SocketId, token: Option<string>, verify: Verifier): (r: Result<Session, string>)
    ensures r == Err("Authentication required") <==> token.None? || token.value == ""
    ensures r.Ok? <==> token.Some? && token.value != "" && token.value in verify
    ensures r.Err? ==> r.error in {"Authentication required", "Invalid token"}
    ensures r.Ok? ==>
      && r.value.sid == sid
      && r.value.userId == verify[token.value].userId && r.value.email == verify[token.value].email
  {
    if token.None? || token.value == "" then Err("Authentication required")
    else if token.value !in verify then Err("Invalid token")
    else Ok(Session(sid, verify[token.value].userId, verify[token.value].email))
  }

  /** The packet announcing a presence change to every other socket. */
  function PresenceTo(io: Io, sid: SocketId, p: Payload): Packet
    reads io`sessions, io`rooms
  {
    io.Deliver(AllExcept(sid), "presence:update", p)
  }

  /** A connection attempt. A refused handshake changes nothing. Otherwise the socket is
      in its personal room; if the user row exists it is marked online and every other
      socket hears `presence:update`. If it does not, the update rejects before the
      broadcast and before any event handler is registered, and nothing catches it:
      `live` is false, which describes the server only on a runtime that keeps running
      after an unhandled rejection. */
  method Connect(db: Db, io: Io, sid: SocketId, token: Option<string>, verify: Verifier)
    returns (r: Result<Session, string>, live: bool)
    requires io.Valid() && db.Valid() && sid !in io.sessions
    modifies db`users, io`sessions, io`rooms, io`outbox
    ensures io.Valid() && db.Valid()
    ensures r == Handshake(sid, token, verify)
    ensures live <==> r.Ok? && r.value.userId in old(db.users)
    ensures r.Err? ==>
      && db.users == old(db.users) && io.outbox == old(io.outbox)
      && io.sessions == old(io.sessions) && io.rooms == old(io.rooms)
    ensures r.Ok? ==>
      && io.sessions == old(io.sessions)[sid := r.value]
      && io.rooms == old(io.rooms)[sid := {UserRoom(r.value.userId)}]
    ensures r.Ok? && !live ==> db.users == old(db.users) && io.outbox == old(io.outbox)
    ensures live ==>
      && db.users == old(db.users)[r.value.userId := old(db.users)[r.value.userId].(isOnline := true)]
      && io.outbox == old(io.outbox) + [PresenceTo(io, sid, Presence(r.value.userId, true, None))]
  {
    r := Handshake(sid, token, verify);
    live := false;
    if r.Err? {
      return;
    }
    var s := r.value;
    io.Attach(s);
    if s.userId !in db.users {
      return;
    }
    db.users := db.users[s.userId := db.users[s.userId].(isOnline := true)];
    io.Emit(AllExcept(sid), "presence:update", Presence(s.userId, true, None));
    live := true;
  }

  /** A socket closes. It has already left every room when the handlers run. For a live
      connection the call cleanup runs first, then the presence handler marks the user
      offline with lastSeen = now and tells every other socket, whether or not the
      same user still has another connection open. */
  method Disconnect(db: Db, io: Io, engine: SignalingEngine, s: Session, live: bool, now: Millis)
    requires io.Valid() && db.Valid() && engine.Valid(db)
    requires s.sid in io.sessions && io.sessions[s.sid] == s
    modifies engine, db`calls, db`users, io`sessions, io`rooms, io`outbox
    ensures io.Valid() && db.Valid() && engine.Valid(db)
    ensures io.sessions == old(io.sessions) - {s.sid} && io.rooms == old(io.rooms) - {s.sid}
    ensures !live ==>
      && engine.entries == old(engine.entries) && db.calls == old(db.calls)
      && db.users == old(db.users) && io.outbox == old(io.outbox)
    ensures live ==>
      && engine.entries == Survivors(old(engine.entries), s.userId)
      && db.calls == DropAll(old(db.calls), old(engine.entries), s.userId, now)
    ensures live && s.userId !in old(db.users) ==>
      && db.users == old(db.users)
      && io.outbox == old(io.outbox) + EndedNotices(old(engine.entries), s.userId, io.Members())
    ensures live && s.userId in old(db.users) ==>
      && db.users == old(db.users)[s.userId := old(db.users)[s.userId].(isOnline := false, lastSeen := Some(now))]
      && io.outbox == old(io.outbox) + EndedNotices(old(engine.entries), s.userId, io.Members())
                      + [PresenceTo(io, s.sid, Presence(s.userId, false, Some(now)))]
  {
    io.Detach(s.sid);
    if !live {
      return;
    }
    engine.Disconnect(db, io, s, now);
    if s.userId !in db.users {
      return;
    }
    db.users := db.users[s.userId := db.users[s.userId].(isOnline := false, lastSeen := Some(now))];
    io.Emit(AllExcept(s.sid), "presence:update", Presence(s.userId, false, Some(now)));
  }

  /** Presence broadcasts never reach the socket they are about, and reach every other
      live socket. */
  lemma PresenceSkipsItsSocket(io: Io, sid: SocketId, p: Payload)
    ensures sid !in PresenceTo(io, sid, p).recipients
    ensures forall x :: x in io.sessions && x != sid ==> x in PresenceTo(io, sid, p).recipients
  {
    BroadcastExcludesSender(io.Members(), sid);
  }

  /** `typing:start` (`start`) and `typing:stop`: the conversation room, except the typist,
      hears who is typing. */
  method RelayTyping(io: Io, s: Session, c: ConversationId, start: bool)
    modifies io`outbox
    ensures io.outbox == old(io.outbox) + [TypingNotice(io, s, c, start)]
  {
    io.Emit(RoomExcept(ConversationRoom(c), s.sid), "typing:update", Net.Typing(c, s.userId, start));
  }

  /** The packet a typing event produces. */
  function TypingNotice(io: Io, s: Session, c: ConversationId, start: bool): Packet
    reads io`sessions, io`rooms
  {
    io.Deliver(RoomExcept(ConversationRoom(c), s.sid), "typing:update", Net.Typing(c, s.userId, start))
  }

  /** A typing notice reaches exactly the other sockets in the conversation room and names
      the typist and the conversation. */
  lemma TypingReachesTheOthers(io: Io, s: Session, c: ConversationId, start: bool)
    ensures s.sid !in TypingNotice(io, s, c, start).recipients
    ensures forall x :: x in TypingNotice(io, s, c, start).recipients <==>
      x in io.rooms && ConversationRoom(c) in io.rooms[x] && x != s.sid
    ensures TypingNotice(io, s, c, start).payload == Net.Typing(c, s.userId, start)
  {
  }
}
