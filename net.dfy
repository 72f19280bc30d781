/**
 * The socket.io server as the core sees it: live sessions, room membership and an
 * outbox of emitted packets. An emit is recorded together with the set of sockets
 * that are members of its target at the moment it is sent.
 */
module Net {
  import opened Common
  import opened Store

  /** A live, authenticated connection: the socket id with the identity from its token. */
  datatype Session = Session(sid: SocketId, userId: UserId, email: string)

  /** Personal room of a user, `user:<userId>`. */
  function UserRoom(u: UserId): string {
    "user:" + u
  }

  /** Room of a conversation, `conversation:<conversationId>`. */
  function ConversationRoom(c: ConversationId): string {
    "conversation:" + c
  }

  /** A personal room is never a conversation room, whatever the ids. */
  lemma RoomKindsDisjoint(u: UserId, c: ConversationId)
    ensures UserRoom(u) != ConversationRoom(c)
  {
    assert UserRoom(u)[0] == 'u';
    assert ConversationRoom(c)[0] == 'c';
  }

  /** Different users have different personal rooms. */
  lemma UserRoomInjective(a: UserId, b: UserId)
    ensures UserRoom(a) == UserRoom(b) <==> a == b
  {
    if UserRoom(a) == UserRoom(b) {
      assert a == UserRoom(a)[5..];
      assert b == UserRoom(b)[5..];
    }
  }

  /** Different conversations have different rooms. */
  lemma ConversationRoomInjective(a: ConversationId, b: ConversationId)
    ensures ConversationRoom(a) == ConversationRoom(b) <==> a == b
  {
    if ConversationRoom(a) == ConversationRoom(b) {
      assert a == ConversationRoom(a)[13..];
      assert b == ConversationRoom(b)[13..];
    }
  }

  /** Where an emit goes. */
  datatype Target =
    | ToSocket(sid: SocketId)                   // socket.emit
    | ToRoom(room: string)                      // io.to(room).emit
    | AllExcept(except: SocketId)               // socket.broadcast.emit
    | RoomExcept(room: string, except: SocketId) // socket.to(room).emit

  /** Payloads of the outbound events; RTC bodies are opaque. */
  datatype Payload =
    | ErrorInfo(code: string, message: string)
    | CallIncoming(callId: CallId, initiator: UserId, callType: CallType)
    | CallInitiated(initiatedId: CallId)
    | CallRef(refId: CallId)
    | Rtc(rtcCallId: CallId, body: string)
    | NewMessage(messageId: MessageId, msg: Message)
    | StatusChange(changedId: MessageId, status: MessageStatus)
    | Presence(userId: UserId, isOnline: bool, lastSeen: Option<Millis>)
    | Typing(conversationId: ConversationId, typistId: UserId, isTyping: bool)

  /** One emitted event with the sockets it reached. */
  datatype Packet = Packet(target: Target, recipients: set<SocketId>, event: string, payload: Payload)

  /** The membership table: live sessions and the rooms each socket is in. */
  datatype Membership = Membership(sessions: map<SocketId, Session>, rooms: map<SocketId, set<string>>) {

    /** Every live socket has a room set, is in its own personal room, and only
        sockets of user u are in `user:<u>`. */
    ghost predicate Valid() {
      && rooms.Keys == sessions.Keys
      && (forall s :: s in sessions ==> UserRoom(sessions[s].userId) in rooms[s])
      && (forall s, u :: s in rooms && UserRoom(u) in rooms[s] ==> sessions[s].userId == u)
    }

    /** Sockets currently in `room`. */
    function InRoom(room: string): set<SocketId> {
      set s | s in rooms && room in rooms[s]
    }

    /** Sockets an emit to `t` reaches. */
    function Recipients(t: Target): set<SocketId> {
      match t
      case ToSocket(s) => if s in sessions then {s} else {}
      case ToRoom(r) => InRoom(r)
      case AllExcept(s) => sessions.Keys - {s}
      case RoomExcept(r, s) => InRoom(r) - {s}
    }
  }

  /** A broadcast reaches every other live socket and never the sender. */
  lemma BroadcastExcludesSender(m: Membership, s: SocketId)
    ensures s !in m.Recipients(AllExcept(s))
    ensures forall x :: x in m.sessions && x != s ==> x in m.Recipients(AllExcept(s))
  {
  }

  /** With valid membership, an emit to `user:<u>` reaches exactly the live sockets of u. */
  lemma PersonalRoomReachesUser(m: Membership, u: UserId)
    requires m.Valid()
    ensures m.Recipients(ToRoom(UserRoom(u))) == set s | s in m.sessions && m.sessions[s].userId == u
  {
    forall s | s in m.sessions && m.sessions[s].userId == u
      ensures s in m.InRoom(UserRoom(u))
    {
    }
  }

  /** The socket.io server: sessions, rooms, and everything emitted so far. */
  class Io {
    var sessions: map<SocketId, Session>
    var rooms: map<SocketId, set<string>>
    var outbox: seq<Packet>

    function Members(): Membership
      reads this`sessions, this`rooms
    {
      Membership(sessions, rooms)
    }

    ghost predicate Valid()
      reads this`sessions, this`rooms
    {
      Members().Valid()
    }

    /** The packet an emit to `t` produces now. */
    function Deliver(t: Target, event: string, payload: Payload): Packet
      reads this`sessions, this`rooms
    {
      Packet(t, Members().Recipients(t), event, payload)
    }

    constructor ()
      ensures Valid()
      ensures sessions == map[] && rooms == map[] && outbox == []
    {
      sessions, rooms, outbox := map[], map[], [];
    }

    /** Emit `event` to `t`. */
    method Emit(t: Target, event: string, payload: Payload)
      modifies this`outbox
      ensures outbox == old(outbox) + [Deliver(t, event, payload)]
    {
      outbox := outbox + [Deliver(t, event, payload)];
    }

    /** Register a new socket and put it in its personal room. */
    method Attach(s: Session)
      requires Valid()
      requires s.sid !in sessions
      modifies this`sessions, this`rooms
      ensures Valid()
      ensures sessions == old(sessions)[s.sid := s]
      ensures rooms == old(rooms)[s.sid := {UserRoom(s.userId)}]
    {
      sessions := sessions[s.sid := s];
      rooms := rooms[s.sid := {UserRoom(s.userId)}];
      forall x, u | x in rooms && UserRoom(u) in rooms[x]
        ensures sessions[x].userId == u
      {
        if x == s.sid {
          UserRoomInjective(u, s.userId);
        }
      }
    }

    /** Forget a closed socket: it leaves every room. */
    method Detach(sid: SocketId)
      requires Valid()
      modifies this`sessions, this`rooms
      ensures Valid()
      ensures sessions == old(sessions) - {sid}
      ensures rooms == old(rooms) - {sid}
    {
      sessions := sessions - {sid};
      rooms := rooms - {sid};
    }

    /** `socket.join(room)` for a conversation room. */
    method JoinConversation(sid: SocketId, c: ConversationId)
      requires Valid()
      requires sid in sessions
      modifies this`rooms
      ensures Valid()
      ensures rooms == old(rooms)[sid := old(rooms)[sid] + {ConversationRoom(c)}]
      ensures forall r :: r != ConversationRoom(c) ==> (r in rooms[sid] <==> r in old(rooms)[sid])
    {
      rooms := rooms[sid := rooms[sid] + {ConversationRoom(c)}];
      forall x, u | x in rooms && UserRoom(u) in rooms[x]
        ensures sessions[x].userId == u
      {
        RoomKindsDisjoint(u, c);
      }
    }

    /** `socket.leave(room)` for a conversation room. */
    method LeaveConversation(sid: SocketId, c: ConversationId)
      requires Valid()
      requires sid in sessions
      modifies this`rooms
      ensures Valid()
      ensures rooms == old(rooms)[sid := old(rooms)[sid] - {ConversationRoom(c)}]
      ensures forall r :: r != ConversationRoom(c) ==> (r in rooms[sid] <==> r in old(rooms)[sid])
      ensures UserRoom(sessions[sid].userId) in rooms[sid]
    {
      rooms := rooms[sid := rooms[sid] - {ConversationRoom(c)}];
      forall x | x in sessions
        ensures UserRoom(sessions[x].userId) in rooms[x]
      {
        RoomKindsDisjoint(sessions[x].userId, c);
      }
    }
  }

  /** Joining or leaving a conversation room changes membership of that room only; in
      particular a socket keeps its personal room. */
  lemma RoomChangeTouchesOneRoom(rs: set<string>, c: ConversationId, u: UserId, other: string)
    requires other != ConversationRoom(c)
    ensures ConversationRoom(c) in rs + {ConversationRoom(c)} && ConversationRoom(c) !in rs - {ConversationRoom(c)}
    ensures (other in rs + {ConversationRoom(c)} <==> other in rs) && (other in rs - {ConversationRoom(c)} <==> other in rs)
    ensures UserRoom(u) in rs - {ConversationRoom(c)} <==> UserRoom(u) in rs
  {
    RoomKindsDisjoint(u, c);
  }
}
