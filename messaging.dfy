/**
 * The message delivery pipeline: `message:send` (membership check, create at SENT,
 * touch the conversation, broadcast, promote to DELIVERED when another participant
 * is online), `message:delivered` (only from SENT) and `message:read` (READ unless
 * the caller wrote the message), with the status order SENT < DELIVERED < READ.
 */
module Messaging {
  import opened Common
  import opened Store
  import opened Net

  // ---------------------------------------------------------------------------
  // The status order

  /** Position of a status in the delivery order. */
  function Rank(st: MessageStatus): nat {
    match st
    case Sent => 0
    case Delivered => 1
    case Read => 2
  }

  /** The status moves the handlers make on an existing message: none, SENT -> DELIVERED,
      or anything -> READ. */
  predicate Advances(before: MessageStatus, after: MessageStatus) {
    before == after || (before == Sent && after == Delivered) || after == Read
  }

  /** An event a client can raise about an existing message. */
  datatype StatusEvent =
    | DeliveredBy                // message:delivered (any caller)
    | ReadBy(caller: UserId)     // message:read by `caller`

  /** The status a message has after one event. */
  function Next(m: Message, ev: StatusEvent): MessageStatus {
    match ev
    case DeliveredBy => if m.status == Sent then Delivered else m.status
    case ReadBy(c) => if m.senderId != c then Read else m.status
  }

  /** Every event is one of the allowed moves. */
  lemma NextAdvances(m: Message, ev: StatusEvent)
    ensures Advances(m.status, Next(m, ev))
    ensures Rank(m.status) <= Rank(Next(m, ev))
  {
  }

  /** The message after a sequence of events, applied in order. */
  function Replay(m: Message, evs: seq<StatusEvent>): (r: Message)
    ensures r == m.(status := r.status)
    ensures Rank(m.status) <= Rank(r.status)
    decreases |evs|
  {
    if evs == [] then m
    else Replay(m.(status := Next(m, evs[0])), evs[1..])
  }

  /** Nothing ever puts a message back to SENT: it is still SENT after a run of events
      exactly when it started SENT and every event was its own sender reading it. */
  lemma {:induction false} ReplayStaysSent(m: Message, evs: seq<StatusEvent>)
    decreases |evs|
    ensures Replay(m, evs).status == Sent <==>
      m.status == Sent && forall i :: 0 <= i < |evs| ==> evs[i] == ReadBy(m.senderId)
  {
    if evs != [] {
      var m', rest := m.(status := Next(m, evs[0])), evs[1..];
      ReplayStaysSent(m', rest);
      assert m'.status == Sent <==> m.status == Sent && evs[0] == ReadBy(m.senderId);
      assert (forall i :: 0 <= i < |evs| ==> evs[i] == ReadBy(m.senderId)) <==>
             evs[0] == ReadBy(m.senderId) && forall i :: 0 <= i < |rest| ==> rest[i] == ReadBy(m.senderId)
      by {
        assert forall i :: 0 < i < |evs| ==> evs[i] == rest[i - 1];
      }
    }
  }

  /** Once READ, a message stays READ whatever happens next. */
  lemma {:induction false} ReadIsFinal(m: Message, evs: seq<StatusEvent>)
    requires m.status == Read
    decreases |evs|
    ensures Replay(m, evs).status == Read
  {
    if evs != [] {
      ReadIsFinal(m.(status := Next(m, evs[0])), evs[1..]);
    }
  }

  // ---------------------------------------------------------------------------
  // The fan-out rule

  /** The other participants of `c` (not `u`) whose user is online. */
  function OnlineRecipients(participants: map<ParticipantKey, Participant>, users: map<UserId, User>,
                            c: ConversationId, u: UserId): (r: set<UserId>)
    ensures forall v :: v in r <==> (c, v) in participants && v != u && v in users && users[v].isOnline
  {
    set k | k in participants && k.0 == c && k.1 != u && k.1 in users && users[k.1].isOnline :: k.1
  }

  /** The ways `message:send` can fail part-way: the step whose database call throws. */
  datatype SendStep = Lookup | Create | Touch | FetchOthers | Promote

  /** `message:send`. `newId` is the id the database assigns and `fault` the step whose
      database call throws, if any; a failure is reported as MESSAGE_FAILED to the sender
      only, and nothing done before it is undone. Creating the message also fails when
      `newId` is taken. */
  method Send(db: Db, io: Io, s: Session, c: ConversationId, content: string,
              newId: MessageId, now: Millis, fault: Option<SendStep>)
    requires db.Valid()
    modifies db`messages, db`conversations, io`outbox
    ensures db.Valid()
    // the participant lookup throws
    ensures fault == Some(Lookup) ==>
      && db.messages == old(db.messages) && db.conversations == old(db.conversations)
      && io.outbox == old(io.outbox) + [io.Deliver(ToSocket(s.sid), "error", SendFailed())]
    // not a participant
    ensures fault != Some(Lookup) && (c, s.userId) !in old(db.participants) ==>
      && db.messages == old(db.messages) && db.conversations == old(db.conversations)
      && io.outbox == old(io.outbox) +
           [io.Deliver(ToSocket(s.sid), "error", ErrorInfo("NOT_PARTICIPANT", "Not a participant of this conversation"))]
    // creating the message throws
    ensures fault != Some(Lookup) && (c, s.userId) in old(db.participants) && (fault == Some(Create) || newId in old(db.messages)) ==>
      && db.messages == old(db.messages) && db.conversations == old(db.conversations)
      && io.outbox == old(io.outbox) + [io.Deliver(ToSocket(s.sid), "error", SendFailed())]
    // from here on the message exists
    ensures Created(old(db.participants), old(db.messages), s.userId, c, newId, fault) ==>
      Published(old(db.participants), db.users, old(db.messages), old(db.conversations), old(io.outbox),
                db.messages, db.conversations, io.outbox, io, s, c, newId, Fresh(s.userId, c, content, now), now, fault)
  {
    if fault == Some(Lookup) {
      io.Emit(ToSocket(s.sid), "error", SendFailed());
      return;
    }
    if (c, s.userId) !in db.participants {
      io.Emit(ToSocket(s.sid), "error", ErrorInfo("NOT_PARTICIPANT", "Not a participant of this conversation"));
      return;
    }
    if fault == Some(Create) || newId in db.messages {
      io.Emit(ToSocket(s.sid), "error", SendFailed());
      return;
    }
    Publish(db, io, s, c, newId, Fresh(s.userId, c, content, now), now, fault);
  }

  /** What `message:send` does once the message can be created: it is stored at SENT,
      then the conversation is touched, the room gets `message:new`, and if some other
      participant is online the message becomes DELIVERED and the room is told; the
      first step that throws stops the rest and MESSAGE_FAILED goes to the sender. */
  ghost predicate Published(
    participants: map<ParticipantKey, Participant>, users: map<UserId, User>,
    messages0: map<MessageId, Message>, conversations0: map<ConversationId, Conversation>, outbox0: seq<Packet>,
    messages: map<MessageId, Message>, conversations: map<ConversationId, Conversation>, outbox: seq<Packet>,
    io: Io, s: Session, c: ConversationId, newId: MessageId, msg: Message, now: Millis, fault: Option<SendStep>)
    reads io`sessions, io`rooms
  {
    if fault == Some(Touch) then
      && messages == messages0[newId := msg] && conversations == conversations0
      && outbox == outbox0 + [io.Deliver(ToSocket(s.sid), "error", SendFailed())]
    else
      && c in conversations0 && conversations == conversations0[c := conversations0[c].(updatedAt := now)]
      && FannedOut(participants, users, messages0[newId := msg], outbox0 + [NewMessageTo(io, c, newId, msg)],
                   messages, outbox, io, s, c, newId, msg, fault)
  }

  /** The tail of `message:send` after the `message:new` broadcast: if another participant
      is online the message becomes DELIVERED and the room hears `message:status`;
      otherwise nothing more happens. */
  ghost predicate FannedOut(
    participants: map<ParticipantKey, Participant>, users: map<UserId, User>,
    messages0: map<MessageId, Message>, outbox0: seq<Packet>,
    messages: map<MessageId, Message>, outbox: seq<Packet>,
    io: Io, s: Session, c: ConversationId, newId: MessageId, msg: Message, fault: Option<SendStep>)
    reads io`sessions, io`rooms
  {
    var online := OnlineRecipients(participants, users, c, s.userId) != {};
    if fault == Some(FetchOthers) || (fault == Some(Promote) && online) then
      messages == messages0 && outbox == outbox0 + [io.Deliver(ToSocket(s.sid), "error", SendFailed())]
    else if online then
      && messages == messages0[newId := msg.(status := Delivered)]
      && outbox == outbox0 + [io.Deliver(ToRoom(ConversationRoom(c)), "message:status", StatusChange(newId, Delivered))]
    else
      messages == messages0 && outbox == outbox0
  }

  /** The part of `message:send` after the membership check. */
  method Publish(db: Db, io: Io, s: Session, c: ConversationId, newId: MessageId, msg: Message,
                 now: Millis, fault: Option<SendStep>)
    requires db.Valid() && (c, s.userId) in db.participants && newId !in db.messages
    requires msg.conversationId == c && fault !in {Some(Lookup), Some(Create)}
    modifies db`messages, db`conversations, io`outbox
    ensures db.Valid()
    ensures Published(db.participants, db.users, old(db.messages), old(db.conversations), old(io.outbox),
                      db.messages, db.conversations, io.outbox, io, s, c, newId, msg, now, fault)
  {
    db.messages := db.messages[newId := msg];
    if fault == Some(Touch) {
      io.Emit(ToSocket(s.sid), "error", SendFailed());
      return;
    }
    db.conversations := db.conversations[c := db.conversations[c].(updatedAt := now)];
    io.Emit(ToRoom(ConversationRoom(c)), "message:new", NewMessage(newId, msg));
    FanOut(db, io, s, c, newId, msg, fault);
  }

  /** Promote the new message when another participant is online. */
  method FanOut(db: Db, io: Io, s: Session, c: ConversationId, newId: MessageId, msg: Message,
                fault: Option<SendStep>)
    requires db.Valid() && newId in db.messages && msg.conversationId == c
    modifies db`messages, io`outbox
    ensures db.Valid()
    ensures FannedOut(db.participants, db.users, old(db.messages), old(io.outbox), db.messages, io.outbox,
                      io, s, c, newId, msg, fault)
  {
    if fault == Some(FetchOthers) {
      io.Emit(ToSocket(s.sid), "error", SendFailed());
      return;
    }
    var online := OnlineRecipients(db.participants, db.users, c, s.userId);
    if |online| > 0 {
      if fault == Some(Promote) {
        io.Emit(ToSocket(s.sid), "error", SendFailed());
        return;
      }
      db.messages := db.messages[newId := msg.(status := Delivered)];
      io.Emit(ToRoom(ConversationRoom(c)), "message:status", StatusChange(newId, Delivered));
    }
  }

  /** The row `message:send` creates: TEXT, SENT, from the caller. */
  function Fresh(u: UserId, c: ConversationId, content: string, now: Millis): (m: Message)
    ensures m.senderId == u && m.conversationId == c && m.content == content
    ensures m.kind == "TEXT" && m.status == Sent && m.createdAt == now
  {
    Message(c, u, content, "TEXT", Sent, now)
  }

  /** The error `message:send` reports for any failure. */
  function SendFailed(): Payload {
    ErrorInfo("MESSAGE_FAILED", "Failed to send message")
  }

  /** The `message:new` broadcast of a freshly created message to its conversation room. */
  function NewMessageTo(io: Io, c: ConversationId, id: MessageId, m: Message): Packet
    reads io`sessions, io`rooms
  {
    io.Deliver(ToRoom(ConversationRoom(c)), "message:new", NewMessage(id, m))
  }

  /** `message:send` got as far as creating the message. */
  predicate Created(participants: map<ParticipantKey, Participant>, messages: map<MessageId, Message>,
                    u: UserId, c: ConversationId, newId: MessageId, fault: Option<SendStep>) {
    fault !in {Some(Lookup), Some(Create)} && (c, u) in participants && newId !in messages
  }

  /** After a send with no failure the new message is DELIVERED exactly when some other
      participant of the conversation is online, and SENT otherwise; the conversation
      room hears `message:status` only in the first case. */
  lemma SendStatus(participants: map<ParticipantKey, Participant>, users: map<UserId, User>,
                   messages0: map<MessageId, Message>, conversations0: map<ConversationId, Conversation>,
                   outbox0: seq<Packet>, messages: map<MessageId, Message>,
                   conversations: map<ConversationId, Conversation>, outbox: seq<Packet>,
                   io: Io, s: Session, c: ConversationId, newId: MessageId, msg: Message, now: Millis)
    requires msg.status == Sent
    requires Published(participants, users, messages0, conversations0, outbox0, messages, conversations, outbox,
                       io, s, c, newId, msg, now, None)
    ensures newId in messages
    ensures messages[newId].status == Delivered <==>
      exists v :: (c, v) in participants && v != s.userId && v in users && users[v].isOnline
    ensures messages[newId].status == Sent <==>
      !exists v :: (c, v) in participants && v != s.userId && v in users && users[v].isOnline
    ensures |outbox| == |outbox0| + (if messages[newId].status == Delivered then 2 else 1)
  {
    if exists v :: (c, v) in participants && v != s.userId && v in users && users[v].isOnline {
      var v :| (c, v) in participants && v != s.userId && v in users && users[v].isOnline;
      assert v in OnlineRecipients(participants, users, c, s.userId);
    }
  }

  /** `message:delivered`: an unknown id is ignored; a SENT message becomes DELIVERED and
      its conversation room hears of it; DELIVERED and READ messages are left alone.
      Any connected user may raise it. */
  method MarkDelivered(db: Db, io: Io, id: MessageId)
    requires db.Valid()
    modifies db`messages, io`outbox
    ensures db.Valid()
    ensures id !in old(db.messages) ==> db.messages == old(db.messages) && io.outbox == old(io.outbox)
    ensures id in old(db.messages) ==>
      && db.messages == old(db.messages)[id := old(db.messages)[id].(status := Next(old(db.messages)[id], DeliveredBy))]
      && Advances(old(db.messages)[id].status, db.messages[id].status)
    ensures id in old(db.messages) && old(db.messages)[id].status == Sent ==>
      io.outbox == old(io.outbox) +
        [io.Deliver(ToRoom(ConversationRoom(old(db.messages)[id].conversationId)), "message:status", StatusChange(id, Delivered))]
    ensures id in old(db.messages) && old(db.messages)[id].status != Sent ==>
      db.messages == old(db.messages) && io.outbox == old(io.outbox)
  {
    if id !in db.messages {
      return;
    }
    var m := db.messages[id];
    if m.status == Sent {
      db.messages := db.messages[id := m.(status := Delivered)];
      io.Emit(ToRoom(ConversationRoom(m.conversationId)), "message:status", StatusChange(id, Delivered));
    } else {
      assert db.messages == db.messages[id := m.(status := Next(m, DeliveredBy))];
    }
  }

  /** `message:read` with the caller's conversation and message ids: the caller's
      lastReadAt in that conversation becomes now if the row exists; then a message
      written by someone else becomes READ and the room named in the request (not the
      message's own conversation) hears of it. */
  method MarkRead(db: Db, io: Io, s: Session, c: ConversationId, id: MessageId, now: Millis)
    requires db.Valid()
    modifies db`participants, db`messages, io`outbox
    ensures db.Valid()
    ensures (c, s.userId) in old(db.participants) ==>
      db.participants == old(db.participants)[(c, s.userId) := old(db.participants)[(c, s.userId)].(lastReadAt := Some(now))]
    ensures (c, s.userId) !in old(db.participants) ==> db.participants == old(db.participants)
    ensures id in old(db.messages) && old(db.messages)[id].senderId != s.userId ==>
      && db.messages == old(db.messages)[id := old(db.messages)[id].(status := Read)]
      && io.outbox == old(io.outbox) + [io.Deliver(ToRoom(ConversationRoom(c)), "message:status", StatusChange(id, Read))]
    ensures id !in old(db.messages) || old(db.messages)[id].senderId == s.userId ==>
      db.messages == old(db.messages) && io.outbox == old(io.outbox)
    ensures id in old(db.messages) ==>
      && db.messages[id].status == Next(old(db.messages)[id], ReadBy(s.userId))
      && Advances(old(db.messages)[id].status, db.messages[id].status)
  {
    var key := (c, s.userId);
    if key in db.participants {
      db.participants := db.participants[key := db.participants[key].(lastReadAt := Some(now))];
    }
    if id in db.messages && db.messages[id].senderId != s.userId {
      db.messages := db.messages[id := db.messages[id].(status := Read)];
      io.Emit(ToRoom(ConversationRoom(c)), "message:status", StatusChange(id, Read));
    }
  }
}
