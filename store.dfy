/**
 * The persistent records the live session layer reads and writes, with the database
 * itself reduced to a handful of maps (one per table). Only the fields the core
 * touches are kept.
 */
module Store {
  import opened Common

  /** Presence part of a user row. */
  datatype User = User(isOnline: bool, lastSeen: Option<Millis>)

  /** A conversation row; `kind` is "DIRECT" or "GROUP". */
  datatype Conversation = Conversation(kind: string, name: Option<string>, updatedAt: Millis)

  /** A participant row, keyed by (conversationId, userId). */
  datatype Participant = Participant(isAdmin: bool, lastReadAt: Option<Millis>)

  type ParticipantKey = (ConversationId, UserId)

  /** Delivery state of a message: SENT, DELIVERED or READ. */
  datatype MessageStatus = Sent | Delivered | Read

  /** A message row; `kind` is the message type, "TEXT" for everything sent over the socket. */
  datatype Message = Message(
    conversationId: ConversationId,
    senderId: UserId,
    content: string,
    kind: string,
    status: MessageStatus,
    createdAt: Millis)

  datatype CallType = Voice | Video

  /** Lifecycle of a persisted call: RINGING, ONGOING, REJECTED, ENDED. */
  datatype CallStatus = Ringing | Ongoing | Rejected | Ended

  /** A call row; the optional fields are the nullable columns. */
  datatype Call = Call(
    initiatorId: UserId,
    receiverId: UserId,
    kind: CallType,
    status: CallStatus,
    startedAt: Option<Millis>,
    endedAt: Option<Millis>,
    duration: Option<int>)

  /** Every participant row names an existing conversation and user. */
  ghost predicate ParticipantsLinked(participants: map<ParticipantKey, Participant>,
                                     conversations: map<ConversationId, Conversation>, users: map<UserId, User>) {
    forall k :: k in participants ==> k.0 in conversations && k.1 in users
  }

  /** Every message belongs to an existing conversation. */
  ghost predicate MessagesLinked(messages: map<MessageId, Message>, conversations: map<ConversationId, Conversation>) {
    forall id :: id in messages ==> messages[id].conversationId in conversations
  }

  /** Both parties of every call are existing users. */
  ghost predicate CallsLinked(calls: map<CallId, Call>, users: map<UserId, User>) {
    forall id :: id in calls ==> calls[id].initiatorId in users && calls[id].receiverId in users
  }

  /** The database: one map per table. Relations are enforced as foreign keys. */
  class Db {
    var users: map<UserId, User>
    var conversations: map<ConversationId, Conversation>
    var participants: map<ParticipantKey, Participant>
    var messages: map<MessageId, Message>
    var calls: map<CallId, Call>

    /** Referential integrity: every row points at rows that exist. */
    ghost predicate Valid()
      reads this
    {
      && ParticipantsLinked(participants, conversations, users)
      && MessagesLinked(messages, conversations)
      && CallsLinked(calls, users)
    }

    constructor (users: map<UserId, User>)
      ensures Valid()
      ensures this.users == users
      ensures conversations == map[] && participants == map[] && messages == map[] && calls == map[]
    {
      this.users := users;
      conversations, participants, messages, calls := map[], map[], map[], map[];
    }
  }
}
