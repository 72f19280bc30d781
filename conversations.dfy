/**
 * The conversation endpoints' own logic: the participant set of a new conversation
 * (creator first, duplicates removed, only the creator an admin), the `lastMessage`
 * of the listing, the participant-only lookup, and the direct conversation that is
 * looked up before it is created.
 */
module Conversations {
  import opened Common
  import opened Store
  import opened ErrorHandler

  // ---------------------------------------------------------------------------
  // The participant set

  /** `[...new Set(xs)]`: each id once, at its first occurrence. */
  function Dedup(xs: seq<UserId>): (r: seq<UserId>)
    ensures Distinct(r)
    ensures forall x :: x in r <==> x in xs
    ensures |r| <= |xs|
    ensures xs != [] ==> r != [] && r[0] == xs[0]
  {
    if xs == [] then []
    else
      var init, last := xs[..|xs| - 1], xs[|xs| - 1];
      assert xs == init + [last];
      var d := Dedup(init);
      if last in d then d else d + [last]
  }

  /** Removing duplicates from a list that has none changes nothing. */
  lemma {:induction false} DedupOfDistinct(xs: seq<UserId>)
    requires Distinct(xs)
    ensures Dedup(xs) == xs
  {
    if xs != [] {
      var init, last := xs[..|xs| - 1], xs[|xs| - 1];
      DedupOfDistinct(init);
      assert last !in init by {
        forall i | 0 <= i < |init|
          ensures init[i] != last
        {
          assert init[i] == xs[i];
        }
      }
      assert init + [last] == xs;
    }
  }

  /** `allParticipants`: the creator, then the requested ids, each once. */
  function Members(creator: UserId, ids: seq<UserId>): (r: seq<UserId>)
    ensures |r| > 0 && r[0] == creator && Distinct(r)
    ensures forall u :: u in r <==> u == creator || u in ids
  {
    Dedup([creator] + ids)
  }

  /** The participant rows of a new conversation `c`; only the creator is an admin. */
  function NewRows(c: ConversationId, members: seq<UserId>, creator: UserId): (rows: map<ParticipantKey, Participant>)
    ensures forall k :: k in rows <==> k.0 == c && k.1 in members
    ensures forall k :: k in rows ==> rows[k] == Participant(k.1 == creator, None)
  {
    map u | u in members :: (c, u) := Participant(u == creator, None)
  }

  /** What `req.body.participantIds` holds. */
  datatype IdsField = Missing | NotAnArray | Ids(ids: seq<UserId>)

  /** The refusal of a request without a participant list. */
  function InvalidRequest(): Failure {
    AppError("Participant IDs required", 400, Some("INVALID_REQUEST"))
  }

  /** The database accepts the nested create: a fresh id, a known type, existing users. */
  predicate CreateAccepted(conversations: map<ConversationId, Conversation>, users: map<UserId, User>,
                           kind: string, members: seq<UserId>, newId: ConversationId)
  {
    newId !in conversations && kind in {"DIRECT", "GROUP"} && forall u :: u in members ==> u in users
  }

  /** `createConversation`. `newId` is the id the database assigns and `dbError` the message
      of what it throws when it refuses the write (an unknown type, an unknown user, a
      taken id); the conversation and its rows are written together or not at all. */
  method CreateConversation(db: Db, creator: UserId, participantIds: IdsField, kind: Option<string>,
                            name: Option<string>, newId: ConversationId, now: Millis, dbError: string)
    returns (r: Result<ConversationId, Failure>)
    requires db.Valid()
    modifies db`conversations, db`participants
    ensures db.Valid()
    ensures !participantIds.Ids? ==>
      r == Err(InvalidRequest()) && db.conversations == old(db.conversations) && db.participants == old(db.participants)
    ensures participantIds.Ids? && !CreateAccepted(old(db.conversations), db.users, kind.GetOr("DIRECT"), Members(creator, participantIds.ids), newId) ==>
      r == Err(OtherError(dbError)) && db.conversations == old(db.conversations) && db.participants == old(db.participants)
    ensures participantIds.Ids? && CreateAccepted(old(db.conversations), db.users, kind.GetOr("DIRECT"), Members(creator, participantIds.ids), newId) ==>
      && r == Ok(newId)
      && db.conversations == old(db.conversations)[newId := Conversation(kind.GetOr("DIRECT"),
           if kind.GetOr("DIRECT") == "GROUP" then name else None, now)]
      && db.participants == old(db.participants) + NewRows(newId, Members(creator, participantIds.ids), creator)
  {
    if !participantIds.Ids? {
      return Err(InvalidRequest());
    }
    var members := Members(creator, participantIds.ids);
    var t := kind.GetOr("DIRECT");
    if !CreateAccepted(db.conversations, db.users, t, members, newId) {
      return Err(OtherError(dbError));
    }
    var rows := NewRows(newId, members, creator);
    db.conversations := db.conversations[newId := Conversation(t, if t == "GROUP" then name else None, now)];
    db.participants := db.participants + rows;
    r := Ok(newId);
  }

  /** The rows of a new conversation contain the creator as its only admin and every
      requested user, once each. */
  lemma NewConversationRows(creator: UserId, ids: seq<UserId>, c: ConversationId)
    ensures (c, creator) in NewRows(c, Members(creator, ids), creator)
    ensures NewRows(c, Members(creator, ids), creator)[(c, creator)].isAdmin
    ensures forall u :: u in ids ==> (c, u) in NewRows(c, Members(creator, ids), creator)
    ensures forall k :: k in NewRows(c, Members(creator, ids), creator) ==>
      (NewRows(c, Members(creator, ids), creator)[k].isAdmin <==> k.1 == creator)
    ensures |NewRows(c, Members(creator, ids), creator)| == |Members(creator, ids)|
  {
    var members := Members(creator, ids);
    var rows := NewRows(c, members, creator);
    RowsCount(c, members, creator);
  }

  /** One row per member. */
  lemma {:induction false} RowsCount(c: ConversationId, members: seq<UserId>, creator: UserId)
    requires Distinct(members)
    ensures |NewRows(c, members, creator)| == |members|
  {
    if members != [] {
      var init, last := members[..|members| - 1], members[|members| - 1];
      assert members == init + [last];
      assert Distinct(init) by {
        forall i, j | 0 <= i < j < |init|
          ensures init[i] != init[j]
        {
          assert init[i] == members[i] && init[j] == members[j];
        }
      }
      assert last !in init by {
        forall i | 0 <= i < |init|
          ensures init[i] != last
        {
          assert init[i] == members[i];
        }
      }
      RowsCount(c, init, creator);
      RowsSnoc(c, init, last, creator);
    }
  }

  /** Adding a new member adds exactly its row. */
  lemma RowsSnoc(c: ConversationId, init: seq<UserId>, last: UserId, creator: UserId)
    requires last !in init
    ensures (c, last) !in NewRows(c, init, creator)
    ensures NewRows(c, init + [last], creator) == NewRows(c, init, creator)[(c, last) := Participant(last == creator, None)]
  {
    var rows, after := NewRows(c, init + [last], creator), NewRows(c, init, creator)[(c, last) := Participant(last == creator, None)];
    assert forall u :: u in init + [last] <==> u in init || u == last;
    assert rows.Keys == after.Keys;
  }

  // ---------------------------------------------------------------------------
  // Reading conversations

  /** A conversation of the listing query with at most one message (`take: 1`). */
  datatype Row = Row(id: ConversationId, conversation: Conversation, latest: seq<(MessageId, Message)>)

  /** A formatted entry: the row with `lastMessage` instead of its message list. */
  datatype Summary = Summary(id: ConversationId, conversation: Conversation, lastMessage: Option<(MessageId, Message)>)

  /** `conv.messages[0] || null`. */
  function Summarize(row: Row): Summary {
    Summary(row.id, row.conversation, if |row.latest| > 0 then Some(row.latest[0]) else None)
  }

  /** `conversations.map(...)`. */
  function Format(rows: seq<Row>): (r: seq<Summary>)
    ensures |r| == |rows| && forall i :: 0 <= i < |rows| ==> r[i] == Summarize(rows[i])
  {
    seq(|rows|, i requires 0 <= i < |rows| => Summarize(rows[i]))
  }

  /** `m` is a newest message of conversation `c`. */
  ghost predicate Newest(messages: map<MessageId, Message>, c: ConversationId, id: MessageId, m: Message) {
    id in messages && messages[id] == m && m.conversationId == c
    && forall k :: k in messages && messages[k].conversationId == c ==> messages[k].createdAt <= m.createdAt
  }

  /** What the listing query returns for user `u`: each conversation `u` takes part in,
      once, newest update first, each with a newest message if it has any. */
  ghost predicate ListingAnswer(db: Db, u: UserId, rows: seq<Row>)
    reads db
  {
    && (forall i, j :: 0 <= i < j < |rows| ==> rows[i].id != rows[j].id)
    && (forall c :: (exists i :: 0 <= i < |rows| && rows[i].id == c) <==> c in db.conversations && (c, u) in db.participants)
    && (forall i, j :: 0 <= i < j < |rows| ==> rows[i].conversation.updatedAt >= rows[j].conversation.updatedAt)
    && (forall i :: 0 <= i < |rows| ==>
          && rows[i].id in db.conversations && rows[i].conversation == db.conversations[rows[i].id]
          && |rows[i].latest| <= 1
          && (rows[i].latest == [] <==> forall k :: k in db.messages ==> db.messages[k].conversationId != rows[i].id)
          && (rows[i].latest != [] ==> Newest(db.messages, rows[i].id, rows[i].latest[0].0, rows[i].latest[0].1)))
  }

  /** `getConversations`: the formatted listing has exactly the caller's conversations,
      newest update first, and each `lastMessage` is a newest message of that
      conversation, or null exactly when it has none. */
  lemma ListingSummaries(db: Db, u: UserId, rows: seq<Row>)
    requires ListingAnswer(db, u, rows)
    ensures forall c :: (exists i :: 0 <= i < |Format(rows)| && Format(rows)[i].id == c) <==>
      c in db.conversations && (c, u) in db.participants
    ensures forall i, j :: 0 <= i < j < |Format(rows)| ==>
      Format(rows)[i].conversation.updatedAt >= Format(rows)[j].conversation.updatedAt
    ensures forall i :: 0 <= i < |Format(rows)| ==>
      (Format(rows)[i].lastMessage.None? <==>
         forall k :: k in db.messages ==> db.messages[k].conversationId != Format(rows)[i].id)
    ensures forall i :: 0 <= i < |Format(rows)| && Format(rows)[i].lastMessage.Some? ==>
      Newest(db.messages, Format(rows)[i].id, Format(rows)[i].lastMessage.value.0, Format(rows)[i].lastMessage.value.1)
  {
    var r := Format(rows);
    forall c
      ensures (exists i :: 0 <= i < |r| && r[i].id == c) <==> c in db.conversations && (c, u) in db.participants
    {
      if exists i :: 0 <= i < |r| && r[i].id == c {
        var i :| 0 <= i < |r| && r[i].id == c;
        assert rows[i].id == c;
      }
      if c in db.conversations && (c, u) in db.participants {
        var i :| 0 <= i < |rows| && rows[i].id == c;
        assert r[i].id == c;
      }
    }
  }

  /** The refusal of a conversation the caller does not take part in. */
  function NotFound(): Failure {
    AppError("Conversation not found", 404, Some("CONVERSATION_NOT_FOUND"))
  }

  /** `getConversation`: the conversation, only for one of its participants. */
  function FindForUser(db: Db, id: ConversationId, u: UserId): (r: Result<Conversation, Failure>)
    reads db
    ensures r.Ok? <==> id in db.conversations && (id, u) in db.participants
    ensures r.Ok? ==> r.value == db.conversations[id]
    ensures r.Err? ==> r.error == NotFound()
  {
    if id in db.conversations && (id, u) in db.participants then Ok(db.conversations[id]) else Err(NotFound())
  }

  /** Whatever the mode, a refused lookup is answered 404 CONVERSATION_NOT_FOUND. */
  lemma NotFoundIs404(db: Db, id: ConversationId, u: UserId, isDev: bool)
    requires FindForUser(db, id, u).Err?
    ensures Handle(FindForUser(db, id, u).error, isDev) ==
      Reply(404, ErrorBody("Conversation not found", Some("CONVERSATION_NOT_FOUND")))
  {
  }

  // ---------------------------------------------------------------------------
  // The direct conversation

  /** `c` is a DIRECT conversation that both `u` and `v` take part in. */
  predicate DirectBetween(conversations: map<ConversationId, Conversation>,
                          participants: map<ParticipantKey, Participant>, c: ConversationId, u: UserId, v: UserId) {
    c in conversations && conversations[c].kind == "DIRECT" && (c, u) in participants && (c, v) in participants
  }

  /** `getOrCreateDirectConversation`: an existing DIRECT conversation of the two users is
      returned as it is (any one of them, when there are several); otherwise one is
      created with the two users as non-admin participants, unless the database refuses
      (a taken id, an unknown user, or the same user twice, which would be two rows with
      one participant key), which is reported with its message `dbError`. */
  method GetOrCreateDirect(db: Db, u: UserId, other: UserId, newId: ConversationId, now: Millis, dbError: string)
    returns (r: Result<ConversationId, Failure>, created: bool)
    requires db.Valid()
    modifies db`conversations, db`participants
    ensures db.Valid()
    ensures !created ==> db.conversations == old(db.conversations) && db.participants == old(db.participants)
    ensures (exists c :: DirectBetween(old(db.conversations), old(db.participants), c, u, other)) ==>
      && !created && r.Ok? && DirectBetween(db.conversations, db.participants, r.value, u, other)
    ensures !(exists c :: DirectBetween(old(db.conversations), old(db.participants), c, u, other)) ==>
      (created <==> newId !in old(db.conversations) && u != other && u in db.users && other in db.users)
    ensures !(exists c :: DirectBetween(old(db.conversations), old(db.participants), c, u, other)) && !created ==>
      r == Err(OtherError(dbError))
    ensures created ==>
      && r == Ok(newId)
      && db.conversations == old(db.conversations)[newId := Conversation("DIRECT", None, now)]
      && db.participants == old(db.participants)[(newId, u) := Participant(false, None)][(newId, other) := Participant(false, None)]
      && DirectBetween(db.conversations, db.participants, newId, u, other)
  {
    if exists c :: c in db.conversations && DirectBetween(db.conversations, db.participants, c, u, other) {
      var c :| c in db.conversations && DirectBetween(db.conversations, db.participants, c, u, other);
      return Ok(c), false;
    }
    if newId in db.conversations || u == other || u !in db.users || other !in db.users {
      return Err(OtherError(dbError)), false;
    }
    db.conversations := db.conversations[newId := Conversation("DIRECT", None, now)];
    db.participants := db.participants[(newId, u) := Participant(false, None)][(newId, other) := Participant(false, None)];
    r, created := Ok(newId), true;
  }
}
