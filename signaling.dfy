/**
 * Call signalling: the in-memory registry of active calls (a JavaScript Map, kept
 * here as its entry list in insertion order), the persisted call lifecycle
 * RINGING -> ONGOING / REJECTED / ENDED, and the relay of opaque RTC payloads to
 * the other party of a call.
 */
module Signaling {
  import opened Common
  import opened Store
  import opened Net

  /** What the registry remembers about a call. */
  datatype ActiveCall = ActiveCall(initiatorId: UserId, receiverId: UserId, kind: CallType)

  /** One entry of the registry map. */
  datatype Entry = Entry(callId: CallId, call: ActiveCall)

  // ---------------------------------------------------------------------------
  // The registry as a Map: lookups, deletion, filtering

  /** The map the entry list denotes (a later entry for a key wins, as `Map.set` would). */
  function Registry(es: seq<Entry>): map<CallId, ActiveCall> {
    if es == [] then map[]
    else Registry(es[..|es| - 1])[es[|es| - 1].callId := es[|es| - 1].call]
  }

  /** No key occurs twice in the entry list. */
  ghost predicate DistinctKeys(es: seq<Entry>) {
    forall i, j :: 0 <= i < j < |es| ==> es[i].callId != es[j].callId
  }

  /** The keys of the map are exactly the keys listed in the entries. */
  lemma {:induction false} RegistryKeys(es: seq<Entry>)
    ensures forall k :: k in Registry(es) <==> exists i :: 0 <= i < |es| && es[i].callId == k
  {
    if es != [] {
      var init := es[..|es| - 1];
      RegistryKeys(init);
      forall k | k in Registry(es)
        ensures exists i :: 0 <= i < |es| && es[i].callId == k
      {
        if k != es[|es| - 1].callId {
          assert k in Registry(init);
          var i :| 0 <= i < |init| && init[i].callId == k;
          assert es[i].callId == k;
        }
      }
      forall k | exists i :: 0 <= i < |es| && es[i].callId == k
        ensures k in Registry(es)
      {
        var i :| 0 <= i < |es| && es[i].callId == k;
        if i < |es| - 1 {
          assert init[i].callId == k;
        }
      }
    }
  }

  /** With distinct keys, the last entry's key is not among the earlier ones. */
  lemma LastKeyFresh(es: seq<Entry>)
    requires es != [] && DistinctKeys(es)
    ensures DistinctKeys(es[..|es| - 1])
    ensures es[|es| - 1].callId !in Registry(es[..|es| - 1])
  {
    var init := es[..|es| - 1];
    RegistryKeys(init);
    forall i | 0 <= i < |init|
      ensures init[i].callId != es[|es| - 1].callId
    {
      assert init[i] == es[i];
    }
  }

  /** Which entries a filter keeps: all but one key, or all calls not involving a user. */
  datatype Criterion = NotKey(key: CallId) | NotInvolving(user: UserId) {
    predicate Admits(e: Entry) {
      match this
      case NotKey(k) => e.callId != k
      case NotInvolving(u) => !Involves(e.call, u)
    }
  }

  /** The entries that satisfy `keep`, in their original order. */
  function Keep(es: seq<Entry>, keep: Criterion): (r: seq<Entry>)
    ensures |r| <= |es|
    ensures forall e :: e in r ==> e in es && keep.Admits(e)
  {
    if es == [] then []
    else
      var rest := Keep(es[..|es| - 1], keep);
      if keep.Admits(es[|es| - 1]) then rest + [es[|es| - 1]] else rest
  }

  /** The part of a registry map whose entries satisfy `keep`. */
  ghost function FilterMap(r: map<CallId, ActiveCall>, keep: Criterion): map<CallId, ActiveCall> {
    map k | k in r && keep.Admits(Entry(k, r[k])) :: r[k]
  }

  /** Filtering after adding a fresh key. */
  lemma FilterMapUpdate(r: map<CallId, ActiveCall>, k: CallId, c: ActiveCall, keep: Criterion)
    requires k !in r
    ensures FilterMap(r[k := c], keep) == if keep.Admits(Entry(k, c)) then FilterMap(r, keep)[k := c] else FilterMap(r, keep)
  {
    var lhs := FilterMap(r[k := c], keep);
    var rhs := if keep.Admits(Entry(k, c)) then FilterMap(r, keep)[k := c] else FilterMap(r, keep);
    assert lhs.Keys == rhs.Keys;
    forall x | x in lhs
      ensures lhs[x] == rhs[x]
    {
    }
  }

  /** Appending an entry whose key is not yet registered keeps the keys distinct. */
  lemma AppendFresh(es: seq<Entry>, e: Entry)
    requires DistinctKeys(es) && e.callId !in Registry(es)
    ensures DistinctKeys(es + [e])
  {
    RegistryKeys(es);
    forall i, j | 0 <= i < j < |es + [e]|
      ensures (es + [e])[i].callId != (es + [e])[j].callId
    {
      if j == |es| {
        assert (es + [e])[i] == es[i];
      } else {
        assert (es + [e])[i] == es[i] && (es + [e])[j] == es[j];
      }
    }
  }

  /** Every key of a filtered list is a key of the list. */
  lemma KeepKeys(es: seq<Entry>, keep: Criterion)
    ensures forall k :: k in Registry(Keep(es, keep)) ==> k in Registry(es)
  {
    RegistryKeys(es);
    RegistryKeys(Keep(es, keep));
    forall k | k in Registry(Keep(es, keep))
      ensures k in Registry(es)
    {
      var r := Keep(es, keep);
      var i :| 0 <= i < |r| && r[i].callId == k;
      assert r[i] in r;
      var j :| 0 <= j < |es| && es[j] == r[i];
    }
  }

  /** Filtering a list of distinct keys filters its map and keeps the keys distinct. */
  lemma {:induction false} KeepRegistry(es: seq<Entry>, keep: Criterion)
    requires DistinctKeys(es)
    ensures DistinctKeys(Keep(es, keep))
    ensures Registry(Keep(es, keep)) == FilterMap(Registry(es), keep)
  {
    if es != [] {
      var init, last := es[..|es| - 1], es[|es| - 1];
      LastKeyFresh(es);
      KeepRegistry(init, keep);
      FilterMapUpdate(Registry(init), last.callId, last.call, keep);
      if keep.Admits(last) {
        var rest := Keep(init, keep);
        KeepKeys(init, keep);
        AppendFresh(rest, last);
        assert (rest + [last])[..|rest|] == rest;
      }
    }
  }

  /** Keeping every entry changes nothing. */
  lemma {:induction false} KeepAll(es: seq<Entry>, keep: Criterion)
    requires forall e :: e in es ==> keep.Admits(e)
    ensures Keep(es, keep) == es
  {
    if es != [] {
      KeepAll(es[..|es| - 1], keep);
      assert es[..|es| - 1] + [es[|es| - 1]] == es;
    }
  }

  /** Filtering distributes over concatenation. */
  lemma {:induction false} KeepConcat(a: seq<Entry>, b: seq<Entry>, keep: Criterion)
    ensures Keep(a + b, keep) == Keep(a, keep) + Keep(b, keep)
  {
    if b != [] {
      var b' := b[..|b| - 1];
      assert (a + b)[..|a + b| - 1] == a + b';
      KeepConcat(a, b', keep);
    } else {
      assert a + b == a;
    }
  }

  /** `activeCalls.delete(id)`. */
  function Delete(es: seq<Entry>, id: CallId): seq<Entry> {
    Keep(es, NotKey(id))
  }

  /** Deleting a key removes exactly that key from the map; every other entry is unchanged. */
  lemma DeleteRegistry(es: seq<Entry>, id: CallId)
    requires DistinctKeys(es)
    ensures DistinctKeys(Delete(es, id))
    ensures Registry(Delete(es, id)) == Registry(es) - {id}
  {
    KeepRegistry(es, NotKey(id));
  }

  // ---------------------------------------------------------------------------
  // Parties of a call

  /** The user takes part in the call. */
  predicate Involves(c: ActiveCall, u: UserId) {
    c.initiatorId == u || c.receiverId == u
  }

  /** The party a message from `sender` goes to: the receiver when the sender
      initiated the call, otherwise the initiator. */
  function Counterpart(c: ActiveCall, sender: UserId): (r: UserId)
    ensures Involves(c, r)
    ensures Involves(c, sender) && c.initiatorId != c.receiverId ==> r != sender
    ensures !Involves(c, sender) ==> r == c.initiatorId
  {
    if sender == c.initiatorId then c.receiverId else c.initiatorId
  }

  /** Where a relayed RTC message goes: nowhere for an unknown call, else the counterpart. */
  function RelayTarget(es: seq<Entry>, sender: UserId, callId: CallId): (r: Option<UserId>)
    ensures r.None? <==> callId !in Registry(es)
    ensures r.Some? && Involves(Registry(es)[callId], sender) ==>
      Involves(Registry(es)[callId], r.value) &&
      (r.value == sender ==> Registry(es)[callId].initiatorId == Registry(es)[callId].receiverId)
    ensures r.Some? && !Involves(Registry(es)[callId], sender) ==> r.value == Registry(es)[callId].initiatorId
    ensures r.Some? ==> r.value == Counterpart(Registry(es)[callId], sender)
  {
    var reg := Registry(es);
    if callId in reg then Some(Counterpart(reg[callId], sender)) else None
  }

  // ---------------------------------------------------------------------------
  // The persisted call lifecycle

  /** Whole seconds between `startedAt` and `now`, rounded down (`Math.floor(ms / 1000)`),
      and 0 for a call that was never started. */
  function Duration(now: Millis, startedAt: Option<Millis>): (d: int)
    ensures startedAt.None? ==> d == 0
    ensures startedAt.Some? ==> d * 1000 <= now - startedAt.value < d * 1000 + 1000
    ensures startedAt.Some? && startedAt.value <= now ==> d >= 0
  {
    match startedAt
    case None => 0
    case Some(t) => (now - t) / 1000
  }

  /** The record `call:accept` writes: ONGOING, started now. */
  function Accepted(c: Call, now: Millis): (r: Call)
    ensures r.status == Ongoing && r.startedAt == Some(now)
    ensures r.(status := c.status, startedAt := c.startedAt) == c
  {
    c.(status := Ongoing, startedAt := Some(now))
  }

  /** The record `call:reject` writes: REJECTED, ended now. */
  function RejectedAt(c: Call, now: Millis): (r: Call)
    ensures r.status == Rejected && r.endedAt == Some(now)
    ensures r.(status := c.status, endedAt := c.endedAt) == c
  {
    c.(status := Rejected, endedAt := Some(now))
  }

  /** The record `call:end` writes: ENDED, ended now, with its duration. */
  function EndedAt(c: Call, now: Millis): (r: Call)
    ensures r.status == Ended && r.endedAt == Some(now)
    ensures r.duration == Some(Duration(now, c.startedAt))
    ensures c.startedAt.Some? && c.startedAt.value <= now ==> r.duration.value >= 0
    ensures r.(status := c.status, endedAt := c.endedAt, duration := c.duration) == c
  {
    c.(status := Ended, endedAt := Some(now), duration := Some(Duration(now, c.startedAt)))
  }

  /** The record the disconnect cleanup writes: ENDED, ended now, duration left as it was. */
  function DroppedAt(c: Call, now: Millis): (r: Call)
    ensures r.status == Ended && r.endedAt == Some(now) && r.duration == c.duration
    ensures r.(status := c.status, endedAt := c.endedAt) == c
  {
    c.(status := Ended, endedAt := Some(now))
  }

  // ---------------------------------------------------------------------------
  // Disconnect cleanup as functions of the registry snapshot

  /** The registry left after user u disconnects: the entries that do not involve u. */
  function Survivors(es: seq<Entry>, u: UserId): seq<Entry> {
    Keep(es, NotInvolving(u))
  }

  /** After the cleanup no call involving u remains, and every call that did not
      involve u is still there, unchanged. */
  lemma SurvivorsRegistry(es: seq<Entry>, u: UserId)
    requires DistinctKeys(es)
    ensures DistinctKeys(Survivors(es, u))
    ensures forall k :: k in Registry(Survivors(es, u)) ==> !Involves(Registry(Survivors(es, u))[k], u)
    ensures forall k :: k in Registry(es) && !Involves(Registry(es)[k], u) ==>
      k in Registry(Survivors(es, u)) && Registry(Survivors(es, u))[k] == Registry(es)[k]
    ensures forall k :: k in Registry(Survivors(es, u)) ==>
      k in Registry(es) && Registry(Survivors(es, u))[k] == Registry(es)[k]
  {
    KeepRegistry(es, NotInvolving(u));
  }

  /** The `call:ended` notice for an entry that involves the disconnecting user u. */
  function EndedNotice(m: Membership, e: Entry, u: UserId): Packet {
    var t := ToRoom(UserRoom(Counterpart(e.call, u)));
    Packet(t, m.Recipients(t), "call:ended", CallRef(e.callId))
  }

  /** The notices the cleanup emits, in registry order. */
  function EndedNotices(es: seq<Entry>, u: UserId, m: Membership): seq<Packet> {
    if es == [] then []
    else
      var rest := EndedNotices(es[..|es| - 1], u, m);
      if Involves(es[|es| - 1].call, u) then rest + [EndedNotice(m, es[|es| - 1], u)] else rest
  }

  /** Every notice is the notice of a listed call that involves u. */
  lemma {:induction false} NoticesFromInvolved(es: seq<Entry>, u: UserId, m: Membership)
    ensures forall p :: p in EndedNotices(es, u, m) ==>
      exists e :: e in es && Involves(e.call, u) && p == EndedNotice(m, e, u)
  {
    if es != [] {
      var init := es[..|es| - 1];
      NoticesFromInvolved(init, u, m);
      forall p | p in EndedNotices(es, u, m)
        ensures exists e :: e in es && Involves(e.call, u) && p == EndedNotice(m, e, u)
      {
        if p in EndedNotices(init, u, m) {
          var e :| e in init && Involves(e.call, u) && p == EndedNotice(m, e, u);
          assert e in es;
        } else {
          assert es[|es| - 1] in es;
        }
      }
    }
  }

  /** Every notice refers to a registered call. */
  lemma {:induction false} NoticeIds(es: seq<Entry>, u: UserId, m: Membership)
    ensures forall p :: p in EndedNotices(es, u, m) ==> p.payload.CallRef? && p.payload.refId in Registry(es)
  {
    if es != [] {
      NoticeIds(es[..|es| - 1], u, m);
    }
  }

  /** Each call involving u gets exactly one `call:ended`, addressed to its other party. */
  lemma {:induction false} ExactlyOneNotice(es: seq<Entry>, u: UserId, m: Membership, e: Entry)
    requires DistinctKeys(es)
    requires e in es && Involves(e.call, u)
    ensures multiset(EndedNotices(es, u, m))[EndedNotice(m, e, u)] == 1
    ensures EndedNotice(m, e, u).target == ToRoom(UserRoom(Counterpart(e.call, u)))
  {
    var init, last := es[..|es| - 1], es[|es| - 1];
    LastKeyFresh(es);
    NoticeIds(init, u, m);
    if e == last {
      assert EndedNotice(m, e, u) !in EndedNotices(init, u, m);
    } else {
      var i :| 0 <= i < |es| && es[i] == e;
      assert i != |es| - 1;
      assert init[i] == e;
      ExactlyOneNotice(init, u, m, e);
      if Involves(last.call, u) {
        RegistryKeys(init);
        assert e.callId in Registry(init);
        assert EndedNotice(m, last, u) != EndedNotice(m, e, u);
      }
    }
  }

  /** The call records after the cleanup: every listed call involving u is marked ENDED now. */
  function DropAll(calls: map<CallId, Call>, es: seq<Entry>, u: UserId, now: Millis): map<CallId, Call> {
    if es == [] then calls
    else
      var before := DropAll(calls, es[..|es| - 1], u, now);
      var e := es[|es| - 1];
      if Involves(e.call, u) && e.callId in before then before[e.callId := DroppedAt(before[e.callId], now)]
      else before
  }

  /** The cleanup marks exactly the registered calls involving u, and touches nothing else. */
  lemma {:induction false} DropAllEffect(calls: map<CallId, Call>, es: seq<Entry>, u: UserId, now: Millis)
    requires DistinctKeys(es)
    ensures DropAll(calls, es, u, now).Keys == calls.Keys
    ensures forall k :: k in calls ==>
      DropAll(calls, es, u, now)[k] ==
        if k in Registry(es) && Involves(Registry(es)[k], u) then DroppedAt(calls[k], now) else calls[k]
  {
    if es != [] {
      var init := es[..|es| - 1];
      LastKeyFresh(es);
      DropAllEffect(calls, init, u, now);
    }
  }

  // ---------------------------------------------------------------------------
  // The registry against the persisted call records

  /** Every registered call is persisted, still RINGING or ONGOING, and between the same
      two parties as its record. */
  ghost predicate Tracks(es: seq<Entry>, calls: map<CallId, Call>) {
    forall k :: k in Registry(es) ==>
      && k in calls
      && calls[k].status in {Ringing, Ongoing}
      && calls[k].initiatorId == Registry(es)[k].initiatorId
      && calls[k].receiverId == Registry(es)[k].receiverId
  }

  /** Registering a freshly persisted RINGING call keeps the registry tracked. */
  lemma TracksAdd(es: seq<Entry>, calls: map<CallId, Call>, e: Entry, c: Call)
    requires DistinctKeys(es) && Tracks(es, calls) && e.callId !in calls
    requires c.status == Ringing && c.initiatorId == e.call.initiatorId && c.receiverId == e.call.receiverId
    ensures e.callId !in Registry(es)
    ensures Registry(es + [e]) == Registry(es)[e.callId := e.call]
    ensures DistinctKeys(es + [e]) && Tracks(es + [e], calls[e.callId := c])
  {
    assert (es + [e])[..|es|] == es;
    AppendFresh(es, e);
  }

  /** Rewriting a registered call's record with one between the same parties that is
      still RINGING or ONGOING keeps the registry tracked. */
  lemma TracksUpdate(es: seq<Entry>, calls: map<CallId, Call>, id: CallId, c: Call)
    requires Tracks(es, calls) && id in Registry(es)
    requires c.status in {Ringing, Ongoing}
    requires c.initiatorId == calls[id].initiatorId && c.receiverId == calls[id].receiverId
    ensures Tracks(es, calls[id := c])
  {
  }

  /** Deleting a call from the registry releases its record to any update. */
  lemma TracksDelete(es: seq<Entry>, calls: map<CallId, Call>, id: CallId, c: Call)
    requires DistinctKeys(es) && Tracks(es, calls)
    ensures DistinctKeys(Delete(es, id)) && Registry(Delete(es, id)) == Registry(es) - {id}
    ensures Tracks(Delete(es, id), calls[id := c])
  {
    DeleteRegistry(es, id);
  }

  // ---------------------------------------------------------------------------
  // The handlers

  /** RTC message kinds relayed verbatim. */
  datatype RtcKind = Offer | Answer | IceCandidate

  function RtcEvent(k: RtcKind): string {
    match k
    case Offer => "rtc:offer"
    case Answer => "rtc:answer"
    case IceCandidate => "rtc:ice-candidate"
  }

  /** The module-level `activeCalls` map and the handlers registered per socket. */
  class SignalingEngine {
    var entries: seq<Entry>

    /** Registry invariant: distinct keys, and every registered call is tracked by its record. */
    ghost predicate Valid(db: Db)
      reads this, db`calls
    {
      DistinctKeys(entries) && Tracks(entries, db.calls)
    }

    constructor ()
      ensures entries == []
    {
      entries := [];
    }

    /** `call:initiate`: the receiver must exist and be online; then the call is persisted
        RINGING, registered, announced to the receiver and acknowledged to the caller.
        `newId` is the id the database assigns; creating the row fails (CALL_FAILED) when
        it is taken or the caller has no user row. */
    method Initiate(db: Db, io: Io, s: Session, receiverId: UserId, kind: CallType, newId: CallId)
      requires Valid(db) && db.Valid()
      modifies this, db`calls, io`outbox
      ensures Valid(db) && db.Valid()
      ensures receiverId !in db.users ==>
        && entries == old(entries) && db.calls == old(db.calls)
        && io.outbox == old(io.outbox) + [io.Deliver(ToSocket(s.sid), "error", ErrorInfo("USER_NOT_FOUND", "User not found"))]
      ensures receiverId in db.users && !db.users[receiverId].isOnline ==>
        && entries == old(entries) && db.calls == old(db.calls)
        && io.outbox == old(io.outbox) + [io.Deliver(ToSocket(s.sid), "error", ErrorInfo("USER_OFFLINE", "User is offline"))]
      ensures receiverId in db.users && db.users[receiverId].isOnline && (newId in old(db.calls) || s.userId !in db.users) ==>
        && entries == old(entries) && db.calls == old(db.calls)
        && io.outbox == old(io.outbox) + [io.Deliver(ToSocket(s.sid), "error", ErrorInfo("CALL_FAILED", "Failed to initiate call"))]
      ensures receiverId in db.users && db.users[receiverId].isOnline && newId !in old(db.calls) && s.userId in db.users ==>
        && db.calls == old(db.calls)[newId := Call(s.userId, receiverId, kind, Ringing, None, None, None)]
        && entries == old(entries) + [Entry(newId, ActiveCall(s.userId, receiverId, kind))]
        && Registry(entries) == old(Registry(entries))[newId := ActiveCall(s.userId, receiverId, kind)]
        && newId !in old(Registry(entries))
        && io.outbox == old(io.outbox) + [
             io.Deliver(ToRoom(UserRoom(receiverId)), "call:incoming", CallIncoming(newId, s.userId, kind)),
             io.Deliver(ToSocket(s.sid), "call:initiated", CallInitiated(newId))]
    {
      if receiverId !in db.users {
        io.Emit(ToSocket(s.sid), "error", ErrorInfo("USER_NOT_FOUND", "User not found"));
        return;
      }
      if !db.users[receiverId].isOnline {
        io.Emit(ToSocket(s.sid), "error", ErrorInfo("USER_OFFLINE", "User is offline"));
        return;
      }
      if newId in db.calls || s.userId !in db.users {
        io.Emit(ToSocket(s.sid), "error", ErrorInfo("CALL_FAILED", "Failed to initiate call"));
        return;
      }
      Ring(db, io, s, receiverId, kind, newId);
    }

    /** The success path of `call:initiate`: persist, register, announce, acknowledge. */
    method Ring(db: Db, io: Io, s: Session, receiverId: UserId, kind: CallType, newId: CallId)
      requires Valid(db) && db.Valid()
      requires receiverId in db.users && s.userId in db.users && newId !in db.calls
      modifies this, db`calls, io`outbox
      ensures Valid(db) && db.Valid()
      ensures db.calls == old(db.calls)[newId := Call(s.userId, receiverId, kind, Ringing, None, None, None)]
      ensures entries == old(entries) + [Entry(newId, ActiveCall(s.userId, receiverId, kind))]
      ensures Registry(entries) == old(Registry(entries))[newId := ActiveCall(s.userId, receiverId, kind)]
      ensures newId !in old(Registry(entries))
      ensures io.outbox == old(io.outbox) + [
        io.Deliver(ToRoom(UserRoom(receiverId)), "call:incoming", CallIncoming(newId, s.userId, kind)),
        io.Deliver(ToSocket(s.sid), "call:initiated", CallInitiated(newId))]
    {
      var record := Call(s.userId, receiverId, kind, Ringing, None, None, None);
      var added := Entry(newId, ActiveCall(s.userId, receiverId, kind));
      TracksAdd(entries, db.calls, added, record);
      db.calls := db.calls[newId := record];
      entries := entries + [added];
      io.Emit(ToRoom(UserRoom(receiverId)), "call:incoming", CallIncoming(newId, s.userId, kind));
      io.Emit(ToSocket(s.sid), "call:initiated", CallInitiated(newId));
    }

    /** `call:accept`: an unknown call is reported to the caller as CALL_NOT_FOUND;
        otherwise the call becomes ONGOING, started now, and only the initiator hears
        of it. The entry stays registered. Neither the caller nor the status is checked. */
    method Accept(db: Db, io: Io, s: Session, callId: CallId, now: Millis)
      requires Valid(db) && db.Valid()
      modifies db`calls, io`outbox
      ensures Valid(db) && db.Valid()
      ensures callId !in Registry(entries) ==>
        && db.calls == old(db.calls)
        && io.outbox == old(io.outbox) + [io.Deliver(ToSocket(s.sid), "error", ErrorInfo("CALL_NOT_FOUND", "Call not found"))]
      ensures callId in Registry(entries) ==>
        && callId in old(db.calls)
        && db.calls == old(db.calls)[callId := Accepted(old(db.calls)[callId], now)]
        && io.outbox == old(io.outbox) +
             [io.Deliver(ToRoom(UserRoom(Registry(entries)[callId].initiatorId)), "call:accepted", CallRef(callId))]
    {
      var reg := Registry(entries);
      if callId !in reg {
        io.Emit(ToSocket(s.sid), "error", ErrorInfo("CALL_NOT_FOUND", "Call not found"));
        return;
      }
      var data := reg[callId];
      TracksUpdate(entries, db.calls, callId, Accepted(db.calls[callId], now));
      db.calls := db.calls[callId := Accepted(db.calls[callId], now)];
      io.Emit(ToRoom(UserRoom(data.initiatorId)), "call:accepted", CallRef(callId));
    }

    /** `call:reject`: silent for an unknown call; otherwise REJECTED, ended now, removed
        from the registry (and only that entry), and the initiator is told. */
    method Reject(db: Db, io: Io, s: Session, callId: CallId, now: Millis)
      requires Valid(db) && db.Valid()
      modifies this, db`calls, io`outbox
      ensures Valid(db) && db.Valid()
      ensures callId !in old(Registry(entries)) ==>
        entries == old(entries) && db.calls == old(db.calls) && io.outbox == old(io.outbox)
      ensures callId in old(Registry(entries)) ==>
        && callId in old(db.calls)
        && db.calls == old(db.calls)[callId := RejectedAt(old(db.calls)[callId], now)]
        && entries == Delete(old(entries), callId)
        && Registry(entries) == old(Registry(entries)) - {callId}
        && io.outbox == old(io.outbox) +
             [io.Deliver(ToRoom(UserRoom(old(Registry(entries))[callId].initiatorId)), "call:rejected", CallRef(callId))]
    {
      var reg := Registry(entries);
      if callId !in reg {
        return;
      }
      var data := reg[callId];
      TracksDelete(entries, db.calls, callId, RejectedAt(db.calls[callId], now));
      db.calls := db.calls[callId := RejectedAt(db.calls[callId], now)];
      entries := Delete(entries, callId);
      io.Emit(ToRoom(UserRoom(data.initiatorId)), "call:rejected", CallRef(callId));
    }

    /** `call:end`: silent for an unknown call; otherwise ENDED, ended now, with the whole
        seconds since it started (0 if it never started), removed from the registry, and
        the party other than the caller is told. */
    method End(db: Db, io: Io, s: Session, callId: CallId, now: Millis)
      requires Valid(db) && db.Valid()
      modifies this, db`calls, io`outbox
      ensures Valid(db) && db.Valid()
      ensures callId !in old(Registry(entries)) ==>
        entries == old(entries) && db.calls == old(db.calls) && io.outbox == old(io.outbox)
      ensures callId in old(Registry(entries)) ==>
        && callId in old(db.calls)
        && db.calls == old(db.calls)[callId := EndedAt(old(db.calls)[callId], now)]
        && entries == Delete(old(entries), callId)
        && Registry(entries) == old(Registry(entries)) - {callId}
        && io.outbox == old(io.outbox) +
             [io.Deliver(ToRoom(UserRoom(Counterpart(old(Registry(entries))[callId], s.userId))), "call:ended", CallRef(callId))]
    {
      var reg := Registry(entries);
      if callId !in reg {
        return;
      }
      var data := reg[callId];
      TracksDelete(entries, db.calls, callId, EndedAt(db.calls[callId], now));
      db.calls := db.calls[callId := EndedAt(db.calls[callId], now)];
      entries := Delete(entries, callId);
      io.Emit(ToRoom(UserRoom(Counterpart(data, s.userId))), "call:ended", CallRef(callId));
    }

    /** `rtc:offer`, `rtc:answer`, `rtc:ice-candidate`: the payload goes unchanged to the
        counterpart's personal room; an unknown call delivers nothing and raises nothing. */
    method Relay(io: Io, s: Session, kind: RtcKind, callId: CallId, body: string)
      modifies io`outbox
      ensures RelayTarget(entries, s.userId, callId).None? ==> io.outbox == old(io.outbox)
      ensures RelayTarget(entries, s.userId, callId).Some? ==>
        io.outbox == old(io.outbox) +
          [io.Deliver(ToRoom(UserRoom(RelayTarget(entries, s.userId, callId).value)), RtcEvent(kind), Rtc(callId, body))]
    {
      var reg := Registry(entries);
      if callId !in reg {
        return;
      }
      var target := Counterpart(reg[callId], s.userId);
      io.Emit(ToRoom(UserRoom(target)), RtcEvent(kind), Rtc(callId, body));
    }

    /** Disconnect cleanup: walk the registry in insertion order; every call the user is
        party to is marked ENDED now (no duration written), deleted, and its other party
        gets `call:ended`. */
    method Disconnect(db: Db, io: Io, s: Session, now: Millis)
      requires Valid(db) && db.Valid()
      modifies this, db`calls, io`outbox
      ensures Valid(db) && db.Valid()
      ensures entries == Survivors(old(entries), s.userId)
      ensures db.calls == DropAll(old(db.calls), old(entries), s.userId, now)
      ensures io.outbox == old(io.outbox) + EndedNotices(old(entries), s.userId, io.Members())
    {
      ghost var snapshot, calls0 := entries, db.calls;
      RegistryKeys(snapshot);
      forall j | 0 <= j < |snapshot|
        ensures snapshot[j].callId in calls0
      {
        assert snapshot[j].callId in Registry(snapshot);
      }
      Cleanup(db, io, s.userId, now);
      ValidAfterDisconnect(db, snapshot, s.userId, now, calls0);
    }

    /** The cleanup loop over a snapshot of the registry, in insertion order. */
    method Cleanup(db: Db, io: Io, u: UserId, now: Millis)
      requires DistinctKeys(entries)
      requires forall j :: 0 <= j < |entries| ==> entries[j].callId in db.calls
      modifies this, db`calls, io`outbox
      ensures entries == Survivors(old(entries), u)
      ensures db.calls == DropAll(old(db.calls), old(entries), u, now)
      ensures io.outbox == old(io.outbox) + EndedNotices(old(entries), u, io.Members())
    {
      var snapshot := entries;
      ghost var m := io.Members();
      ghost var calls0 := db.calls;
      var i := 0;
      while i < |snapshot|
        invariant 0 <= i <= |snapshot|
        invariant CleanedUpTo(snapshot, i, u, m, calls0, now, old(io.outbox), entries, db.calls, io.outbox)
        invariant io.sessions == m.sessions && io.rooms == m.rooms
      {
        var e := snapshot[i];
        CleanupStep(snapshot, i, u, m, calls0, now, old(io.outbox), entries, db.calls, io.outbox);
        if Involves(e.call, u) {
          DropEntry(db, io, e, u, now);
        }
        i := i + 1;
      }
      assert snapshot[..i] == snapshot;
    }

    /** One cleanup step for a call the departing user is party to: mark it ENDED,
        forget it, and tell the other party. */
    method DropEntry(db: Db, io: Io, e: Entry, u: UserId, now: Millis)
      requires e.callId in db.calls
      modifies this, db`calls, io`outbox
      ensures entries == Delete(old(entries), e.callId)
      ensures db.calls == old(db.calls)[e.callId := DroppedAt(old(db.calls)[e.callId], now)]
      ensures io.outbox == old(io.outbox) + [EndedNotice(io.Members(), e, u)]
    {
      db.calls := db.calls[e.callId := DroppedAt(db.calls[e.callId], now)];
      entries := Delete(entries, e.callId);
      io.Emit(ToRoom(UserRoom(Counterpart(e.call, u))), "call:ended", CallRef(e.callId));
    }

    /** The registry invariant after the cleanup loop. */
    lemma ValidAfterDisconnect(db: Db, snapshot: seq<Entry>, u: UserId, now: Millis, calls0: map<CallId, Call>)
      requires DistinctKeys(snapshot)
      requires forall k :: k in Registry(snapshot) ==>
            && k in calls0
            && calls0[k].status in {Ringing, Ongoing}
            && calls0[k].initiatorId == Registry(snapshot)[k].initiatorId
            && calls0[k].receiverId == Registry(snapshot)[k].receiverId
      requires forall k :: k in calls0 ==> calls0[k].initiatorId in db.users && calls0[k].receiverId in db.users
      requires entries == Survivors(snapshot, u)
      requires db.calls == DropAll(calls0, snapshot, u, now)
      ensures Valid(db)
      ensures forall k :: k in db.calls ==> db.calls[k].initiatorId in db.users && db.calls[k].receiverId in db.users
    {
      SurvivorsRegistry(snapshot, u);
      DropAllEffect(calls0, snapshot, u, now);
      var reg, reg0 := Registry(entries), Registry(snapshot);
      forall k | k in reg
        ensures k in db.calls && db.calls[k] == calls0[k] && reg[k] == reg0[k]
      {
        assert k in reg0 && reg[k] == reg0[k];
      }
      forall k | k in db.calls
        ensures db.calls[k].initiatorId == calls0[k].initiatorId && db.calls[k].receiverId == calls0[k].receiverId
      {
      }
    }
  }

  /** Appending one packet after a prefix and a tail. */
  lemma AppendAssoc(a: seq<Packet>, b: seq<Packet>, p: Packet)
    ensures (a + b) + [p] == a + (b + [p])
  {
  }

  /** A suffix is its first element followed by the rest. */
  lemma SplitAt(s: seq<Entry>, i: nat)
    requires i < |s|
    ensures s[i..] == [s[i]] + s[i + 1..]
  {
  }

  /** The state of the cleanup loop after the first `i` entries of the snapshot. */
  ghost predicate CleanedUpTo(snapshot: seq<Entry>, i: nat, u: UserId, m: Membership, calls0: map<CallId, Call>,
                              now: Millis, outbox0: seq<Packet>, es: seq<Entry>, calls: map<CallId, Call>,
                              outbox: seq<Packet>)
  {
    && i <= |snapshot|
    && es == Survivors(snapshot[..i], u) + snapshot[i..]
    && calls == DropAll(calls0, snapshot[..i], u, now)
    && calls.Keys == calls0.Keys
    && outbox == outbox0 + EndedNotices(snapshot[..i], u, m)
  }

  /** One iteration of the cleanup loop, stated on values: dropping the entry under the
      cursor when it involves u, and skipping it otherwise, advances the loop state. */
  lemma CleanupStep(snapshot: seq<Entry>, i: nat, u: UserId, m: Membership, calls0: map<CallId, Call>,
                    now: Millis, outbox0: seq<Packet>, es: seq<Entry>, calls: map<CallId, Call>, outbox: seq<Packet>)
    requires DistinctKeys(snapshot) && i < |snapshot| && snapshot[i].callId in calls0
    requires CleanedUpTo(snapshot, i, u, m, calls0, now, outbox0, es, calls, outbox)
    ensures Involves(snapshot[i].call, u) ==>
      && snapshot[i].callId in calls
      && CleanedUpTo(snapshot, i + 1, u, m, calls0, now, outbox0, Delete(es, snapshot[i].callId),
                     calls[snapshot[i].callId := DroppedAt(calls[snapshot[i].callId], now)],
                     outbox + [EndedNotice(m, snapshot[i], u)])
    ensures !Involves(snapshot[i].call, u) ==>
      CleanedUpTo(snapshot, i + 1, u, m, calls0, now, outbox0, es, calls, outbox)
  {
    assert snapshot[..i + 1][..i] == snapshot[..i];
    SplitAt(snapshot, i);
    if Involves(snapshot[i].call, u) {
      CursorStep(snapshot, i, u);
      AppendAssoc(outbox0, EndedNotices(snapshot[..i], u, m), EndedNotice(m, snapshot[i], u));
    }
  }

  /** Deleting the key of the middle entry, when no other entry has it. */
  lemma DeleteMiddle(a: seq<Entry>, x: Entry, b: seq<Entry>)
    requires forall e :: e in a ==> e.callId != x.callId
    requires forall e :: e in b ==> e.callId != x.callId
    ensures Delete(a + ([x] + b), x.callId) == a + b
  {
    var keep := NotKey(x.callId);
    KeepAll(a, keep);
    KeepAll(b, keep);
    KeepSingle(x, keep);
    KeepConcat([x], b, keep);
    assert Keep([x] + b, keep) == b;
    KeepConcat(a, [x] + b, keep);
  }

  /** A one-entry list is kept or dropped as a whole. */
  lemma KeepSingle(x: Entry, keep: Criterion)
    ensures Keep([x], keep) == if keep.Admits(x) then [x] else []
  {
    assert [x][..0] == [];
  }

  /** One step of the cleanup loop: deleting the entry under the cursor from
      "survivors so far + the rest" leaves "survivors so far + the rest after it". */
  lemma CursorStep(snapshot: seq<Entry>, i: nat, u: UserId)
    requires DistinctKeys(snapshot) && i < |snapshot|
    ensures Delete(Survivors(snapshot[..i], u) + snapshot[i..], snapshot[i].callId)
         == Survivors(snapshot[..i], u) + snapshot[i + 1..]
  {
    var x := snapshot[i];
    var before := Survivors(snapshot[..i], u);
    var after := snapshot[i + 1..];
    assert snapshot[i..] == [x] + after;
    forall e | e in before
      ensures e.callId != x.callId
    {
      assert e in snapshot[..i];
      var j :| 0 <= j < i && snapshot[..i][j] == e;
      assert snapshot[j] == e;
    }
    forall e | e in after
      ensures e.callId != x.callId
    {
      var j :| 0 <= j < |after| && after[j] == e;
      assert snapshot[i + 1 + j] == e;
    }
    DeleteMiddle(before, x, after);
  }
}
