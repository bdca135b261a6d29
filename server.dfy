/**
 * The real-time side of the engine: one handler per socket event, acting on
 * the message collection, the room registry and the stream of events the
 * server emits. Each emit is recorded as a delivery to the sessions that
 * receive it, in emit order; awaited database calls whose outcome the model
 * cannot see (a fetch, a write) are parameters of the handler.
 */
module Server {
  import opened Wrappers
  import opened Messages
  import opened Store
  import opened Membership

  /** The events the server emits, with the payload fields it sends. */
  datatype Event =
    | JoinRoomAck(roomId: RoomId)
    | LeaveRoomAck(roomId: RoomId)
    | UnreadMessagesUpdated(userId: UserId, roomId: RoomId)
    | ReceiveMessage(id: MessageId, text: string, createdAt: int, user: UserId, readBy: seq<UserId>)
    | GlobalMessageUpdated(roomId: RoomId, message: ChatMessage)

  /** One emit: the sessions it reaches and what they receive. */
  datatype Delivery = Delivery(recipients: set<SessionId>, event: Event)

  /** The save of record `k` was needed (it lacked `u`) and it failed. */
  predicate SaveFailsAt(s: seq<ChatMessage>, k: nat, roomId: RoomId, u: UserId, failedSaves: set<MessageId>)
    requires k < |s|
  {
    s[k].roomId == roomId && u !in s[k].readBy && s[k].id in failedSaves
  }

  /** Some record of the room needed a save and that save failed, so `Promise.all` rejects. */
  predicate SomeSaveFails(s: seq<ChatMessage>, roomId: RoomId, u: UserId, failedSaves: set<MessageId>) {
    exists k :: 0 <= k < |s| && SaveFailsAt(s, k, roomId, u, failedSaves)
  }

  /**
   * When no needed save fails, the socket's read update leaves the same
   * records as the `markAsRead` bulk update.
   */
  lemma ReadStatusAgreesWithMarkAsRead(s: seq<ChatMessage>, roomId: RoomId, u: UserId, failedSaves: set<MessageId>)
    requires !SomeSaveFails(s, roomId, u, failedSaves)
    ensures MarkRoom(s, roomId, u, failedSaves) == MarkRoom(s, roomId, u, {})
  {
    forall i | 0 <= i < |s|
      ensures MarkRoom(s, roomId, u, failedSaves)[i] == MarkRoom(s, roomId, u, {})[i]
    {
      assert !SaveFailsAt(s, i, roomId, u, failedSaves);
    }
  }

  /** The `unreadMessagesUpdated` notice sent back to the session that asked, if it is sent at all. */
  function ReadStatusNotice(s: seq<ChatMessage>, sid: SessionId, roomId: RoomId, u: UserId,
                            fetchOk: bool, failedSaves: set<MessageId>): (r: seq<Delivery>)
    ensures |r| <= 1
    ensures |r| == 1 <==> fetchOk && !SomeSaveFails(s, roomId, u, failedSaves)
    ensures forall k :: 0 <= k < |r| ==> r[k] == Delivery({sid}, UnreadMessagesUpdated(u, roomId))
  {
    if fetchOk && !SomeSaveFails(s, roomId, u, failedSaves) then [Delivery({sid}, UnreadMessagesUpdated(u, roomId))]
    else []
  }

  /** The `receiveMessage` payload announcing a stored record to its room. */
  function Announcement(m: ChatMessage): Event {
    ReceiveMessage(m.id, m.message, m.timestamp, m.sender, m.readBy)
  }

  class ChatServer {
    const store: MessageStore
    const registry: Registry
    /** Every emit so far, oldest first. */
    var outbox: seq<Delivery>

    ghost predicate Valid()
      reads this, store, registry
    {
      store.Valid() && registry.Valid()
    }

    /** A server starting on the persisted collection, with no connections and no emits yet. */
    constructor (persisted: seq<ChatMessage>, freshFrom: MessageId)
      requires forall i :: 0 <= i < |persisted| ==> WellFormed(persisted[i]) && persisted[i].id < freshFrom
      requires forall i, j :: 0 <= i < j < |persisted| ==> persisted[i].id != persisted[j].id
      ensures Valid() && fresh(store) && fresh(registry)
      ensures store.records == persisted && store.nextId == freshFrom
      ensures registry.rooms == map[] && outbox == []
    {
      store := new MessageStore(persisted, freshFrom);
      registry := new Registry();
      outbox := [];
    }

    /** A new connection: the socket joins the global room. */
    method Connect(sid: SessionId)
      requires Valid()
      modifies registry
      ensures Valid()
      ensures registry.rooms == WithMember(old(registry.rooms), GlobalRoom, sid)
      ensures sid in registry.Members(GlobalRoom)
    {
      registry.Join(sid, GlobalRoom);
    }

    /** `joinRoom`: the socket joins `roomId` and the acknowledgement goes back to it alone. */
    method JoinRoom(sid: SessionId, roomId: RoomId, userId: UserId)
      requires Valid()
      modifies this, registry
      ensures Valid()
      ensures registry.rooms == WithMember(old(registry.rooms), roomId, sid)
      ensures outbox == old(outbox) + [Delivery({sid}, JoinRoomAck(roomId))]
      ensures sid in registry.Members(roomId)
    {
      registry.Join(sid, roomId);
      outbox := outbox + [Delivery({sid}, JoinRoomAck(roomId))];
    }

    /** `leaveRoom`: the socket leaves `roomId` and the acknowledgement goes back to it alone. */
    method LeaveRoom(sid: SessionId, roomId: RoomId)
      requires Valid()
      modifies this, registry
      ensures Valid()
      ensures registry.rooms == WithoutMember(old(registry.rooms), roomId, sid)
      ensures outbox == old(outbox) + [Delivery({sid}, LeaveRoomAck(roomId))]
      ensures sid !in registry.Members(roomId)
    {
      registry.Leave(sid, roomId);
      outbox := outbox + [Delivery({sid}, LeaveRoomAck(roomId))];
    }

    /**
     * `updateReadStatus`: fetch the room's records (outcome `fetchOk`), push
     * `userId` into the readers of each record that lacks it and save it.
     * The saves run together: the ones whose ids are in `failedSaves` fail
     * and leave their record as stored, the others persist, and the
     * notice is emitted only when every save succeeded.
     */
    method UpdateReadStatus(sid: SessionId, roomId: RoomId, userId: UserId,
                            fetchOk: bool, failedSaves: set<MessageId>)
      requires Valid()
      modifies this, store
      ensures Valid() && store.nextId == old(store.nextId)
      ensures !fetchOk ==> store.records == old(store.records) && outbox == old(outbox)
      ensures fetchOk ==> store.records == MarkRoom(old(store.records), roomId, userId, failedSaves)
      ensures outbox == old(outbox) + ReadStatusNotice(old(store.records), sid, roomId, userId, fetchOk, failedSaves)
    {
      if !fetchOk {
        return;
      }
      var anyFailed := false;
      var i := 0;
      while i < |store.records|
        invariant 0 <= i <= |store.records| == |old(store.records)|
        invariant store.Valid() && store.nextId == old(store.nextId) && outbox == old(outbox)
        invariant forall k :: 0 <= k < i ==> store.records[k] == MarkOne(old(store.records)[k], roomId, userId, failedSaves)
        invariant forall k :: i <= k < |store.records| ==> store.records[k] == old(store.records)[k]
        invariant anyFailed <==> exists k :: 0 <= k < i && SaveFailsAt(old(store.records), k, roomId, userId, failedSaves)
      {
        var m := store.records[i];
        assert SaveFailsAt(old(store.records), i, roomId, userId, failedSaves)
               <==> m.roomId == roomId && userId !in m.readBy && m.id in failedSaves;
        if m.roomId == roomId && userId !in m.readBy {
          if m.id in failedSaves {
            anyFailed := true;
          } else {
            store.PushReader(i, userId);
          }
        }
        i := i + 1;
      }
      assert store.records == MarkRoom(old(store.records), roomId, userId, failedSaves);
      if !anyFailed {
        outbox := outbox + [Delivery({sid}, UnreadMessagesUpdated(userId, roomId))];
      }
    }

    /**
     * `sendMessage`: build the record from the payload's `roomId`, `info`,
     * `sender` and `message` (its time is always the creation time `now`),
     * save it (write outcome `writeOk`), and on success announce it to the
     * members of its room and to the global room.
     *
     * Between the save and the announcements the handler has a read-receipt
     * block. It is skipped when the room has no members or the sending
     * socket is not among them (then it only logs). Otherwise it reads a
     * `userId` the handler never binds, which throws into the block's own
     * catch before any record is written or any event emitted. Either way
     * it has no effect, so it is absent here.
     */
    method SendMessage(sid: SessionId, roomId: Option<string>, info: Option<Info>, sender: Option<UserId>,
                       message: Option<string>, now: int, writeOk: bool)
      returns (r: Result<ChatMessage, SaveError>)
      requires Valid()
      modifies this, store
      ensures Valid()
      ensures r.Ok? ==> r.value.timestamp == now && r.value.readBy == []
      ensures store.nextId == old(store.nextId) + (if r.Ok? then 1 else 0)
      ensures match Create(Draft(roomId, sender, message, info, None), old(store.nextId), now)
              case Err(missing) =>
                && r == Err(ValidationFailed(missing))
                && store.records == old(store.records) && outbox == old(outbox)
              case Ok(m) =>
                if writeOk then
                  && r == Ok(m)
                  && store.records == old(store.records) + [m]
                  && outbox == old(outbox) + [Delivery(registry.Members(m.roomId), Announcement(m)),
                                              Delivery(registry.Members(GlobalRoom), GlobalMessageUpdated(m.roomId, m))]
                else
                  && r == Err(StorageFailed)
                  && store.records == old(store.records) && outbox == old(outbox)
    {
      r := store.Save(Draft(roomId, sender, message, info, None), now, writeOk);
      if r.Err? {
        return;
      }
      var m := r.value;
      outbox := outbox + [Delivery(registry.Members(m.roomId), Announcement(m)),
                          Delivery(registry.Members(GlobalRoom), GlobalMessageUpdated(m.roomId, m))];
    }

    /** `disconnect`: the socket library removes the session from every room it was in. */
    method Disconnect(sid: SessionId)
      requires Valid()
      modifies registry
      ensures Valid()
      ensures registry.rooms == WithoutSession(old(registry.rooms), sid)
      ensures forall room :: sid !in registry.Members(room)
    {
      registry.DropSession(sid);
    }
  }
}
