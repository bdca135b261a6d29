/**
 * The ChatMessage collection: the records in insertion order and the writes
 * the engine performs on them (insert a new record, push a reader into
 * `readBy` of one fetched record, and the bulk `$push` of `updateMany`).
 */
module Store {
  import opened Wrappers
  import opened Messages

  datatype SaveError = ValidationFailed(missing: set<Field>) | StorageFailed

  class MessageStore {
    var records: seq<ChatMessage>
    /** The id the next new record receives. */
    var nextId: MessageId

    /** Every stored record passed validation and no two records share an id. */
    ghost predicate Valid()
      reads this
    {
      && (forall i :: 0 <= i < |records| ==> WellFormed(records[i]) && records[i].id < nextId)
      && (forall i, j :: 0 <= i < j < |records| ==> records[i].id != records[j].id)
    }

    /**
     * The collection as persisted when the server starts: records that
     * passed validation, with distinct ids below `freshFrom`, the first id
     * a new record may receive.
     */
    constructor (persisted: seq<ChatMessage>, freshFrom: MessageId)
      requires forall i :: 0 <= i < |persisted| ==> WellFormed(persisted[i]) && persisted[i].id < freshFrom
      requires forall i, j :: 0 <= i < j < |persisted| ==> persisted[i].id != persisted[j].id
      ensures Valid() && records == persisted && nextId == freshFrom
    {
      records, nextId := persisted, freshFrom;
    }

    /**
     * `new ChatMessage(fields)` followed by `save()`: validation runs first,
     * then the write, whose outcome is `writeOk`. Nothing is stored on failure.
     */
    method Save(d: Draft, now: int, writeOk: bool) returns (r: Result<ChatMessage, SaveError>)
      requires Valid()
      modifies this
      ensures Valid()
      ensures match Create(d, old(nextId), now)
              case Err(missing) =>
                r == Err(ValidationFailed(missing)) && records == old(records) && nextId == old(nextId)
              case Ok(m) =>
                if writeOk then r == Ok(m) && records == old(records) + [m] && nextId == old(nextId) + 1
                else r == Err(StorageFailed) && records == old(records) && nextId == old(nextId)
    {
      var c := Create(d, nextId, now);
      if c.Err? {
        return Err(ValidationFailed(c.error));
      }
      if !writeOk {
        return Err(StorageFailed);
      }
      records := records + [c.value];
      nextId := nextId + 1;
      r := Ok(c.value);
    }

    /** `msg.readBy.push(u)` then `msg.save()` for the fetched record at position `i`. */
    method PushReader(i: nat, u: UserId)
      requires Valid() && i < |records| && u !in records[i].readBy
      modifies this
      ensures Valid() && nextId == old(nextId)
      ensures records == old(records)[i := AddReader(old(records)[i], u)]
    {
      records := records[i := records[i].(readBy := records[i].readBy + [u])];
    }

    /**
     * `updateMany({roomId, readBy: {$ne: u}}, {$push: {readBy: u}})`: every
     * record of the room that lacks `u` gains it, one record at a time.
     */
    method AddReaderInRoom(roomId: RoomId, u: UserId)
      requires Valid()
      modifies this
      ensures Valid() && nextId == old(nextId)
      ensures records == MarkRoom(old(records), roomId, u, {})
    {
      var i := 0;
      while i < |records|
        invariant 0 <= i <= |records| == |old(records)|
        invariant nextId == old(nextId)
        invariant forall k :: 0 <= k < i ==> records[k] == MarkOne(old(records)[k], roomId, u, {})
        invariant forall k :: i <= k < |records| ==> records[k] == old(records)[k]
      {
        var m := records[i];
        if m.roomId == roomId && u !in m.readBy {
          records := records[i := m.(readBy := m.readBy + [u])];
        }
        i := i + 1;
      }
      assert records == MarkRoom(old(records), roomId, u, {});
    }
  }
}
