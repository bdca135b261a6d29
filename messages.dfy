/**
 * The ChatMessage record of models/ChatMessage.js: its fields, which of them
 * are required, their defaults, and the one change a stored record ever sees
 * (a reader added to `readBy`).
 */
module Messages {
  import opened Wrappers

  type RoomId = string
  type UserId = string
  type MessageId = nat

  /** The free-form `info` object; `{}` is its default. */
  type Info = map<string, string>

  const EmptyInfo: Info := map[]

  /** The fields handed to `new ChatMessage({...})`; `None` is an undefined field. */
  datatype Draft = Draft(
    roomId: Option<string>,
    sender: Option<UserId>,
    message: Option<string>,
    info: Option<Info>,
    timestamp: Option<int>)

  /** A stored record; `timestamp` is milliseconds since the epoch. */
  datatype ChatMessage = ChatMessage(
    id: MessageId,
    roomId: RoomId,
    sender: UserId,
    message: string,
    timestamp: int,
    readBy: seq<UserId>,
    info: Info)

  /** The required paths of the schema. */
  datatype Field = RoomIdField | SenderField | MessageField

  /** Mongoose's `required` check on a String path: present and not empty. */
  predicate RequiredString(v: Option<string>) {
    v.Some? && v.value != ""
  }

  predicate NoDuplicates(s: seq<UserId>) {
    forall i, j :: 0 <= i < j < |s| ==> s[i] != s[j]
  }

  /** What every stored record satisfies. */
  predicate WellFormed(m: ChatMessage) {
    m.roomId != "" && m.message != "" && NoDuplicates(m.readBy)
  }

  function MissingFields(d: Draft): set<Field> {
    (if RequiredString(d.roomId) then {} else {RoomIdField})
    + (if d.sender.Some? then {} else {SenderField})
    + (if RequiredString(d.message) then {} else {MessageField})
  }

  /**
   * Building and validating a record: the required paths must be filled,
   * `timestamp` defaults to `now`, `readBy` to `[]` and `info` to `{}`.
   */
  function Create(d: Draft, id: MessageId, now: int): (r: Result<ChatMessage, set<Field>>)
    ensures r.Ok? <==> RequiredString(d.roomId) && d.sender.Some? && RequiredString(d.message)
    ensures r.Err? ==>
              && r.error != {}
              && (RoomIdField in r.error <==> !RequiredString(d.roomId))
              && (SenderField in r.error <==> d.sender.None?)
              && (MessageField in r.error <==> !RequiredString(d.message))
    ensures r.Ok? ==>
              && WellFormed(r.value) && r.value.id == id && r.value.readBy == []
              && r.value.roomId == d.roomId.value && r.value.sender == d.sender.value
              && r.value.message == d.message.value
              && r.value.timestamp == (if d.timestamp.Some? then d.timestamp.value else now)
              && r.value.info == (if d.info.Some? then d.info.value else EmptyInfo)
  {
    var missing := MissingFields(d);
    if missing != {} then Err(missing)
    else Ok(ChatMessage(id, d.roomId.value, d.sender.value, d.message.value, d.timestamp.GetOr(now), [],
                        d.info.GetOr(EmptyInfo)))
  }

  /** `if (!msg.readBy.includes(userId)) msg.readBy.push(userId)`: the guarded push. */
  function AddReader(m: ChatMessage, u: UserId): (r: ChatMessage)
    ensures u in r.readBy
    ensures r.(readBy := m.readBy) == m
    ensures m.readBy <= r.readBy && |r.readBy| <= |m.readBy| + 1
    ensures r == m <==> u in m.readBy
    ensures NoDuplicates(m.readBy) ==> NoDuplicates(r.readBy)
  {
    if u in m.readBy then m else m.(readBy := m.readBy + [u])
  }

  /**
   * The read-receipt update of one record for room `roomId` and reader `u`;
   * records whose id is in `skip` are those whose save failed and keep their
   * stored value.
   */
  function MarkOne(m: ChatMessage, roomId: RoomId, u: UserId, skip: set<MessageId>): ChatMessage {
    if m.roomId == roomId && m.id !in skip then AddReader(m, u) else m
  }

  /** The read-receipt update applied to every record of the collection. */
  function MarkRoom(s: seq<ChatMessage>, roomId: RoomId, u: UserId, skip: set<MessageId>): (r: seq<ChatMessage>)
    ensures |r| == |s|
    ensures forall i :: 0 <= i < |s| ==>
      && r[i].(readBy := s[i].readBy) == s[i]
      && s[i].readBy <= r[i].readBy && |r[i].readBy| <= |s[i].readBy| + 1
      && (s[i].roomId == roomId && s[i].id !in skip ==> u in r[i].readBy)
      && (r[i] != s[i] <==> s[i].roomId == roomId && s[i].id !in skip && u !in s[i].readBy)
      && (WellFormed(s[i]) ==> WellFormed(r[i]))
  {
    seq(|s|, i requires 0 <= i < |s| => MarkOne(s[i], roomId, u, skip))
  }

  /**
   * Marking a room read a second time changes nothing, whichever of the
   * second pass's saves fail: every record it would touch already has `u`.
   */
  lemma MarkRoomIdempotent(s: seq<ChatMessage>, roomId: RoomId, u: UserId, skip: set<MessageId>)
    ensures MarkRoom(MarkRoom(s, roomId, u, {}), roomId, u, skip) == MarkRoom(s, roomId, u, {})
  {
  }

  /**
   * Two read updates of the same room for readers `u` and `v`, one after the
   * other: each record of the room ends with both readers, and neither
   * update undoes the other.
   */
  lemma MarkRoomKeepsBothReaders(s: seq<ChatMessage>, roomId: RoomId, u: UserId, v: UserId)
    ensures var r := MarkRoom(MarkRoom(s, roomId, u, {}), roomId, v, {});
            forall i :: 0 <= i < |s| && s[i].roomId == roomId ==> u in r[i].readBy && v in r[i].readBy
  {
  }
}
