/**
 * Room membership as the socket.io adapter keeps it: a map from room name to
 * the non-empty set of session ids in it (an emptied room is deleted).
 * `socket.join` inserts into the set, `socket.leave` removes from it.
 */
module Membership {
  import opened Messages

  type SessionId = string
  type RoomMap = map<RoomId, set<SessionId>>

  /** The room every connection joins. */
  const GlobalRoom: RoomId := "globalRoom"

  /** The adapter never keeps an empty room. */
  predicate NoEmptyRooms(m: RoomMap) {
    forall room :: room in m ==> m[room] != {}
  }

  /** `io.sockets.adapter.rooms.get(room)`, with a missing room read as empty. */
  function MembersOf(m: RoomMap, room: RoomId): set<SessionId> {
    if room in m then m[room] else {}
  }

  /** `socket.join(room)` */
  function WithMember(m: RoomMap, room: RoomId, sid: SessionId): (r: RoomMap)
    ensures MembersOf(r, room) == MembersOf(m, room) + {sid}
    ensures forall other :: other != room ==> MembersOf(r, other) == MembersOf(m, other)
    ensures NoEmptyRooms(m) ==> NoEmptyRooms(r)
  {
    m[room := MembersOf(m, room) + {sid}]
  }

  /** `socket.leave(room)`: the room is deleted once its last session leaves. */
  function WithoutMember(m: RoomMap, room: RoomId, sid: SessionId): (r: RoomMap)
    ensures MembersOf(r, room) == MembersOf(m, room) - {sid}
    ensures forall other :: other != room ==> MembersOf(r, other) == MembersOf(m, other)
    ensures NoEmptyRooms(m) ==> NoEmptyRooms(r)
  {
    var rest := MembersOf(m, room) - {sid};
    if rest == {} then m - {room} else m[room := rest]
  }

  /** The adapter's cleanup at disconnect: the session leaves every room. */
  function WithoutSession(m: RoomMap, sid: SessionId): (r: RoomMap)
    ensures forall room :: MembersOf(r, room) == MembersOf(m, room) - {sid}
    ensures NoEmptyRooms(r)
  {
    map room | room in m && m[room] - {sid} != {} :: m[room] - {sid}
  }

  /** Joining a room twice leaves the registry as joining it once. */
  lemma JoinIdempotent(m: RoomMap, room: RoomId, sid: SessionId)
    ensures WithMember(WithMember(m, room, sid), room, sid) == WithMember(m, room, sid)
  {
  }

  /** Leaving a room one is not in changes nothing. */
  lemma LeaveWhenAbsentIsNoOp(m: RoomMap, room: RoomId, sid: SessionId)
    requires NoEmptyRooms(m) && sid !in MembersOf(m, room)
    ensures WithoutMember(m, room, sid) == m
  {
    if room in m {
      assert m[room] - {sid} == m[room];
      assert m[room := m[room]] == m;
    } else {
      assert m - {room} == m;
    }
  }

  datatype MembershipOp = Join(sid: SessionId, room: RoomId) | Leave(sid: SessionId, room: RoomId)

  function Apply(m: RoomMap, op: MembershipOp): RoomMap {
    match op
    case Join(sid, room) => WithMember(m, room, sid)
    case Leave(sid, room) => WithoutMember(m, room, sid)
  }

  function Replay(m: RoomMap, ops: seq<MembershipOp>): RoomMap
    decreases |ops|
  {
    if ops == [] then m else Replay(Apply(m, ops[0]), ops[1..])
  }

  /** The member set of `room` predicted by reading joins and leaves as set insert and remove. */
  function Predicted(members: set<SessionId>, ops: seq<MembershipOp>, room: RoomId): set<SessionId>
    decreases |ops|
  {
    if ops == [] then members
    else
      var next := if ops[0].room != room then members
                  else if ops[0].Join? then members + {ops[0].sid}
                  else members - {ops[0].sid};
      Predicted(next, ops[1..], room)
  }

  /** Any sequence of joins and leaves leaves each room with the predicted members. */
  lemma {:induction false} ReplayMatchesSetModel(m: RoomMap, ops: seq<MembershipOp>, room: RoomId)
    ensures MembersOf(Replay(m, ops), room) == Predicted(MembersOf(m, room), ops, room)
    decreases |ops|
  {
    if ops != [] {
      ReplayMatchesSetModel(Apply(m, ops[0]), ops[1..], room);
    }
  }

  class Registry {
    var rooms: RoomMap

    ghost predicate Valid()
      reads this
    {
      NoEmptyRooms(rooms)
    }

    function Members(room: RoomId): set<SessionId>
      reads this
    {
      MembersOf(rooms, room)
    }

    constructor ()
      ensures Valid() && rooms == map[]
    {
      rooms := map[];
    }

    method Join(sid: SessionId, room: RoomId)
      requires Valid()
      modifies this
      ensures Valid() && rooms == WithMember(old(rooms), room, sid)
    {
      rooms := WithMember(rooms, room, sid);
    }

    method Leave(sid: SessionId, room: RoomId)
      requires Valid()
      modifies this
      ensures Valid() && rooms == WithoutMember(old(rooms), room, sid)
    {
      rooms := WithoutMember(rooms, room, sid);
    }

    method DropSession(sid: SessionId)
      requires Valid()
      modifies this
      ensures Valid() && rooms == WithoutSession(old(rooms), sid)
    {
      rooms := WithoutSession(rooms, sid);
    }
  }
}
