/**
 * The HTTP query layer of routes/chatRoutes.js over the ChatMessage
 * collection: room history, the all-rooms summary pipeline, the unread-count
 * grouping and the mark-as-read bulk update.
 */
module ChatRoutes {
  import opened Wrappers
  import opened Messages
  import opened Query
  import opened Store

  function Timestamp(m: ChatMessage): int {
    m.timestamp
  }

  function RoomOf(m: ChatMessage): RoomId {
    m.roomId
  }

  // ----------------------------------------------------------------- history

  /** `GET /:roomId`: `find({roomId}).sort({timestamp: -1})`. */
  function History(records: seq<ChatMessage>, roomId: RoomId): (r: seq<ChatMessage>)
    ensures NonIncreasing(r, Timestamp)
    ensures forall m :: multiset(r)[m] == if m.roomId == roomId then multiset(records)[m] else 0
  {
    SortDesc(Select(records, (m: ChatMessage) => m.roomId == roomId), Timestamp)
  }

  // ------------------------------------------------ participation convention

  function LowerAscii(c: char): char {
    if 'A' <= c <= 'Z' then (c as int + 32) as char else c
  }

  function Lower(s: string): string {
    seq(|s|, i requires 0 <= i < |s| => LowerAscii(s[i]))
  }

  /** `needle` occurs in `hay` starting at position `i`. */
  predicate OccursAt(hay: string, needle: string, i: int) {
    0 <= i && i + |needle| <= |hay| && hay[i..i + |needle|] == needle
  }

  lemma OccursAtShift(hay: string, needle: string, i: int)
    requires 1 <= i && hay != []
    ensures OccursAt(hay, needle, i) <==> OccursAt(hay[1..], needle, i - 1)
  {
    if i + |needle| <= |hay| {
      var a, b := hay[i..i + |needle|], hay[1..][i - 1..i - 1 + |needle|];
      forall k | 0 <= k < |a| ensures a[k] == b[k] {}
      assert a == b;
    }
  }

  /** Whether `needle` occurs in `hay` as a contiguous substring. */
  function Contains(hay: string, needle: string): (b: bool)
    ensures b <==> exists i :: OccursAt(hay, needle, i)
    decreases |hay|
  {
    if |hay| < |needle| then false
    else if hay[..|needle|] == needle then
      assert OccursAt(hay, needle, 0);
      true
    else
      var b := Contains(hay[1..], needle);
      assert b <==> exists i :: OccursAt(hay, needle, i) by {
        forall i | OccursAt(hay[1..], needle, i) ensures OccursAt(hay, needle, i + 1) {
          OccursAtShift(hay, needle, i + 1);
        }
        forall i | OccursAt(hay, needle, i) ensures OccursAt(hay[1..], needle, i - 1) {
          assert i != 0;
          OccursAtShift(hay, needle, i);
        }
      }
      b
  }

  /**
   * `roomId` matches `{$regex: ".*" + userId + ".*", $options: "i"}`, for a
   * `userId` free of regular-expression metacharacters.
   */
  predicate Participates(roomId: RoomId, userId: UserId)
    ensures Participates(roomId, userId) <==> exists i :: OccursAt(Lower(roomId), Lower(userId), i)
  {
    Contains(Lower(roomId), Lower(userId))
  }

  // --------------------------------------------------------------- all rooms

  datatype RoomSummary<P> = RoomSummary(roomId: RoomId, latestMessage: ChatMessage, senderDetails: Option<P>)

  /** The `$match` of step 2. */
  function ForUser(userId: UserId): ChatMessage -> bool {
    (m: ChatMessage) => Participates(m.roomId, userId)
  }

  /** Steps 1-2 of the pipeline: sorted newest first, only the user's rooms. */
  function UserMessages(records: seq<ChatMessage>, userId: UserId): seq<ChatMessage> {
    Select(SortDesc(records, Timestamp), ForUser(userId))
  }

  /** Step 3: the first message of each room. */
  function LatestPerRoom(records: seq<ChatMessage>, userId: UserId): seq<ChatMessage> {
    FirstPerGroup(UserMessages(records, userId), RoomOf, {})
  }

  /**
   * The whole pipeline; steps 4-5 attach what `lookup` finds for the latest
   * message's `info`, and keep the room when it finds nothing.
   */
  function RoomSummaries<P>(records: seq<ChatMessage>, userId: UserId, lookup: Info -> Option<P>): seq<RoomSummary<P>> {
    var latest := LatestPerRoom(records, userId);
    seq(|latest|, k requires 0 <= k < |latest| => RoomSummary(latest[k].roomId, latest[k], lookup(latest[k].info)))
  }

  lemma InUserMessages(records: seq<ChatMessage>, userId: UserId, x: ChatMessage)
    ensures x in UserMessages(records, userId) <==> x in records && Participates(x.roomId, userId)
  {
    var sorted := SortDesc(records, Timestamp);
    assert x in sorted <==> x in multiset(sorted);
    assert x in records <==> x in multiset(records);
  }

  /** No room is listed twice. */
  lemma SummaryRoomsDistinct<P>(records: seq<ChatMessage>, userId: UserId, lookup: Info -> Option<P>)
    ensures var r := RoomSummaries(records, userId, lookup);
            forall k, l :: 0 <= k < l < |r| ==> r[k].roomId != r[l].roomId
  {
    var latest := LatestPerRoom(records, userId);
    assert forall k, l :: 0 <= k < l < |latest| ==> RoomOf(latest[k]) != RoomOf(latest[l]);
  }

  /** Every listed room is the user's, with one of its stored messages and that message's lookup. */
  lemma SummaryEntriesBelongToUser<P>(records: seq<ChatMessage>, userId: UserId, lookup: Info -> Option<P>)
    ensures var r := RoomSummaries(records, userId, lookup);
            forall k :: 0 <= k < |r| ==>
              && r[k].latestMessage in records
              && r[k].latestMessage.roomId == r[k].roomId
              && Participates(r[k].roomId, userId)
              && r[k].senderDetails == lookup(r[k].latestMessage.info)
  {
    var latest := LatestPerRoom(records, userId);
    forall k | 0 <= k < |latest| ensures latest[k] in records && Participates(latest[k].roomId, userId) {
      InUserMessages(records, userId, latest[k]);
    }
  }

  /** In the user's sorted messages, the first of a room is the newest of that room. */
  lemma LatestIsNewest(records: seq<ChatMessage>, userId: UserId, k: nat, i: nat)
    requires k < |LatestPerRoom(records, userId)| && i < |records|
    requires records[i].roomId == LatestPerRoom(records, userId)[k].roomId
    ensures records[i].timestamp <= LatestPerRoom(records, userId)[k].timestamp
  {
    var selected := UserMessages(records, userId);
    var latest := LatestPerRoom(records, userId);
    SelectKeepsOrder(SortDesc(records, Timestamp), ForUser(userId), Timestamp);
    FirstPerGroupIsLargest(selected, RoomOf, {}, Timestamp);
    assert GroupAtMost(selected, RoomOf, RoomOf(latest[k]), Timestamp, Timestamp(latest[k]));
    InUserMessages(records, userId, latest[k]);
    InUserMessages(records, userId, records[i]);
    var j :| 0 <= j < |selected| && selected[j] == records[i];
    assert RoomOf(selected[j]) == RoomOf(latest[k]);
  }

  /** The listed message is the newest of its room; among equal timestamps any may be listed. */
  lemma SummaryHasNewestMessage<P>(records: seq<ChatMessage>, userId: UserId, lookup: Info -> Option<P>)
    ensures var r := RoomSummaries(records, userId, lookup);
            forall k, i :: 0 <= k < |r| && 0 <= i < |records| && records[i].roomId == r[k].roomId ==>
              records[i].timestamp <= r[k].latestMessage.timestamp
  {
    var r := RoomSummaries(records, userId, lookup);
    forall k, i | 0 <= k < |r| && 0 <= i < |records| && records[i].roomId == r[k].roomId
      ensures records[i].timestamp <= r[k].latestMessage.timestamp
    {
      LatestIsNewest(records, userId, k, i);
    }
  }

  /** Some first-of-room message exists for every room of the user's messages. */
  lemma RoomHasLatest(records: seq<ChatMessage>, userId: UserId, i: nat) returns (k: nat)
    requires i < |records| && Participates(records[i].roomId, userId)
    ensures k < |LatestPerRoom(records, userId)| && LatestPerRoom(records, userId)[k].roomId == records[i].roomId
  {
    var selected := UserMessages(records, userId);
    var latest := LatestPerRoom(records, userId);
    InUserMessages(records, userId, records[i]);
    var j :| 0 <= j < |selected| && selected[j] == records[i];
    k := GroupHasFirst(selected, RoomOf, {}, j);
  }

  /** Every room of the user that holds a message is listed. */
  lemma SummaryListsEveryRoom<P>(records: seq<ChatMessage>, userId: UserId, lookup: Info -> Option<P>)
    ensures var r := RoomSummaries(records, userId, lookup);
            forall i :: 0 <= i < |records| && Participates(records[i].roomId, userId) ==>
              exists k :: 0 <= k < |r| && r[k].roomId == records[i].roomId
  {
    var r := RoomSummaries(records, userId, lookup);
    forall i | 0 <= i < |records| && Participates(records[i].roomId, userId)
      ensures exists k :: 0 <= k < |r| && r[k].roomId == records[i].roomId
    {
      var k := RoomHasLatest(records, userId, i);
      assert r[k].roomId == records[i].roomId;
    }
  }

  datatype AllRoomsReply<P> = Rooms(rooms: seq<RoomSummary<P>>) | NoRoomsFound

  /** `GET /all-rooms/:userId`: the summary, or "No rooms found" when it is empty. */
  function AllRooms<P>(records: seq<ChatMessage>, userId: UserId, lookup: Info -> Option<P>): (r: AllRoomsReply<P>)
    ensures r.NoRoomsFound? <==> forall i :: 0 <= i < |records| ==> !Participates(records[i].roomId, userId)
    ensures r.Rooms? ==> r.rooms == RoomSummaries(records, userId, lookup) && r.rooms != []
  {
    var rooms := RoomSummaries(records, userId, lookup);
    SummaryEntriesBelongToUser(records, userId, lookup);
    SummaryListsEveryRoom(records, userId, lookup);
    if rooms == [] then NoRoomsFound else Rooms(rooms)
  }

  // ------------------------------------------------------------------ unread

  /**
   * The unread rule the route aims at: a message sent to the user, that is
   * one of someone else's messages in one of the user's rooms (the same
   * `roomId` convention as the summary), that the user has not read.
   */
  function UnreadFor(u: UserId): ChatMessage -> bool {
    (m: ChatMessage) => Participates(m.roomId, u) && m.sender != u && u !in m.readBy
  }

  /** Unread messages per room for `u`: one entry per room that has any. */
  function UnreadCounts(records: seq<ChatMessage>, u: UserId): (r: map<RoomId, nat>)
    ensures forall room :: room in r <==>
              exists i :: 0 <= i < |records| && records[i].roomId == room
                          && Participates(room, u) && records[i].sender != u && u !in records[i].readBy
    ensures forall room :: room in r ==> r[room] >= 1 && r[room] == CountIn(records, UnreadFor(u), RoomOf, room)
  {
    GroupCounts(records, UnreadFor(u), RoomOf)
  }

  lemma {:induction false} CountAfterMarkRoom(s: seq<ChatMessage>, room: RoomId, u: UserId, g: RoomId)
    ensures CountIn(MarkRoom(s, room, u, {}), UnreadFor(u), RoomOf, g)
            == if g == room then 0 else CountIn(s, UnreadFor(u), RoomOf, g)
    decreases |s|
  {
    if s != [] {
      assert MarkRoom(s, room, u, {})[1..] == MarkRoom(s[1..], room, u, {});
      CountAfterMarkRoom(s[1..], room, u, g);
    }
  }

  /** After the room is marked read for `u`, it has no unread entry; other rooms keep theirs. */
  lemma MarkReadClearsUnread(s: seq<ChatMessage>, room: RoomId, u: UserId)
    ensures UnreadCounts(MarkRoom(s, room, u, {}), u) == UnreadCounts(s, u) - {room}
  {
    forall g ensures CountIn(MarkRoom(s, room, u, {}), UnreadFor(u), RoomOf, g)
                     == if g == room then 0 else CountIn(s, UnreadFor(u), RoomOf, g) {
      CountAfterMarkRoom(s, room, u, g);
    }
    GroupCountsWithout(s, MarkRoom(s, room, u, {}), UnreadFor(u), RoomOf, room);
  }

  /** A new message counts once, in its own room, if it is unread for `u`. */
  lemma UnreadAfterNewMessage(s: seq<ChatMessage>, m: ChatMessage, u: UserId)
    ensures var before := UnreadCounts(s, u);
            UnreadCounts(s + [m], u)
            == if UnreadFor(u)(m) then before[RoomOf(m) := (if RoomOf(m) in before then before[RoomOf(m)] else 0) + 1]
               else before
  {
    GroupCountsAppend(s, m, UnreadFor(u), RoomOf);
  }

  datatype UnreadReply = UnreadOk(counts: map<RoomId, nat>) | UnreadFailed

  /** `sendTo` is not a path of the schema, so no stored record has one. */
  function SendTo(m: ChatMessage): Option<UserId> {
    None
  }

  /** The `$match` of `GET /unread/:userId` as written. */
  function AsWrittenUnreadMatch(u: UserId): ChatMessage -> bool {
    (m: ChatMessage) => SendTo(m) == Some(u) && u !in m.readBy
  }

  /**
   * `GET /unread/:userId` as written: building the `$match` calls
   * `mongoose.Types.ObjectId`, but `mongoose` is not imported, so the
   * handler throws and answers 500.
   */
  function UnreadRouteAsWritten(records: seq<ChatMessage>, u: UserId): UnreadReply {
    UnreadFailed
  }

  /**
   * `GET /unread/:userId` with `mongoose` in scope and the `readBy` rule:
   * the counts when the aggregation succeeds (`queryOk`), a 500 otherwise.
   */
  function UnreadRoute(records: seq<ChatMessage>, u: UserId, queryOk: bool): (r: UnreadReply)
    ensures r.UnreadOk? <==> queryOk
    ensures queryOk ==> r == UnreadOk(UnreadCounts(records, u))
    ensures r.UnreadOk? ==> forall room :: room in r.counts ==> r.counts[room] >= 1
  {
    if queryOk then UnreadOk(UnreadCounts(records, u)) else UnreadFailed
  }

  /**
   * A message unread by `u` in one of `u`'s rooms: the route as written
   * fails, its `sendTo` match would find nothing even with `mongoose` in
   * scope, and the intended counts list the room.
   */
  lemma UnreadAsWrittenDiscrepancy(records: seq<ChatMessage>, u: UserId, i: nat)
    requires i < |records| && Participates(records[i].roomId, u) && records[i].sender != u && u !in records[i].readBy
    ensures UnreadRouteAsWritten(records, u) == UnreadFailed
    ensures GroupCounts(records, AsWrittenUnreadMatch(u), RoomOf) == map[]
    ensures records[i].roomId in UnreadRoute(records, u, true).counts
  {
    var asWritten := GroupCounts(records, AsWrittenUnreadMatch(u), RoomOf);
    forall g ensures g !in asWritten {
      assert CountIn(records, AsWrittenUnreadMatch(u), RoomOf, g) == 0;
    }
    assert asWritten == map[];
  }

  // ------------------------------------------------------------ mark as read

  datatype MarkReply = MarkedAsRead | MarkFailed

  /**
   * `POST /markAsRead` as written: the `$ne` filter calls the unimported
   * `mongoose`, which throws before `updateMany` runs: a 500 answer and an
   * unchanged collection.
   */
  function MarkAsReadAsWritten(records: seq<ChatMessage>, roomId: RoomId, u: UserId): (seq<ChatMessage>, MarkReply) {
    (records, MarkFailed)
  }

  /** When some message of the room lacks `u`, the route as written loses the update the intended one makes. */
  lemma MarkAsReadDiscrepancy(records: seq<ChatMessage>, roomId: RoomId, u: UserId, i: nat)
    requires i < |records| && records[i].roomId == roomId && u !in records[i].readBy
    ensures MarkAsReadAsWritten(records, roomId, u) == (records, MarkFailed)
    ensures u in MarkRoom(records, roomId, u, {})[i].readBy && MarkRoom(records, roomId, u, {}) != records
  {
  }

  /**
   * `POST /markAsRead` with `mongoose` in scope: the bulk `$push`, then 200;
   * when `updateMany` rejects (`writeOk` false), a 500 and no change.
   */
  method MarkAsRead(store: MessageStore, roomId: RoomId, u: UserId, writeOk: bool) returns (reply: MarkReply)
    requires store.Valid()
    modifies store
    ensures store.Valid() && store.nextId == old(store.nextId)
    ensures writeOk ==> store.records == MarkRoom(old(store.records), roomId, u, {}) && reply == MarkedAsRead
    ensures !writeOk ==> store.records == old(store.records) && reply == MarkFailed
  {
    if !writeOk {
      return MarkFailed;
    }
    store.AddReaderInRoom(roomId, u);
    reply := MarkedAsRead;
  }

  // --------------------------------------------------------------- scenario

  /*
   * Room "r-alice-bob": Alice sends "hi" at time 1, then Bob sends "hello"
   * at time 2.
   */
  const ScenarioRoom: RoomId := "r-alice-bob"

  function AliceHi(): ChatMessage {
    ChatMessage(0, ScenarioRoom, "alice", "hi", 1, [], EmptyInfo)
  }

  function BobHello(): ChatMessage {
    ChatMessage(1, ScenarioRoom, "bob", "hello", 2, [], EmptyInfo)
  }

  /** The two sends store exactly these records, in this order. */
  lemma ScenarioRecords()
    ensures Create(Draft(Some(ScenarioRoom), Some("alice"), Some("hi"), None, None), 0, 1) == Ok(AliceHi())
    ensures Create(Draft(Some(ScenarioRoom), Some("bob"), Some("hello"), None, None), 1, 2) == Ok(BobHello())
  {
  }

  /** The room's history lists the newer "hello" before "hi". */
  lemma ScenarioHistory()
    ensures History([AliceHi(), BobHello()], ScenarioRoom) == [BobHello(), AliceHi()]
  {
    var h := History([AliceHi(), BobHello()], ScenarioRoom);
    assert multiset(h) == multiset{AliceHi(), BobHello()};
    assert |h| == 2;
    assert AliceHi() in multiset(h) && BobHello() in multiset(h);
  }

  /** Bob has one unread message in the room: Alice's; his own does not count. */
  lemma ScenarioUnread()
    ensures UnreadCounts([AliceHi(), BobHello()], "bob") == map[ScenarioRoom := 1]
  {
    var records := [AliceHi(), BobHello()];
    assert Lower(ScenarioRoom) == ScenarioRoom;
    assert Lower("bob") == "bob";
    assert OccursAt(ScenarioRoom, "bob", 8);
    var counts := UnreadCounts(records, "bob");
    assert CountIn(records, UnreadFor("bob"), RoomOf, ScenarioRoom) == 1;
    forall g | g in counts ensures g == ScenarioRoom {
      var i :| 0 <= i < |records| && records[i].roomId == g;
    }
  }

  /** Once Bob marks the room read he has no unread messages at all. */
  lemma ScenarioMarkRead()
    ensures UnreadCounts(MarkRoom([AliceHi(), BobHello()], ScenarioRoom, "bob", {}), "bob") == map[]
  {
    ScenarioUnread();
    MarkReadClearsUnread([AliceHi(), BobHello()], ScenarioRoom, "bob");
    assert map[ScenarioRoom := 1] - {ScenarioRoom} == map[];
  }
}
