# Messaging engine of the chat server, in Dafny

This project models the messaging engine of a small chat server: a Node.js
application built on socket.io and MongoDB (through mongoose).

- **Records.** The chat-message record is the mongoose schema in
  `models/ChatMessage.js`. It has required `roomId`, `sender` and `message`
  fields. `timestamp` defaults to the creation time, `readBy` starts empty and
  `info` defaults to an empty object. `Messages.Create` turns a draft into a
  record or names the missing fields. A required string is also missing when
  it is empty, as mongoose's `required` check treats it.
- **Collection.** `Store.MessageStore` is a class holding the records in
  insertion order. Its methods are the writes the engine performs:
  - a save that validates first and whose write may fail;
  - pushing one reader into one fetched record;
  - the bulk `$push` of `updateMany`.
- **Rooms.** `Membership` is the socket.io room registry: a map from room
  name to the set of session ids in it. It follows the library's semantics:
  joining twice is harmless, leaving a room one is not in changes nothing, a
  room disappears when its last member leaves, and a disconnect removes the
  session from every room.
- **Socket handlers.** `Server.ChatServer` holds the handlers of `server.js`,
  acting on the store, the registry and an append-only outbox of deliveries.
  Each delivery is one emit, with the sessions it reaches. The outcomes of
  awaited database calls are inputs of the handler: whether a fetch or a
  write succeeded, and which per-record saves failed.
- **HTTP routes.** `ChatRoutes` holds the aggregation pipelines and queries
  of `routes/chatRoutes.js` as functions of the records: room history, the
  all-rooms summary, unread counts per room and mark-as-read. The generic
  pipeline stages (`$match`, `$sort`, `$group` with `$first` or `$sum`) live
  in `Query`, proved once for any element type.

The model keeps three defects of the code as written:

- **`sendMessage` read-receipt block.** The block between the save and the
  broadcasts (`server.js:92-133`) runs its inner part only when the room
  has members and the sending socket is one of them (`server.js:94`,
  `server.js:97`, `server.js:102`). Otherwise it is skipped or only logs
  (`server.js:129`). Its inner part reads a `userId` that the handler never
  binds (`server.js:110`, `server.js:122`). It therefore throws into the
  block's own catch (`server.js:125`) before writing or emitting anything.
  In every case the block has no effect, so `Server.ChatServer.SendMessage`
  changes no record besides the one it inserts. The announcement carries
  the new record's empty `readBy`.
- **`mongoose` not imported.** `routes/chatRoutes.js` never imports
  `mongoose`, so `/unread` and `/markAsRead` always answer 500 without
  touching the data. Both routes are modelled twice: as written, and as
  intended (see "## Findings").
- **`sendTo` filter.** The unread route also filters on `sendTo`, which is
  not a schema path, so no record could ever match. The intended unread rule
  counts the messages "sent to the user", as the source comment on that
  filter puts it. That is someone else's message, in one of the user's rooms
  by the same `roomId` naming convention as the summary, whose `readBy`
  lacks the user.

## Model

| member | source | states |
|---|---|---|
| Messages.Create | models/ChatMessage.js:3-30 | A draft becomes a record exactly when `roomId` and `message` are non-empty strings and `sender` is present; otherwise the error names exactly the missing fields. A created record is well formed and has `readBy` empty, `timestamp` the creation time unless supplied, `info` empty unless supplied, and the draft's other field values. |
| Messages.AddReader | server.js:57-59 | After the update the user is a reader. Only `readBy` changes, and it grows by at most that one user at its end. The record is unchanged exactly when the user was already a reader. No duplicate readers appear. |
| Messages.MarkRoom | server.js:52-63 | The read update of the whole collection keeps its length. Only `readBy` changes; it only grows, by at most one reader. Every record of the room whose save did not fail gains the user, so that user is the only reader added. A record changes exactly when it belongs to the room, its save did not fail and it lacked the user. Well-formedness is preserved. |
| Messages.MarkRoomIdempotent | server.js:57-59 | Repeating the read update right after a successful one changes nothing, whichever saves of the second pass fail. |
| Messages.MarkRoomKeepsBothReaders | server.js:52-63 | Two read updates of one room for two users, one after the other: every record of the room ends with both readers. |
| Store.MessageStore.constructor | models/ChatMessage.js:32 | The collection is the persisted one: any records that passed validation, with distinct ids, and a source of fresh ids above them. |
| Store.MessageStore.Save | server.js:88-89 | Validation runs before the write. A draft with missing fields is rejected with those fields. A failed write is reported. In both failure cases the collection is unchanged. A successful save appends exactly the created record under a fresh id. |
| Store.MessageStore.PushReader | server.js:57-59 | Pushing an absent reader into one record and saving it replaces that record by its read-updated form and nothing else. |
| Store.MessageStore.AddReaderInRoom | routes/chatRoutes.js:92-95 | The bulk `$push` over records of the room lacking the user leaves exactly the read-updated collection, with no failed saves. |
| Membership.WithMember | server.js:42 | Joining adds the session to the room's members and leaves every other room and the no-empty-room invariant intact. |
| Membership.WithoutMember | server.js:80 | Leaving removes the session from the room's members. Every other room is unchanged. A room left empty disappears. |
| Membership.WithoutSession | server.js:154-156 | Dropping a session removes it from every room's members and keeps no empty room. |
| Membership.MembersOf | server.js:92 | Defines `rooms.get(roomId)`: the room's member set, empty when the room does not exist. The properties are stated about it by the rows above. |
| Membership.JoinIdempotent | server.js:41-45 | Joining a room twice is the same as joining it once. |
| Membership.LeaveWhenAbsentIsNoOp | server.js:79-83 | Leaving a room the session is not in changes nothing. |
| Membership.ReplayMatchesSetModel | server.js:41-83 | After any sequence of joins and leaves, a room's members equal the set obtained by treating each join as set insertion and each leave as set removal. |
| Membership.Registry.constructor | server.js:15-19 | A new server has no rooms. |
| Membership.Registry.Join | server.js:42 | `socket.join` updates the registry to its `WithMember` form. |
| Membership.Registry.Leave | server.js:80 | `socket.leave` updates the registry to its `WithoutMember` form. |
| Membership.Registry.DropSession | server.js:154-156 | A disconnect updates the registry to its `WithoutSession` form. |
| Query.Select | routes/chatRoutes.js:17-21 | `$match` keeps each matching element as often as it occurs and drops every other element. |
| Query.SelectKeepsOrder | routes/chatRoutes.js:14-21 | `$match` after `$sort` keeps newest-first order. |
| Query.SortDesc | routes/chatRoutes.js:14 | `$sort` by a descending key yields a non-increasing sequence that is a permutation of its input. |
| Query.FirstPerGroup | routes/chatRoutes.js:24-29 | `$group` with `$first` yields elements of the input, at most one per group and exactly one for each group present. |
| Query.FirstPerGroupIsFirst | routes/chatRoutes.js:24-29 | Each `$first` entry is the first document of its group in the input: no earlier document shares its group. |
| Query.GroupHasFirst | routes/chatRoutes.js:24-29 | Every group present in the input has its entry in the `$first` result. |
| Query.FirstPerGroupIsLargest | routes/chatRoutes.js:14-29 | On input sorted newest first, each `$first` element has the largest key of its group. |
| Query.CountIn | routes/chatRoutes.js:72-77 | A group's count is at most the input length, and it is positive exactly when some element of the group matches. |
| Query.CountInAppend | routes/chatRoutes.js:72-77 | Appending an element changes only its own group's count, by one if it matches. |
| Query.GroupCounts | routes/chatRoutes.js:72-77 | `$group` with `$sum: 1` has an entry exactly for the groups with a matching element, each equal to that group's count. |
| Query.GroupCountsAppend | routes/chatRoutes.js:65-78 | Appending a matching element adds one to its group's entry (creating it at 1); a non-matching one changes nothing. |
| Query.GroupCountsWithout | routes/chatRoutes.js:65-78 | When one group's count drops to zero and no other count changes, the counts lose exactly that group's entry. |
| ChatRoutes.History | routes/chatRoutes.js:109 | The history of a room holds exactly the room's records, with multiplicity, ordered by non-increasing timestamp. |
| ChatRoutes.Contains | routes/chatRoutes.js:19 | The substring test holds exactly when the needle occurs at some position of the haystack. |
| ChatRoutes.Participates | routes/chatRoutes.js:19 | A room is the user's exactly when the lower-cased user id occurs somewhere in the lower-cased room id. |
| ChatRoutes.RoomSummaries | routes/chatRoutes.js:12-43 | Defines the whole all-rooms pipeline: sort newest first, keep the user's rooms, take the first record per room, attach the lookup of its `info`. The properties are stated about it by the Summary lemmas below. |
| ChatRoutes.InUserMessages | routes/chatRoutes.js:12-21 | The first two pipeline stages keep exactly the stored records of rooms whose id contains the user id, ignoring case. |
| ChatRoutes.SummaryRoomsDistinct | routes/chatRoutes.js:24-29 | No room appears twice in the summary. |
| ChatRoutes.SummaryEntriesBelongToUser | routes/chatRoutes.js:17-42 | Each summary entry is a room of the user, and its latest message is a stored record of that room. Its sender details are exactly what the lookup finds for that message's `info`; a lookup that finds nothing still keeps the room. |
| ChatRoutes.LatestIsNewest | routes/chatRoutes.js:14-27 | Each room's first-of-room message is at least as new as every record of that room. |
| ChatRoutes.SummaryHasNewestMessage | routes/chatRoutes.js:14-27 | Each listed latest message has the largest timestamp of its room; among equal timestamps any may be listed. |
| ChatRoutes.RoomHasLatest | routes/chatRoutes.js:24-29 | Every room of the user holding a record has an entry in the first-of-room list. |
| ChatRoutes.SummaryListsEveryRoom | routes/chatRoutes.js:12-43 | Every room of the user holding a record is listed; rooms with no records cannot be. |
| ChatRoutes.AllRooms | routes/chatRoutes.js:45-51 | The answer is "No rooms found" exactly when no stored record is in a room of the user; otherwise it is the non-empty summary. |
| ChatRoutes.UnreadFor | routes/chatRoutes.js:66-71 | Defines the intended `$match` of the unread route: someone else's message, in a room of the user, whose `readBy` lacks the user. The properties are stated about it by `UnreadCounts`. |
| ChatRoutes.UnreadCounts | routes/chatRoutes.js:65-78 | The intended counts have an entry for a room exactly when some record of the user's room, sent by someone else, lacks the user as reader. Each entry is at least 1 and equals the number of such records. |
| ChatRoutes.CountAfterMarkRoom | routes/chatRoutes.js:92-95 | After the user marks a room read, that room's unread count is zero and every other room's is unchanged. |
| ChatRoutes.MarkReadClearsUnread | routes/chatRoutes.js:65-95 | Marking a room read removes exactly that room's entry from the user's unread counts. |
| ChatRoutes.UnreadAfterNewMessage | routes/chatRoutes.js:65-78 | A new record unread by the user adds one to its room's count (creating the entry at 1); any other new record leaves the counts unchanged. |
| ChatRoutes.UnreadRoute | routes/chatRoutes.js:60-85 | The intended route answers with exactly the per-room unread counts, every entry at least 1, when the aggregation succeeds; it answers the failure exactly when the aggregation fails. |
| ChatRoutes.AsWrittenUnreadMatch | routes/chatRoutes.js:66-71 | Defines the `$match` as written, on a `sendTo` path that no stored record has. The properties are stated about it by `UnreadAsWrittenDiscrepancy`. |
| ChatRoutes.UnreadRouteAsWritten | routes/chatRoutes.js:60-85 | Defines the route as written: building the filter throws, so it always answers 500. The properties are stated about it by `UnreadAsWrittenDiscrepancy`. |
| ChatRoutes.UnreadAsWrittenDiscrepancy | routes/chatRoutes.js:65-83 | For an unread message of the user's room, the route as written fails, and even its `sendTo` match would find nothing; the intended counts list the room. |
| ChatRoutes.MarkAsReadAsWritten | routes/chatRoutes.js:88-102 | Defines the route as written: building the filter throws, so it answers 500 and the collection is unchanged. The properties are stated about it by `MarkAsReadDiscrepancy`. |
| ChatRoutes.MarkAsReadDiscrepancy | routes/chatRoutes.js:92-100 | When a record of the room lacks the user, the route as written fails and leaves the collection unchanged, while the intended update adds the user to that record. |
| ChatRoutes.MarkAsRead | routes/chatRoutes.js:88-102 | When `updateMany` succeeds, the intended route leaves exactly the read-updated collection and answers success. When it fails, the collection is unchanged and the answer is the failure. |
| ChatRoutes.ScenarioRecords | server.js:88-89 | Alice's "hi" and Bob's "hello" in room "r-alice-bob" are stored as these two records. |
| ChatRoutes.ScenarioHistory | routes/chatRoutes.js:109 | The room's history lists "hello" before "hi". |
| ChatRoutes.ScenarioUnread | routes/chatRoutes.js:65-78 | Bob has one unread message in the room, Alice's. |
| ChatRoutes.ScenarioMarkRead | routes/chatRoutes.js:88-102 | After Bob marks the room read he has no unread counts. |
| Server.ReadStatusNotice | server.js:55-74 | The read-status notice is sent to the requesting session alone. It is sent exactly when the fetch succeeded and no needed save failed, including when nothing needed saving. |
| Server.ReadStatusAgreesWithMarkAsRead | server.js:52-63 | When no needed save fails, the socket read update leaves the same records as the bulk mark-as-read. |
| Server.Announcement | server.js:136-142 | Defines the `receiveMessage` payload: the stored record's id, text, timestamp, sender and readers. The properties are stated about it by `SendMessage`. |
| Server.ChatServer.constructor | server.js:12-19 | A starting server works on the persisted collection and has no rooms and no emits. |
| Server.ChatServer.Connect | server.js:34-38 | A new connection makes the session a member of the global room. |
| Server.ChatServer.JoinRoom | server.js:41-46 | The session becomes a member of the room, and one `joinRoom` acknowledgement is emitted to that session alone. |
| Server.ChatServer.LeaveRoom | server.js:79-83 | The session is no longer a member of the room, and one `leaveRoom` acknowledgement is emitted to that session alone. |
| Server.ChatServer.UpdateReadStatus | server.js:48-76 | A failed fetch changes nothing and emits nothing. Otherwise every record of the room whose save succeeded gains the user as reader. Failed saves leave their records as stored, other rooms are untouched, and the notice is emitted exactly as `ReadStatusNotice` says. |
| Server.ChatServer.SendMessage | server.js:86-151 | The record is built from the payload's room, info, sender and message alone. If a required field is missing or the write fails, nothing is stored and nothing is emitted. Otherwise the record is stored first, with the creation time and no readers, and the next fresh id moves on by one. Then exactly two emits follow: `receiveMessage` with the stored id, text, time, sender and empty readers, to the members of the room; and `globalMessageUpdated` with the room and record, to the members of the global room. |
| Server.ChatServer.Disconnect | server.js:154-156 | After a disconnect the session is a member of no room. |

## Left out

- The database connection module, the Express and HTTP set-up, CORS, the health route and `server.listen` (`server.js:10-31`, `server.js:159-161`): these only wire the engine to the outside. `config/db.js` is not part of this model.
- Concurrency: each handler is one sequential step. The model does not capture interleavings of `updateReadStatus` saves with each other or with other handlers, or the read-then-write-back race of `save()`. Among the saves of one call, it models only which ones fail.
- Database outcomes are inputs: whether a fetch, a write, the unread aggregation or the bulk update succeeds, and which per-record saves fail. Query routes (all-rooms, history) answering 500 on a database error are not modelled.
- ChatRoutes.MarkAsRead: a failed `updateMany` is modelled as changing nothing; a bulk update that fails after updating some records is not modelled.
- The `$lookup` into the `users` collection becomes an opaque function `lookup` from a record's `info` to optional details. `$unwind` keeps rooms with no details.
- ObjectId casting, Date values (times are integers) and regular-expression semantics are not modelled. `Participates` treats the user id as a literal substring, which matches the route only for ids free of regex metacharacters.
- Lower-casing covers ASCII letters only; the `i` option of the regex also folds other letters.
- An explicitly supplied `readBy` in a draft is not modelled, since the handler never passes one. The sender's ObjectId type is treated as an arbitrary string.
- Null or malformed socket payloads, including a missing `roomId`, which a `find` would drop from its filter, are not modelled.
- socket.io's automatic room named after each socket id is not modelled; `io.to(roomId)` reaches the members the registry records.
- `Server.ChatServer.Disconnect` models library behaviour: the handler only logs, and socket.io removes the socket from its rooms.
- Console logging and the error payloads of the 500 answers are left out.
- Query.FirstPerGroup: `$group` does not specify the order of its output documents. The model lists rooms in order of first appearance (newest first), and `ChatRoutes.AllRooms` returns that order. No caller may rely on it; only the set of rooms and each room's entry are the route's meaning.
- Query.SortDesc: the order among equal timestamps is not stated. MongoDB's `$sort` does not guarantee one, and the model's insertion order is incidental.

## Findings

| source | as written | input that shows it | evidently intended | confidence | as-written member | corrected member |
|---|---|---|---|---|---|---|
| routes/chatRoutes.js:92-100 | `mongoose` is not imported, so building the `$ne` filter throws. The route answers 500 and marks nothing read. | any request whose room has a record lacking `userId` | the bulk `$push` adding `userId` to every record of the room that lacks it, then 200 | not executed | ChatRoutes.MarkAsReadAsWritten | ChatRoutes.MarkAsRead |
| routes/chatRoutes.js:65-83 | `mongoose` is not imported, so the route always answers 500. Its `sendTo` filter names a field the schema does not have, so it would match nothing anyway. | any user with an unread message from someone else in one of their rooms | per-room counts of messages sent to the user that the user has not read | not executed | ChatRoutes.UnreadAsWrittenDiscrepancy | ChatRoutes.UnreadCounts |
