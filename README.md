# unidirectional-websocket-server, modelled in Dafny

The relay keeps an in-memory registry of chat rooms and users and pushes every message
inserted into the chat collection to the WebSocket connections of its room. Each room keeps
two things:

- an intrusive doubly linked list of its open connections (`userWSHead`, `prevClientInRoom`,
  `nextClientInRoom`) with a `userCount`;
- a 50-slot ring buffer of recent frames (`newMessages`).

Each user keeps a connection budget and a ban expiry. An upgrade request is admitted or
refused by the `upgrade` handler. A refusal goes through `next`: it charges the user's budget
and writes an HTTP 401 response with a JSON body. A heartbeat tick closes silent connections,
pings the others and replenishes their users' budgets.

The model has these modules:

- `Types`: the records of src/types.ts.
- `Constants`: the constants of src/constants.ts.
- `Backlog`: the ring buffer. A `CircularArray` class over an array, specified by the pure
  `Push`/`PushAll` on `RingState`.
- `Framing`: room selection, enrichment and the trailing metadata byte. `JSON.stringify` and
  `zlib.deflateSync` are uninterpreted functions carried in a `Codec`.
- `Membership`: the room lists. They are an arena `map<ConnId, Conn>` of prev/next links, with
  a ghost sequence per room that the links must spell out (`Linked`).
- `RateLimit`: charging, replenishment, bans and the admission decision.
- `Rejection`: the JSON body, decimal rendering, UTF-8 length and the CRLF-joined response of
  `next`.
- `Invariant`: the registry invariant and why each handler keeps it.
- `Heartbeat`: the heartbeat tick, described on values.
- `Loading`: the startup loaders, described on values.
- `Registry`: the class `Context` (CustomContext), whose methods are the handlers.

Socket writes are recorded in a ghost `log` of events instead of being performed. The clock
is a parameter `now`, and database rows arrive as input sequences.

Where the repository's prose description and its code differ, the model follows the code:

- A refused upgrade of a known user (unknown room, or banned) does change the registry. The
  user's budget drops by one, and a ban is set once the budget is negative.
- The budget has no lower bound; every further refusal lowers it again.
- The status line is `HTTP/1.1 401 Unauthorized` even when the body says 429.
- Only refusals and the eviction of a prior connection charge the budget. A connection with no
  prior client resets the budget to `RATE_LIMIT_HALF_MIN - 1`.
- The close handler clears the user's `client` unconditionally.
- The fan-out sends the frame to every listed connection first and pushes it into the backlog
  afterwards.

## Model

| member | source | states |
|---|---|---|
| Backlog.Push | src/utils.ts:92-100 | the length is unchanged; the cursor ends in 1..length; slot head-1 holds the message and every other slot is unchanged; the write is at the cursor with a +1 step, or at slot 0 with cursor 1 when the cursor is at the end |
| Backlog.CircularArray.PushMessage | src/utils.ts:92-100 | the in-place write of buffer and head has exactly the effect of `Push` on the array's contents |
| Backlog.CircularArray.constructor | src/utils.ts:19-22 | a fresh array of the requested length, every slot absent, cursor 0 |
| Backlog.PushAllHead | src/utils.ts:92-100 | from cursor 0, n > 0 pushes leave the cursor at ((n-1) % C) + 1 |
| Backlog.PushAllWindow | src/utils.ts:92-100 | from cursor 0, the last min(n, C) messages pushed sit in slot i % C, and slots never reached are untouched |
| Backlog.FillFromEmpty | src/utils.ts:57-76 | at most C pushes from an empty cursor put the messages in slots 0..n-1 in push order, with the cursor at n |
| Framing.Unframe | src/server.ts:76-83 | a receiver's reading of a frame: trailing byte 0 is raw JSON, 1 is deflated, anything else malformed; the payload plus the flag byte rebuilds the frame |
| Framing.UnframeAppended | src/utils.ts:84-89 | appending flag 0 or 1 to a payload and reading it back recovers the payload and the flag |
| Framing.CompressMessage | src/utils.ts:79-90 | the frame is deflate(serialize(msg)) followed by one byte 1, so it is one byte longer than the deflated body |
| Framing.RawFrame | src/server.ts:76-83 | the uncompressed frame is serialize(msg) followed by one byte 0 |
| Framing.BuildFrame | src/server.ts:71-83 | the frame ends in 1 (deflated body) iff userCount > COMPRESSION_MIN_USER_THRESHOLD, and in 0 (raw body) otherwise |
| Framing.TargetRoom | src/server.ts:58-61 | a truthy roomId selects that room, and a missing or empty one selects GLOBAL_SERVER_NAME |
| Framing.Enrich | src/server.ts:62-70 | userId, msg, roomId and ts are copied from the event; displayName, bio and imageUrl (profilePicture) come from the poster, and all three are absent when the poster is unknown |
| Framing.BacklogFrames | src/utils.ts:67-76 | getRoomMessages yields at most one frame per stored message, and every frame is deflated |
| Framing.KnownPosters | src/utils.ts:67-69 | the messages whose poster is in userMap: exactly those, each taken from the input |
| Framing.BacklogFramesAreKnownPosters | src/utils.ts:67-76 | the backlog frames are, in order, the compressed enriched messages of the known posters and nothing else |
| Membership.Without | src/server.ts:209-219 | the list left after closing has exactly the members not removed, and is no longer |
| Membership.WithoutOne | src/server.ts:209 | removing one listed connection shortens a repetition-free list by exactly one, as userCount drops by one |
| Membership.LinkAtHead | src/server.ts:194-198 | the new connection becomes the head with the old head as its next and no prev; other connections keep liveness and owner |
| Membership.LinkAtHeadLinked | src/server.ts:194-198 | after linking, the links spell out the new connection followed by the old list |
| Membership.Unlink | src/server.ts:210-219 | the closed connection leaves the arena, and connections of other lists are untouched |
| Membership.UnlinkLinked | src/server.ts:210-219 | after unlinking, the links spell out the old list without the closed connection, the others in their original order |
| RateLimit.Charge | src/app.ts:37-41 | the budget becomes (rateLimitLeft ?? 10) - 1; a negative result sets the ban to now + 30000, otherwise the ban is unchanged |
| RateLimit.ChargeAllSpec | src/app.ts:38-40 | k charges lower the budget by exactly k with no lower bound, and once negative the ban runs 30 s from the latest charge |
| RateLimit.Replenish | src/server.ts:268-271 | min(10, rate + 10): never above 10, never below the old budget, a non-negative budget refills to 10 |
| RateLimit.ReplenishNSpec | src/server.ts:268-271 | k ticks give min(10, rate + 10k): a healthy connection's user regains the full budget after enough ticks |
| RateLimit.Admission | src/app.ts:84-95 | admitted iff both parameters are non-empty, the user and room exist and no ban later than now is set; a refusal names the user to charge exactly when both parameters are present and the user is known |
| RateLimit.AdmissionAsWritten | src/app.ts:84-95 | the checks as written over plain objects: a parameter naming a property inherited from Object.prototype counts as found, and only a stored user can be banned |
| RateLimit.InheritedUserAdmitted | src/app.ts:87-95 | userid `constructor` with an existing room is admitted as written and refused by `Admission` |
| RateLimit.AdmissionAsWrittenAgrees | src/app.ts:84-95 | for parameters that are stored keys or not inherited names, the checks as written and `Admission` decide alike |
| RateLimit.BanWindow | src/app.ts:38-41 | after charges exhaust the budget, the user is refused before, and admitted from, 30 s after the last charge |
| RateLimit.NoBanWithinBudget | src/app.ts:38-41 | while charges leave the budget non-negative, no ban is set and the user stays admissible |
| Rejection.BodyFor | src/app.ts:36-52 | code 429 with 'Too many requests' iff the new budget is negative, code 401 with 'Unauthorized access' otherwise; the budget fields are present iff a user was charged |
| Rejection.IntToStringRoundTrip | src/app.ts:57 | reading back a rendered integer gives the integer |
| Rejection.JsonByteLength | src/app.ts:48-57 | every body `next` writes is ASCII, so its UTF-8 byte length equals its character count |
| Rejection.UnknownUserBody | src/app.ts:48-52 | with no user record the body is exactly {"message":"Unauthorized access","code":401} |
| Rejection.ResponseLayout | src/app.ts:54-61 | the response is the status line (always 401), Content-Type, Content-Length, Connection, a blank line and the body, CRLF-joined; the length header reads back as the body's byte length |
| Rejection.ContentLengthOfBody | src/app.ts:57 | for `next`'s bodies, Content-Length parses to the body's character count |
| Invariant.CloseInv | src/server.ts:204-221 | the close handler keeps the registry invariant: lists match links, userCount equals list length, one client per user, each connection listed once in its user's room |
| Invariant.LinkInv | src/server.ts:186-201 | the linking of the connection handler keeps the registry invariant |
| Invariant.FrameInv | src/app.ts:38-41 | budget, ban and liveness updates that leave clients, rooms and links alone keep the invariant |
| Invariant.OtherListsKept | src/server.ts:208 | a connection is listed only in its user's room, so a close changes no other room's list |
| Invariant.RingsAdded | src/utils.ts:19-23 | installing a room with a backlog of its own keeps every room's backlog 50 slots long and unshared |
| Heartbeat.TickEvents | src/server.ts:257-266 | one event per client in wss.clients order: ping if it answered, close otherwise |
| Heartbeat.TickClosesSilent | src/server.ts:259-266 | a tick closes exactly the connections that did not answer and pings exactly the others |
| Heartbeat.TickedUser | src/server.ts:265-271 | only an answering client's user changes, and only its budget, to min(10, budget + 10) |
| Heartbeat.TickConnsAt | src/server.ts:257-265 | visited connections are marked as not answered, and the others are unchanged |
| Heartbeat.TickUsersAt | src/server.ts:257-271 | each visited answering user is replenished exactly once, and every other user is unchanged |
| Heartbeat.TickStep | src/server.ts:258-271 | one loop iteration extends the folds by exactly the body's update |
| Heartbeat.TickSpec | src/server.ts:257-273 | the whole tick sets every connection's isAlive to false and applies TickedUser to every user |
| Loading.LoadRoomsKeys | src/utils.ts:16-24 | after loading, the rooms are the old ones plus one per row id |
| Loading.LoadRoomsUntouched | src/utils.ts:17-24 | rooms no row names, the global room among them, are kept |
| Loading.LoadRoomsLast | src/utils.ts:18-23 | the last row with an id decides its record |
| Loading.LoadRoomsRings | src/utils.ts:19-23 | after loading, every room, old or new, has a 50-slot backlog shared with no other room |
| Loading.ClearListsAt | src/utils.ts:18-23 | a loaded room starts with an empty list |
| Loading.LoadRoomsInv | src/utils.ts:16-24 | loading empty rooms keeps the registry invariant |
| Loading.LoadUsersAt | src/utils.ts:34-41 | users no row names are kept, and the keys grow by the row ids |
| Loading.LoadUsersLast | src/utils.ts:35-40 | the last row with an id decides its record: the profile fields only |
| Loading.LoadUsersInv | src/utils.ts:34-41 | replacing only users without a client keeps the registry invariant |
| Registry.Fanout | src/server.ts:85-94 | one send of the frame per listed connection, head to tail |
| Registry.FanoutOnce | src/server.ts:85-94 | each listed connection gets the frame exactly once, and no other connection gets it |
| Registry.SendToRoom | src/server.ts:85-94 | walking nextClientInRoom from the head sends exactly Fanout of the room's list |
| Registry.TickReadyOf | src/server.ts:257 | under the registry invariant, wss.clients lists each open connection once and each is its user's client |
| Registry.TickInv | src/server.ts:257-271 | a whole tick keeps the registry invariant |
| Registry.TickRound | src/server.ts:257-271 | the forEach loop computes the tick's folds and its events |
| Registry.Context.RoomOf | src/server.ts:207-208 | the room the close handler looks up holds the connection in its list |
| Registry.Context.constructor | src/app.ts:11-26 | only the global room 'Public', empty, with an empty 50-slot backlog; no users, no connections |
| Registry.Context.OnClose | src/server.ts:204-221 | the connection leaves its room's list, the other members keep their order, the head is the first one left, userCount drops by one, the user's client is cleared, wss.clients loses the connection; the invariant is kept |
| Registry.Context.Link | src/server.ts:186-202 | the user takes client, room and time; the connection heads the room's list and userCount grows by one; every other connection keeps its liveness and owner, and no room changes name or backlog; the backlog is sent to the connection |
| Registry.Context.SetBudget | src/app.ts:38-41 | the budget and ban are replaced, and nothing else changes |
| Registry.Context.CloseClient | src/server.ts:170-182 | the prior client is closed first and leaves every list and wss.clients; every other connection keeps its liveness and owner; then the user's client is cleared and the budget charged as `Charge` says; no other user changes |
| Registry.Context.Evict | src/server.ts:170-185 | with a prior client: it is closed and the user charged; without: the budget becomes 9 and the ban is kept; no other user changes, and every connection left keeps its liveness and owner |
| Registry.Context.Connect | src/server.ts:167-202 | the eviction and then the linking: the user record is exactly the released and joined one, the new connection heads the room's list, the prior client is gone from every list and from wss.clients, every other connection keeps its liveness and owner, and the log gains the prior client's close and the backlog send |
| Registry.Context.OnPong | src/server.ts:222-225 | only the connection's isAlive becomes true |
| Registry.Context.Tick | src/server.ts:253-273 | every connection is marked not answered, users get TickedUser, and the log gains the tick's events; rooms and lists are unchanged |
| Registry.Context.OnInsert | src/server.ts:55-97 | the frame built from the enriched message and the room's count is sent once to each listed connection and then pushed into that room's backlog; other backlogs and all maps are unchanged; a missing room has no effect |
| Registry.Context.GetRoomMessages | src/utils.ts:44-77 | the room's backlog receives exactly the known posters' compressed frames in store order; other backlogs are unchanged |
| Registry.Context.SetupChatrooms | src/utils.ts:9-25 | one record per row id with the row's name and count, no head and a fresh empty backlog; the last row wins; other rooms kept; the invariant holds when the loaded rooms are empty |
| Registry.Context.SetupUserMap | src/utils.ts:27-42 | one profile-only record per row id; the last row wins; other users kept; the invariant holds when no replaced user has a client |
| Registry.Context.Next | src/app.ts:34-66 | a known user is charged; the response is the 401/429 body for the new budget; nothing else changes |
| Registry.Context.Upgrade | src/app.ts:68-108 | admitted requests get the whole effect of the connection handler (users, lists, connections, wss.clients, log); refused ones change only the charged user's budget and ban, as `Charge` says, and get the body for it |

## Findings

| source | as written | input that shows it | evidently intended | confidence | as-written member | corrected member |
|---|---|---|---|---|---|---|
| src/app.ts:87-95 | `userMap[userId]` and `roomMap[roomId]` index plain objects, so a property inherited from Object.prototype counts as a stored user or room | userid=`constructor`, roomid=an existing room, with no user `constructor` loaded: the request is admitted | only users and rooms loaded into the maps are found | high for the lookup; not executed | RateLimit.AdmissionAsWritten, RateLimit.InheritedUserAdmitted | RateLimit.Admission |

## Left out

- MongoDB: the connection, the change-stream subscription and its re-subscribe loop. The insert
  handler is modelled per event. The aggregation pipeline's sort and limit are not modelled:
  `GetRoomMessages` takes the stored messages in the order the store returns them.
- `JSON.stringify` and `zlib.deflateSync` are uninterpreted (`Codec`). No decompression round
  trip is claimed. The JSON key order of the refusal body is modelled as written. For the live
  chat message, `serialize` stands for the stringified seven-field object built at
  src/server.ts:62-70.
- `Framing.BacklogFrames` and `Registry.Context.GetRoomMessages`: getRoomMessages stringifies
  the stored document itself. It drops `_id` (src/utils.ts:59), adds the profile fields in place
  (src/utils.ts:70-72) and keeps every other stored field, such as `seen`, in the document's key
  order. The model keeps only the four fields the relay reads and sends both paths through the
  same `serialize` of the enriched message. Backlog and live frames that differ in the relay can
  therefore be equal in the model.
- Sockets and HTTP: `ws.send`, `ping` and `close` are the events Send, SendBacklog, Ping and
  CloseSocket of the ghost log. The response of `next` is a returned string, so
  `socket.write`/`destroy` are not logged. `handleUpgrade` and `emit` are the call from
  `Registry.Context.Upgrade` to `Registry.Context.Connect`, and are not logged either.
- `Registry.Context.OnInsert`: when the target room is not in roomMap, the handler throws a
  TypeError at src/server.ts:72 and the change listener's promise is rejected with nothing to
  handle it. The model ends the handler with no effect and does not model the rejection.
- `RateLimit.Admission` is the corrected decision (see Findings). What the relay does after it
  admits an inherited name is not modelled: it writes `rateLimitLeft`, `client`, `roomId` and
  `connectedAtTs` onto `Object` or `Object.prototype` (src/server.ts:180-189) and links the
  socket into the room.
- `Framing.KnownPosters`: getRoomMessages looks up `userMap[message.userId]` on a plain object
  (src/utils.ts:68), so a stored message whose userId is an inherited name is pushed as written.
  The model keeps only messages whose poster has a stored record. The change-event handler's
  lookup at src/server.ts:57 finds no profile fields on an inherited value, which matches
  `Framing.Enrich` with no user.
- `Registry.Context.Link`: the backlog send records the buffer's slots and cursor, not their
  JSON text.
- Timers and orchestration: `setInterval`/`clearInterval`, `startServer`, the restart on server
  close, and the promise of `closeWebSocketConnection`. The close of a prior client is modelled
  as running to completion before the new link.
- `Registry.Context.Tick`: a connection the tick closes keeps its records. Its close handler is
  a separate later event (`Registry.Context.OnClose`), and the interleaving of events is not
  modelled.
- Logging, IP extraction from headers, `getObjectSize`, environment reads and the root
  server.ts demo.
- The `private` and `userIdsAllowed` room fields are declared but never read, so no access rule
  is modelled.
- `Registry.Context.SetupChatrooms` and `Registry.Context.SetupUserMap`: the invariant is
  promised only when the loaded rooms are empty and the replaced users have no client. Live
  sockets keep references to the records they were connected with, and that aliasing of
  replaced records is not modelled.
- `RateLimit.Replenish`: the tick reads `rateLimitLeft!`. Under the invariant every user with a
  client has a budget, so the NaN an absent budget would give is not modelled.
- Number width: budgets and timestamps are unbounded integers. JavaScript doubles are not
  modelled.
