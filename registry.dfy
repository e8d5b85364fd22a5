/** The relay's in-memory context and the handlers that change it (CustomContext, the change-event,
    connection, close, pong and heartbeat handlers of src/server.ts, the upgrade handler and `next`
    of src/app.ts, and the loaders of src/utils.ts). Sockets are not modelled: what the relay
    writes to them is appended to a ghost log. */
module Registry {
  import opened Types
  import opened Constants
  import opened Backlog
  import opened Framing
  import opened Membership
  import opened RateLimit
  import opened Rejection
  import opened Invariant
  import opened Heartbeat
  import opened Loading

  /** `userMap[id]`, which is undefined for an unknown id. */
  function Lookup(users: map<string, UserObj>, id: string): Option<UserObj> {
    if id in users then Some(users[id]) else None
  }

  /** A second update of the same key overrides the first. */
  lemma UpdateTwice<K, V>(m: map<K, V>, k: K, a: V, b: V)
    ensures m[k := a][k := b] == m[k := b]
  {
  }

  /** Opening ws for owner adds its entry and keeps every other connection's. */
  lemma OwnersAdded(conns: map<ConnId, Conn>, conns': map<ConnId, Conn>, ws: ConnId, owner: string)
    requires ws !in conns && conns'.Keys == conns.Keys + {ws}
    requires conns'[ws].isAlive && conns'[ws].userId == owner
    requires forall x :: x in conns ==> conns'[x].isAlive == conns[x].isAlive && conns'[x].userId == conns[x].userId
    ensures Owners(conns') == Owners(conns)[ws := (true, owner)]
  {
  }

  /** Closing the connections in gone drops their entries and keeps every other connection's. */
  lemma OwnersRemoved(conns: map<ConnId, Conn>, conns': map<ConnId, Conn>, gone: set<ConnId>)
    requires conns'.Keys == conns.Keys - gone
    requires forall x :: x in conns' ==> conns'[x].isAlive == conns[x].isAlive && conns'[x].userId == conns[x].userId
    ensures Owners(conns') == Owners(conns) - gone
  {
  }

  /** Replacing a room record by one with the same name and backlog keeps Backings. */
  lemma BackingsKept(rooms: map<string, RoomObj>, k: string, room: RoomObj)
    requires k in rooms && room.roomName == rooms[k].roomName && room.newMessages == rooms[k].newMessages
    ensures Backings(rooms[k := room]) == Backings(rooms)
  {
  }

  /** When c is listed in room k only, removing it from k's list removes it from every list. */
  lemma AllWithoutOne(members: map<string, seq<ConnId>>, k: string, c: ConnId)
    requires k in members
    requires forall k' :: k' in members && k' != k ==> Without(members[k'], {c}) == members[k']
    ensures members[k := Without(members[k], {c})] == AllWithout(members, {c})
  {
  }

  /** The prior client a reconnecting user's connection handler closes, as a set. */
  function ClientSet(u: UserObj): set<ConnId> {
    if u.client.Some? then {u.client.value} else {}
  }

  /** The user record after `next` charges it one unit, with a ban once the budget is negative. */
  function Charged(u: UserObj, now: int): UserObj {
    var b := Charge(u.rateLimitLeft, u.bannedUntilTS, now);
    u.(rateLimitLeft := Some(b.rateLimitLeft), bannedUntilTS := b.bannedUntilTS)
  }

  /** The user record after the connection handler's first step: no client, and the budget
      charged when a prior client was closed or reset to RATE_LIMIT_HALF_MIN - 1 otherwise. */
  function Released(u: UserObj, now: int): UserObj {
    var b := if u.client.Some? then Charge(u.rateLimitLeft, u.bannedUntilTS, now)
             else Budget(RATE_LIMIT_HALF_MIN - 1, u.bannedUntilTS);
    u.(client := None, rateLimitLeft := Some(b.rateLimitLeft), bannedUntilTS := b.bannedUntilTS)
  }

  /** The user record once the connection handler has linked ws into roomId at time now. */
  function Joined(u: UserObj, roomId: string, ws: ConnId, now: int): UserObj {
    u.(client := Some(ws), roomId := Some(roomId), connectedAtTs := Some(now))
  }

  /** The user record the connection handler leaves: released, then joined. */
  function Reconnected(u: UserObj, roomId: string, ws: ConnId, now: int): UserObj {
    Joined(Released(u, now), roomId, ws, now)
  }

  /** Each open connection's liveness and owner: the fields the list links leave alone. */
  ghost function Owners(conns: map<ConnId, Conn>): map<ConnId, (bool, string)> {
    map x | x in conns :: (conns[x].isAlive, conns[x].userId)
  }

  /** Every room's list without the connections in gone. */
  ghost function AllWithout(members: map<string, seq<ConnId>>, gone: set<ConnId>): map<string, seq<ConnId>> {
    map k | k in members :: Without(members[k], gone)
  }

  /** Each room's name and backlog: the fields no connection handler changes. */
  ghost function Backings(rooms: map<string, RoomObj>): map<string, (string, CircularArray)> {
    map k | k in rooms :: (rooms[k].roomName, rooms[k].newMessages)
  }

  /** The close the connection handler performs for a user's prior client. */
  function Evicted(u: UserObj): seq<Event> {
    if u.client.Some? then [CloseSocket(u.client.value)] else []
  }

  // ----- fan-out -----

  /** The sends of one fan-out: the frame to each listed connection, head to tail. */
  function Fanout(m: seq<ConnId>, f: Frame): (evs: seq<Event>)
    ensures |evs| == |m|
    ensures forall i :: 0 <= i < |m| ==> evs[i] == Send(m[i], f)
    decreases |m|
  {
    if m == [] then [] else Fanout(m[..|m| - 1], f) + [Send(m[|m| - 1], f)]
  }

  /** How many frames the events send to connection x. */
  function SendsTo(evs: seq<Event>, x: ConnId): nat
    decreases |evs|
  {
    if evs == [] then 0
    else SendsTo(evs[..|evs| - 1], x) + (if evs[|evs| - 1].Send? && evs[|evs| - 1].conn == x then 1 else 0)
  }

  lemma SendsToAppend(evs: seq<Event>, e: Event, x: ConnId)
    ensures SendsTo(evs + [e], x) == SendsTo(evs, x) + (if e.Send? && e.conn == x then 1 else 0)
  {
    assert (evs + [e])[..|evs|] == evs;
  }

  /** A fan-out over a list without repetitions reaches every listed connection exactly once and
      no other connection. */
  lemma {:induction false} FanoutOnce(m: seq<ConnId>, f: Frame, x: ConnId)
    requires Distinct(m)
    ensures SendsTo(Fanout(m, f), x) == if x in m then 1 else 0
    decreases |m|
  {
    if m != [] {
      var init, last := m[..|m| - 1], m[|m| - 1];
      DistinctInit(m);
      FanoutOnce(init, f, x);
      SendsToAppend(Fanout(init, f), Send(last, f), x);
      assert m == init + [last];
    }
  }

  /** The fan-out loop: from the room's head, follow nextClientInRoom and send the frame to each
      connection in turn. */
  method SendToRoom(head: Option<ConnId>, conns: map<ConnId, Conn>, ghost m: seq<ConnId>, f: Frame)
    returns (ghost sent: seq<Event>)
    requires Linked(head, m, conns)
    ensures sent == Fanout(m, f)
  {
    var cur := head;
    sent := [];
    ghost var i := 0;
    while cur.Some?
      invariant 0 <= i <= |m|
      invariant cur == if i < |m| then Some(m[i]) else None
      invariant sent == Fanout(m[..i], f)
      decreases |m| - i
    {
      LinkedAt(head, m, conns, i);
      sent := sent + [Send(cur.value, f)];
      assert m[..i + 1] == m[..i] + [m[i]];
      cur := conns[cur.value].next;
      i := i + 1;
    }
    assert m[..i] == m;
  }

  /** The registry invariant gives the heartbeat what it relies on. */
  lemma TickReadyOf(rooms: map<string, RoomObj>, users: map<string, UserObj>, conns: map<ConnId, Conn>,
                    clients: seq<ConnId>, members: map<string, seq<ConnId>>)
    requires Inv(rooms, users, conns, clients, members)
    ensures TickReady(users, conns, clients)
  {
    ListedDistinct(clients, conns);
    forall c ensures c in clients <==> c in conns {
      assert InClients(clients, conns, c);
    }
    forall c | c in conns ensures conns[c].userId in users && users[conns[c].userId].client == Some(c) {
      assert Owner(c, users, conns, members);
    }
    forall v | v in users && users[v].client.Some?
      ensures users[v].client.value in conns && conns[users[v].client.value].userId == v && users[v].rateLimitLeft.Some?
    {
      assert Client(v, users, conns);
    }
  }

  /** A whole heartbeat tick keeps the registry invariant. */
  lemma TickInv(rooms: map<string, RoomObj>, users: map<string, UserObj>, conns: map<ConnId, Conn>,
                clients: seq<ConnId>, members: map<string, seq<ConnId>>)
    requires Inv(rooms, users, conns, clients, members)
    ensures TickReady(users, conns, clients)
    ensures Inv(rooms, TickUsers(users, conns, clients), TickConns(conns, clients), clients, members)
  {
    TickReadyOf(rooms, users, conns, clients, members);
    TickSpec(users, conns, clients);
    FrameInv(rooms, users, conns, clients, members, TickUsers(users, conns, clients), TickConns(conns, clients));
  }

  /** The heartbeat's loop over wss.clients, on the connection and user records: close each
      connection that has not answered, mark each other one as not answered, ping it, and give its
      user budget back. */
  method TickRound(conns: map<ConnId, Conn>, users: map<string, UserObj>, clients: seq<ConnId>)
    returns (conns': map<ConnId, Conn>, users': map<string, UserObj>, ghost sent: seq<Event>)
    requires TickReady(users, conns, clients)
    ensures conns' == TickConns(conns, clients) && users' == TickUsers(users, conns, clients)
    ensures sent == TickEvents(clients, conns)
  {
    conns', users', sent := conns, users, [];
    for i := 0 to |clients|
      invariant conns' == TickConns(conns, clients[..i])
      invariant users' == TickUsers(users, conns, clients[..i])
      invariant sent == TickEvents(clients[..i], conns)
    {
      TickStep(users, conns, clients, i);
      var c := clients[i];
      var conn := conns'[c];
      if !conn.isAlive {
        sent := sent + [CloseSocket(c)];
      } else {
        conns' := conns'[c := conn.(isAlive := false)];
        sent := sent + [Ping(c)];
        var u := conn.userId;
        var user := users'[u];
        users' := users'[u := user.(rateLimitLeft := Some(Replenish(user.rateLimitLeft.value)))];
      }
    }
    assert clients[..|clients|] == clients;
  }

  /** CustomContext: the room and user maps, and the open sockets with the fields the relay gives them. */
  class Context {
    var roomMap: map<string, RoomObj>
    var userMap: map<string, UserObj>
    /** The open sockets, by identity. */
    var conns: map<ConnId, Conn>
    /** wss.clients, in insertion order. */
    var clients: seq<ConnId>
    /** Each room's list, read from userWSHead along nextClientInRoom. */
    ghost var members: map<string, seq<ConnId>>
    /** Everything written to sockets, in order. */
    ghost var log: seq<Event>

    /** The rooms' backlogs and their arrays. */
    ghost function Backlogs(): set<object>
      reads this
    {
      (set k | k in roomMap :: roomMap[k].newMessages as object) + (set k | k in roomMap :: roomMap[k].newMessages.buffer as object)
    }

    /** Every room owns a backlog of MESSAGE_BUFFER_LEN slots, and the registry invariant holds. */
    ghost predicate Valid()
      reads this
    {
      Rings(roomMap) && Inv(roomMap, userMap, conns, clients, members)
    }

    /** The room an open connection is listed in: its user's roomId. */
    ghost function RoomOf(c: ConnId): (k: string)
      reads this
      requires Valid() && c in conns
      ensures conns[c].userId in userMap && userMap[conns[c].userId].roomId == Some(k)
      ensures k in roomMap && k in members && c in members[k]
    {
      assert Owner(c, userMap, conns, members);
      userMap[conns[c].userId].roomId.value
    }

    /** The initial context: only the global room, named 'Public', empty, with a fresh backlog. */
    constructor ()
      ensures Valid()
      ensures roomMap.Keys == {GLOBAL_SERVER_NAME}
      ensures roomMap[GLOBAL_SERVER_NAME].roomName == "Public" && roomMap[GLOBAL_SERVER_NAME].userCount == 0
      ensures roomMap[GLOBAL_SERVER_NAME].userWSHead.None? && fresh(roomMap[GLOBAL_SERVER_NAME].newMessages)
      ensures roomMap[GLOBAL_SERVER_NAME].newMessages.View() == RingState(seq(MESSAGE_BUFFER_LEN, _ => None), 0)
      ensures userMap == map[] && conns == map[] && clients == [] && log == []
    {
      var ring := new CircularArray(MESSAGE_BUFFER_LEN);
      roomMap := map[GLOBAL_SERVER_NAME := RoomObj("Public", 0, None, ring)];
      userMap := map[];
      conns := map[];
      clients := [];
      members := map[GLOBAL_SERVER_NAME := []];
      log := [];
      new;
      RingsAdded(map[], GLOBAL_SERVER_NAME, roomMap[GLOBAL_SERVER_NAME]);
      assert Linked(None, [], conns);
    }

    /** The close handler: the connection leaves its room's list (which keeps the other members
        in order), the room's count drops by one and the user's client is cleared. */
    method OnClose(c: ConnId) returns (ghost k: string)
      requires Valid() && c in conns
      modifies this
      ensures Valid()
      ensures old(conns[c].userId) in old(userMap) && old(userMap[conns[c].userId]).roomId == Some(k)
      ensures k in old(roomMap) && k in old(members) && c in old(members[k])
      ensures roomMap.Keys == old(roomMap).Keys
      ensures roomMap == old(roomMap)[k := old(roomMap[k]).(userCount := old(roomMap[k].userCount) - 1,
                                                            userWSHead := First(Without(old(members[k]), {c})))]
      ensures members == old(members)[k := Without(old(members[k]), {c})]
      ensures userMap == old(userMap)[old(conns[c].userId) := old(userMap[conns[c].userId]).(client := None)]
      ensures clients == Without(old(clients), {c})
      ensures conns.Keys == old(conns).Keys - {c}
      ensures forall x :: x in conns ==> conns[x].isAlive == old(conns[x].isAlive) && conns[x].userId == old(conns[x].userId)
      ensures log == old(log)
    {
      var u := conns[c].userId;
      assert Owner(c, userMap, conns, members);
      var key := userMap[u].roomId.value;
      k := key;
      var room := roomMap[key];
      CloseInv(roomMap, userMap, conns, clients, members, c, u, key);
      var r := Unlink(room.userWSHead, conns, c, members[key]);
      var room' := room.(userCount := room.userCount - 1, userWSHead := r.0);
      RingsKept(roomMap, key, room');
      roomMap := roomMap[key := room'];
      conns := r.1;
      clients := Without(clients, {c});
      members := members[key := Without(members[key], {c})];
      userMap := userMap[u := userMap[u].(client := None)];
    }

    /** The connection handler from the new client on: the user record takes the client, room and
        time, the connection becomes the room's head, the count grows by one, and the room's backlog
        is sent to the new connection. */
    method Link(userId: string, roomId: string, ws: ConnId, now: int)
      requires Valid() && userId in userMap && roomId in roomMap && ws !in conns
      requires userMap[userId].client.None? && userMap[userId].rateLimitLeft.Some?
      modifies this
      ensures Valid()
      ensures userMap == old(userMap)[userId := Joined(old(userMap[userId]), roomId, ws, now)]
      ensures roomMap == old(roomMap)[roomId := old(roomMap[roomId]).(userWSHead := Some(ws),
                                                                       userCount := old(roomMap[roomId].userCount) + 1)]
      ensures members == old(members)[roomId := [ws] + old(members[roomId])]
      ensures conns.Keys == old(conns).Keys + {ws}
      ensures conns[ws] == Conn(true, None, old(roomMap[roomId].userWSHead), userId)
      ensures Owners(conns) == Owners(old(conns))[ws := (true, userId)]
      ensures Backings(roomMap) == Backings(old(roomMap))
      ensures clients == old(clients) + [ws]
      ensures log == old(log) + [SendBacklog(ws, old(roomMap[roomId].newMessages.View()).slots,
                                             old(roomMap[roomId].newMessages.View()).head)]
    {
      var user := Joined(userMap[userId], roomId, ws, now);
      var room := roomMap[roomId];
      assert RoomListed(roomMap, members, conns, roomId);
      LinkInv(roomMap, userMap, conns, clients, members, userId, roomId, ws, user);
      var r := LinkAtHead(room.userWSHead, conns, ws, userId, members[roomId]);
      var room' := room.(userWSHead := r.0, userCount := room.userCount + 1);
      RingsKept(roomMap, roomId, room');
      OwnersAdded(conns, r.1, ws, userId);
      BackingsKept(roomMap, roomId, room');
      userMap := userMap[userId := user];
      roomMap := roomMap[roomId := room'];
      conns := r.1;
      clients := clients + [ws];
      members := members[roomId := [ws] + members[roomId]];
      log := log + [SendBacklog(ws, room.newMessages.buffer[..], room.newMessages.head)];
    }

    /** The budget update shared by `next` and the connection handler: the user's remaining budget
        and ban become b's, and nothing else changes. */
    method SetBudget(userId: string, b: Budget)
      requires Valid() && userId in userMap
      modifies this
      ensures Valid()
      ensures userMap == old(userMap)[userId := old(userMap[userId]).(rateLimitLeft := Some(b.rateLimitLeft),
                                                                       bannedUntilTS := b.bannedUntilTS)]
      ensures roomMap == old(roomMap) && conns == old(conns) && clients == old(clients)
      ensures members == old(members) && log == old(log)
    {
      var user' := userMap[userId].(rateLimitLeft := Some(b.rateLimitLeft), bannedUntilTS := b.bannedUntilTS);
      FrameInv(roomMap, userMap, conns, clients, members, userMap[userId := user'], conns);
      userMap := userMap[userId := user'];
    }

    /** The connection handler's first step for a user who still has a client: that client is
        closed (its close handler runs to completion), then the user is charged one unit and
        banned once the budget is negative. */
    method CloseClient(userId: string, now: int) returns (ghost k: string)
      requires Valid() && userId in userMap && userMap[userId].client.Some?
      modifies this
      ensures Valid()
      ensures roomMap.Keys == old(roomMap).Keys && members.Keys == old(members).Keys
      ensures userMap == old(userMap)[userId := Released(old(userMap[userId]), now)]
      ensures members == AllWithout(old(members), {old(userMap[userId].client.value)})
      ensures k in old(roomMap) && roomMap == old(roomMap)[k := roomMap[k]]
      ensures Backings(roomMap) == Backings(old(roomMap))
      ensures conns.Keys == old(conns).Keys - {old(userMap[userId].client.value)}
      ensures Owners(conns) == Owners(old(conns)) - {old(userMap[userId].client.value)}
      ensures clients == Without(old(clients), {old(userMap[userId].client.value)})
      ensures log == old(log) + [CloseSocket(old(userMap[userId].client.value))]
    {
      var prior := userMap[userId].client.value;
      ghost var rooms0, members0, conns0, users0 := roomMap, members, conns, userMap;
      assert Client(userId, userMap, conns);
      log := log + [CloseSocket(prior)];
      k := OnClose(prior);
      OtherListsKept(members0, conns0, users0, prior, k);
      AllWithoutOne(members0, k, prior);
      OwnersRemoved(conns0, conns, {prior});
      BackingsKept(rooms0, k, roomMap[k]);
      var user := userMap[userId];
      SetBudget(userId, Charge(user.rateLimitLeft, user.bannedUntilTS, now));
    }

    /** The connection handler's first step. A user who still has a client is charged one unit
        (and banned once the budget is negative) after that client's close has completed;
        otherwise the budget is reset to RATE_LIMIT_HALF_MIN - 1. */
    method Evict(userId: string, now: int)
      requires Valid() && userId in userMap
      modifies this
      ensures Valid()
      ensures roomMap.Keys == old(roomMap).Keys && members.Keys == old(members).Keys
      ensures userMap == old(userMap)[userId := Released(old(userMap[userId]), now)]
      ensures members == AllWithout(old(members), ClientSet(old(userMap[userId])))
      ensures Backings(roomMap) == Backings(old(roomMap))
      ensures conns.Keys == old(conns).Keys - ClientSet(old(userMap[userId]))
      ensures Owners(conns) == Owners(old(conns)) - ClientSet(old(userMap[userId]))
      ensures clients == Without(old(clients), ClientSet(old(userMap[userId])))
      ensures log == old(log) + Evicted(old(userMap[userId]))
    {
      var user := userMap[userId];
      if user.client.Some? {
        ghost var k := CloseClient(userId, now);
      } else {
        forall k | k in members ensures Without(members[k], {}) == members[k] {
          WithoutAbsent(members[k], {});
        }
        WithoutAbsent(clients, {});
        SetBudget(userId, Budget(RATE_LIMIT_HALF_MIN - 1, user.bannedUntilTS));
      }
    }

    /** The connection handler: the prior client, if any, is closed and the budget updated, then the
        new connection heads the room's list and receives the room's backlog. */
    method Connect(userId: string, roomId: string, ws: ConnId, now: int)
      requires Valid() && userId in userMap && roomId in roomMap && ws !in conns
      modifies this
      ensures Valid()
      ensures roomMap.Keys == old(roomMap).Keys && members.Keys == old(members).Keys
      ensures userMap == old(userMap)[userId := Reconnected(old(userMap[userId]), roomId, ws, now)]
      ensures var m := AllWithout(old(members), ClientSet(old(userMap[userId]))); members == m[roomId := [ws] + m[roomId]]
      ensures roomMap[roomId].userWSHead == Some(ws)
      ensures Backings(roomMap) == Backings(old(roomMap))
      ensures conns.Keys == old(conns).Keys - ClientSet(old(userMap[userId])) + {ws}
      ensures conns[ws].isAlive && conns[ws].prev == None && conns[ws].userId == userId
      ensures Owners(conns) == (Owners(old(conns)) - ClientSet(old(userMap[userId])))[ws := (true, userId)]
      ensures clients == Without(old(clients), ClientSet(old(userMap[userId]))) + [ws]
      ensures log == old(log) + Evicted(old(userMap[userId]))
                     + [SendBacklog(ws, old(roomMap[roomId].newMessages.View()).slots,
                                    old(roomMap[roomId].newMessages.View()).head)]
    {
      ghost var users0 := userMap;
      Evict(userId, now);
      ghost var users1 := userMap;
      Link(userId, roomId, ws, now);
      UpdateTwice(users0, userId, users1[userId], Reconnected(users0[userId], roomId, ws, now));
    }

    /** The pong handler: the connection has answered. */
    method OnPong(c: ConnId)
      requires Valid() && c in conns
      modifies this
      ensures Valid()
      ensures conns == old(conns)[c := old(conns[c]).(isAlive := true)]
      ensures roomMap == old(roomMap) && userMap == old(userMap) && clients == old(clients)
      ensures members == old(members) && log == old(log)
    {
      FrameInv(roomMap, userMap, conns, clients, members, userMap, conns[c := conns[c].(isAlive := true)]);
      conns := conns[c := conns[c].(isAlive := true)];
    }

    /** The heartbeat tick, over wss.clients in order: a connection that has not answered since the
        last tick is closed (its close handler runs later, as a separate event); every other one is
        marked as not answered, pinged, and its user's budget replenished. */
    method Tick()
      requires Valid()
      modifies this
      ensures Valid()
      ensures roomMap == old(roomMap) && members == old(members) && clients == old(clients)
      ensures conns.Keys == old(conns).Keys
      ensures forall c :: c in conns ==> conns[c] == old(conns[c]).(isAlive := false)
      ensures userMap.Keys == old(userMap).Keys
      ensures forall u :: u in userMap ==> userMap[u] == TickedUser(old(userMap[u]), old(conns))
      ensures log == old(log) + TickEvents(old(clients), old(conns))
    {
      TickInv(roomMap, userMap, conns, clients, members);
      TickSpec(userMap, conns, clients);
      var cs, us, sent := TickRound(conns, userMap, clients);
      conns, userMap, log := cs, us, log + sent;
    }

    /** The change-event handler for an inserted message: pick the room, enrich the message from
        the poster's record, frame it by the room's count, send the frame to every listed connection
        from the head on, then push it into the room's backlog. A room key with no room in roomMap
        stops the handler before it has any effect. */
    method OnInsert(doc: StoredMessage, codec: Codec)
      requires Valid()
      modifies this, Backlogs()
      ensures Valid()
      ensures roomMap == old(roomMap) && userMap == old(userMap) && conns == old(conns)
      ensures clients == old(clients) && members == old(members) && members.Keys == roomMap.Keys
      ensures TargetRoom(doc.roomId) !in roomMap ==> log == old(log)
      ensures var key := TargetRoom(doc.roomId); key in roomMap ==>
        var f := BuildFrame(codec, Enrich(doc, Lookup(userMap, doc.userId)), roomMap[key].userCount);
        && log == old(log) + Fanout(members[key], f)
        && roomMap[key].newMessages.buffer.Length == MESSAGE_BUFFER_LEN
        && roomMap[key].newMessages.View() == Push(old(roomMap[key].newMessages.View()), f)
      ensures forall k :: k in roomMap && k != TargetRoom(doc.roomId) ==>
        roomMap[k].newMessages.View() == old(roomMap[k].newMessages.View())
    {
      var key := TargetRoom(doc.roomId);
      if key !in roomMap {
        return;
      }
      var room := roomMap[key];
      var frame := BuildFrame(codec, Enrich(doc, Lookup(userMap, doc.userId)), room.userCount);
      assert RoomListed(roomMap, members, conns, key);
      ghost var sent := SendToRoom(room.userWSHead, conns, members[key], frame);
      log := log + sent;
      assert RingSized(roomMap, key);
      room.newMessages.PushMessage(frame);
      forall k | k in roomMap && k != key ensures roomMap[k].newMessages.View() == old(roomMap[k].newMessages.View()) {
        assert RingsApart(roomMap, k, key);
      }
    }

    /** getRoomMessages: the room's stored history, oldest first, goes into its backlog as
        compressed frames of the messages whose poster is known. */
    method GetRoomMessages(roomId: string, msgs: seq<StoredMessage>, codec: Codec)
      requires Valid() && roomId in roomMap
      modifies roomMap[roomId].newMessages, roomMap[roomId].newMessages.buffer
      ensures roomMap[roomId].newMessages.buffer.Length == MESSAGE_BUFFER_LEN
      ensures roomMap[roomId].newMessages.View()
              == PushAll(old(roomMap[roomId].newMessages.View()), BacklogFrames(codec, msgs, userMap))
      ensures forall k :: k in roomMap && k != roomId ==>
        roomMap[k].newMessages.View() == old(roomMap[k].newMessages.View())
    {
      var ring := roomMap[roomId].newMessages;
      assert RingSized(roomMap, roomId);
      for i := 0 to |msgs|
        invariant ring.View() == PushAll(old(ring.View()), BacklogFrames(codec, msgs[..i], userMap))
      {
        var m := msgs[i];
        assert msgs[..i + 1][..i] == msgs[..i];
        if m.userId in userMap {
          ring.PushMessage(CompressMessage(codec, Enrich(m, Some(userMap[m.userId]))));
        }
      }
      assert msgs[..|msgs|] == msgs;
      forall k | k in roomMap && k != roomId ensures roomMap[k].newMessages.View() == old(roomMap[k].newMessages.View()) {
        assert RingsApart(roomMap, k, roomId);
      }
    }

    /** setupChatrooms: every row becomes a room record under its id, with the row's name and count,
        no connections and a fresh empty backlog; a later row with the same id wins, and rooms no
        row names (the global room among them) stay as they were. */
    method SetupChatrooms(rows: seq<RoomRow>)
      requires Valid()
      modifies this
      ensures Rings(roomMap)
      ensures roomMap.Keys == old(roomMap).Keys + RoomIds(rows)
      ensures forall k :: k in old(roomMap) && k !in RoomIds(rows) ==> roomMap[k] == old(roomMap[k])
      ensures forall j :: LastRoomRow(rows, j) ==>
        && roomMap[rows[j].id].roomName == rows[j].roomName
        && roomMap[rows[j].id].userCount == rows[j].userCount
        && roomMap[rows[j].id].userWSHead.None?
        && fresh(roomMap[rows[j].id].newMessages)
        && roomMap[rows[j].id].newMessages.View() == RingState(seq(MESSAGE_BUFFER_LEN, _ => None), 0)
      ensures userMap == old(userMap) && conns == old(conns) && clients == old(clients) && log == old(log)
      ensures (forall r :: r in rows ==> r.userCount == 0 && (r.id in old(members) ==> old(members[r.id]) == [])) ==> Valid()
    {
      ghost var rooms0, members0 := roomMap, members;
      ghost var rings: seq<CircularArray> := [];
      for i := 0 to |rows|
        invariant |rings| == i
        invariant roomMap == LoadRooms(rooms0, rows[..i], rings)
        invariant members == ClearLists(members0, rows[..i])
        invariant userMap == old(userMap) && conns == old(conns) && clients == old(clients) && log == old(log)
        invariant forall j :: 0 <= j < i ==> fresh(rings[j]) && fresh(rings[j].buffer)
        invariant forall j :: 0 <= j < i ==> rings[j].buffer.Length == MESSAGE_BUFFER_LEN
        invariant forall j :: 0 <= j < i ==> rings[j].View() == RingState(seq(MESSAGE_BUFFER_LEN, _ => None), 0)
        invariant forall a, b :: 0 <= a < b < i ==> rings[a] != rings[b] && rings[a].buffer != rings[b].buffer
      {
        var row := rows[i];
        var ring := new CircularArray(MESSAGE_BUFFER_LEN);
        roomMap := roomMap[row.id := RoomRecord(row, ring)];
        members := members[row.id := []];
        ghost var rings0 := rings;
        rings := rings + [ring];
        assert rows[..i + 1][..i] == rows[..i];
        assert rings[..i] == rings0;
      }
      assert rows[..|rows|] == rows;
      LoadRoomsKeys(rooms0, rows, rings);
      forall k | k in rooms0 && k !in RoomIds(rows) ensures roomMap[k] == rooms0[k] {
        LoadRoomsUntouched(rooms0, rows, rings, k);
      }
      forall j | LastRoomRow(rows, j) ensures roomMap[rows[j].id] == RoomRecord(rows[j], rings[j]) {
        LoadRoomsLast(rooms0, rows, rings, j);
      }
      LoadRoomsRings(rooms0, rows, rings);
      if forall r :: r in rows ==> r.userCount == 0 && (r.id in members0 ==> members0[r.id] == []) {
        LoadRoomsInv(rooms0, userMap, conns, clients, members0, rows, rings);
      }
    }

    /** setupUserMap: every row becomes the user record under its id, holding only the profile
        fields; a later row with the same id wins, and users no row names stay as they were. */
    method SetupUserMap(rows: seq<UserRow>)
      requires Valid()
      modifies this
      ensures userMap.Keys == old(userMap).Keys + UserIds(rows)
      ensures forall u :: u in old(userMap) && u !in UserIds(rows) ==> userMap[u] == old(userMap[u])
      ensures forall j :: LastUserRow(rows, j) ==> userMap[rows[j].id] == Profile(rows[j])
      ensures roomMap == old(roomMap) && conns == old(conns) && clients == old(clients)
      ensures members == old(members) && log == old(log)
      ensures (forall r :: r in rows && r.id in old(userMap) ==> old(userMap[r.id]).client.None?) ==> Valid()
    {
      ghost var users0 := userMap;
      for i := 0 to |rows|
        invariant userMap == LoadUsers(users0, rows[..i])
        invariant roomMap == old(roomMap) && conns == old(conns) && clients == old(clients)
        invariant members == old(members) && log == old(log)
      {
        var row := rows[i];
        userMap := userMap[row.id := Profile(row)];
        assert rows[..i + 1][..i] == rows[..i];
      }
      assert rows[..|rows|] == rows;
      forall u | u in users0 && u !in UserIds(rows) ensures u in userMap && userMap[u] == users0[u] {
        LoadUsersAt(users0, rows, u);
      }
      LoadUsersAt(users0, rows, "");
      forall j | LastUserRow(rows, j) ensures userMap[rows[j].id] == Profile(rows[j]) {
        LoadUsersLast(users0, rows, j);
      }
      if forall r :: r in rows && r.id in users0 ==> users0[r.id].client.None? {
        LoadUsersInv(roomMap, users0, conns, clients, members, rows);
      }
    }

    /** `next`: a rejection. A known user is charged one unit and banned once the budget is negative;
        the response carries the body for the new budget. Nothing else changes. */
    method Next(charged: Option<string>, now: int) returns (response: string)
      requires Valid()
      requires charged.Some? ==> charged.value in userMap
      modifies this
      ensures Valid()
      ensures roomMap == old(roomMap) && conns == old(conns) && clients == old(clients)
      ensures members == old(members) && log == old(log)
      ensures charged.None? ==> userMap == old(userMap) && response == Response(Json(BodyFor(None)))
      ensures charged.Some? ==>
        var after := Charged(old(userMap[charged.value]), now);
        && userMap == old(userMap)[charged.value := after]
        && response == Response(Json(BodyFor(after.rateLimitLeft)))
    {
      var newRate: Option<int> := None;
      if charged.Some? {
        var u := charged.value;
        var user := userMap[u];
        var b := Charge(user.rateLimitLeft, user.bannedUntilTS, now);
        SetBudget(u, b);
        newRate := Some(b.rateLimitLeft);
      }
      response := Response(Json(BodyFor(newRate)));
    }

    /** The upgrade handler: admitted requests go to the connection handler, the others to `next`,
        which changes nothing but the budget and ban of the user it names. */
    method Upgrade(userid: Option<string>, roomid: Option<string>, ws: ConnId, now: int) returns (response: Option<string>)
      requires Valid() && ws !in conns
      modifies this
      ensures Valid()
      ensures userMap.Keys == old(userMap).Keys && roomMap.Keys == old(roomMap).Keys && members.Keys == old(members).Keys
      ensures var d := Admission(old(userMap), old(roomMap).Keys, userid, roomid, now);
        && (response.None? <==> d.Admit?)
        && (d.Admit? ==>
              var gone := ClientSet(old(userMap[d.userId]));
              var m := AllWithout(old(members), gone);
              && userMap == old(userMap)[d.userId := Reconnected(old(userMap[d.userId]), d.roomId, ws, now)]
              && members == m[d.roomId := [ws] + m[d.roomId]]
              && roomMap[d.roomId].userWSHead == Some(ws)
              && Backings(roomMap) == Backings(old(roomMap))
              && conns.Keys == old(conns).Keys - gone + {ws}
              && conns[ws].prev == None
              && Owners(conns) == (Owners(old(conns)) - gone)[ws := (true, d.userId)]
              && clients == Without(old(clients), gone) + [ws]
              && log == old(log) + Evicted(old(userMap[d.userId]))
                        + [SendBacklog(ws, old(roomMap[d.roomId].newMessages.View()).slots,
                                       old(roomMap[d.roomId].newMessages.View()).head)])
        && (d.Reject? ==>
              && roomMap == old(roomMap) && conns == old(conns) && members == old(members)
              && clients == old(clients) && log == old(log))
        && (d.Reject? && d.charged.None? ==> userMap == old(userMap) && response == Some(Response(Json(BodyFor(None)))))
        && (d.Reject? && d.charged.Some? ==>
              && userMap == old(userMap)[d.charged.value := Charged(old(userMap[d.charged.value]), now)]
              && response == Some(Response(Json(BodyFor(Some(Effective(old(userMap[d.charged.value].rateLimitLeft)) - 1))))))
    {
      var d := Admission(userMap, roomMap.Keys, userid, roomid, now);
      match d
      case Admit(u, r) =>
        Connect(u, r, ws, now);
        response := None;
      case Reject(charged) =>
        var text := Next(charged, now);
        response := Some(text);
    }
  }
}
