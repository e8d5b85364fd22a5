/** What holds between handlers for the registry of rooms, users and open connections
    (CustomContext in src/types.ts, kept consistent by the handlers of src/server.ts). */
module Invariant {
  import opened Types
  import opened Constants
  import opened Backlog
  import opened Membership

  /** RoomObj: its backlog is shared by reference and written in place. */
  datatype RoomObj = RoomObj(roomName: string, userCount: int, userWSHead: Option<ConnId>, newMessages: CircularArray)

  /** The open connection c is its user's only client, and is listed in its user's room. */
  ghost predicate Owner(c: ConnId, users: map<string, UserObj>, conns: map<ConnId, Conn>, members: map<string, seq<ConnId>>)
    requires c in conns
  {
    var u := conns[c].userId;
    && u in users
    && users[u].client == Some(c)
    && users[u].roomId.Some?
    && users[u].roomId.value in members
    && c in members[users[u].roomId.value]
  }

  /** A user's client is an open connection belonging to that user, and the user has a budget. */
  ghost predicate Client(u: string, users: map<string, UserObj>, conns: map<ConnId, Conn>)
    requires u in users && users[u].client.Some?
  {
    var c := users[u].client.value;
    c in conns && conns[c].userId == u && users[u].rateLimitLeft.Some?
  }

  /** Room k's list, read from its head, is members[k], and userCount is its length. */
  ghost predicate RoomListed(rooms: map<string, RoomObj>, members: map<string, seq<ConnId>>, conns: map<ConnId, Conn>,
                             k: string)
    requires k in rooms && k in members
  {
    Linked(rooms[k].userWSHead, members[k], conns) && rooms[k].userCount == |members[k]|
  }

  /** Every room's list is listed as above. The quantifiers of the invariant fire only on the
      predicates they quantify, so a proof names the room, connection or user it needs. */
  ghost predicate Lists(rooms: map<string, RoomObj>, members: map<string, seq<ConnId>>, conns: map<ConnId, Conn>) {
    && members.Keys == rooms.Keys
    && (forall k {:trigger RoomListed(rooms, members, conns, k)} :: k in rooms ==> RoomListed(rooms, members, conns, k))
  }

  /** If c is listed in room k, it is open and its user's roomId names k. */
  ghost predicate Seated(members: map<string, seq<ConnId>>, conns: map<ConnId, Conn>, users: map<string, UserObj>,
                         k: string, c: ConnId)
    requires k in members
  {
    c in members[k] ==> c in conns && conns[c].userId in users && users[conns[c].userId].roomId == Some(k)
  }

  /** A listed connection is open, and its user's roomId names the room that lists it. */
  ghost predicate Placed(members: map<string, seq<ConnId>>, conns: map<ConnId, Conn>, users: map<string, UserObj>) {
    forall k, c {:trigger Seated(members, conns, users, k, c)} :: k in members ==> Seated(members, conns, users, k, c)
  }

  ghost predicate Owned(users: map<string, UserObj>, conns: map<ConnId, Conn>, members: map<string, seq<ConnId>>) {
    forall c {:trigger Owner(c, users, conns, members)} :: c in conns ==> Owner(c, users, conns, members)
  }

  ghost predicate Clients(users: map<string, UserObj>, conns: map<ConnId, Conn>) {
    forall u {:trigger Client(u, users, conns)} :: u in users && users[u].client.Some? ==> Client(u, users, conns)
  }

  /** c is in wss.clients exactly when it is open. */
  ghost predicate InClients(clients: seq<ConnId>, conns: map<ConnId, Conn>, c: ConnId) {
    c in clients <==> c in conns
  }

  /** Positions a and b of wss.clients hold different connections. */
  ghost predicate Apart(clients: seq<ConnId>, a: int, b: int) {
    0 <= a < b < |clients| ==> clients[a] != clients[b]
  }

  /** wss.clients holds each open connection exactly once. */
  ghost predicate Listed(clients: seq<ConnId>, conns: map<ConnId, Conn>) {
    && (forall a, b {:trigger Apart(clients, a, b)} :: Apart(clients, a, b))
    && (forall c {:trigger InClients(clients, conns, c)} :: InClients(clients, conns, c))
  }

  /** The list of wss.clients is free of repetitions. */
  lemma ListedDistinct(clients: seq<ConnId>, conns: map<ConnId, Conn>)
    requires Listed(clients, conns)
    ensures Distinct(clients)
  {
    forall a, b | 0 <= a < b < |clients| ensures clients[a] != clients[b] {
      assert Apart(clients, a, b);
    }
  }

  /** The registry invariant: the room lists are consistent with their counts, a connection is
      listed exactly in its user's room, users and open connections correspond one to one. */
  ghost predicate Inv(rooms: map<string, RoomObj>, users: map<string, UserObj>, conns: map<ConnId, Conn>,
                      clients: seq<ConnId>, members: map<string, seq<ConnId>>)
  {
    && Lists(rooms, members, conns)
    && Placed(members, conns, users)
    && Owned(users, conns, members)
    && Clients(users, conns)
    && Listed(clients, conns)
  }

  /** conns' keeps the owner of every connection it keeps. */
  ghost predicate SameOwners(conns: map<ConnId, Conn>, conns': map<ConnId, Conn>) {
    forall x :: x in conns' && x in conns ==> conns'[x].userId == conns[x].userId
  }

  // ----- the close handler -----

  /** A room other than k keeps its list when only nodes of room k (and new nodes) change. */
  lemma OtherRoomLinked(rooms: map<string, RoomObj>, members: map<string, seq<ConnId>>, conns: map<ConnId, Conn>,
                        users: map<string, UserObj>, k: string, k': string, conns': map<ConnId, Conn>)
    requires Placed(members, conns, users)
    requires k in members && k' in rooms && k' in members && k' != k
    requires Linked(rooms[k'].userWSHead, members[k'], conns)
    requires forall x :: x in conns && x !in members[k] ==> x in conns' && conns'[x] == conns[x]
    ensures Linked(rooms[k'].userWSHead, members[k'], conns')
  {
    forall x | x in members[k']
      ensures x in conns' && conns'[x].prev == conns[x].prev && conns'[x].next == conns[x].next
    {
      assert Seated(members, conns, users, k', x);
      assert Seated(members, conns, users, k, x);
    }
    LinkedFrame(rooms[k'].userWSHead, members[k'], conns, conns');
  }

  lemma CloseLists(rooms: map<string, RoomObj>, members: map<string, seq<ConnId>>, conns: map<ConnId, Conn>,
                   users: map<string, UserObj>, c: ConnId, k: string, head': Option<ConnId>, conns': map<ConnId, Conn>)
    requires Lists(rooms, members, conns) && Placed(members, conns, users)
    requires k in rooms && c in members[k]
    requires Linked(head', Without(members[k], {c}), conns')
    requires conns'.Keys == conns.Keys - {c}
    requires forall x :: x in conns' && x !in members[k] ==> conns'[x] == conns[x]
    ensures Lists(rooms[k := rooms[k].(userCount := rooms[k].userCount - 1, userWSHead := head')],
                  members[k := Without(members[k], {c})], conns')
  {
    var m := members[k];
    var rooms' := rooms[k := rooms[k].(userCount := rooms[k].userCount - 1, userWSHead := head')];
    var members' := members[k := Without(m, {c})];
    assert RoomListed(rooms, members, conns, k);
    WithoutOne(m, c);
    forall k' | k' in rooms' ensures RoomListed(rooms', members', conns', k') {
      if k' != k {
        assert RoomListed(rooms, members, conns, k');
        OtherRoomLinked(rooms, members, conns, users, k, k', conns');
      }
    }
  }

  lemma ClosePlaced(members: map<string, seq<ConnId>>, conns: map<ConnId, Conn>, users: map<string, UserObj>,
                    c: ConnId, u: string, k: string, conns': map<ConnId, Conn>)
    requires Placed(members, conns, users)
    requires c in conns && conns[c].userId == u && u in users && users[u].roomId == Some(k) && k in members
    requires conns'.Keys == conns.Keys - {c} && SameOwners(conns, conns')
    ensures Placed(members[k := Without(members[k], {c})], conns', users[u := users[u].(client := None)])
  {
    var members' := members[k := Without(members[k], {c})];
    var users' := users[u := users[u].(client := None)];
    forall k', x | k' in members' ensures Seated(members', conns', users', k', x) {
      assert Seated(members, conns, users, k', x);
      if x in members'[k'] {
        assert x in members[k'];
        assert x != c;
      }
    }
  }

  lemma CloseOwned(users: map<string, UserObj>, conns: map<ConnId, Conn>, members: map<string, seq<ConnId>>,
                   c: ConnId, u: string, k: string, conns': map<ConnId, Conn>)
    requires Owned(users, conns, members)
    requires c in conns && conns[c].userId == u && u in users && k in members
    requires conns'.Keys == conns.Keys - {c} && SameOwners(conns, conns')
    ensures Owned(users[u := users[u].(client := None)], conns', members[k := Without(members[k], {c})])
  {
    var members' := members[k := Without(members[k], {c})];
    var users' := users[u := users[u].(client := None)];
    assert Owner(c, users, conns, members);
    forall x | x in conns' ensures Owner(x, users', conns', members') {
      assert Owner(x, users, conns, members);
      assert conns[x].userId != u;
    }
  }

  lemma CloseClients(users: map<string, UserObj>, conns: map<ConnId, Conn>, c: ConnId, u: string, conns': map<ConnId, Conn>)
    requires Clients(users, conns)
    requires c in conns && conns[c].userId == u && u in users
    requires conns'.Keys == conns.Keys - {c} && SameOwners(conns, conns')
    ensures Clients(users[u := users[u].(client := None)], conns')
  {
    var users' := users[u := users[u].(client := None)];
    forall v | v in users' && users'[v].client.Some? ensures Client(v, users', conns') {
      assert Client(v, users, conns);
    }
  }

  lemma CloseListed(clients: seq<ConnId>, conns: map<ConnId, Conn>, c: ConnId, conns': map<ConnId, Conn>)
    requires Listed(clients, conns)
    requires conns'.Keys == conns.Keys - {c}
    ensures Listed(Without(clients, {c}), conns')
  {
    ListedDistinct(clients, conns);
    WithoutDistinct(clients, {c});
    var clients' := Without(clients, {c});
    forall a, b ensures Apart(clients', a, b) {
    }
    forall x ensures InClients(clients', conns', x) {
      assert InClients(clients, conns, x);
    }
  }

  /** The close handler keeps the invariant: the connection leaves its room's list, the room's
      count drops by one, its user loses the client, and wss.clients loses the connection. */
  lemma CloseInv(rooms: map<string, RoomObj>, users: map<string, UserObj>, conns: map<ConnId, Conn>,
                 clients: seq<ConnId>, members: map<string, seq<ConnId>>, c: ConnId, u: string, k: string)
    requires Inv(rooms, users, conns, clients, members)
    requires c in conns && u == conns[c].userId && u in users && users[u].roomId == Some(k) && k in rooms
    ensures k in members && c in members[k] && Linked(rooms[k].userWSHead, members[k], conns)
    ensures Unlink(rooms[k].userWSHead, conns, c, members[k]).0 == First(Without(members[k], {c}))
    ensures var r := Unlink(rooms[k].userWSHead, conns, c, members[k]);
      Inv(rooms[k := rooms[k].(userCount := rooms[k].userCount - 1, userWSHead := r.0)],
          users[u := users[u].(client := None)],
          r.1, Without(clients, {c}), members[k := Without(members[k], {c})])
  {
    assert Owner(c, users, conns, members);
    assert RoomListed(rooms, members, conns, k);
    var r := Unlink(rooms[k].userWSHead, conns, c, members[k]);
    UnlinkLinked(rooms[k].userWSHead, conns, c, members[k]);
    CloseLists(rooms, members, conns, users, c, k, r.0, r.1);
    ClosePlaced(members, conns, users, c, u, k, r.1);
    CloseOwned(users, conns, members, c, u, k, r.1);
    CloseClients(users, conns, c, u, r.1);
    CloseListed(clients, conns, c, r.1);
  }

  /** A connection is listed only in its user's room, so taking it out of any other list changes
      nothing. */
  lemma OtherListsKept(members: map<string, seq<ConnId>>, conns: map<ConnId, Conn>, users: map<string, UserObj>,
                       c: ConnId, k: string)
    requires Placed(members, conns, users)
    requires c in conns && conns[c].userId in users && users[conns[c].userId].roomId == Some(k)
    ensures forall k' :: k' in members && k' != k ==> Without(members[k'], {c}) == members[k']
  {
    forall k' | k' in members && k' != k ensures Without(members[k'], {c}) == members[k'] {
      assert Seated(members, conns, users, k', c);
      WithoutAbsent(members[k'], {c});
    }
  }

  // ----- the connection handler's linking -----

  lemma LinkLists(rooms: map<string, RoomObj>, members: map<string, seq<ConnId>>, conns: map<ConnId, Conn>,
                  users: map<string, UserObj>, k: string, w: ConnId, head': Option<ConnId>, conns': map<ConnId, Conn>)
    requires Lists(rooms, members, conns) && Placed(members, conns, users)
    requires k in rooms && w !in conns
    requires Linked(head', [w] + members[k], conns')
    requires conns'.Keys == conns.Keys + {w}
    requires forall x :: x in conns && x !in members[k] ==> conns'[x] == conns[x]
    ensures Lists(rooms[k := rooms[k].(userWSHead := head', userCount := rooms[k].userCount + 1)],
                  members[k := [w] + members[k]], conns')
  {
    var rooms' := rooms[k := rooms[k].(userWSHead := head', userCount := rooms[k].userCount + 1)];
    var members' := members[k := [w] + members[k]];
    assert RoomListed(rooms, members, conns, k);
    forall k' | k' in rooms' ensures RoomListed(rooms', members', conns', k') {
      if k' != k {
        assert RoomListed(rooms, members, conns, k');
        OtherRoomLinked(rooms, members, conns, users, k, k', conns');
      }
    }
  }

  lemma LinkPlaced(members: map<string, seq<ConnId>>, conns: map<ConnId, Conn>, users: map<string, UserObj>,
                   u: string, k: string, w: ConnId, nu: UserObj, conns': map<ConnId, Conn>)
    requires Placed(members, conns, users) && Owned(users, conns, members)
    requires u in users && users[u].client.None? && k in members && w !in conns && nu.roomId == Some(k)
    requires conns'.Keys == conns.Keys + {w} && SameOwners(conns, conns') && conns'[w].userId == u
    ensures Placed(members[k := [w] + members[k]], conns', users[u := nu])
  {
    var members' := members[k := [w] + members[k]];
    var users' := users[u := nu];
    forall k', x | k' in members' ensures Seated(members', conns', users', k', x) {
      if x != w && x in members'[k'] {
        assert x in members[k'];
        assert Seated(members, conns, users, k', x);
        assert Owner(x, users, conns, members);
      }
    }
  }

  lemma LinkOwned(users: map<string, UserObj>, conns: map<ConnId, Conn>, members: map<string, seq<ConnId>>,
                  u: string, k: string, w: ConnId, nu: UserObj, conns': map<ConnId, Conn>)
    requires Owned(users, conns, members)
    requires u in users && users[u].client.None? && k in members && w !in conns
    requires nu.client == Some(w) && nu.roomId == Some(k)
    requires conns'.Keys == conns.Keys + {w} && SameOwners(conns, conns') && conns'[w].userId == u
    ensures Owned(users[u := nu], conns', members[k := [w] + members[k]])
  {
    var members' := members[k := [w] + members[k]];
    var users' := users[u := nu];
    forall x | x in conns' ensures Owner(x, users', conns', members') {
      if x != w {
        assert Owner(x, users, conns, members);
      }
    }
  }

  lemma LinkClients(users: map<string, UserObj>, conns: map<ConnId, Conn>, u: string, w: ConnId, nu: UserObj,
                    conns': map<ConnId, Conn>)
    requires Clients(users, conns)
    requires u in users && w !in conns && nu.client == Some(w) && nu.rateLimitLeft.Some?
    requires conns'.Keys == conns.Keys + {w} && SameOwners(conns, conns') && conns'[w].userId == u
    ensures Clients(users[u := nu], conns')
  {
    var users' := users[u := nu];
    forall v | v in users' && users'[v].client.Some? ensures Client(v, users', conns') {
      if v != u {
        assert Client(v, users, conns);
      }
    }
  }

  lemma LinkListed(clients: seq<ConnId>, conns: map<ConnId, Conn>, w: ConnId, conns': map<ConnId, Conn>)
    requires Listed(clients, conns) && w !in conns
    requires conns'.Keys == conns.Keys + {w}
    ensures Listed(clients + [w], conns')
  {
    var clients' := clients + [w];
    forall a, b ensures Apart(clients', a, b) {
      if 0 <= a < b < |clients'| {
        if b == |clients| {
          assert clients'[a] == clients[a] && clients[a] in clients;
          assert InClients(clients, conns, clients[a]);
        } else {
          assert Apart(clients, a, b);
        }
      }
    }
    forall x ensures InClients(clients', conns', x) {
      assert InClients(clients, conns, x);
    }
  }

  /** The connection handler's linking keeps the invariant: the new connection heads its room's
      list, the room's count grows by one, the user (who had no client) takes it as client, and
      wss.clients gains it. */
  lemma LinkInv(rooms: map<string, RoomObj>, users: map<string, UserObj>, conns: map<ConnId, Conn>,
                clients: seq<ConnId>, members: map<string, seq<ConnId>>, u: string, k: string, w: ConnId, nu: UserObj)
    requires Inv(rooms, users, conns, clients, members)
    requires u in users && users[u].client.None? && k in rooms && w !in conns
    requires Linked(rooms[k].userWSHead, members[k], conns)
    requires nu.client == Some(w) && nu.roomId == Some(k) && nu.rateLimitLeft.Some?
    ensures var r := LinkAtHead(rooms[k].userWSHead, conns, w, u, members[k]);
      Inv(rooms[k := rooms[k].(userWSHead := r.0, userCount := rooms[k].userCount + 1)],
          users[u := nu], r.1, clients + [w], members[k := [w] + members[k]])
  {
    var r := LinkAtHead(rooms[k].userWSHead, conns, w, u, members[k]);
    LinkAtHeadLinked(rooms[k].userWSHead, conns, w, u, members[k]);
    LinkLists(rooms, members, conns, users, k, w, r.0, r.1);
    LinkPlaced(members, conns, users, u, k, w, nu, r.1);
    LinkOwned(users, conns, members, u, k, w, nu, r.1);
    LinkClients(users, conns, u, w, nu, r.1);
    LinkListed(clients, conns, w, r.1);
  }

  // ----- updates that leave the structure alone -----

  /** Changes to user records that leave client and roomId alone and keep budgets present, and
      changes to connections that leave their links and owner alone, keep the invariant. */
  lemma FrameInv(rooms: map<string, RoomObj>, users: map<string, UserObj>, conns: map<ConnId, Conn>,
                 clients: seq<ConnId>, members: map<string, seq<ConnId>>,
                 users': map<string, UserObj>, conns': map<ConnId, Conn>)
    requires Inv(rooms, users, conns, clients, members)
    requires users'.Keys == users.Keys && conns'.Keys == conns.Keys
    requires forall u :: u in users ==> users'[u].client == users[u].client && users'[u].roomId == users[u].roomId
                                        && (users[u].rateLimitLeft.Some? ==> users'[u].rateLimitLeft.Some?)
    requires forall c :: c in conns ==> conns'[c].prev == conns[c].prev && conns'[c].next == conns[c].next
                                        && conns'[c].userId == conns[c].userId
    ensures Inv(rooms, users', conns', clients, members)
  {
    FrameLists(rooms, members, conns, conns');
    FramePlaced(members, conns, users, users', conns');
    FrameOwned(users, conns, members, users', conns');
    FrameClients(users, conns, users', conns');
    forall x ensures InClients(clients, conns', x) {
      assert InClients(clients, conns, x);
    }
    forall a, b ensures Apart(clients, a, b) {
      assert Apart(clients, a, b);
    }
  }

  lemma FrameLists(rooms: map<string, RoomObj>, members: map<string, seq<ConnId>>, conns: map<ConnId, Conn>,
                   conns': map<ConnId, Conn>)
    requires Lists(rooms, members, conns)
    requires conns'.Keys == conns.Keys
    requires forall c :: c in conns ==> conns'[c].prev == conns[c].prev && conns'[c].next == conns[c].next
    ensures Lists(rooms, members, conns')
  {
    forall k | k in rooms ensures RoomListed(rooms, members, conns', k) {
      assert RoomListed(rooms, members, conns, k);
      LinkedFrame(rooms[k].userWSHead, members[k], conns, conns');
    }
  }

  lemma FramePlaced(members: map<string, seq<ConnId>>, conns: map<ConnId, Conn>, users: map<string, UserObj>,
                    users': map<string, UserObj>, conns': map<ConnId, Conn>)
    requires Placed(members, conns, users)
    requires users'.Keys == users.Keys && conns'.Keys == conns.Keys
    requires forall u :: u in users ==> users'[u].roomId == users[u].roomId
    requires forall c :: c in conns ==> conns'[c].userId == conns[c].userId
    ensures Placed(members, conns', users')
  {
    forall k, c | k in members ensures Seated(members, conns', users', k, c) {
      assert Seated(members, conns, users, k, c);
    }
  }

  lemma FrameOwned(users: map<string, UserObj>, conns: map<ConnId, Conn>, members: map<string, seq<ConnId>>,
                   users': map<string, UserObj>, conns': map<ConnId, Conn>)
    requires Owned(users, conns, members)
    requires users'.Keys == users.Keys && conns'.Keys == conns.Keys
    requires forall u :: u in users ==> users'[u].client == users[u].client && users'[u].roomId == users[u].roomId
    requires forall c :: c in conns ==> conns'[c].userId == conns[c].userId
    ensures Owned(users', conns', members)
  {
    forall c | c in conns' ensures Owner(c, users', conns', members) {
      assert Owner(c, users, conns, members);
    }
  }

  lemma FrameClients(users: map<string, UserObj>, conns: map<ConnId, Conn>,
                     users': map<string, UserObj>, conns': map<ConnId, Conn>)
    requires Clients(users, conns)
    requires users'.Keys == users.Keys && conns'.Keys == conns.Keys
    requires forall u :: u in users ==> users'[u].client == users[u].client
                                        && (users[u].rateLimitLeft.Some? ==> users'[u].rateLimitLeft.Some?)
    requires forall c :: c in conns ==> conns'[c].userId == conns[c].userId
    ensures Clients(users', conns')
  {
    forall u | u in users' && users'[u].client.Some? ensures Client(u, users', conns') {
      assert Client(u, users, conns);
    }
  }

  // ----- loading from the store -----

  /** Loading a room record with no members and a zero count (setupChatrooms) keeps the
      invariant, provided any room it replaces had no members either. */
  lemma LoadRoomInv(rooms: map<string, RoomObj>, users: map<string, UserObj>, conns: map<ConnId, Conn>,
                    clients: seq<ConnId>, members: map<string, seq<ConnId>>, id: string, room: RoomObj)
    requires Inv(rooms, users, conns, clients, members)
    requires id in members ==> members[id] == []
    requires room.userCount == 0 && room.userWSHead == None
    ensures Inv(rooms[id := room], users, conns, clients, members[id := []])
  {
    LoadRoomLists(rooms, members, conns, id, room);
    LoadRoomPlaced(members, conns, users, id);
    LoadRoomOwned(users, conns, members, id);
  }

  lemma LoadRoomLists(rooms: map<string, RoomObj>, members: map<string, seq<ConnId>>, conns: map<ConnId, Conn>,
                      id: string, room: RoomObj)
    requires Lists(rooms, members, conns)
    requires room.userCount == 0 && room.userWSHead == None
    ensures Lists(rooms[id := room], members[id := []], conns)
  {
    var rooms', members' := rooms[id := room], members[id := []];
    forall k | k in rooms' ensures RoomListed(rooms', members', conns, k) {
      if k == id {
        assert Linked(None, [], conns);
      } else {
        assert RoomListed(rooms, members, conns, k);
      }
    }
  }

  lemma LoadRoomPlaced(members: map<string, seq<ConnId>>, conns: map<ConnId, Conn>, users: map<string, UserObj>, id: string)
    requires Placed(members, conns, users)
    ensures Placed(members[id := []], conns, users)
  {
    var members' := members[id := []];
    forall k, c | k in members' && k != id ensures Seated(members', conns, users, k, c) {
      assert Seated(members, conns, users, k, c);
    }
  }

  lemma LoadRoomOwned(users: map<string, UserObj>, conns: map<ConnId, Conn>, members: map<string, seq<ConnId>>, id: string)
    requires Owned(users, conns, members)
    requires id in members ==> members[id] == []
    ensures Owned(users, conns, members[id := []])
  {
    forall c | c in conns ensures Owner(c, users, conns, members[id := []]) {
      assert Owner(c, users, conns, members);
    }
  }

  /** Loading a user record without client (setupUserMap) keeps the invariant, provided the
      record it replaces had no client either. */
  lemma LoadUserInv(rooms: map<string, RoomObj>, users: map<string, UserObj>, conns: map<ConnId, Conn>,
                    clients: seq<ConnId>, members: map<string, seq<ConnId>>, id: string, user: UserObj)
    requires Inv(rooms, users, conns, clients, members)
    requires id in users ==> users[id].client.None?
    requires user.client.None?
    ensures Inv(rooms, users[id := user], conns, clients, members)
  {
    LoadUserPlaced(users, conns, members, id, user);
    LoadUserOwned(users, conns, members, id, user);
    LoadUserClients(users, conns, id, user);
  }

  lemma LoadUserPlaced(users: map<string, UserObj>, conns: map<ConnId, Conn>, members: map<string, seq<ConnId>>,
                       id: string, user: UserObj)
    requires Placed(members, conns, users) && Owned(users, conns, members)
    requires id in users ==> users[id].client.None?
    ensures Placed(members, conns, users[id := user])
  {
    var users' := users[id := user];
    forall k, c | k in members ensures Seated(members, conns, users', k, c) {
      assert Seated(members, conns, users, k, c);
      if c in members[k] {
        assert Owner(c, users, conns, members);
      }
    }
  }

  lemma LoadUserOwned(users: map<string, UserObj>, conns: map<ConnId, Conn>, members: map<string, seq<ConnId>>,
                      id: string, user: UserObj)
    requires Owned(users, conns, members)
    requires id in users ==> users[id].client.None?
    ensures Owned(users[id := user], conns, members)
  {
    forall c | c in conns ensures Owner(c, users[id := user], conns, members) {
      assert Owner(c, users, conns, members);
    }
  }

  lemma LoadUserClients(users: map<string, UserObj>, conns: map<ConnId, Conn>, id: string, user: UserObj)
    requires Clients(users, conns)
    requires user.client.None?
    ensures Clients(users[id := user], conns)
  {
    var users' := users[id := user];
    forall v | v in users' && users'[v].client.Some? ensures Client(v, users', conns) {
      assert Client(v, users, conns);
    }
  }

  // ----- backlogs -----

  /** Room k's backlog has MESSAGE_BUFFER_LEN slots. */
  ghost predicate RingSized(rooms: map<string, RoomObj>, k: string)
    requires k in rooms
  {
    rooms[k].newMessages.buffer.Length == MESSAGE_BUFFER_LEN
  }

  /** Rooms k and k' share neither a backlog nor its array. */
  ghost predicate RingsApart(rooms: map<string, RoomObj>, k: string, k': string)
    requires k in rooms && k' in rooms
  {
    k != k' ==> rooms[k].newMessages != rooms[k'].newMessages && rooms[k].newMessages.buffer != rooms[k'].newMessages.buffer
  }

  /** Every room owns a backlog of MESSAGE_BUFFER_LEN slots. */
  ghost predicate Rings(rooms: map<string, RoomObj>) {
    && (forall k {:trigger RingSized(rooms, k)} :: k in rooms ==> RingSized(rooms, k))
    && (forall k, k' {:trigger RingsApart(rooms, k, k')} :: k in rooms && k' in rooms ==> RingsApart(rooms, k, k'))
  }

  /** Changing a room record but not its backlog keeps every backlog owned. */
  lemma RingsKept(rooms: map<string, RoomObj>, k: string, room: RoomObj)
    requires Rings(rooms) && k in rooms && room.newMessages == rooms[k].newMessages
    ensures Rings(rooms[k := room])
  {
    var rooms' := rooms[k := room];
    forall a | a in rooms' ensures RingSized(rooms', a) {
      assert RingSized(rooms, a);
    }
    forall a, b | a in rooms' && b in rooms' ensures RingsApart(rooms', a, b) {
      assert RingsApart(rooms, a, b);
    }
  }

  /** Adding or replacing a room with a backlog of its own keeps every backlog owned. */
  lemma RingsAdded(rooms: map<string, RoomObj>, id: string, room: RoomObj)
    requires Rings(rooms)
    requires room.newMessages.buffer.Length == MESSAGE_BUFFER_LEN
    requires forall k :: k in rooms && k != id ==>
      rooms[k].newMessages != room.newMessages && rooms[k].newMessages.buffer != room.newMessages.buffer
    ensures Rings(rooms[id := room])
  {
    var rooms' := rooms[id := room];
    forall a | a in rooms' ensures RingSized(rooms', a) {
      if a != id {
        assert RingSized(rooms, a);
      }
    }
    forall a, b | a in rooms' && b in rooms' ensures RingsApart(rooms', a, b) {
      if a != id && b != id {
        assert RingsApart(rooms, a, b);
      }
    }
  }
}
