/** setupChatrooms and setupUserMap of src/utils.ts, described on values: the room and user
    maps after a prefix of the store's rows has been loaded, and why loading keeps the registry
    invariant. */
module Loading {
  import opened Types
  import opened Constants
  import opened Backlog
  import opened Membership
  import opened Invariant

  /** A row of the chat_rooms collection: its id and the fields copied into the room record. */
  datatype RoomRow = RoomRow(id: string, roomName: string, userCount: int)

  /** A row of the users collection: its id and the profile fields kept in memory. */
  datatype UserRow = UserRow(id: string, displayName: Option<string>, profilePicture: Option<string>, bio: Option<string>)

  /** The record setupUserMap stores for a row: the profile and nothing else. */
  function Profile(row: UserRow): UserObj {
    UserObj(row.displayName, row.profilePicture, row.bio, None, None, None, None, None)
  }

  /** The record setupChatrooms stores for a row, around the backlog made for it. */
  function RoomRecord(row: RoomRow, ring: CircularArray): RoomObj {
    RoomObj(row.roomName, row.userCount, None, ring)
  }

  function RoomIds(rows: seq<RoomRow>): set<string> {
    set r | r in rows :: r.id
  }

  function UserIds(rows: seq<UserRow>): set<string> {
    set r | r in rows :: r.id
  }

  /** Row j is the last row carrying its id, so its values are the ones that stay. */
  predicate LastRoomRow(rows: seq<RoomRow>, j: int) {
    0 <= j < |rows| && forall j' :: j < j' < |rows| ==> rows[j'].id != rows[j].id
  }

  predicate LastUserRow(rows: seq<UserRow>, j: int) {
    0 <= j < |rows| && forall j' :: j < j' < |rows| ==> rows[j'].id != rows[j].id
  }

  // ----- rooms -----

  /** The room map after the rows have been stored in order, row i around the backlog rings[i]. */
  function LoadRooms(rooms: map<string, RoomObj>, rows: seq<RoomRow>, rings: seq<CircularArray>): map<string, RoomObj>
    requires |rings| == |rows|
    decreases |rows|
  {
    if rows == [] then rooms
    else
      var n := |rows| - 1;
      LoadRooms(rooms, rows[..n], rings[..n])[rows[n].id := RoomRecord(rows[n], rings[n])]
  }

  /** The room lists after the rows have been loaded: every loaded room starts without members. */
  ghost function ClearLists(members: map<string, seq<ConnId>>, rows: seq<RoomRow>): map<string, seq<ConnId>>
    decreases |rows|
  {
    if rows == [] then members else ClearLists(members, rows[..|rows| - 1])[rows[|rows| - 1].id := []]
  }

  lemma RoomIdsSnoc(rows: seq<RoomRow>)
    requires rows != []
    ensures RoomIds(rows) == RoomIds(rows[..|rows| - 1]) + {rows[|rows| - 1].id}
  {
    var n := |rows| - 1;
    assert rows == rows[..n] + [rows[n]];
    forall x | x in RoomIds(rows) ensures x in RoomIds(rows[..n]) + {rows[n].id} {
      var r :| r in rows && r.id == x;
      var i :| 0 <= i < |rows| && rows[i] == r;
      if i < n {
        assert rows[..n][i] == r;
      }
    }
  }

  /** The loaded map holds the rooms it had and one room per distinct row id. */
  lemma {:induction false} LoadRoomsKeys(rooms: map<string, RoomObj>, rows: seq<RoomRow>, rings: seq<CircularArray>)
    requires |rings| == |rows|
    ensures LoadRooms(rooms, rows, rings).Keys == rooms.Keys + RoomIds(rows)
    decreases |rows|
  {
    if rows != [] {
      var n := |rows| - 1;
      LoadRoomsKeys(rooms, rows[..n], rings[..n]);
      RoomIdsSnoc(rows);
    }
  }

  /** A room no row names (the global room among them) keeps its record. */
  lemma {:induction false} LoadRoomsUntouched(rooms: map<string, RoomObj>, rows: seq<RoomRow>, rings: seq<CircularArray>,
                                              k: string)
    requires |rings| == |rows| && k in rooms && k !in RoomIds(rows)
    ensures k in LoadRooms(rooms, rows, rings) && LoadRooms(rooms, rows, rings)[k] == rooms[k]
    decreases |rows|
  {
    if rows != [] {
      var n := |rows| - 1;
      RoomIdsSnoc(rows);
      LoadRoomsUntouched(rooms, rows[..n], rings[..n], k);
    }
  }

  /** The last row carrying an id decides that id's record. */
  lemma {:induction false} LoadRoomsLast(rooms: map<string, RoomObj>, rows: seq<RoomRow>, rings: seq<CircularArray>, j: int)
    requires |rings| == |rows| && LastRoomRow(rows, j)
    ensures rows[j].id in LoadRooms(rooms, rows, rings)
    ensures LoadRooms(rooms, rows, rings)[rows[j].id] == RoomRecord(rows[j], rings[j])
    decreases |rows|
  {
    var n := |rows| - 1;
    if j < n {
      assert LastRoomRow(rows[..n], j);
      LoadRoomsLast(rooms, rows[..n], rings[..n], j);
    }
  }

  /** A loaded room's backlog is one of the rings unless the room kept its old record. */
  lemma {:induction false} LoadRoomsRing(rooms: map<string, RoomObj>, rows: seq<RoomRow>, rings: seq<CircularArray>, k: string)
    requires |rings| == |rows| && k in LoadRooms(rooms, rows, rings)
    ensures LoadRooms(rooms, rows, rings)[k].newMessages in rings
            || (k in rooms && LoadRooms(rooms, rows, rings)[k] == rooms[k])
    decreases |rows|
  {
    if rows != [] {
      var n := |rows| - 1;
      if k != rows[n].id {
        LoadRoomsRing(rooms, rows[..n], rings[..n], k);
        if LoadRooms(rooms, rows, rings)[k].newMessages in rings[..n] {
          var i :| 0 <= i < n && rings[..n][i] == LoadRooms(rooms, rows, rings)[k].newMessages;
          assert rings[i] == rings[..n][i];
        }
      }
    }
  }

  /** Rooms loaded around distinct new rings of MESSAGE_BUFFER_LEN slots keep every backlog owned. */
  lemma {:induction false} LoadRoomsRings(rooms: map<string, RoomObj>, rows: seq<RoomRow>, rings: seq<CircularArray>)
    requires |rings| == |rows| && Rings(rooms)
    requires forall j :: 0 <= j < |rings| ==> rings[j].buffer.Length == MESSAGE_BUFFER_LEN
    requires forall a, b :: 0 <= a < b < |rings| ==> rings[a] != rings[b] && rings[a].buffer != rings[b].buffer
    requires forall k, j :: k in rooms && 0 <= j < |rings| ==>
                              rooms[k].newMessages != rings[j] && rooms[k].newMessages.buffer != rings[j].buffer
    ensures Rings(LoadRooms(rooms, rows, rings))
    decreases |rows|
  {
    if rows != [] {
      var n := |rows| - 1;
      var prev := LoadRooms(rooms, rows[..n], rings[..n]);
      LoadRoomsRings(rooms, rows[..n], rings[..n]);
      forall k | k in prev && k != rows[n].id
        ensures prev[k].newMessages != rings[n] && prev[k].newMessages.buffer != rings[n].buffer
      {
        LoadRoomsRing(rooms, rows[..n], rings[..n], k);
        if prev[k].newMessages in rings[..n] {
          var i :| 0 <= i < n && rings[..n][i] == prev[k].newMessages;
          assert rings[i] == prev[k].newMessages;
        }
      }
      RingsAdded(prev, rows[n].id, RoomRecord(rows[n], rings[n]));
    }
  }

  lemma {:induction false} ClearListsAt(members: map<string, seq<ConnId>>, rows: seq<RoomRow>, k: string)
    ensures ClearLists(members, rows).Keys == members.Keys + RoomIds(rows)
    ensures k in RoomIds(rows) ==> ClearLists(members, rows)[k] == []
    ensures k in members && k !in RoomIds(rows) ==> ClearLists(members, rows)[k] == members[k]
    decreases |rows|
  {
    if rows != [] {
      RoomIdsSnoc(rows);
      ClearListsAt(members, rows[..|rows| - 1], k);
    }
  }

  /** Loading rooms with a zero count, over rooms without members, keeps the registry invariant. */
  lemma {:induction false} LoadRoomsInv(rooms: map<string, RoomObj>, users: map<string, UserObj>, conns: map<ConnId, Conn>,
                                        clients: seq<ConnId>, members: map<string, seq<ConnId>>,
                                        rows: seq<RoomRow>, rings: seq<CircularArray>)
    requires |rings| == |rows| && Inv(rooms, users, conns, clients, members)
    requires forall r :: r in rows ==> r.userCount == 0 && (r.id in members ==> members[r.id] == [])
    ensures Inv(LoadRooms(rooms, rows, rings), users, conns, clients, ClearLists(members, rows))
    decreases |rows|
  {
    if rows != [] {
      var n := |rows| - 1;
      assert forall r :: r in rows[..n] ==> r in rows;
      LoadRoomsInv(rooms, users, conns, clients, members, rows[..n], rings[..n]);
      ClearListsAt(members, rows[..n], rows[n].id);
      assert rows[n] in rows;
      LoadRoomInv(LoadRooms(rooms, rows[..n], rings[..n]), users, conns, clients, ClearLists(members, rows[..n]),
                  rows[n].id, RoomRecord(rows[n], rings[n]));
    }
  }

  // ----- users -----

  /** The user map after the rows have been stored in order. */
  function LoadUsers(users: map<string, UserObj>, rows: seq<UserRow>): map<string, UserObj>
    decreases |rows|
  {
    if rows == [] then users else LoadUsers(users, rows[..|rows| - 1])[rows[|rows| - 1].id := Profile(rows[|rows| - 1])]
  }

  lemma UserIdsSnoc(rows: seq<UserRow>)
    requires rows != []
    ensures UserIds(rows) == UserIds(rows[..|rows| - 1]) + {rows[|rows| - 1].id}
  {
    var n := |rows| - 1;
    assert rows == rows[..n] + [rows[n]];
    forall x | x in UserIds(rows) ensures x in UserIds(rows[..n]) + {rows[n].id} {
      var r :| r in rows && r.id == x;
      var i :| 0 <= i < |rows| && rows[i] == r;
      if i < n {
        assert rows[..n][i] == r;
      }
    }
  }

  /** The loaded map holds the users it had and one user per distinct row id; a user no row
      names keeps its record, and a loaded record carries no client. */
  lemma {:induction false} LoadUsersAt(users: map<string, UserObj>, rows: seq<UserRow>, u: string)
    ensures LoadUsers(users, rows).Keys == users.Keys + UserIds(rows)
    ensures u in users && u !in UserIds(rows) ==> LoadUsers(users, rows)[u] == users[u]
    ensures u in LoadUsers(users, rows) && LoadUsers(users, rows)[u].client.Some? ==>
              u in users && LoadUsers(users, rows)[u] == users[u]
    decreases |rows|
  {
    if rows != [] {
      UserIdsSnoc(rows);
      LoadUsersAt(users, rows[..|rows| - 1], u);
    }
  }

  /** The last row carrying an id decides that id's record. */
  lemma {:induction false} LoadUsersLast(users: map<string, UserObj>, rows: seq<UserRow>, j: int)
    requires LastUserRow(rows, j)
    ensures rows[j].id in LoadUsers(users, rows) && LoadUsers(users, rows)[rows[j].id] == Profile(rows[j])
    decreases |rows|
  {
    var n := |rows| - 1;
    if j < n {
      assert LastUserRow(rows[..n], j);
      LoadUsersLast(users, rows[..n], j);
    }
  }

  /** Loading users over records without a client keeps the registry invariant. */
  lemma {:induction false} LoadUsersInv(rooms: map<string, RoomObj>, users: map<string, UserObj>, conns: map<ConnId, Conn>,
                                        clients: seq<ConnId>, members: map<string, seq<ConnId>>, rows: seq<UserRow>)
    requires Inv(rooms, users, conns, clients, members)
    requires forall r :: r in rows && r.id in users ==> users[r.id].client.None?
    ensures Inv(rooms, LoadUsers(users, rows), conns, clients, members)
    decreases |rows|
  {
    if rows != [] {
      var n := |rows| - 1;
      var prev := LoadUsers(users, rows[..n]);
      assert forall r :: r in rows[..n] ==> r in rows;
      LoadUsersInv(rooms, users, conns, clients, members, rows[..n]);
      LoadUsersAt(users, rows[..n], rows[n].id);
      assert rows[n] in rows;
      LoadUserInv(rooms, prev, conns, clients, members, rows[n].id, Profile(rows[n]));
    }
  }
}
