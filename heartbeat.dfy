/** One heartbeat tick of src/server.ts (the interval callback over wss.clients), described on
    values: what it writes to the sockets, and what it does to the connection and user records
    after visiting a prefix of the clients. */
module Heartbeat {
  import opened Types
  import opened Constants
  import opened Membership
  import opened RateLimit

  /** What one heartbeat tick does to connection c: ping it if it answered since the last tick,
      close it otherwise. */
  function TickEvent(c: ConnId, conns: map<ConnId, Conn>): Event {
    if c in conns && conns[c].isAlive then Ping(c) else CloseSocket(c)
  }

  /** The events of one tick over the clients cs, in their order. */
  function TickEvents(cs: seq<ConnId>, conns: map<ConnId, Conn>): (evs: seq<Event>)
    ensures |evs| == |cs|
    ensures forall i :: 0 <= i < |cs| ==> evs[i] == TickEvent(cs[i], conns)
    decreases |cs|
  {
    if cs == [] then [] else TickEvents(cs[..|cs| - 1], conns) + [TickEvent(cs[|cs| - 1], conns)]
  }

  /** A tick over exactly the open connections closes exactly those that did not answer and
      pings exactly the others. */
  lemma TickClosesSilent(cs: seq<ConnId>, conns: map<ConnId, Conn>, c: ConnId)
    requires forall x :: x in cs <==> x in conns
    ensures CloseSocket(c) in TickEvents(cs, conns) <==> c in conns && !conns[c].isAlive
    ensures Ping(c) in TickEvents(cs, conns) <==> c in conns && conns[c].isAlive
  {
    var evs := TickEvents(cs, conns);
    if c in conns {
      var i :| 0 <= i < |cs| && cs[i] == c;
      assert evs[i] == TickEvent(c, conns);
    }
  }

  /** The user's client answered the last ping. */
  predicate Answered(u: UserObj, conns: map<ConnId, Conn>) {
    u.client.Some? && u.client.value in conns && conns[u.client.value].isAlive
  }

  /** A user record after one heartbeat tick: only the budget of a user whose client answered
      changes, and it comes back by RATE_LIMIT_HALF_MIN without passing it. */
  function TickedUser(u: UserObj, conns: map<ConnId, Conn>): (r: UserObj)
    ensures r == u.(rateLimitLeft := r.rateLimitLeft)
    ensures !Answered(u, conns) || u.rateLimitLeft.None? ==> r == u
    ensures Answered(u, conns) && u.rateLimitLeft.Some? ==>
      && r.rateLimitLeft.Some?
      && r.rateLimitLeft.value <= RATE_LIMIT_HALF_MIN
      && (u.rateLimitLeft.value >= 0 ==> r.rateLimitLeft.value == RATE_LIMIT_HALF_MIN)
      && (u.rateLimitLeft.value < 0 ==> r.rateLimitLeft.value == u.rateLimitLeft.value + RATE_LIMIT_HALF_MIN)
  {
    if Answered(u, conns) && u.rateLimitLeft.Some? then u.(rateLimitLeft := Some(Replenish(u.rateLimitLeft.value)))
    else u
  }

  /** The connection records once the tick has visited cs: each visited connection that
      answered is marked as not having answered. */
  function TickConns(conns: map<ConnId, Conn>, cs: seq<ConnId>): map<ConnId, Conn>
    decreases |cs|
  {
    if cs == [] then conns
    else
      var t := TickConns(conns, cs[..|cs| - 1]);
      var c := cs[|cs| - 1];
      if c in t && t[c].isAlive then t[c := t[c].(isAlive := false)] else t
  }

  /** The user records once the tick has visited cs: the user of each visited connection that
      answered (by the records conns the tick started from) gets budget back. */
  function TickUsers(users: map<string, UserObj>, conns: map<ConnId, Conn>, cs: seq<ConnId>): map<string, UserObj>
    decreases |cs|
  {
    if cs == [] then users
    else
      var t := TickUsers(users, conns, cs[..|cs| - 1]);
      var c := cs[|cs| - 1];
      if c in conns && conns[c].isAlive && conns[c].userId in t && t[conns[c].userId].rateLimitLeft.Some? then
        var u := conns[c].userId;
        t[u := t[u].(rateLimitLeft := Some(Replenish(t[u].rateLimitLeft.value)))]
      else t
  }

  /** The tick keeps every connection, marks each visited one as not having answered, and leaves
      the connections it has not reached as they were. */
  lemma {:induction false} TickConnsAt(conns: map<ConnId, Conn>, cs: seq<ConnId>, c: ConnId)
    ensures TickConns(conns, cs).Keys == conns.Keys
    ensures c in conns ==> TickConns(conns, cs)[c] == if c in cs then conns[c].(isAlive := false) else conns[c]
    decreases |cs|
  {
    if cs != [] {
      var n := |cs| - 1;
      TickConnsAt(conns, cs[..n], c);
      TickConnsAt(conns, cs[..n], cs[n]);
      assert cs == cs[..n] + [cs[n]];
    }
  }

  /** When each visited connection is its user's client, the tick replenishes exactly the users
      whose client it has visited and which answered, each once, and leaves every other user as
      it was. */
  lemma {:induction false} TickUsersAt(users: map<string, UserObj>, conns: map<ConnId, Conn>, cs: seq<ConnId>, u: string)
    requires Distinct(cs)
    requires forall c :: c in cs ==> c in conns && conns[c].userId in users && users[conns[c].userId].client == Some(c)
    requires forall v :: v in users && users[v].client.Some? && users[v].client.value in cs ==>
                           conns[users[v].client.value].userId == v
    ensures TickUsers(users, conns, cs).Keys == users.Keys
    ensures u in users ==>
              TickUsers(users, conns, cs)[u] ==
              if users[u].client.Some? && users[u].client.value in cs then TickedUser(users[u], conns) else users[u]
    decreases |cs|
  {
    if cs != [] {
      var n := |cs| - 1;
      var c := cs[n];
      DistinctInit(cs);
      assert cs == cs[..n] + [c];
      TickUsersAt(users, conns, cs[..n], u);
      TickUsersAt(users, conns, cs[..n], conns[c].userId);
    }
  }

  /** What the tick may rely on: wss.clients lists every open connection once, each is its
      user's client, and every user with a client has a budget. */
  ghost predicate TickReady(users: map<string, UserObj>, conns: map<ConnId, Conn>, cs: seq<ConnId>) {
    && Distinct(cs)
    && (forall c :: c in cs <==> c in conns)
    && (forall c :: c in conns ==> conns[c].userId in users && users[conns[c].userId].client == Some(c))
    && (forall v :: v in users && users[v].client.Some? ==>
          users[v].client.value in conns && conns[users[v].client.value].userId == v && users[v].rateLimitLeft.Some?)
  }

  /** Visiting clients[i]: it has not been touched yet, and the records change as the tick's
      loop body changes them. */
  lemma TickStep(users: map<string, UserObj>, conns: map<ConnId, Conn>, cs: seq<ConnId>, i: int)
    requires TickReady(users, conns, cs) && 0 <= i < |cs|
    ensures var c, t, tu := cs[i], TickConns(conns, cs[..i]), TickUsers(users, conns, cs[..i]);
      && c in t && t[c] == conns[c]
      && TickConns(conns, cs[..i + 1]) == (if t[c].isAlive then t[c := t[c].(isAlive := false)] else t)
      && TickEvents(cs[..i + 1], conns) == TickEvents(cs[..i], conns) + [TickEvent(c, conns)]
      && (!t[c].isAlive ==> TickUsers(users, conns, cs[..i + 1]) == tu)
      && (t[c].isAlive ==>
            var u := t[c].userId;
            && u in tu && tu[u].rateLimitLeft.Some?
            && TickUsers(users, conns, cs[..i + 1]) == tu[u := tu[u].(rateLimitLeft := Some(Replenish(tu[u].rateLimitLeft.value)))])
  {
    var c, p := cs[i], cs[..i];
    assert cs[..i + 1][..i] == p;
    assert c !in p;
    TickConnsAt(conns, p, c);
    var u := conns[c].userId;
    TickUsersAt(users, conns, p, u);
  }

  /** One whole tick marks every open connection as not having answered, and replenishes exactly
      the users whose client answered. */
  lemma TickSpec(users: map<string, UserObj>, conns: map<ConnId, Conn>, cs: seq<ConnId>)
    requires TickReady(users, conns, cs)
    ensures TickConns(conns, cs).Keys == conns.Keys
    ensures forall c :: c in conns ==> TickConns(conns, cs)[c] == conns[c].(isAlive := false)
    ensures TickUsers(users, conns, cs).Keys == users.Keys
    ensures forall u :: u in users ==> TickUsers(users, conns, cs)[u] == TickedUser(users[u], conns)
  {
    TickConnsAt(conns, cs, 0);
    TickUsersAt(users, conns, cs, "");
    forall c | c in conns ensures TickConns(conns, cs)[c] == conns[c].(isAlive := false) {
      TickConnsAt(conns, cs, c);
    }
    forall u | u in users ensures TickUsers(users, conns, cs)[u] == TickedUser(users[u], conns) {
      TickUsersAt(users, conns, cs, u);
    }
  }
}
