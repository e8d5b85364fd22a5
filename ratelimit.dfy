/** Connection budget, ban and admission rules (the `upgrade` handler and `next` in src/app.ts,
    the budget update of the connection handler and the heartbeat replenishment in src/server.ts). */
module RateLimit {
  import opened Types
  import opened Constants

  /** A user's budget after a change: rateLimitLeft is always set by a change. */
  datatype Budget = Budget(rateLimitLeft: int, bannedUntilTS: Option<int>)

  /** The budget counted when none has been recorded yet (`rateLimitLeft ?? RATE_LIMIT_HALF_MIN`). */
  function Effective(rate: Option<int>): int {
    rate.GetOr(RATE_LIMIT_HALF_MIN)
  }

  /** One charge against the budget, as `next` does on a rejection and the connection handler
      does when it evicts a prior connection: one unit less, and a ban of BAN_MS from now once
      the budget is negative. There is no lower bound. */
  function Charge(rate: Option<int>, ban: Option<int>, now: int): (b: Budget)
    ensures b.rateLimitLeft == Effective(rate) - 1
    ensures b.rateLimitLeft < 0 ==> b.bannedUntilTS == Some(now + BAN_MS)
    ensures b.rateLimitLeft >= 0 ==> b.bannedUntilTS == ban
  {
    var left := Effective(rate) - 1;
    Budget(left, if left < 0 then Some(now + BAN_MS) else ban)
  }

  /** Charges at the successive instants of times, as repeated attempts make them. */
  function ChargeAll(rate: Option<int>, ban: Option<int>, times: seq<int>): Budget
    requires |times| >= 1
    decreases |times|
  {
    if |times| == 1 then Charge(rate, ban, times[0])
    else
      var b := ChargeAll(rate, ban, times[..|times| - 1]);
      Charge(Some(b.rateLimitLeft), b.bannedUntilTS, times[|times| - 1])
  }

  /** After k charges the budget is k below where it started; once it is negative the ban
      runs BAN_MS from the latest charge, so every further attempt extends it. */
  lemma {:induction false} ChargeAllSpec(rate: Option<int>, ban: Option<int>, times: seq<int>)
    requires |times| >= 1
    ensures ChargeAll(rate, ban, times).rateLimitLeft == Effective(rate) - |times|
    ensures Effective(rate) - |times| < 0 ==>
              ChargeAll(rate, ban, times).bannedUntilTS == Some(times[|times| - 1] + BAN_MS)
    ensures Effective(rate) - |times| >= 0 ==> ChargeAll(rate, ban, times).bannedUntilTS == ban
    decreases |times|
  {
    if |times| > 1 {
      ChargeAllSpec(rate, ban, times[..|times| - 1]);
    }
  }

  /** The heartbeat's replenishment: Math.min(RATE_LIMIT_HALF_MIN, rate + RATE_LIMIT_HALF_MIN). */
  function Replenish(rate: int): (r: int)
    ensures r <= RATE_LIMIT_HALF_MIN
    ensures rate <= RATE_LIMIT_HALF_MIN ==> r >= rate
    ensures rate >= 0 ==> r == RATE_LIMIT_HALF_MIN
    ensures rate < 0 ==> r == rate + RATE_LIMIT_HALF_MIN
  {
    if rate + RATE_LIMIT_HALF_MIN < RATE_LIMIT_HALF_MIN then rate + RATE_LIMIT_HALF_MIN else RATE_LIMIT_HALF_MIN
  }

  /** The budget after k heartbeat ticks. */
  function ReplenishN(rate: int, k: nat): int
    decreases k
  {
    if k == 0 then rate else Replenish(ReplenishN(rate, k - 1))
  }

  /** k ticks restore k windows' worth of budget, never beyond RATE_LIMIT_HALF_MIN: a healthy
      connection's user is back to the full budget after enough ticks. */
  lemma {:induction false} ReplenishNSpec(rate: int, k: nat)
    requires k >= 1
    ensures ReplenishN(rate, k) == if rate + RATE_LIMIT_HALF_MIN * k < RATE_LIMIT_HALF_MIN
                                   then rate + RATE_LIMIT_HALF_MIN * k else RATE_LIMIT_HALF_MIN
    decreases k
  {
    if k > 1 {
      ReplenishNSpec(rate, k - 1);
    }
  }

  /** An active ban: bannedUntilTS is set, truthy (non-zero) and later than now. */
  predicate IsBanned(ban: Option<int>, now: int) {
    ban.Some? && ban.value != 0 && ban.value > now
  }

  /** Outcome of the `upgrade` handler's checks. A rejection names the user whose budget `next`
      charges: the user record is looked up only once both parameters are present. */
  datatype Decision = Admit(userId: string, roomId: string) | Reject(charged: Option<string>)

  function Admission(users: map<string, UserObj>, rooms: set<string>, userid: Option<string>,
                     roomid: Option<string>, now: int): (d: Decision)
    ensures d.Admit? <==> Truthy(userid) && Truthy(roomid) && userid.value in users
                          && roomid.value in rooms && !IsBanned(users[userid.value].bannedUntilTS, now)
    ensures d.Admit? ==> d == Admit(userid.value, roomid.value)
    ensures d.Reject? ==> (d.charged.Some? <==> Truthy(userid) && Truthy(roomid) && userid.value in users)
    ensures d.Reject? && d.charged.Some? ==> d.charged.value == userid.value
  {
    if !Truthy(userid) || !Truthy(roomid) then Reject(None)
    else if userid.value !in users then Reject(None)
    else if roomid.value !in rooms || IsBanned(users[userid.value].bannedUntilTS, now) then Reject(Some(userid.value))
    else Admit(userid.value, roomid.value)
  }

  /** The property names a plain JavaScript object inherits from Object.prototype. Indexing
      userMap or roomMap with one of them finds a truthy value (a function, or the prototype
      itself for __proto__) although no record was ever stored under it, and that value has no
      bannedUntilTS. */
  const INHERITED_KEYS: set<string> := {
    "constructor", "__proto__", "__defineGetter__", "__defineSetter__", "__lookupGetter__",
    "__lookupSetter__", "hasOwnProperty", "isPrototypeOf", "propertyIsEnumerable",
    "toLocaleString", "toString", "valueOf"}

  /** The `upgrade` handler's checks as written, over plain objects: a parameter is found when
      it is a stored key or an inherited one, and only a stored user can carry a ban. */
  function AdmissionAsWritten(users: map<string, UserObj>, rooms: set<string>, userid: Option<string>,
                              roomid: Option<string>, now: int): (d: Decision)
    ensures d.Admit? <==> Truthy(userid) && Truthy(roomid)
                          && (userid.value in users || userid.value in INHERITED_KEYS)
                          && (roomid.value in rooms || roomid.value in INHERITED_KEYS)
                          && !(userid.value in users && IsBanned(users[userid.value].bannedUntilTS, now))
    ensures d.Admit? ==> d == Admit(userid.value, roomid.value)
  {
    if !Truthy(userid) || !Truthy(roomid) then Reject(None)
    else if userid.value !in users && userid.value !in INHERITED_KEYS then Reject(None)
    else if (roomid.value !in rooms && roomid.value !in INHERITED_KEYS)
         || (userid.value in users && IsBanned(users[userid.value].bannedUntilTS, now)) then Reject(Some(userid.value))
    else Admit(userid.value, roomid.value)
  }

  /** The checks as written admit a request whose userid is `constructor` to any existing room
      although no such user was ever loaded, while Admission refuses it without charging anyone. */
  lemma InheritedUserAdmitted(users: map<string, UserObj>, rooms: set<string>, r: string, now: int)
    requires "constructor" !in users && r != "" && r in rooms
    ensures AdmissionAsWritten(users, rooms, Some("constructor"), Some(r), now) == Admit("constructor", r)
    ensures Admission(users, rooms, Some("constructor"), Some(r), now) == Reject(None)
  {
  }

  /** Away from the inherited names the two decisions agree, so Admission differs from the
      checks as written only in refusing names no record was stored under. */
  lemma AdmissionAsWrittenAgrees(users: map<string, UserObj>, rooms: set<string>, userid: Option<string>,
                                 roomid: Option<string>, now: int)
    requires userid.Some? ==> userid.value !in INHERITED_KEYS || userid.value in users
    requires roomid.Some? ==> roomid.value !in INHERITED_KEYS || roomid.value in rooms
    ensures AdmissionAsWritten(users, rooms, userid, roomid, now) == Admission(users, rooms, userid, roomid, now)
  {
  }

  /** A user who has spent the whole budget with attempts made at times (non-negative clock)
      is refused at every instant before BAN_MS after the last attempt, and admitted again
      (to an existing room) from that instant on. */
  lemma {:induction false} BanWindow(users: map<string, UserObj>, rooms: set<string>, u: string, r: string,
                                     rate: Option<int>, ban: Option<int>, times: seq<int>, t: int)
    requires u != "" && r != "" && u in users && r in rooms
    requires |times| >= 1 && times[|times| - 1] >= 0
    requires Effective(rate) < |times|
    requires users[u].bannedUntilTS == ChargeAll(rate, ban, times).bannedUntilTS
    ensures Admission(users, rooms, Some(u), Some(r), t).Admit? <==> t >= times[|times| - 1] + BAN_MS
  {
    ChargeAllSpec(rate, ban, times);
  }

  /** While the budget stays non-negative, charges never set a ban: an unbanned user keeps being
      admitted, so Effective(rate) + 1 attempts are needed before the first refusal. */
  lemma {:induction false} NoBanWithinBudget(users: map<string, UserObj>, rooms: set<string>, u: string, r: string,
                                             rate: Option<int>, ban: Option<int>, times: seq<int>, t: int)
    requires u != "" && r != "" && u in users && r in rooms
    requires 1 <= |times| <= Effective(rate)
    requires !IsBanned(ban, t)
    requires users[u].bannedUntilTS == ChargeAll(rate, ban, times).bannedUntilTS
    ensures Admission(users, rooms, Some(u), Some(r), t).Admit?
  {
    ChargeAllSpec(rate, ban, times);
  }
}
