/**
 * The server process: the `db.users` table it keeps in memory and the three
 * socket handlers that change it. Each handler's new table and broadcast are
 * those of the matching `Sessions` operation. The clock, the random suffix,
 * `geoip.lookup` and the `UAParser` result are parameters.
 */
module Aggregator {
  import opened Wrappers
  import opened JsString
  import opened Identity
  import opened Protocol
  import opened Sessions

  class Server {
    var users: Table

    /**
     * Start-up: the table read from `database.json` when reading and parsing
     * succeeded (`loaded`), the empty table otherwise.
     */
    constructor (loaded: Option<Table>)
      ensures loaded.None? ==> users == map[]
      ensures loaded.Some? ==> users == loaded.value
    {
      if loaded.Some? {
        users := loaded.value;
      } else {
        users := map[];
      }
    }

    /** `connection`: the admin short-circuit, or identification and lazy record creation. */
    method OnConnection(h: Handshake, now: nat, rand: RandomSuffix, lookup: string -> Option<Geo>, ua: UaResult)
      returns (c: Connection)
      modifies this
      ensures (users, c) == Connect(old(users), h, now, rand, lookup, ua)
    {
      if h.referer.Some? && Includes(h.referer.value, ADMIN_PATH) {
        return Observer(users);
      }
      var ip := if h.forwardedFor.Some? && h.forwardedFor.value != "" then h.forwardedFor.value else h.address;
      var userId := ResolveUserId(h.cookie, now, rand);
      var geo := lookup(NormalizeIp(ip));
      if userId !in users {
        users := users[userId := NewRecord(userId, ip, geo, ua, now)];
      }
      c := Session(userId, users[userId]);
    }

    /** `track_event` on the connection identified as `userId`. */
    method OnTrackEvent(userId: string, a: Arrival) returns (update: UserActionMsg)
      requires userId in users
      modifies this
      ensures (users, update) == Track(old(users), userId, a)
    {
      var event := Tracked(a.msg.kind, a.msg.data, a.time,
        if a.msg.page.Some? && a.msg.page.value != "" then a.msg.page.value else UNKNOWN_PAGE);
      if users[userId].actions.None? {
        users := users[userId := users[userId].(actions := Some([]))];
      }
      var log := users[userId].actions.value + [event];
      assert log == Log(old(users)[userId]) + [Stamp(a)];
      users := users[userId := users[userId].(actions := Some(log), lastSeen := a.time)];
      assert users == old(users)[userId := old(users)[userId].(actions := Some(log), lastSeen := a.time)];
      update := UserActionMsg(userId, event, |log|);
    }

    /** `disconnect` on the connection identified as `userId`; a missing log makes the push throw. */
    method OnDisconnect(userId: string, now: int) returns (r: Result<UserActionMsg>)
      requires userId in users
      modifies this
      ensures Disconnect(old(users), userId, now).Err? ==> users == old(users) && r.Err?
      ensures Disconnect(old(users), userId, now).Ok? ==>
        var (t', msg) := Disconnect(old(users), userId, now).value;
        users == t' && r == Ok(msg)
    {
      var rec := users[userId];
      if rec.actions.None? {
        return Err("TypeError: cannot read properties of undefined (reading 'push')");
      }
      var event := Disconnected(now);
      var log := rec.actions.value + [event];
      users := users[userId := rec.(actions := Some(log))];
      r := Ok(UserActionMsg(userId, event, |log|));
    }
  }
}
