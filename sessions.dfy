/**
 * The server's session aggregator as pure operations on the user table: what a
 * connection, a `track_event` message and a disconnect do to the table and
 * what they broadcast. The `Server` class follows these functions; the lemmas
 * here relate several operations (counts over a run of events, the log of a
 * whole session, the table only ever growing).
 */
module Sessions {
  import opened Wrappers
  import opened JsString
  import opened Protocol
  import opened Identity

  const DEFAULT_SCREEN_WIDTH := 1920
  const DEFAULT_SCREEN_HEIGHT := 1080
  const UNKNOWN := "Unknown"
  const DESKTOP := "desktop"
  const UNKNOWN_PAGE := "unknown"
  const ADMIN_PATH := "/admin"
  const MAPPED_V4_PREFIX := "::ffff:"
  const LOOPBACK_V6 := "::1"
  const LOOPBACK_V4 := "127.0.0.1"

  /** The location `geoip.lookup` reports; only the fields of the default are modelled. */
  datatype Geo = Geo(country: string, city: string)

  const UNKNOWN_GEO := Geo(UNKNOWN, UNKNOWN)

  /** The parts of the `UAParser` result the server reads; `undefined` is `None`. */
  datatype UaResult = UaResult(
    browserName: Option<string>,
    browserVersion: Option<string>,
    osName: Option<string>,
    osVersion: Option<string>,
    deviceType: Option<string>)

  datatype Screen = Screen(width: int, height: int)

  datatype Device = Device(browser: string, os: string, deviceType: string, screen: Screen)

  /** One entry of a user's `actions` log. */
  datatype Action =
    | Tracked(kind: string, data: Option<Payload>, timestamp: int, page: string)
    | Disconnected(timestamp: int)

  /** A user record; `actions` may be missing from a record loaded from disk. */
  datatype UserRecord = UserRecord(
    id: string,
    ip: string,
    geo: Geo,
    device: Device,
    firstSeen: int,
    lastSeen: int,
    totalTime: int,
    actions: Option<seq<Action>>)

  /** `db.users`: user id to record. */
  type Table = map<string, UserRecord>

  /** The handshake headers and address of a socket connection. */
  datatype Handshake = Handshake(
    referer: Option<string>,
    forwardedFor: Option<string>,
    address: string,
    cookie: Option<string>)

  /** The `user_action` broadcast. */
  datatype UserActionMsg = UserActionMsg(userId: string, event: Action, totalActions: nat)

  /** What a connection leads to: an observer gets the whole table, a visitor's record is broadcast. */
  datatype Connection =
    | Observer(fullUserData: Table)
    | Session(userId: string, userUpdate: UserRecord)

  /** A `track_event` message and the time it arrived. */
  datatype Arrival = Arrival(msg: Envelope, time: int)

  /** An optional string inside a template literal: absent renders as `undefined`. */
  function Shown(o: Option<string>): string {
    o.GetOr("undefined")
  }

  /** The `device` part of a new record. */
  function DeviceOf(ua: UaResult): (d: Device)
    ensures d.deviceType != ""
    ensures ua.deviceType.Some? && ua.deviceType.value != "" ==> d.deviceType == ua.deviceType.value
    ensures ua.deviceType.None? || ua.deviceType.value == "" ==> d.deviceType == DESKTOP
    ensures d.screen == Screen(DEFAULT_SCREEN_WIDTH, DEFAULT_SCREEN_HEIGHT)
  {
    Device(
      Shown(ua.browserName) + " " + Shown(ua.browserVersion),
      Shown(ua.osName) + " " + Shown(ua.osVersion),
      if ua.deviceType.Some? && ua.deviceType.value != "" then ua.deviceType.value else DESKTOP,
      Screen(DEFAULT_SCREEN_WIDTH, DEFAULT_SCREEN_HEIGHT))
  }

  /** The client address: the `x-forwarded-for` header when present and non-empty, else the socket's. */
  function ClientIp(h: Handshake): (ip: string)
    ensures h.forwardedFor.Some? && h.forwardedFor.value != "" ==> ip == h.forwardedFor.value
    ensures h.forwardedFor.None? || h.forwardedFor.value == "" ==> ip == h.address
  {
    if h.forwardedFor.Some? && h.forwardedFor.value != "" then h.forwardedFor.value else h.address
  }

  /** The address looked up: the first `::ffff:` removed, then the first `::1` replaced by `127.0.0.1`. */
  function NormalizeIp(ip: string): string {
    ReplaceFirst(ReplaceFirst(ip, MAPPED_V4_PREFIX, ""), LOOPBACK_V6, LOOPBACK_V4)
  }

  /** A string without `:` contains no `::1` and no `::ffff:`. */
  lemma NoColonNoMatch(s: string, pat: string)
    requires ':' !in s && |pat| >= 1 && pat[0] == ':'
    ensures IndexOf(s, pat) == None
  {
  }

  /** An IPv4-mapped IPv6 address is looked up as the plain IPv4 address. */
  lemma NormalizeMappedV4(v4: string)
    requires ':' !in v4
    ensures NormalizeIp(MAPPED_V4_PREFIX + v4) == v4
  {
    var s := MAPPED_V4_PREFIX + v4;
    assert s[..|MAPPED_V4_PREFIX|] == MAPPED_V4_PREFIX;
    assert s[|MAPPED_V4_PREFIX|..] == v4;
    assert ReplaceFirst(s, MAPPED_V4_PREFIX, "") == v4;
    NoColonNoMatch(v4, LOOPBACK_V6);
  }

  /** A plain IPv4 address is looked up unchanged. */
  lemma NormalizePlainV4(v4: string)
    requires ':' !in v4
    ensures NormalizeIp(v4) == v4
  {
    NoColonNoMatch(v4, MAPPED_V4_PREFIX);
    NoColonNoMatch(v4, LOOPBACK_V6);
  }

  /** The IPv6 loopback is looked up as the IPv4 loopback. */
  lemma NormalizeLoopback()
    ensures NormalizeIp(LOOPBACK_V6) == LOOPBACK_V4
  {
    assert ReplaceFirst(LOOPBACK_V6, MAPPED_V4_PREFIX, "") == LOOPBACK_V6;
    assert LOOPBACK_V6[..|LOOPBACK_V6|] == LOOPBACK_V6;
  }

  /**
   * The replacement is a substring match, not an address comparison: the IPv6
   * address `::10` is looked up as `127.0.0.10`.
   */
  lemma NormalizeRewritesOtherAddress()
    ensures NormalizeIp("::10") == "127.0.0.10"
  {
    var a := "::10";
    assert ReplaceFirst(a, MAPPED_V4_PREFIX, "") == a;
    assert a[..3] == LOOPBACK_V6;
    assert a[..0] + LOOPBACK_V4 + a[3..] == "127.0.0.10";
  }

  /** A connection from the admin page: its referer mentions `/admin`. */
  predicate IsObserver(h: Handshake) {
    h.referer.Some? && Includes(h.referer.value, ADMIN_PATH)
  }

  /** The record a first connection creates. */
  function NewRecord(uid: string, ip: string, geo: Option<Geo>, ua: UaResult, now: int): UserRecord {
    UserRecord(uid, ip, geo.GetOr(UNKNOWN_GEO), DeviceOf(ua), now, now, 0, Some([]))
  }

  /** Lazy record creation: an unknown id gets `created`, a known one keeps its record. */
  function Admit(t: Table, uid: string, created: UserRecord): (t': Table)
    ensures t'.Keys == t.Keys + {uid}
    ensures forall u :: u in t ==> t'[u] == t[u]
    ensures uid !in t ==> t'[uid] == created
  {
    if uid in t then t else t[uid := created]
  }

  /**
   * A connection. An observer changes nothing and receives the table. A visitor
   * is identified from its cookie; an unknown id gets a new record with the
   * defaults (its address, the looked-up location or `Unknown`/`Unknown`, the
   * parsed device, first and last seen now, no time spent, an empty log), a
   * known one keeps its record; no other record changes, and the visitor's
   * record is broadcast.
   */
  function Connect(t: Table, h: Handshake, now: nat, rand: RandomSuffix, lookup: string -> Option<Geo>, ua: UaResult)
    : (r: (Table, Connection))
    ensures IsObserver(h) ==> r == (t, Observer(t))
    ensures !IsObserver(h) ==>
      var uid := ResolveUserId(h.cookie, now, rand);
      && r.0.Keys == t.Keys + {uid}
      && (forall u :: u in t ==> r.0[u] == t[u])
      && r.1 == Session(uid, r.0[uid])
    ensures !IsObserver(h) && ResolveUserId(h.cookie, now, rand) !in t ==>
      var uid := ResolveUserId(h.cookie, now, rand);
      var rec := r.0[uid];
      && rec.id == uid
      && rec.ip == ClientIp(h)
      && rec.geo == lookup(NormalizeIp(ClientIp(h))).GetOr(UNKNOWN_GEO)
      && rec.device == DeviceOf(ua)
      && rec.firstSeen == now && rec.lastSeen == now
      && rec.totalTime == 0
      && rec.actions == Some([])
  {
    if IsObserver(h) then (t, Observer(t))
    else
      var uid := ResolveUserId(h.cookie, now, rand);
      var ip := ClientIp(h);
      var t' := Admit(t, uid, NewRecord(uid, ip, lookup(NormalizeIp(ip)), ua, now));
      (t', Session(uid, t'[uid]))
  }

  /** A connection under a known id changes nothing and broadcasts the stored record. */
  lemma ConnectKnownVisitor(t: Table, h: Handshake, now: nat, rand: RandomSuffix, lookup: string -> Option<Geo>, ua: UaResult)
    requires !IsObserver(h) && ResolveUserId(h.cookie, now, rand) in t
    ensures var uid := ResolveUserId(h.cookie, now, rand);
      Connect(t, h, now, rand, lookup, ua) == (t, Session(uid, t[uid]))
  {
  }

  /** `data.page || 'unknown'`: the page an event is filed under is never empty. */
  function PageOrUnknown(page: Option<string>): (p: string)
    ensures p != ""
    ensures page.Some? && page.value != "" ==> p == page.value
    ensures page.None? || page.value == "" ==> p == UNKNOWN_PAGE
  {
    if page.Some? && page.value != "" then page.value else UNKNOWN_PAGE
  }

  /** The log entry a `track_event` message becomes. */
  function Stamp(a: Arrival): Action {
    Tracked(a.msg.kind, a.msg.data, a.time, PageOrUnknown(a.msg.page))
  }

  /** The entries a run of messages becomes. */
  function Stamps(arrivals: seq<Arrival>): (r: seq<Action>)
    ensures |r| == |arrivals|
    ensures forall k :: 0 <= k < |r| ==> r[k] == Stamp(arrivals[k])
  {
    if arrivals == [] then [] else [Stamp(arrivals[0])] + Stamps(arrivals[1..])
  }

  /** A record's log; a missing one reads as empty. */
  function Log(rec: UserRecord): seq<Action> {
    rec.actions.GetOr([])
  }

  /**
   * `track_event`: exactly one entry is appended to the user's log (a missing
   * log is first initialised to empty), `lastSeen` becomes the arrival time,
   * nothing else changes, and the broadcast count is the new log length.
   */
  function Track(t: Table, uid: string, a: Arrival): (r: (Table, UserActionMsg))
    requires uid in t
    ensures r.0.Keys == t.Keys
    ensures forall u :: u in t && u != uid ==> r.0[u] == t[u]
    ensures r.0[uid].actions == Some(Log(t[uid]) + [Stamp(a)])
    ensures r.0[uid].lastSeen == a.time
    ensures r.0[uid].(actions := t[uid].actions, lastSeen := t[uid].lastSeen) == t[uid]
    ensures r.1 == UserActionMsg(uid, Stamp(a), |Log(t[uid])| + 1)
  {
    var rec := t[uid];
    var log := Log(rec) + [Stamp(a)];
    (t[uid := rec.(actions := Some(log), lastSeen := a.time)], UserActionMsg(uid, Stamp(a), |log|))
  }

  /**
   * `disconnect`: a `disconnect` entry is appended and the count broadcast; the
   * push fails (a `TypeError`, nothing changes) when the record has no log.
   * `lastSeen` is not touched.
   */
  function Disconnect(t: Table, uid: string, now: int): (r: Result<(Table, UserActionMsg)>)
    requires uid in t
    ensures r.Err? <==> t[uid].actions.None?
    ensures r.Ok? ==>
      && r.value.0.Keys == t.Keys
      && (forall u :: u in t && u != uid ==> r.value.0[u] == t[u])
      && r.value.0[uid] == t[uid].(actions := Some(t[uid].actions.value + [Disconnected(now)]))
      && r.value.1 == UserActionMsg(uid, Disconnected(now), |t[uid].actions.value| + 1)
  {
    var rec := t[uid];
    if rec.actions.None? then Err("TypeError: cannot read properties of undefined (reading 'push')")
    else
      var log := rec.actions.value + [Disconnected(now)];
      Ok((t[uid := rec.(actions := Some(log))], UserActionMsg(uid, Disconnected(now), |log|)))
  }

  /** A run of `track_event` messages from one connection: the table after it and the broadcasts. */
  function TrackAll(t: Table, uid: string, arrivals: seq<Arrival>): (r: (Table, seq<UserActionMsg>))
    requires uid in t
    ensures uid in r.0 && r.0.Keys == t.Keys
    ensures |r.1| == |arrivals|
    decreases |arrivals|
  {
    if arrivals == [] then (t, [])
    else
      var step := Track(t, uid, arrivals[0]);
      var rest := TrackAll(step.0, uid, arrivals[1..]);
      (rest.0, [step.1] + rest.1)
  }

  /** N events give counts old+1, ..., old+N. */
  lemma {:induction false} TrackAllCounts(t: Table, uid: string, arrivals: seq<Arrival>)
    requires uid in t
    ensures forall k :: 0 <= k < |arrivals| ==> TrackAll(t, uid, arrivals).1[k].totalActions == |Log(t[uid])| + k + 1
    decreases |arrivals|
  {
    if arrivals != [] {
      var step := Track(t, uid, arrivals[0]);
      TrackAllCounts(step.0, uid, arrivals[1..]);
      var rest := TrackAll(step.0, uid, arrivals[1..]).1;
      var out := [step.1] + rest;
      assert |Log(step.0[uid])| == |Log(t[uid])| + 1;
      assert TrackAll(t, uid, arrivals).1 == out;
      forall k | 0 <= k < |arrivals|
        ensures out[k].totalActions == |Log(t[uid])| + k + 1
      {
        if k == 0 {
          assert out[0] == step.1;
        } else {
          assert out[k] == rest[k - 1];
        }
      }
    }
  }

  /** The log gains exactly the entries of the events, in order; no other record changes. */
  lemma {:induction false} TrackAllLog(t: Table, uid: string, arrivals: seq<Arrival>)
    requires uid in t
    ensures var t' := TrackAll(t, uid, arrivals).0;
      && Log(t'[uid]) == Log(t[uid]) + Stamps(arrivals)
      && (forall u :: u in t && u != uid ==> t'[u] == t[u])
    decreases |arrivals|
  {
    if arrivals != [] {
      var step := Track(t, uid, arrivals[0]);
      TrackAllLog(step.0, uid, arrivals[1..]);
      var head, tail := [Stamp(arrivals[0])], Stamps(arrivals[1..]);
      assert Stamps(arrivals) == head + tail;
      assert Log(step.0[uid]) == Log(t[uid]) + head;
      AppendAssoc(Log(t[uid]), head, tail);
    }
  }

  /**
   * A first-time visitor's whole session: after the connection creates the
   * record, N events and the disconnect leave the log holding the N entries and
   * then the `disconnect` entry, and the last broadcast count is N + 1.
   */
  lemma SessionLog(t: Table, h: Handshake, now: nat, rand: RandomSuffix, lookup: string -> Option<Geo>, ua: UaResult,
                   arrivals: seq<Arrival>, end: int)
    requires !IsObserver(h) && ResolveUserId(h.cookie, now, rand) !in t
    ensures var uid := ResolveUserId(h.cookie, now, rand);
      var t1 := Connect(t, h, now, rand, lookup, ua).0;
      var t2 := TrackAll(t1, uid, arrivals).0;
      var d := Disconnect(t2, uid, end);
      && d.Ok?
      && d.value.0[uid].actions == Some(Stamps(arrivals) + [Disconnected(end)])
      && d.value.1.totalActions == |arrivals| + 1
  {
    var uid := ResolveUserId(h.cookie, now, rand);
    var t1 := Connect(t, h, now, rand, lookup, ua).0;
    TrackAllLog(t1, uid, arrivals);
    var t2 := TrackAll(t1, uid, arrivals).0;
    assert t2[uid].actions.Some? by {
      if arrivals != [] {
        TrackAllKeepsLog(t1, uid, arrivals);
      }
    }
    assert Log(t2[uid]) == Stamps(arrivals);
  }

  /** Once a user has a log, a run of events keeps one. */
  lemma {:induction false} TrackAllKeepsLog(t: Table, uid: string, arrivals: seq<Arrival>)
    requires uid in t && (arrivals != [] || t[uid].actions.Some?)
    ensures TrackAll(t, uid, arrivals).0[uid].actions.Some?
    decreases |arrivals|
  {
    if arrivals != [] {
      TrackAllKeepsLog(Track(t, uid, arrivals[0]).0, uid, arrivals[1..]);
    }
  }

  /**
   * The table only grows: no user disappears, a log is only appended to, and a
   * log once present stays present.
   */
  predicate Extends(t: Table, t': Table) {
    forall u :: u in t ==>
      && u in t'
      && Log(t[u]) <= Log(t'[u])
      && (t[u].actions.Some? ==> t'[u].actions.Some?)
  }

  lemma ConnectExtends(t: Table, h: Handshake, now: nat, rand: RandomSuffix, lookup: string -> Option<Geo>, ua: UaResult)
    ensures Extends(t, Connect(t, h, now, rand, lookup, ua).0)
  {
  }

  lemma TrackExtends(t: Table, uid: string, a: Arrival)
    requires uid in t
    ensures Extends(t, Track(t, uid, a).0)
  {
  }

  lemma DisconnectExtends(t: Table, uid: string, now: int)
    requires uid in t
    ensures Disconnect(t, uid, now).Ok? ==> Extends(t, Disconnect(t, uid, now).value.0)
  {
  }

  lemma ExtendsTransitive(t1: Table, t2: Table, t3: Table)
    requires Extends(t1, t2) && Extends(t2, t3)
    ensures Extends(t1, t3)
  {
  }
}
