# Browser-behaviour tracker, modelled in Dafny

The system records what visitors do on a web page and relays it live to an
admin view. A capture agent runs in the visitor's browser (`public/script.js`,
and the older `script.js`): it gives the visitor a persistent `tracking_id`
cookie, sends a page view with the visible layout on start-up, and then reports
mouse hovers (throttled: a new target, or the same one after more than ten
seconds), scroll offsets (only when they change), clicks, tab visibility,
page leave, history navigation, and typed text (buffered and sent once the
visitor has stopped typing for four seconds). A server (`server.js`) accepts the
socket connections, identifies each visitor from the cookie (minting an id when
there is none), creates the visitor's record on first sight (location, device,
first/last seen, an empty action log), appends every reported event to the log
with a timestamp and the page (`unknown` when none was given), appends a
`disconnect` entry when the socket closes, and broadcasts each change with the
running action count. A connection whose referer contains `/admin` is an
observer: it receives the whole table and is not tracked.

Modules:

- `Wrappers` — `Option` and `Result`.
- `JsString` — the JavaScript string built-ins the core relies on: `trim`,
  `split`, `indexOf`/`includes`, `replace` of the first occurrence,
  `Array.find`, and decimal rendering of integers.
- `Dom` — the browser's element and window state as values; the element
  snapshot (`getElementInfo`) and the visible-element scan
  (`getVisibleElements`, a loop proved against `VisibleSnapshots`).
- `Protocol` — the `track_event` message envelope and its payloads.
- `Identity` — the `tracking_id` cookie: minting on the client, resolution on
  the server, and the round trip between them.
- `CapturePolicy` — the agent's decision rules as functions over runs of
  events: the mouse throttle, change-only reporting, the keystroke buffer.
- `Agent` — `public/script.js` as a class whose fields are the script's shared
  variables and whose methods are its event handlers.
- `LegacyAgent` — `script.js`, the same without scroll and keystroke tracking.
- `Sessions` — the server's table of user records and its handlers as
  functions on the table, with the lemmas about whole sessions.
- `Aggregator` — the server as a class holding the table, each handler proved
  equal to its `Sessions` function.

Times are integers in milliseconds; the clock, `Math.random`, the geolocation
lookup and the user-agent parser result are parameters of the operations that
use them.

## Model

| member | source | states |
|---|---|---|
| JsString.Trim | public/script.js:95 | the trimmed text is no longer than the input, starts and ends with a non-space, and only holds characters of the input |
| JsString.TrimUnique | public/script.js:95 | surrounding whitespace is exactly what `trim` removes: trimming spaces + m + spaces gives m |
| JsString.TrimIdempotent | public/script.js:95 | trimming twice is trimming once |
| JsString.Split | server.js:70 | `split` yields at least one piece, no piece holds the separator, and joining the pieces gives back the input |
| JsString.SplitJoin | server.js:70 | splitting the join of separator-free pieces gives back the pieces |
| JsString.SplitConcat | server.js:70 | splitting a + d + b is splitting a followed by splitting b |
| JsString.IndexOf | server.js:57 | the index found is the first occurrence of the pattern; none means it occurs nowhere |
| JsString.FindIndex | server.js:70 | `find` picks the first element satisfying the test; none means no element does |
| JsString.FindIndexConcat | server.js:70 | searching a + b finds in a first, otherwise in b shifted by the length of a |
| JsString.ReplaceFirst | server.js:73 | `replace` with a string pattern rewrites only the first occurrence; what it does to client addresses is stated by the `Sessions.Normalize…` lemmas below |
| JsString.Decimal | public/script.js:3 | an integer is rendered with at least one digit and digits only |
| JsString.DecimalRoundTrip | public/script.js:3 | reading the rendered digits back gives the integer |
| Dom.OrNull | public/script.js:98-99 | `x \|\| null` on a string is null exactly for the empty string and the string itself otherwise |
| Dom.SnapshotText | public/script.js:95-100 | the snapshot text is null exactly when the trimmed text is empty, is never longer than 50, is the trimmed text when that fits, and its first 47 characters plus `...` otherwise |
| Dom.VisibleSnapshots | public/script.js:155-172 | the scan keeps at most one entry per element and only visible ones |
| Dom.VisibleSnapshotsConcat | public/script.js:155-172 | scanning a list is scanning its parts in order |
| Dom.GetElementInfo | public/script.js:94-103 | the snapshot of an element: its tag and box as read, its id and class through `Dom.OrNull`, its text through `Dom.SnapshotText` |
| Dom.InfoOf | public/script.js:52 | the snapshot of the element under the pointer, or none when there is no element there |
| Dom.VisibleSnapshotsComplete | public/script.js:157-159 | every element with positive width and height whose top edge is above the viewport's bottom and whose left edge is left of its right side is reported; this includes elements lying wholly above or to the left of the viewport, since those edges are not tested |
| Dom.VisibleSnapshotsSound | public/script.js:157-170 | every reported entry is the snapshot of a visible element of the document |
| Dom.GetVisibleElements | public/script.js:151-174 | the loop returns exactly the visible snapshots, in document order |
| Identity.MintId | public/script.js:3 | a minted id starts with `user-`, holds no `;` or `=`, and ends in a digit |
| Identity.ClientMintedId | public/script.js:1-5 | the client mints an id exactly when no cookie segment, once trimmed, starts with `tracking_id=`, and that id is `user-<ms>-<0..999>` |
| Identity.HasTrackingCookie | public/script.js:2 | some `;`-piece of the cookie, once trimmed, starts with `tracking_id=`; which piece is the first such is given by `JsString.FindIndex` |
| Identity.CookieAfterMint | public/script.js:4 | the cookie string after `tracking_id=<id>` has been set: the piece alone, or appended after `; `; read back by `Identity.StoredIdResolves` |
| Identity.ResolveUserId | server.js:65-71 | with no tracking segment (including no cookie header) the server mints an id; otherwise the id is the text between the first and the second `=` (or the end) of the first tracking segment, and holds no `=` and no `;` |
| Identity.SegmentValueUnique | server.js:71 | a segment has only one such value, so the contract of `Identity.ResolveUserId` determines the id |
| Identity.TrackingCookieAmongOthers | server.js:70-71 | with non-tracking cookies before the tracking cookie and any cookies after it, the server reads the tracking cookie's value |
| Identity.TrackingSegmentHasEquals | server.js:70-71 | a tracking segment always has a second `=`-piece to read |
| Identity.StoredIdResolves | server.js:65-71 | after the browser appends `tracking_id=<v>` to a cookie without a tracking segment, the server reads back v |
| Identity.MintedIdRoundTrip | public/script.js:2-4 | the id the client mints and stores is the id the server resolves from the resulting cookie |
| Identity.FirstSegmentWins | server.js:70 | when a tracking segment exists, a later one appended after it does not change the resolved id |
| Identity.EmptyCookieHasNone | server.js:65 | the empty cookie has no tracking segment |
| Identity.NoCookieMints | server.js:65-71 | a missing or empty cookie header makes the server mint an id |
| CapturePolicy.MouseEmits | public/script.js:55-58 | a move is reported when it is over an element and more than ten seconds have passed, nothing was reported before, or the id or tag differs; its consequences are the `MouseRun…` and `HoverHeartbeatSpacing` lemmas |
| CapturePolicy.MouseStep | public/script.js:59-60 | the throttle remembers the target and time of a reported move and keeps its state otherwise (`CapturePolicy.MouseRunLast`) |
| CapturePolicy.MouseRun | public/script.js:55-60 | a run of pointer moves reports at most one per move, and only moves over an element |
| CapturePolicy.MouseRunSnoc | public/script.js:55-60 | one more move extends the run by exactly that move's step and its report, if it is reported |
| CapturePolicy.MouseRunConcat | public/script.js:55-60 | a run split in two is the second part run from the state the first part left, with the reports of both in order |
| CapturePolicy.MouseRunLast | public/script.js:59-60 | the throttle remembers the target and time of the last reported move, or its initial state when nothing was reported |
| CapturePolicy.HoverHeartbeatSpacing | public/script.js:55-58 | while the pointer stays over the same element, reports are more than ten seconds apart |
| CapturePolicy.ChangeRun | public/script.js:35-36 | change-only reporting reports at most one value per observation |
| CapturePolicy.ChangeRunSnoc | public/script.js:35-36 | one more observation is reported exactly when it differs from the last reported value, which it then replaces |
| CapturePolicy.ChangeRunFinal | public/script.js:36 | after a run the remembered value is the last observation |
| CapturePolicy.ChangeRunNoRepeats | public/script.js:35 | no reported value equals the one reported (or held) just before it |
| CapturePolicy.ChangeRunQuiet | public/script.js:35 | nothing is reported exactly when every observation equals the initial value |
| CapturePolicy.ChangeRunObserved | public/script.js:35-36 | only observed values are reported |
| CapturePolicy.IsTextEntry | public/script.js:184-191 | keys are captured only when an `INPUT`, a `TEXTAREA` or an editable element has focus; `Agent.Tracker.OnKeyDown` changes nothing otherwise |
| CapturePolicy.EditBuffer | public/script.js:193-199 | one key's edit of the buffer; its promises are `CapturePolicy.TypedText`, `BackspaceUndoes`, `BackspacesClear`, `EditBufferBounds` and `HelpExample` |
| CapturePolicy.BackspaceUndoes | public/script.js:193-198 | Backspace after a one-character key restores the buffer |
| CapturePolicy.EditBufferBounds | public/script.js:193-199 | one key changes the buffer length by at most one and never touches its earlier characters |
| CapturePolicy.TypedText | public/script.js:193-194 | typing one-character keys appends exactly those characters |
| CapturePolicy.ApplyKeysLength | public/script.js:193-199 | the buffer grows by at most one character per key |
| CapturePolicy.BackspacesClear | public/script.js:197-198 | at least as many Backspaces as buffered characters empty the buffer |
| CapturePolicy.HelpExample | public/script.js:193-198 | typing h, e, l, l, o, Backspace, Backspace, p leaves `help` |
| CapturePolicy.ApplyKeysSplit | public/script.js:193-199 | a key sequence typed in two parts edits the buffer as the whole sequence does |
| Agent.Tracker.HoverReportsSpaced | public/script.js:55-60 | once the hovered element has been reported, the handler's later reports while the pointer stays over it are more than ten seconds apart |
| Agent.Tracker.ReportsChangeEachTime | public/script.js:35-36 | no scroll offset and no `popstate` path reported by the handlers repeats the one before it |
| Agent.Tracker.constructor | public/script.js:7-31 | start-up clears the throttle, records the page and scroll offset, empties the keystroke state, sends one page view with the referrer, URL, visible elements, viewport and scroll, and starts the histories the invariant relates to the capture policy |
| Agent.Tracker.OnScroll | public/script.js:32-46 | a changed offset is remembered and sent once; an unchanged offset sends nothing; the offset state stays that of `CapturePolicy.ChangeRun` over all offsets seen |
| Agent.Tracker.OnMouseMove | public/script.js:49-78 | the throttle state advances by the policy step and a `mouse_move` is sent exactly when the policy reports the move; state and reports stay those of `CapturePolicy.MouseRun` over all moves seen |
| Agent.Tracker.OnClick | public/script.js:81-91 | every click sends one `click` with the target's snapshot and the position |
| Agent.Tracker.OnVisibilityChange | public/script.js:106-118 | sends `tab_hidden` when the page became hidden and `tab_visible` otherwise |
| Agent.Tracker.OnBeforeUnload | public/script.js:121-126 | sends one `page_leave` |
| Agent.Tracker.OnPopState | public/script.js:130-148 | a new path becomes the current page and sends a page view without referrer; the same path changes and sends nothing; the page stays that of `CapturePolicy.ChangeRun` over all paths seen |
| Agent.Tracker.OnKeyDown | public/script.js:181-203 | in a text entry the key edits the buffer, the entry is remembered and the idle timer restarts four seconds ahead; elsewhere nothing changes |
| Agent.Tracker.OnIdleTimer | public/script.js:203-215 | when the timer fires a non-empty buffer is sent once as `keystroke` with the entry; the buffer ends empty and the timer spent |
| LegacyAgent.LegacyTracker.constructor | script.js:7-26 | start-up clears the throttle, records the page and sends one page view without scroll offset |
| LegacyAgent.LegacyTracker.OnMouseMove | script.js:29-56 | the same throttle as the newer agent, reports without scroll offset; state and reports stay those of `CapturePolicy.MouseRun` over all moves seen |
| LegacyAgent.LegacyTracker.OnClick | script.js:59-69 | every click sends one `click` with the target's snapshot and the position |
| LegacyAgent.LegacyTracker.OnVisibilityChange | script.js:84-96 | sends `tab_hidden` when the page became hidden and `tab_visible` otherwise |
| LegacyAgent.LegacyTracker.OnBeforeUnload | script.js:99-104 | sends one `page_leave` |
| LegacyAgent.LegacyTracker.OnPopState | script.js:108-124 | a new path becomes the current page and sends a page view; the same path sends nothing; the page stays that of `CapturePolicy.ChangeRun` over all paths seen |
| Sessions.DeviceOf | server.js:80-85 | the device type is never empty: the parsed type when there is one, `desktop` otherwise; the screen is 1920 x 1080 |
| Sessions.ClientIp | server.js:63 | a non-empty `x-forwarded-for` header wins over the socket address |
| Sessions.NormalizeIp | server.js:73 | the address given to the location lookup: `::ffff:` and then `::1` replaced once each; stated by the four lemmas below |
| Sessions.NoColonNoMatch | server.js:73 | an address without `:` contains no pattern starting with `:` |
| Sessions.NormalizeMappedV4 | server.js:73 | an IPv4-mapped IPv6 address is looked up as its IPv4 address |
| Sessions.NormalizePlainV4 | server.js:73 | a plain IPv4 address is looked up unchanged |
| Sessions.NormalizeLoopback | server.js:73 | the IPv6 loopback is looked up as 127.0.0.1 |
| Sessions.NormalizeRewritesOtherAddress | server.js:73 | the `::1` rewrite also hits addresses that merely contain it: `::10` is looked up as 127.0.0.10 |
| Sessions.IsObserver | server.js:57 | a connection is an observer exactly when its referer is present and contains `/admin` (`Sessions.Connect`) |
| Sessions.NewRecord | server.js:76-90 | the record a first connection creates; its fields are stated by `Sessions.Connect` |
| Sessions.Admit | server.js:75-76 | admitting a user adds its key, keeps every existing record, and stores the new record only when the user was unknown |
| Sessions.Connect | server.js:55-94 | an observer gets the whole table and changes nothing; otherwise the resolved id is added to the table, every existing record is kept, and that id's record is broadcast; an unknown id's new record holds the id and client address, the looked-up location or Unknown/Unknown, the parsed device, first and last seen now, no time spent, an empty log |
| Sessions.ConnectKnownVisitor | server.js:75 | a known visitor leaves the table unchanged and its stored record is broadcast |
| Sessions.PageOrUnknown | server.js:103 | the page an event is filed under is never empty: the reported page, or `unknown` |
| Sessions.Stamp | server.js:99-104 | the log entry of an event: its type and data, the arrival time, and the page or `unknown` (`Sessions.PageOrUnknown`) |
| Sessions.Stamps | server.js:99-104 | one log entry per arriving event, the k-th entry being that of the k-th event |
| Sessions.Track | server.js:97-119 | an event appends exactly one entry to the user's log (creating the log when absent), sets last seen, changes no other field or user, and broadcasts the new log length |
| Sessions.Disconnect | server.js:123-135 | fails exactly when the user has no log; otherwise appends one `disconnect` entry, leaves last seen and every other user alone, and broadcasts the new length |
| Sessions.TrackAll | server.js:97-119 | a run of events keeps the set of users and broadcasts once per event |
| Sessions.TrackAllCounts | server.js:111-118 | the k-th broadcast of a run carries the prior log length plus k + 1 |
| Sessions.TrackAllLog | server.js:107-112 | after a run the user's log is the prior log followed by the run's entries in arrival order; other users are untouched |
| Sessions.TrackAllKeepsLog | server.js:107-111 | once a user has a log, events keep it present |
| Sessions.SessionLog | server.js:75-135 | a new visitor's connection, N events and disconnect leave a log of the N entries then `disconnect`, and the last count is N + 1 |
| Sessions.ConnectExtends | server.js:75-91 | a connection removes no user and shortens no log |
| Sessions.TrackExtends | server.js:107-112 | an event removes no user and shortens no log |
| Sessions.DisconnectExtends | server.js:129 | a disconnect removes no user and shortens no log |
| Sessions.ExtendsTransitive | server.js:55-136 | the growth of the table composes across handler calls |
| Aggregator.Server.constructor | server.js:13-24 | the server starts from the stored table when it was read, and from the empty table otherwise |
| Aggregator.Server.OnConnection | server.js:55-94 | the new table and the broadcast are those of `Connect` |
| Aggregator.Server.OnTrackEvent | server.js:97-120 | the new table and the broadcast are those of `Track` |
| Aggregator.Server.OnDisconnect | server.js:123-136 | the new table and the broadcast are those of `Disconnect`; on failure the table is unchanged |

`script.js:71-81` and `script.js:126-150` are the same element snapshot and
visible-element scan as in `public/script.js`; `Dom.SnapshotText`,
`Dom.OrNull` and `Dom.GetVisibleElements` model both copies.

## Left out

- Socket.IO transport: the agent's emits are appended to the `sent` field in
  order, and the server's broadcasts are returned values; delivery, ordering
  across sockets and reconnection are not modelled.
- The Express routes (`server.js:30-49`) and static file serving.
- Persistence: reading and parsing `database.json` is the constructor's
  `loaded` parameter; the 30-second checkpoint writer and JSON encoding are
  not modelled. `db.sessions` is never written by the handlers and is left out.
- `geoip-lite` and `ua-parser-js` are parameters (a lookup function and a
  parsed result); a location holds only country and city.
- Clocks: times are integer milliseconds, not ISO strings; the server's
  handlers take one `now`, so first seen, last seen and the minted id share it.
  `Math.random` is the parameter `RandomSuffix` (0..999).
- `setTimeout`/`clearTimeout`: the pending timer is the deadline
  `idleDeadline`, and its firing is the call `OnIdleTimer`, which requires
  being called at that deadline; a replaced timer simply never fires.
- DOM reads (`elementFromPoint`, `activeElement`, `getBoundingClientRect`,
  `window` sizes and offsets) are inputs; geometry is integral, not floating
  point.
- String lengths count characters, not UTF-16 code units, so `e.key.length`
  and the 50/47-character text limit differ from the browser for characters
  outside the Basic Multilingual Plane.
- The `lastMousePosition` variable (`public/script.js:9`, `script.js:9`) is
  never read and is left out.
- Cookie attributes (`path`, `max-age`) and the browser's cookie jar: the
  cookie after the client's assignment is modelled as the old cookie with
  `; tracking_id=<id>` appended.
- The `x-forwarded-for` header is taken as one string, as the code does; a
  list of proxies is not split.
- `totalTime` is set to 0 at creation and never updated, as in the code.
- Sessions.Track: requires the user's record to exist, as the code assumes; it
  always does, since a connection creates it and no handler removes one
  (`Sessions.ConnectExtends`, `Sessions.TrackExtends`,
  `Sessions.DisconnectExtends`).
- The table is a map. In the server it is a plain object, so an id naming an
  `Object.prototype` member counts as known. With `tracking_id=constructor`,
  for example, no record is created. The inherited `Object` function is then
  broadcast, and the `actions`/`lastSeen` writes go onto it and never reach
  `database.json`. With `__proto__`, the writes land on `Object.prototype`.
  The model creates an ordinary record for such ids instead.
