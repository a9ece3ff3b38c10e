# Multiplayer shooter: client buffer, websocket gateway and player registry

A Dafny model of the parts of the multiplayer shooter whose logic is present in
the code: the browser client's buffer of server states (`static/game.js`), the
per-connection websocket actor that turns client messages into engine
instructions and rewrites engine states before they reach the client
(`src/custom_ws.rs`), and the shared registry of connected players
(`src/state.rs`). The physics engine itself is a stub in this revision
(its collision handler is `todo!()`), so no tick, damage, cooldown or bullet
rule is modelled.

Modules:

- `Protocol` — the state message the server sends each client
  (`PhysicsStateResponse`, `EnemyInfo`). These types are imported from
  `src/physics_engine.rs`, which does not define them in this revision. The
  model gives them the fields the two sides use: the enemies and their `dir`,
  which src/custom_ws.rs:110-112 rewrites, and the `my_coords`, `enemies`
  (`coords`, `dir`, `username`), `bullets` and `timestamp` that
  static/game.js:153-203 reads. Any further field the engine may send is
  not modelled.
- `AppState` — the registry: a class `State` whose `connectedPlayers` map is
  keyed by the actor's address, plus the constant engine address.
- `CustomWs` — `HandleStream`, the stream handler as a function of the
  registry, and the actor class `Ws` whose methods update the registry in
  place and are proved equal to it; `Ws.HandleResponse` rewrites the enemies'
  facing angles in a loop.
- `PushSorted` — `Array.prototype.pushSorted`: the binary search as a loop
  proved against a recursive reference function, `splice`'s treatment of a
  negative start, and the resulting placement.
- `GameClient` — the `Game` class (buffer insertion with the 1000-entry cap,
  the choice of state for a target time, the first-timestamp bookkeeping) and
  the `keydown` flags.

What the proofs establish about the client buffer: `pushSorted` reports a
missing element as `-m - 1` and hands that to `splice`, which counts a negative
start back from the end, so the element goes to `max(len - m - 1, 0)`, the mirror of
`m`, which equals `m` only when `2m = len - 1` or the array is empty
(`PushSorted.Placement`, `PushSorted.PlacementWhenSplit`). A snapshot
newer than all others therefore lands at the front
(`PushSorted.GreatestGoesFirst`), and snapshots that arrive in timestamp order
keep the buffer newest-first (`GameClient.InOrderArrival`), which is the order
`getGameState` and the `pop` of the oldest entry assume. A snapshot that
arrives late can land out of order (`GameClient.LateArrivalIsMisplaced`: 25
after 40, 30, 20, 10) or in order (`GameClient.LateArrivalInPlace`: 15 after
the same four); which one depends on where the binary search, which assumes
ascending order, stops.
`getGameState` subtracts the target from a state object, which yields NaN, so
of the two enclosing states the ternary always picks the second of the pair,
the older one whose timestamp is at most the target
(`GameClient.ObjectDistanceNeverGreater`); unless that entry's timestamp is 0,
in which case `buffer[0]` is returned.

Behaviour of the code worth knowing:

- The comment at src/custom_ws.rs:62 says the name is changed "if blank", but
  lines 63-65 replace every `JoinGame` name by `"Unnamed"`, whatever was sent.
- The JSON decoding at src/custom_ws.rs:60 (marked "TODO: Error handle this
  properly" at line 59) and the registry lookup at lines 67-71 both `unwrap`,
  so an undecodable message or an unregistered sender panics. The model
  returns an `Err` result that sends nothing and changes nothing.
- `ClientInstruction` (src/custom_ws.rs:26-37) has no fire flag, so the
  client's `click` field is dropped by the decoder. There is no exit
  instruction either.
- `PlayerInfo` is declared empty at src/state.rs:6, but src/custom_ws.rs:77 and
  :82 write its `username` and `dir`. The model gives it those two fields, and a
  fresh entry has an empty name and facing angle 0.

Panics are `Result.Err` values (`CustomWs.Panic`). The JSON decoding of a text
frame is an abstract `Option<ClientInstruction>`. The send to the engine
(`do_send`) is the returned `Dispatch`; the send to the client (`ctx.text`) is
the returned, rewritten response. The client's target time is a parameter.

## Model

| member | source | states |
|---|---|---|
| AppState.State.constructor | src/state.rs:17-22 | the registry starts empty and holds the given engine address |
| AppState.State.Register | src/state.rs:24-27 | the address maps to the default entry, replacing any previous one; every other key and entry is unchanged |
| AppState.State.Remove | src/state.rs:29-33 | the address is absent afterwards and every other entry is unchanged; an absent address is a no-op |
| AppState.State.GetPhysicsEngine | src/state.rs:35-37 | always the address given at construction (a constant no method can change) |
| AppState.RemoveIdempotent | src/state.rs:31-33 | removing an address twice is the same as removing it once |
| AppState.RegisterThenRemove | src/state.rs:25-33 | a connection that registers and is removed leaves the registry as it was, if it was not registered before |
| CustomWs.HandleStream | src/custom_ws.rs:55-101 | non-text items and protocol errors send nothing and leave the registry unchanged; undecodable text and an unregistered sender panic; otherwise exactly one instruction goes to the engine, tagged with the sender's own address, only the sender's entry changes, a JoinGame stores "Unnamed" whatever name was sent and forwards JoinGame, a GameAction stores its dir and forwards w, a, s, d unchanged |
| CustomWs.Ws.constructor | src/custom_ws.rs:124-130 | the actor holds the shared state and its own address |
| CustomWs.Ws.Started | src/custom_ws.rs:19-21 | on start the connection registers itself with a default entry |
| CustomWs.Ws.Handle | src/custom_ws.rs:55-101 | the in-place handler returns what HandleStream sends and leaves the registry HandleStream gives; on a panic the registry is unchanged |
| CustomWs.Ws.HandleResponse | src/custom_ws.rs:108-114 | every enemy's dir becomes the recipient's own stored dir; the enemy count and every other field are unchanged; it panics exactly when there is an enemy and the recipient is unregistered |
| CustomWs.JoinThenAct | src/custom_ws.rs:62-84 | joining then acting stores the name "Unnamed" with the action's dir, and nothing else changes |
| PushSorted.SearchFrom | static/game.js:6-18 | from any loop state with 0 <= m <= n+1 <= length, every probe is a valid index and the recursion ends; a hit is an index in [m, n] whose element compares equal; a miss is -m'-1 with m <= m' <= n+1 |
| PushSorted.Search | static/game.js:5-18 | a non-negative result indexes an element comparing equal to el; otherwise the result is strictly negative, -m-1 with m <= length |
| PushSorted.BinarySearch | static/game.js:6-18 | the while loop keeps 0 <= m <= n+1 <= length and returns the reference search's result: a hit compares equal |
| PushSorted.SearchFromSplit | static/game.js:9-18 | on an array sorted around el with insertion point p, the loop from any state enclosing p returns -p-1 |
| PushSorted.SearchSplit | static/game.js:5-18 | on an array sorted around el, the search misses with -(insertion point)-1 |
| PushSorted.SpliceStart | static/game.js:5 | splice's start index lies in [0, length]: a negative start counts back from the end clamped at 0, an in-range one is used as is |
| PushSorted.InsertAt | static/game.js:5-19 | inserting deletes nothing: one more element, the new one at the index, the others in their old order |
| PushSorted.Placement | static/game.js:5-19 | the new element goes to the hit index, or to max(length + r, 0) for a miss r = -m-1 |
| PushSorted.PushedSorted | static/game.js:4-22 | the array after pushSorted has one more element and the same multiset plus el |
| PushSorted.PlacementWhenSplit | static/game.js:5-19 | on an array sorted around el with insertion point p, el goes to max(length - p - 1, 0), the mirror of p, which equals p only when 2p = length - 1 or the array is empty |
| PushSorted.GreatestGoesFirst | static/game.js:4-22 | an element greater than all others is inserted at the front |
| PushSorted.JsArray.Splice | static/game.js:5-19 | splice(start, 0, item) inserts item at SpliceStart and deletes nothing |
| PushSorted.JsArray.Pop | static/game.js:176 | pop removes and returns the last element; undefined on an empty array |
| PushSorted.JsArray.PushSorted | static/game.js:4-22 | the array becomes the old one with el at Placement, and the returned length is the old length + 1 |
| GameClient.CompareTimestamps | static/game.js:174 | the comparator is positive exactly when the first state is newer and negative exactly when it is older |
| GameClient.Capped | static/game.js:175-177 | a buffer longer than 1000 loses exactly its last entry and any other buffer comes back whole, so a buffer of at most 1001 entries ends with at most 1000 |
| GameClient.InOrderArrival | static/game.js:173-177 | a state newer than everything in a newest-first buffer goes to the front and the capped buffer stays newest-first |
| GameClient.LateArrivalIsMisplaced | static/game.js:4-22 | states at 40, 30, 20, 10 and a late one at 25 give 40, 30, 20, 25, 10, which is out of timestamp order |
| GameClient.LateArrivalInPlace | static/game.js:4-22 | states at 40, 30, 20, 10 and a late one at 15 give 40, 30, 20, 15, 10, which is still newest-first |
| GameClient.ObjectMinus | static/game.js:158 | subtracting the target from a state object gives NaN, whatever the state and target |
| GameClient.Abs | static/game.js:158 | Math.abs keeps NaN as NaN and makes a number non-negative |
| GameClient.Greater | static/game.js:158 | `>` is false when either side is NaN, and the numeric comparison otherwise |
| GameClient.ObjectDistanceNeverGreater | static/game.js:158 | the ternary's comparison never holds, so the ternary never picks the first entry of the enclosing pair (getGameState may still return `buffer[0]` through the timestamp-0 fallback) |
| GameClient.FirstNotAfterBracket | static/game.js:155-156 | when the first entry no later than the target is not the first entry, the pair ending at it is the first enclosing pair |
| GameClient.KeyDown.constructor | static/game.js:73-79 | all five flags start false |
| GameClient.KeyDown.OnKey | static/game.js:81-89 | codes 87, 65, 83, 68 set exactly w, a, s, d to the handler's boolean; any other code changes nothing, and click never changes |
| GameClient.KeyDown.OnMouseDown | static/game.js:99-101 | only click changes, to true |
| GameClient.KeyDown.OnMouseUp | static/game.js:102-104 | only click changes, to false |
| GameClient.Game.constructor | static/game.js:41-42 | the buffer starts empty, within the cap, no start timestamp yet, all flags false |
| GameClient.Game.InsertGameState | static/game.js:173-178 | the buffer becomes the pushSorted result with the last entry popped past 1000 entries; a buffer within the cap stays within it; an in-order arrival on a newest-first buffer goes to the front and keeps it newest-first |
| GameClient.Game.OnMessage | static/game.js:62-71 | the state is inserted, and the first timestamp seen is recorded once and never changed |
| GameClient.Game.GetGameState | static/game.js:150-169 | the second (older, timestamp at most the target) entry of the first pair enclosing the fractional target time, unless its timestamp is 0; the first entry when no pair encloses the target or the pick has timestamp 0; undefined on an empty buffer; hence the first entry no later than the target whenever that is not the first entry, unless that entry's timestamp is 0, in which case `buffer[0]` is returned |

## Left out

- src/physics_engine.rs: the engine is a set of physics-library constructors and a collision handler left as `todo!()`; no engine behaviour is modelled.
- src/main.rs, static/index.js, static/graphics.js, www/graphics.js: server start-up, static file serving, settings loading, DOM wiring and canvas drawing.
- `index_ws` (src/custom_ws.rs:119-133): the HTTP upgrade to a websocket is transport; only the actor it creates is modelled.
- JSON encoding and decoding (`serde_json`, `JSON.parse`, `JSON.stringify`): a text frame is its decoded `Option<ClientInstruction>`, and a response is sent as the value itself.
- Actor messaging: `do_send` is the returned `Dispatch`, `ctx.text` the returned response; delivery and ordering are not modelled.
- Concurrency of the registry: the concurrent map is a sequential map, and each handler runs atomically.
- `State.remove` is not called by the gateway in this revision (the actor has no `stopped` hook), so the model does not connect disconnection to removal.
- `getMouseDirs`: floating-point `Math.atan2`; the facing angle is an opaque value that the model only copies.
- The time arithmetic of `getGameState` (`performance.now()`, the 70 ms delay): the target time is a parameter, a real number of milliseconds compared exactly, without floating-point rounding. `js_epoch` is not recorded by `OnMessage`.
- The `run` render loop, the commented-out interpolation, the mouse-move handler and the canvas/WebSocket set-up of the `Game` constructor: drawing and I/O.
- PushSorted.SearchFrom: the probe `(n + m) >> 1` is modelled as halving; JavaScript's `>>` first truncates to 32 bits, which differs only for arrays longer than 2^30 entries, far beyond the 1001 the buffer reaches.
- GameClient.CompareTimestamps: timestamps are integers and the comparator's difference is exact; JavaScript computes it in floating point, which agrees for integer milliseconds below 2^53.
