# Client synchronisation pipeline of the atari-client game, in Dafny

This project models the client half of a real-time multiplayer 2D game.
It covers the part that keeps the client in step with the server:

- **Transport bridge** (`Network`). Socket events push envelopes onto the inbound queue. A polling tick drains the outbound queue into the socket while it is open.
- **Intent sampler** (`Input`, built on `Keyboard`). Each sampling tick turns the arrow keys into a movement delta. When the delta is not zero and the client id is known, it queues one INTENT.
- **State reconciler** (`State`). Each polling tick drains the inbound queue in arrival order. It applies CONNECTED, DISCONNECTED, WELCOME and SYNC to the game-state record. It calls the registered WELCOME callback with the new id and feeds SYNC measurements to the monitor.
- **Diagnostics engine** (`LatencyMonitor`). It keeps a five-slot ping window with its rounded mean and the intent round-trip time. It also keeps the server's physics and broadcast durations with a running physics maximum, a trailing byte-rate window that a snapshot restarts every five seconds, and the overlay's visibility flag.
- **Older dispatcher** (`Protocol`). A smaller WELCOME/SYNC state machine over one module-level record.
- **Geometry helper** (`RenderHelpers`). It converts a rectangle's centre to its top-left corner.
- **Callback handoff** (`Pipeline`). The WELCOME callback is the only link between the reconciler and the sampler. A lemma shows that the sampler ends up with the reconciler's client id.

Every piece is a pure function or a short method over immutable datatypes. One call stands for one tick or one event. Queues are `seq<Message>` and pressed keys are a `set<string>`. The clock is the parameter `now`, in milliseconds. The log of WELCOME callback invocations is a field of the reconciler. `Wrappers` holds `Option` and `Result`. `Messages` mirrors the envelope, payload and record shapes of `src/message.ts`. The envelope's `type` field is called `kind`, and a map field is called `gameMap`, because both words are reserved in Dafny.

JavaScript's `Math.round(s / n)` is modelled as `(2s + n) / (2n)` with floor division. Its meaning is the predicate `IsRounding`: `r - 1/2 <= s/n < r + 1/2`. Bytes per second over a window `e` milliseconds old is `Math.round(acc * 1000 / e)`.

Where the code's comments and declared types promise more than the code does, the model follows the code:

- `IntentPayload` (src/message.ts:59-67) declares `left`, `right`, `down`, `jump`, `seq` and `sentAt`. The sampler instead builds `{id, deltaX, deltaY}` (src/input.ts:56-63). It has no sequence counter, no rising-edge jump and no `sentAt` stamp, and it queues an INTENT only when the delta is non-zero.
- The comment at src/latency-monitor.ts:29 says `recordPing` is called when a PONG arrives. The bridge (src/network.ts:26-33) has no PING heartbeat and queues a PONG frame like any other envelope, so `recordPing` has no caller in the client.
- The reconciler looks up `__rawBytes` on a SYNC envelope (src/state.ts:92), but the bridge never attaches the raw size of a frame. The reconciler's `__rawBytes ?? 0` therefore yields 0 unless the parsed frame happens to carry that property. The envelope's optional `rawBytes` field stands for it.
- A WELCOME or SYNC without the payload its handler reads throws a TypeError in the handler. The model returns `Failure(MissingPayload(kind))`. That envelope has already been shifted off the queue, so the polling tick stops there. The envelopes after it wait for the next tick (`State.PollInbound`).

The reconciler and the renderer share one monitor object. The reconciler writes it through `recordSync`. The renderer calls `getSnapshot` on every frame (src/renderer.ts:205), and that call can restart the byte window. In the model the shared object is the reconciler's `monitor` field. A renderer frame at time `now` is `LatencyMonitor.GetSnapshot(s.monitor, now)`, with its second component written back into `s.monitor`. The monitor's run lemmas (`LatencyMonitor.Run` over pings, SYNCs, toggles and snapshots) therefore describe that shared field. `State.HandleSyncIsMonitorStep` shows that a SYNC's update of the field is the monitor's own SYNC event.

An envelope whose `type` is none of the seven known kinds is the kind `UNKNOWN`. The cast of the parsed frame does not check the kind, and the reconciler's default branch ignores such an envelope.

## Model

| member | source | states |
|---|---|---|
| LatencyMonitor.Init | src/latency-monitor.ts:14-27 | a new monitor has an empty ping window, every measurement null, an empty byte window starting at the creation time, and the overlay hidden |
| LatencyMonitor.RoundDiv | src/latency-monitor.ts:83-86 | the integer form of `Math.round(s/n)` lies within one half of the true quotient, halves rounding up |
| LatencyMonitor.RoundingIsUnique | src/latency-monitor.ts:83-86 | at most one integer is the rounding of a quotient, so `IsRounding` fully determines `Math.round` |
| LatencyMonitor.RecordPing | src/latency-monitor.ts:30-36 | the latest ping becomes the value; a window of at most five becomes the last five of the old window plus the value; every other field (intent, physics, broadcast, bytes, visibility) is unchanged |
| LatencyMonitor.PingWindowHoldsLastPings | src/latency-monitor.ts:30-34 | after any run of monitor events the window is the last min(k,5) values of the old window followed by the run's pings, oldest evicted first |
| LatencyMonitor.PingAverage | src/latency-monitor.ts:81-87 | the average is null iff the window is empty, and otherwise the rounded mean of the window |
| LatencyMonitor.PingAverageExample | src/latency-monitor.ts:81-87 | pings 10,20,30,40,50,60 from a fresh monitor leave 20..60 in the window and an average of 40 |
| LatencyMonitor.RecordSync | src/latency-monitor.ts:39-62 | intent RTT becomes `now - lastIntentSentAt` only when that is non-null and is kept otherwise; durations are stored; the physics maximum is at least both the old maximum and the new duration, and is one of them; bytes per frame is the raw length; the accumulator grows by exactly that length; ping, window start and visibility are unchanged |
| LatencyMonitor.PhysicsMaxNeverDecreases | src/latency-monitor.ts:55-57 | over any run of events the physics maximum never decreases and bounds every physics duration recorded in the run |
| LatencyMonitor.PhysicsMaxIsLargestDuration | src/latency-monitor.ts:55-57 | from a monitor that has seen no SYNC, the maximum stays null until the first SYNC and afterwards is the largest recorded duration |
| LatencyMonitor.ToggleVisible | src/latency-monitor.ts:64-66 | the visibility flag flips and nothing else changes |
| LatencyMonitor.ToggleTwiceRestores | src/latency-monitor.ts:64-66 | toggling twice gives back the same monitor |
| LatencyMonitor.BytesPerSecond | src/latency-monitor.ts:70-73 | the rate is null iff the window is younger than 1000 ms, and otherwise the rounding of `acc * 1000 / elapsed` |
| LatencyMonitor.GetSnapshot | src/latency-monitor.ts:68-100 | the rate comes from the pre-reset accumulator; a window at least 5000 ms old restarts empty at `now`, and a younger one leaves the monitor unchanged; only the accumulator and window start can change; the snapshot's average is the rounded mean of the window and null iff the window is empty; visibility and every stored measurement are reported as they are |
| LatencyMonitor.ThroughputExample | src/latency-monitor.ts:60-79 | a 300-byte SYNC at 500 ms reports 300 bytes per frame and no rate; a second one at 1200 ms reports 500 bytes per second |
| Keyboard.Init | src/keyboard.ts:2 | a new keyboard's pressed set is empty, so no direction is pressed |
| Keyboard.DirectionOf | src/keyboard.ts:10-15 | a key that maps to a direction is exactly that direction's arrow key |
| Keyboard.KeyNameRoundTrip | src/keyboard.ts:10-15 | each direction's arrow key maps back to that direction |
| Keyboard.KeyDown | src/keyboard.ts:5 | after keydown the key is in the set, and no other key changes |
| Keyboard.KeyUp | src/keyboard.ts:6 | after keyup the key is not in the set, and no other key changes |
| Keyboard.IsPressedMatchesKey | src/keyboard.ts:9-17 | a direction is pressed iff its arrow key is in the set |
| Keyboard.KeyUpAfterRepeatedKeyDowns | src/keyboard.ts:5-6 | one keyup after any number of keydowns of a key releases it, leaving the same set as one keyup alone |
| Input.Init | src/input.ts:10 | the sampler starts with an empty client id |
| Input.OnWelcome | src/input.ts:28-30 | the sampler's client id becomes the given id |
| Input.Delta | src/input.ts:39-53 | deltaX = 4·[RIGHT] − 4·[LEFT] and deltaY = 4·[DOWN] − 4·[UP], each in {−4, 0, 4} |
| Input.DeltaZeroIffOppositesAgree | src/input.ts:42-55 | the delta is zero iff LEFT and RIGHT agree and UP and DOWN agree |
| Input.ProcessInput | src/input.ts:33-66 | with an empty client id the queue is unchanged; otherwise exactly one envelope is appended iff the delta is non-zero; the old queue is a prefix of the new one; the appended envelope is an INTENT carrying the client id and the delta |
| Input.OppositeKeysCancel | src/input.ts:42-55 | holding only LEFT and RIGHT appends nothing |
| Input.WelcomeEnablesIntents | src/input.ts:28-64 | after `onWelcome` with a non-empty id, a tick with non-zero delta appends that id's INTENT |
| State.Init | src/state.ts:21-36 | the initial game state has an empty id, an empty world, a null map and is disconnected; the callback is the no-op and has not been called |
| State.SetOnWelcomeCallback | src/state.ts:53-55 | the registered callback is replaced and nothing else changes |
| State.HandleWelcome | src/state.ts:57-63 | id, world and map come from the payload and connectivity is kept; the callback is invoked exactly once, with the payload's id; the monitor is untouched |
| State.HandleSync | src/state.ts:65-74 | world and map are replaced together; the id, connectivity and callback log are kept; the monitor gets exactly one `recordSync` with the size, the echoed timestamp and the durations |
| State.HandleMessage | src/state.ts:76-98 | CONNECTED sets and DISCONNECTED clears connectivity and change nothing else; WELCOME and SYNC go to their handlers, with the missing `__rawBytes` counted as 0; INTENT, PING, PONG and unknown kinds change nothing; the handler fails iff a WELCOME or SYNC lacks its payload |
| State.HandleSyncIsMonitorStep | src/state.ts:65-74 | a SYNC's update of the shared monitor is exactly the monitor's SYNC event, so the monitor's run lemmas cover the reconciler's field |
| State.PollInbound | src/state.ts:40-47 | a polling tick over well-formed envelopes always empties the queue and gives the first-to-last fold of `handleMessage`; a throwing envelope at position k ends the tick with the fold of the first k envelopes and leaves the envelopes after it queued |
| State.CallbackOncePerWelcome | src/state.ts:41-63 | a drain invokes the callback once per WELCOME, with that WELCOME's id, in arrival order, appending only |
| State.ClientIdIsLastWelcome | src/state.ts:41-58 | after a drain the client id is the id of the last WELCOME drained, or unchanged if there was none, so every WELCOME overrides the id |
| State.NoWelcomeKeepsIdentity | src/state.ts:76-98 | a drain without WELCOME keeps the client id and the callback log |
| State.SyncWithoutSizeRecordsZeroBytes | src/state.ts:89-93 | a SYNC without `__rawBytes` is recorded as a 0-byte frame and adds nothing to the accumulator |
| Network.OnOpen | src/network.ts:22-24 | the open event appends CONNECTED to the end of inbound and changes nothing else |
| Network.OnClose | src/network.ts:35-37 | the close event appends DISCONNECTED to the end of inbound and changes nothing else |
| Network.OnMessage | src/network.ts:26-33 | a frame that parses is appended as is; a frame that fails to parse leaves inbound unchanged |
| Network.PongIsQueued | src/network.ts:26-30 | a PONG frame reaches the inbound queue |
| Network.PollOutbound | src/network.ts:40-51 | with the socket open and outbound non-empty, the old outbound contents are sent in FIFO order after the earlier frames and outbound ends empty; otherwise nothing is sent and nothing changes; inbound is never touched |
| Protocol.Init | src/protocol.ts:9-12 | the record starts with an empty id and a null world |
| Protocol.HandleWelcome | src/protocol.ts:14-19 | id and world come from the payload |
| Protocol.HandleSync | src/protocol.ts:21-24 | the world comes from the payload and the id is kept |
| Protocol.Dispatch | src/protocol.ts:28-40 | WELCOME and SYNC go to their handlers and fail iff their payload is missing; every other kind, CONNECTED included, leaves the record unchanged |
| Protocol.DispatchIsIdempotent | src/protocol.ts:14-24 | dispatching the same envelope twice gives the same record as once |
| Protocol.WelcomeThenSync | src/protocol.ts:14-24 | after a WELCOME and then a SYNC, the id is the WELCOME's and the world is the SYNC's |
| RenderHelpers.CenterToTopLeft | src/render-helpers.ts:2-12 | the corner plus half the size gives back the centre on each axis |
| RenderHelpers.ConversionsAreInverse | src/render-helpers.ts:8-11 | centre-to-corner and corner-to-centre undo each other in both orders |
| RenderHelpers.AxesAreIndependent | src/render-helpers.ts:9-10 | x depends only on centre x and width, y only on centre y and height |
| RenderHelpers.ZeroSizeCornerIsCentre | src/render-helpers.ts:9-10 | a zero-size box has its corner at its centre |
| RenderHelpers.CornerIsAboveLeft | src/render-helpers.ts:9-10 | a box of non-negative size has its corner at or left of and above its centre |
| Pipeline.DeliverTakesLastId | src/input.ts:28-30 | delivering a run of callback invocations leaves the sampler with the last id delivered |
| Pipeline.HandoffKeepsIdsInStep | src/state.ts:57-61 | with the sampler's callback registered, a sampler and reconciler that agree on the id before a polling tick still agree after it |

## Left out

- Scheduling with `setInterval` and the tick rates. Each tick or event is one call, and there is no concurrency.
- `Date.now()`. It is the parameter `now`. `State.PollInbound` uses one clock value for the whole tick, while the code reads the clock again for each SYNC.
- The WebSocket (RFC 6455). Its ready state is the `open` flag given to `Network.PollOutbound`, and `send` appends to a log of sent frames. `open` and `close` only arrive as events.
- `JSON.parse` and `JSON.stringify` (RFC 8259). They are the function parameters `parse` (where `None` means parsing threw) and `stringify`.
- The `if (message)` guard in the outbound drain. An envelope is never falsy, so the guard always holds.
- Console logging, and the `getGameState` accessors, which only read the record.
- The code that registers the sampler's `onWelcome` as the reconciler's callback. That wiring is not part of this model. `Pipeline` assumes the sampler receives every invocation logged for its callback.
- Network.OnMessage: a frame whose JSON is `null`, or is not an object, cannot be expressed. The code queues it, and reading `message.type` (src/state.ts:77) then throws and ends the polling tick, as a missing payload does.
- State.HandleMessage: a WELCOME or SYNC whose payload has the wrong shape is treated like a missing payload. JavaScript would instead read the absent fields as `undefined` without throwing.
- Protocol.Dispatch: a payload of the wrong shape is treated the same way, for the same reason.
- LatencyMonitor.BytesPerSecond: the rate is computed exactly in integers, while the code divides in floating point before rounding. The two can differ only where floating-point error crosses a half.
- LatencyMonitor.RecordSync: the server's durations are exact reals rather than floating-point numbers. Only `>` is used on them.
- RenderHelpers.CenterToTopLeft: it computes on exact reals, not floating-point numbers.
- Rendering, the physics-tuning panel and its HTTP calls, and the standalone chat page. They only read state or do I/O.
