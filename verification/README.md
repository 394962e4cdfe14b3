# Live-data path of the cement operations dashboard, in Dafny

This project models the three pieces of logic that feed the dashboard's live
view:

- **`useWebSocket(url)`** (`web_socket_hook.dfy`, module `WebSocketHook`): the
  telemetry stream hook. Class `ReconnectingSocket` has one method per socket
  event (`OnOpen`, `OnMessage`, `OnClose`, `OnError`), one for the reconnect
  timer firing (`OnReconnectTimer`) and one for the effect's cleanup
  (`Dispose`). Its fields are the hook's mutable state: the retry counter
  `reconnectRef.current`, the `mounted` flag, the pending timer, the sockets
  created and the `message` slot. The backoff arithmetic
  `min(30000, 1000 * 2^counter)` is a set of pure functions with lemmas about
  its bounds, saturation and monotonicity.
- **Dashboard normalisation and window** (`dashboard.dfy`, module `Dashboard`):
  - `Normalize` is the object literal built in the effect. It spreads the
    frame, then resolves six readings as `metrics.f ?? f ?? null`, resolves
    `emissions` with the legacy `emission` alias, and falls back to the
    receipt time for `timestamp`.
  - `Append` is the `[...prev.slice(-199), rec]` window update.
  - `Latest` is the "latest record or `{}`" selector.
  - `RecentAnomalies` is the `filter(r => r.anomaly).slice(-10).reverse()` table.
  - Class `RecordWindow` holds the `records` state slot.
- **`useAlertsSocket(url)`** (`alert_socket.dfy`, module `AlertSocket`): the
  alert hook. Class `AlertsHook` holds the single `alert` slot. `NextAlert`
  is the per-frame update: the `hello` handshake is filtered and unparseable
  frames are ignored. `ReplayIsLatestAlert` proves that after any run of frames
  the slot holds the newest alert.
- **JavaScript values** (`js_value.dfy`, module `JsValue`): a `Value` datatype
  covering everything `JSON.parse` returns, plus `undefined`. It comes with
  `??` (`Coalesce`), nullishness, truthiness, own-property reads (`Get`,
  `OptGet`) and object spread (`Spread`, including the index keys of
  strings and arrays).

The socket, timers, clock and `JSON.parse` are inputs:
- a socket event is a method call;
- the parse result is an `Option<Value>` argument (`None` means `JSON.parse` threw);
- the receipt time is a string argument;
- the reconnect timer is the `pendingDelay` field.

Socket events need `socketLive`, because a WebSocket delivers nothing after
its close event. `OnReconnectTimer` needs a pending timer, because a cleared
timer never fires.

### Behaviour of the code worth knowing

- A reading missing from every source becomes `null` in the record.
- `anomaly` is copied as it is; the filter tests it for truthiness.
  `anomaly_type` is copied whatever `anomaly` says.
- The window capacity (200), the counter ceiling (30) and the delay cap
  (30000 ms) are literals in the code.
- The counter is bumped before the delay is computed, so the first retry
  after an open waits 2000 ms.
- `onclose` never reads `mounted`. The close that the cleanup's own `close()`
  provokes therefore schedules a timer, and that timer opens a new socket
  (`ReconnectAfterCleanupScenario`). A cleanup made while a timer is already
  pending cancels it, and nothing reconnects (`CleanupWhilePendingScenario`).
- The alert hook has no reconnect and no backoff. Its `onopen`, `onclose` and
  `onerror` only log.
- On the telemetry stream, `hello` frames and raw-text frames reach the
  normalising effect like any other truthy value; a string is spread into
  its indexed characters.

## Model

| member | source | states |
|---|---|---|
| `WebSocketHook.ReconnectingSocket.constructor` | src/hooks/useWebSocket.js:8-15 | with a falsy url no socket is created and nothing is scheduled; otherwise exactly one socket is created, the counter is 0 and the slot is `null` |
| `WebSocketHook.ReconnectingSocket.OnOpen` | src/hooks/useWebSocket.js:17-20 | after an open the retry counter is 0; nothing else changes |
| `WebSocketHook.ReconnectingSocket.OnMessage` | src/hooks/useWebSocket.js:22-30 | while mounted, a parsed frame sets the slot to the parsed value and an unparseable one to its raw text (no frame is dropped); when not mounted the slot is unchanged |
| `WebSocketHook.ReconnectingSocket.OnClose` | src/hooks/useWebSocket.js:32-37 | the counter becomes `min(30, old + 1)`; a reconnect is scheduled after `min(30000, 1000 * 2^counter)` of the bumped counter; that delay is in [2000, 30000], is 30000 from the 5th consecutive close on, and is never shorter than the previous close's delay |
| `WebSocketHook.ReconnectingSocket.OnError` | src/hooks/useWebSocket.js:39-41 | an error only requests `close()` on the socket; counter, timer and slot are untouched |
| `WebSocketHook.ReconnectingSocket.OnReconnectTimer` | src/hooks/useWebSocket.js:14-15 | a fired reconnect timer creates exactly one new live socket and clears the pending timer |
| `WebSocketHook.ReconnectingSocket.Dispose` | src/hooks/useWebSocket.js:46-50 | cleanup clears `mounted`, cancels the pending timer and calls `close()` once; with a falsy url nothing happens |
| `WebSocketHook.Bumped` | src/hooks/useWebSocket.js:34 | the bumped counter is `counter + 1` below 30 and stays at 30 from there on, so it always lies in [1, 30] |
| `WebSocketHook.BackoffDelay` | src/hooks/useWebSocket.js:35 | the delay is between 1000 and 30000 ms, never above `1000 * 2^counter`, and is either that value or the 30000 cap |
| `WebSocketHook.Pow2Monotone` | src/hooks/useWebSocket.js:35 | `2^a <= 2^b` for `a <= b` |
| `WebSocketHook.BackoffDelayMonotone` | src/hooks/useWebSocket.js:35 | a larger counter never gives a shorter delay |
| `WebSocketHook.BackoffDelayRange` | src/hooks/useWebSocket.js:34-35 | for any bumped counter (>= 1) the delay lies in [2000, 30000], and it equals 30000 exactly when the counter is at least 5 |
| `WebSocketHook.ClosesAfterOpen` | src/hooks/useWebSocket.js:17-36 | after an open, k consecutive closes leave the counter at `min(k, 30)`; the first retry waits 2000 ms and every retry from the 5th on waits 30000 ms |
| `WebSocketHook.ConsecutiveDelaysNondecreasing` | src/hooks/useWebSocket.js:34-35 | across consecutive closes with no open in between, the counter stays <= 30 and the scheduled delays never decrease |
| `WebSocketHook.EmptyUrlScenario` | src/hooks/useWebSocket.js:9 | a falsy url creates no socket and schedules no reconnect |
| `WebSocketHook.ReconnectAfterCleanupScenario` | src/hooks/useWebSocket.js:32-50 | open, cleanup, close, timer: a second socket is created after 2000 ms, and its frames do not reach the slot |
| `WebSocketHook.CleanupWhilePendingScenario` | src/hooks/useWebSocket.js:46-50 | cleanup while a reconnect is pending leaves no timer and no live socket, so no further connection can be made |
| `Dashboard.Normalize` | src/components/Dashboard/Dashboard.jsx:44-57 | a falsy slot value yields nothing; otherwise the record's keys are the frame's own keys plus the eight resolved keys, and every other key is copied unchanged |
| `Dashboard.NormalizeMetricPriority` | src/components/Dashboard/Dashboard.jsx:49-55 | for temperature, power, vibration, pressure, fineness and residue: the non-nullish `metrics.f` wins, else the non-nullish top-level `f`, else `null`; never `undefined`, never a made-up value |
| `Dashboard.NormalizeEmissionsPriority` | src/components/Dashboard/Dashboard.jsx:50 | `emissions` takes `metrics.emissions`, then `emissions`, then the legacy `emission`, then `null` |
| `Dashboard.NormalizeTimestamp` | src/components/Dashboard/Dashboard.jsx:56 | a non-nullish timestamp is kept; the receipt time is used only when it is nullish |
| `Dashboard.NormalizeCopiesObjectKeys` | src/components/Dashboard/Dashboard.jsx:46-47 | `equipment`, `anomaly`, `anomaly_type`, `metrics` and every other non-resolved key of an object frame are copied unchanged (`anomaly` is not coerced) |
| `Dashboard.ReadBack` | src/components/Dashboard/Dashboard.jsx:46-57 | reading a key of a normalised record gives the resolved value for the eight resolved keys and the frame's own value for any other key |
| `Dashboard.ResolveKeyStable` | src/components/Dashboard/Dashboard.jsx:49-56 | re-resolving any of the eight keys on a normalised record, at any later time, gives the same value |
| `Dashboard.NormalizeIdempotent` | src/components/Dashboard/Dashboard.jsx:46-57 | normalising an already normalised record, at any later receipt time, returns it unchanged |
| `Dashboard.Append` | src/components/Dashboard/Dashboard.jsx:58-61 | the new window has length `min(|prev| + 1, 200)`, the new record last, and before it the newest `min(|prev|, 199)` records of `prev` in their original order |
| `Dashboard.AppendToNewest` | src/components/Dashboard/Dashboard.jsx:59 | appending to the newest `min(n, 200)` of n records gives the newest `min(n + 1, 200)` of the n + 1 |
| `Dashboard.AppendAllKeepsNewest` | src/components/Dashboard/Dashboard.jsx:58-61 | from an empty window, k appends leave exactly the newest `min(k, 200)` records in insertion order |
| `Dashboard.Latest` | src/components/Dashboard/Dashboard.jsx:84 | `latest` is always an object: the newest record of the window, or `{}` when the window is empty |
| `Dashboard.LatestAfterAppend` | src/components/Dashboard/Dashboard.jsx:84 | the latest record is the one just appended (`{}` only for an empty window) |
| `Dashboard.Anomalous` | src/components/Dashboard/Dashboard.jsx:251 | the filter's result is no longer than the window and every record in it has a truthy `anomaly` |
| `Dashboard.RecentAnomalies` | src/components/Dashboard/Dashboard.jsx:251 | the table has `min(n, 10)` rows for n anomalous records, and every row has a truthy `anomaly` |
| `Dashboard.AnomalousMembers` | src/components/Dashboard/Dashboard.jsx:251 | the anomaly filter keeps exactly the window's records whose `anomaly` is truthy |
| `Dashboard.ReverseAt` | src/components/Dashboard/Dashboard.jsx:251 | `reverse()` puts element `|s| - 1 - i` at position i |
| `Dashboard.RecentAnomaliesSpec` | src/components/Dashboard/Dashboard.jsx:251 | the table holds `min(10, n)` of the n anomalous records, newest first (row i is the i-th anomaly counted back from the newest), each from the window and with a truthy `anomaly` |
| `Dashboard.RecentAnomaliesSnoc` | src/components/Dashboard/Dashboard.jsx:251 | adding a record at the end of the records puts it at the head of the table when its `anomaly` is truthy (the table keeps at most 10 rows), and leaves the table unchanged otherwise |
| `Dashboard.RecentAnomaliesAfterAppend` | src/components/Dashboard/Dashboard.jsx:58-61 | the same for a window append: a new anomalous record heads the table, pushing the others down; any other record leaves the table of the kept records unchanged |
| `Dashboard.RecordWindow.constructor` | src/components/Dashboard/Dashboard.jsx:22 | the window starts empty |
| `Dashboard.RecordWindow.OnStreamData` | src/components/Dashboard/Dashboard.jsx:44-62 | a falsy slot value leaves the window unchanged; any other is normalised and appended, and the window never exceeds 200 records |
| `AlertSocket.IsHello` | src/hooks/useAlertSocket.js:13 | `data.type === "hello"` holds exactly for an object whose own `type` is the string `hello`; strings, numbers, booleans and arrays never match |
| `AlertSocket.Replaces` | src/hooks/useAlertSocket.js:12-14 | a frame reaches `setAlert` exactly when it parses, is not `null`, and is not an object whose `type` is `hello`: every parsed string, number, boolean and array does |
| `AlertSocket.NextAlert` | src/hooks/useAlertSocket.js:10-18 | an unparseable frame, a `null` payload and a `type: "hello"` frame leave the slot unchanged; any other parsed frame replaces it wholesale |
| `AlertSocket.ReplaySnoc` | src/hooks/useAlertSocket.js:10-18 | replaying one more frame applies the per-frame update to the replayed slot |
| `AlertSocket.ReplayIsLatestAlert` | src/hooks/useAlertSocket.js:10-18 | after any run of frames the slot holds the newest frame that reached `setAlert`, or the starting slot if none did |
| `AlertSocket.AlertsHook.constructor` | src/hooks/useAlertSocket.js:4-8 | the slot starts as `null` |
| `AlertSocket.AlertsHook.OnMessage` | src/hooks/useAlertSocket.js:10-18 | the slot becomes the frame when the frame parses, is not `null` and is not `hello`; otherwise it is unchanged |
| `AlertSocket.AlertsHook.Dispose` | src/hooks/useAlertSocket.js:23 | cleanup calls `close()` once and changes nothing else |
| `AlertSocket.AlertThenHelloScenario` | src/hooks/useAlertSocket.js:13-14 | an alert followed by `hello` and by an unparseable frame leaves the slot equal to the alert |

## Left out

- Rendering (MUI cards, recharts series, motion, toasts), routing, login, the
  HTTP fetches of predictions and trends, and `localStorage` token handling.
  They are presentation and I/O with no logic beyond one-line unwraps.
- Number formatting and thresholds: `fmt`, `fmtShort`, `safeNumber`, the
  `chartData` mapping and the `> 0.8` colour rule. They depend on IEEE doubles
  and on `toFixed` / `toLocaleTimeString`.
- A change of `url` re-runs the stream hook's effect and keeps the retry
  counter from the previous run. The model covers one effect run for a fixed
  url, so an earlier run's leftover sockets (after its cleanup) are not
  modelled beside a new one.
- React re-runs the normalising effect only when the slot value changes.
  Two identical primitive frames in a row (the same raw text, say) are
  appended once; the model appends on every `OnStreamData` call.
- React batches state updates: when two frames arrive before a render, both
  call `setMessage`, but the effect on `[wsData]` runs once, with the last
  value, and the earlier frame is never appended. `OnStreamData` is one run
  of the effect for one rendered slot value, so `AppendAllKeepsNewest`'s
  "newest `min(k, 200)`" is about the slot values React renders, not about
  every frame the socket receives.
- Binary frames (`Blob` / `ArrayBuffer` in `ev.data`) are not modelled. Frames
  are text.
- `Get`: inherited and built-in properties (`length`, prototype members) are
  not modelled. A read sees only own enumerable properties. None of the keys
  the code reads is one of these.
- Numbers are reals. `NaN` cannot come out of `JSON.parse`. `-0` and `0`
  coincide, which is right for truthiness.
- The spread of a string uses Dafny characters, not UTF-16 code units, so
  characters outside the Basic Multilingual Plane are spread as one entry
  instead of two.
- `new WebSocket(url)` throwing on a malformed url, and console logging.
- Timer ids: the model keeps the pending delay, not the id. `if (timeoutId)`
  holds whenever a timer was set, because browser timer ids are positive.
