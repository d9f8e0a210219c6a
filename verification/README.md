# SSE client hub

A Dafny model of the server-sent-events hub of the monitor server
(`server/sse.ts`). The hub keeps a registry of connected browser-extension
clients, keyed by client id, in a JavaScript `Map`. `addClient` greets a new
connection with a `connected` event, stores the client and starts a heartbeat
for it. The connection's close handler deletes the id again.
`broadcastRefresh` writes one `refresh` event to every registered client and
evicts each client whose write throws. `getClientCount` and `getClients` read
the registry.

The model has four modules:

- `Wrappers` (`wrappers.dfy`): `Option`, for the optional `action` argument
  and for the result of `AddClient`.
- `OrderedMap` (`ordered_map.dfy`): the JavaScript `Map` the registry is. It
  is a list of keys in insertion order plus a map of entries. `Set` on a
  present key keeps that key's position; `Delete` drops the key from the list.
- `SseFrames` (`sse_frames.dfy`): the exact text of the frames the hub writes
  (`event: <name>\ndata: <json>\n\n` and `: heartbeat\n\n`). It also holds the
  consumer's side, a reader that follows the "Interpreting an event stream"
  rules of the HTML Living Standard (section 9.2.6). That reader is the
  inverse partner of the frame builders: every frame the hub writes reads
  back as the event it encodes, and the heartbeat reads back as nothing.
- `Sse` (`sse.dfy`): the registry entries, the transport and the `Hub` class.
  `Hub` holds the registry (`clients`), every connection set up so far
  (`connections`, indexed by the handle of its heartbeat interval) and the set
  of intervals not yet cleared (`timers`). `Hub.Valid()` says that every
  registered id was stored by a connection whose heartbeat is still running
  and whose captured id and response match the entry.

The outside world is explicit. A response object is an opaque `Sink`. A
`Transport` decides which sinks are broken: a write to a broken sink is a
`res.write` that throws, and any other write is appended to the transport's
log. `JSON.stringify` is a parameter `json: Message -> string`. The two
`new Date()` readings in `addClient` and the one in `broadcastRefresh` are
parameters. Each heartbeat firing is a call of `Hub.Tick` with the interval's
handle, and each `close` event is a call of `Hub.Close` with that handle.

The model keeps the behaviour of the code as written:

- Re-adding an id that is already registered replaces its entry but keeps
  the id's original position in iteration order (`Map.set`, line 32).
- The heartbeat and the close handler look the client up by id alone
  (lines 42 and 51). When a replaced connection later closes, it deletes the
  newer entry. Until then, the replaced connection's heartbeat keeps writing
  to its own old response whenever the id is registered.
- Re-adding an id does not stop the older connection's heartbeat.
- A broadcast that evicts a client does not clear that client's heartbeat.
  The interval clears itself on its next tick, when it finds the id gone.

So a heartbeat can outlive its client's registration. A replaced
connection keeps its interval running. An evicted client's interval runs
until its next tick finds the id gone, or keeps writing to the old response
if the id was re-added in the meantime.

## Model

| member | source | states |
|---|---|---|
| Sse.Hub.constructor | server/sse.ts:15 | The registry starts empty, with no connections and no running heartbeat. |
| Sse.Hub.AddClient | server/sse.ts:20-55 | Exactly one frame is written first: the `connected` event carrying the JSON of `{clientId, time}`, to the new sink. If that write throws, nothing is stored and no heartbeat starts. Otherwise the registry becomes `Set(clientId, {clientId, res, connectedAt})`, one new connection and one new running heartbeat are added under a fresh handle, and the hub stays valid. |
| OrderedMap.SetSemantics | server/sse.ts:32-36 | `Set` (`clients.set`, with `Has` as `clients.has` and `Size` as `clients.size`): after `Set(k, v)` the map holds exactly one entry for `k`, and it is `v`. Every key already listed keeps its position. A present key leaves the size unchanged. A new key is listed last and adds one to the size. All other entries are untouched. |
| Sse.Hub.Tick | server/sse.ts:41-47 | While the connection's client id is registered, the tick writes `: heartbeat\n\n` to the sink the connection captured and keeps its interval. When the id is absent, it clears its own interval and writes nothing. A heartbeat write that throws changes nothing. |
| Sse.Hub.Close | server/sse.ts:50-54 | The registry becomes the old one with the connection's client id deleted, whichever connection stored that entry. The connection's own interval is cleared, and the hub stays valid. |
| OrderedMap.DeleteSemantics | server/sse.ts:51 | `Delete` (`clients.delete`, also at line 76): `Delete(k)` leaves no entry for `k` and leaves every other entry unchanged. The remaining keys keep their insertion order: the key list loses `k` at its position and nothing else moves. The size drops by one exactly when `k` was present. Deleting an absent key is a no-op, so a repeated delete changes nothing. |
| OrderedMap.DeleteKeepsOrder | server/sse.ts:51 | After `clients.delete(k)`, the listed keys are the old ones with `k` cut out at its position, every other key in its old order. |
| Sse.RefreshMessage | server/sse.ts:60-65 | The message carries the given `url` and `timestamp`, and the given `action` or `"refresh"` when none is passed. |
| Sse.Hub.BroadcastRefresh | server/sse.ts:60-79 | The frame is built once from the message. Every client registered at the start gets one write attempt, in insertion order. The log grows by exactly the deliveries to clients whose sink works. The registry ends as the old one minus exactly the clients whose write failed, with the survivors unchanged and in their old order. The count drops by the number of failing clients. The hub stays valid. |
| Sse.Hub.Fanout | server/sse.ts:71-78 | The `forEach` loop: after it, the registry is the prefix-by-prefix eviction over the whole snapshot of ids, and the log holds exactly one frame per surviving client, in order. |
| Sse.Hub.Visit | server/sse.ts:72-77 | One step of the loop writes `data` to the client's sink. When the write throws, the step deletes that client and nothing else. Otherwise the registry is unchanged. |
| Sse.Transport.Write | server/sse.ts:73 | A write to a broken sink throws and delivers nothing. Any other write appends exactly that frame, for that sink, to the log. |
| Sse.FanoutStep | server/sse.ts:71-77 | The client visited at step `i` is still registered with its original entry. The registry after the step is the one before it, minus that client exactly when its sink is broken. |
| Sse.ProgressEnd | server/sse.ts:71-78 | Once the loop has visited every id, the registry is a valid map holding exactly the clients whose sink works, listed in their original order. |
| Sse.KeptCount | server/sse.ts:71-78 | The broadcast keeps exactly the ids whose sink works. The count after it is the count before minus the number of failing clients, so it never grows. |
| Sse.DeliveriesInOrder | server/sse.ts:71-73 | The deliveries to the first `n` clients are, position by position, one frame per surviving client among them, sent to that client's own sink. |
| Sse.BroadcastReachesSurvivors | server/sse.ts:67-78 | Failure isolation: every client whose sink works receives the identical refresh frame, however many others fail. Nothing is delivered to a broken sink. The number of frames delivered equals the number of survivors. |
| OrderedMap.SizeIsKeyCount | server/sse.ts:84-86 | `clients.size` equals the length of the key list. |
| Sse.Hub.GetClientCount | server/sse.ts:84-86 | The count is the number of registered ids, and it equals the length of `getClients()`. |
| OrderedMap.OrderedMap.Values | server/sse.ts:92 | `clients.values()` lists the entries in key insertion order, one per key. |
| Sse.Infos | server/sse.ts:92-95 | The projection keeps the length, and element `i` is `{id, connectedAt}` of entry `i`. |
| Sse.Hub.GetClients | server/sse.ts:91-96 | One `{id, connectedAt}` per entry, in insertion order, with the ids distinct. Each item's `connectedAt` is the stored one. The query only reads the hub. |
| SseFrames.HubFramesReadBack | server/sse.ts:29-67 | `ConnectedFrame` (line 29) and `RefreshFrame` (line 67), given a one-line JSON payload, each decode to exactly one event with that name and that payload. |
| SseFrames.EventFrameReadsBack | server/sse.ts:67 | An event frame with a one-line name and data reads back, from a fresh reader, as exactly that event, and the reader is left fresh. |
| SseFrames.CommentFrameReadsAsNothing | server/sse.ts:43 | A comment frame dispatches no event and leaves the reader fresh. |
| SseFrames.HeartbeatReadsAsNothing | server/sse.ts:43 | `HeartbeatFrame`, the text `: heartbeat\n\n`, decodes to no event and leaves the reader fresh. |
| SseFrames.StreamReadsBack | server/sse.ts:29-47 | Any sequence of well-formed frames written to one sink, in any interleaving of events and heartbeats, decodes to exactly its events, in order. |
| OrderedMap.Empty | server/sse.ts:15 | `new Map()` is a valid map with no keys and size zero. |

## Left out

- The response headers and `flushHeaders` (`server/sse.ts:22-26`) are not modelled. They are transport plumbing and happen before the `connected` frame is written.
- The `console.log` and `console.error` calls are not modelled.
- `JSON.stringify` is an opaque `json` parameter. The read-back lemmas need its output to be a single line, which holds for `JSON.stringify` without indentation but is stated here as a requirement.
- The `new Date()` values are parameters, not readings of a clock.
- Real timers, the 30000 ms period and `setInterval`/`clearInterval` are not modelled. Each firing is an explicit `Tick` call on a handle, and clearing removes the handle from `timers`.
- Sse.Transport.Write: a sink either always fails or never does. A sink that starts failing part-way through is modelled by a transport with a different `broken` set, not within one run.
- Sse.Hub.Tick: a heartbeat write that throws (line 43) is an uncaught exception in a `setInterval` callback, which by default ends the Node process and so drops every client. The model instead reports it as `Beat(Failed)` and changes no state; the end of the process is not modelled.
- Sse.Hub.AddClient: a `connected` write that throws is reported as `None` with no state change. The exception itself, which leaves `addClient` to its caller, is not modelled.
- Concurrency is not modelled. Every call runs to completion before the next one starts, as in the single-threaded event loop.
- The reader in `SseFrames` ends lines at line feeds only, and it ignores the `id` and `retry` fields and a leading byte-order mark. The hub never writes carriage returns, `id` or `retry`.
- A polling gateway, event ids, a retained last event and a shutdown operation are not part of this code.
