# Signaling relay of the screen-sharing app, in Dafny

One broadcaster shares a screen with many viewers over peer-to-peer media
connections. The peers cannot reach each other until they have exchanged
session descriptions (`sdp`) and network candidates. The relay in
`server/server.js` carries those messages between them over one WebSocket per
participant. This project models that relay and proves its routing rules.

The relay keeps three pieces of state:

- the module-level `broadcaster` slot, which holds at most one socket;
- on every socket, the fields `role` (unset, `'broadcaster'` or `'viewer'`) and
  `id`, which the handlers write;
- the socket server's client set, iterated in connection order, with each
  socket's ready state.

On each decoded frame the `message` handler switches on `type`. On each
disconnection the `close` handler runs the teardown rules.

## Structure

- `envelope.dfy`, module `Envelopes`: the wire frame `{ type, id?, sdp?, candidate? }`
  as one datatype, used for both directions. It also defines one outbound
  `send` call as `Send(to, msg)`.
- `registry.dfy`, module `Registry`: the relay state as a value. It holds the
  invariant `Valid`: the client list has no repeats and matches the field map;
  the slot names a connected socket; every viewer holds an id in 1000..9999;
  no two viewers hold the same id. It also holds `FanOut`, the specification
  of a `forEach` over the clients that sends to each selected socket, and
  `ToBroadcaster`, the specification of the guarded send to the broadcaster.
  Finally it counts the id range.
- `routing.dfy`, module `Routing`: `HandleMessage` and `HandleClose` give the
  next state and the sends of each handler. Other functions cover a new
  connection and a change of ready state. The lemmas prove the routing rules
  and that every event keeps `Valid`.
- `relay.dfy`, module `Server`: class `Relay` has the three pieces of state as
  mutable fields. Its handlers update those fields in place. They build the
  sends with loops over the client list, as the source does with `forEach` and
  `some`. Each handler is proved equal to the matching function of `Routing`.

Behaviour of the code that the model keeps:

- A second `broadcaster` frame silently takes the slot from the first one.
- `offer`, `answer` and `start` are routed without checking the sender's role.
- A forwarded `answer` carries the `id` the sender wrote (`data.id`). A
  forwarded viewer candidate carries the sender's own id (`ws.id`).
- A socket that was replaced in the slot and never became a viewer sends
  nothing when it closes.
- A socket that holds the slot and later sent `watcher` is still the
  broadcaster. It is notified of its own registration, and its close ends the
  session.
- A client that sends `close` or `disconnect` itself hits the default branch
  and changes nothing.
- The ws library removes a socket from `wss.clients` before the user's `close`
  listener runs. `HandleClose` therefore drops the socket first and then
  applies the teardown to the remaining clients.
- `generateUniqueId` runs after `ws.role = 'viewer'` has been set. So a socket
  that registers as a watcher a second time counts its own old id as taken.

The broader design for this system also calls for several things that the code
does not implement: rejecting a second broadcaster with an error, heartbeats
and staleness sweeps, per-viewer negotiation states (announced, offered,
answered), dropping duplicate answers, and a shared-store transport. The model
follows the code and has none of them.

## Model

| member | source | states |
|---|---|---|
| `Registry.FanOut` | server/server.js:51-56 | the sends of a `forEach` over the clients go to exactly the connected sockets that are open viewers (and, for an addressed frame, hold the addressed id); each carries the given frame; there are no more sends than clients; with distinct clients no socket is sent to twice |
| `Registry.FanOutInClientOrder` | server/server.js:51-56 | the `forEach` sends in client order: when one send precedes another, its recipient comes earlier in the client set |
| `Registry.RemoveFrom` | server/server.js:102 | the client set seen by the `close` listener, which the ws library has already pruned, is no longer than before, holds exactly the other sockets, and has no repeats when the original had none |
| `Registry.RemoveFromKeepsOrder` | server/server.js:102 | deleting the closed socket keeps the remaining clients in their relative order, so later `forEach` loops visit them as before |
| `Registry.ToBroadcaster` | server/server.js:42-45 | the guarded send produces one frame to the slot's socket exactly when the slot is set and that socket is open, and nothing otherwise |
| `Registry.IdSpan` | server/server.js:16 | the candidate ids are exactly the integers from 1000 through 9999 |
| `Registry.IdSpanSize` | server/server.js:16 | `Math.floor(1000 + r * 9000)` ranges over exactly 9000 ids |
| `Registry.FreeIdExists` | server/server.js:15-20 | while fewer than 9000 ids are taken, some id in 1000..9999 is free, so the do-while can stop |
| `Routing.HandleMessage` | server/server.js:31-99 | no frame adds or removes a socket or changes another socket's fields or any ready state; only a `broadcaster` frame moves the slot, and only to the sender; every send goes to a connected socket |
| `Routing.HandleClose` | server/server.js:102-119 | the closed socket leaves the client set and the field map while every other socket keeps its fields; the slot is emptied exactly when the closed socket held it; nothing is sent to the closed socket, only to sockets still connected |
| `Routing.HandleConnection` | server/server.js:24 | a new socket joins the end of the client set, open, with no role and no id; no other socket, the slot and the set of held viewer ids are unchanged |
| `Routing.SetReadyState` | server/server.js:42 | the ws library changes a socket's ready state, which the handlers read at `readyState === WebSocket.OPEN` guards such as this one; the change sets only that socket's flag; its role and id, every other socket, the slot and the held viewer ids are unchanged |
| `Routing.PromoteToViewer` | server/server.js:39 | setting `ws.role = 'viewer'` makes the sender a viewer, keeps its id and ready state, and leaves every other socket unchanged |
| `Routing.HandleMessageKeepsValid` | server/server.js:31-99 | every message keeps the invariant; in particular a `watcher` with a fresh id keeps viewer ids pairwise distinct and in range |
| `Routing.HandleCloseKeepsValid` | server/server.js:102-119 | the close teardown keeps the invariant, and the slot never names a departed socket |
| `Routing.HandleConnectionKeepsValid` | server/server.js:24 | a new connection (no role, no id, open) keeps the invariant |
| `Routing.SetReadyStateKeepsValid` | server/server.js:42 | a change of a socket's ready state (read at this guard, made by the ws library) keeps the invariant |
| `Routing.BroadcasterTakesSlot` | server/server.js:32-36 | `broadcaster` sets the sender's role and puts the sender in the slot whether or not it was set; nothing is sent and nothing else changes |
| `Routing.WatcherRegisters` | server/server.js:38-46 | `watcher`, whatever `id` the client wrote into it, makes the sender a viewer with the drawn id, which is in range and held by no other viewer; it sends exactly one `{type:'watcher', id}` to the broadcaster when the slot is set and open, and nothing otherwise |
| `Routing.OfferReachesOnlyAddressedViewer` | server/server.js:48-57 | an `offer` leaves the state unchanged and reaches exactly the open viewers whose id equals `data.id`, each once, carrying `data.id` and the sdp |
| `Routing.AddressedFanOutAtMostOne` | server/server.js:51-56 | because viewer ids are unique, an addressed `forEach` sends at most one frame |
| `Routing.OfferToUnknownIdDropped` | server/server.js:51-56 | an `offer` for an id that no open viewer holds sends nothing |
| `Routing.OffersIsolatedById` | server/server.js:52 | an offer addressed to one viewer's id never reaches any other socket |
| `Routing.AnswerGoesToBroadcaster` | server/server.js:59-65 | an `answer` changes nothing and goes only to the broadcaster when the slot is set and open, stamped with the sender-written `data.id`; otherwise it is dropped |
| `Routing.BroadcasterCandidateReachesAddressedViewer` | server/server.js:69-76 | a candidate from the broadcaster reaches exactly the open viewers holding `data.id`, at most one |
| `Routing.ViewerCandidateGoesToBroadcaster` | server/server.js:77-83 | a candidate from a viewer goes only to the open broadcaster, stamped with the sender's own `ws.id`; from a socket with no role it is dropped |
| `Routing.StartReachesEveryOpenViewer` | server/server.js:86-94 | `start` changes nothing and sends `{type:'start'}` once to every open viewer and to no one else |
| `Routing.OtherTypesIgnored` | server/server.js:96-98 | any type the switch has no case for, including a client-sent `close` or `disconnect`, changes no state and sends nothing |
| `Routing.ClosingBroadcasterEndsSession` | server/server.js:103-111 | closing the slot's socket empties the slot, drops the socket from the client set and the field map, and sends one `close` to each remaining open viewer and to no one else |
| `Routing.ClosingViewerNotifiesBroadcaster` | server/server.js:112-118 | closing a viewer that is not in the slot drops it from the client set and the field map, keeps the slot, and sends at most one `{type:'disconnect', id}`, to the open broadcaster |
| `Routing.ClosingOtherSocketIsSilent` | server/server.js:102-119 | closing a socket that is neither in the slot nor a viewer, such as a replaced ex-broadcaster, only drops it from the client set |
| `Routing.OfferAfterViewerLeftIsDropped` | server/server.js:48-57 | after a viewer disconnects, an offer for its old id reaches nobody |
| `Routing.WatcherThenOfferReachesWatcher` | server/server.js:38-57 | a viewer that registers while open, whatever id it wrote into its `watcher` frame, receives exactly the one offer addressed to the id it was given |
| `Server.Relay.constructor` | server/server.js:10 | the relay starts with an empty slot and no sockets |
| `Server.Relay.Connect` | server/server.js:24 | a new socket joins the end of the client set with no role and no id, and the invariant holds |
| `Server.Relay.SetOpen` | server/server.js:52 | the ws library's change of one socket's ready state, read at this guard, updates only that socket's flag |
| `Server.Relay.IdInUse` | server/server.js:17-19 | the `some` scan returns true exactly when a viewer socket holds the id |
| `Server.Relay.GenerateUniqueId` | server/server.js:12-22 | the do-while returns an id in 1000..9999 that no viewer socket holds |
| `Server.Relay.Deliver` | server/server.js:88-93 | the `forEach` loop produces exactly the sends that `FanOut` specifies |
| `Server.Relay.NotifyBroadcaster` | server/server.js:115-117 | the guarded send produces exactly the sends that `ToBroadcaster` specifies |
| `Server.Relay.OnMessage` | server/server.js:27-100 | the message handler updates the fields in place and sends exactly as `HandleMessage` says, with a fresh id for a `watcher`, and keeps the invariant |
| `Server.Relay.OnClose` | server/server.js:102-119 | the close handler drops the socket, updates the slot and sends exactly as `HandleClose` says, and keeps the invariant |

## Left out

- HTTP and WebSocket server construction, `server.listen` and the `PORT`
  variable (server/server.js:1-8, 122-123). These are I/O plumbing. A
  connection is an event (`Connect`). `readyState === OPEN` is a boolean flag
  that the environment sets (`SetOpen`).
- The JSON codec (`JSON.parse`, `JSON.stringify`). Frames are modelled already
  decoded. Malformed text throws in `JSON.parse` (server/server.js:29), and
  `null` throws at `data.type` (server/server.js:31). A frame that decodes to
  any other non-object (a number, string, boolean or array) has an undefined
  `type`, reaches `default` (server/server.js:96-98) and is ignored, which is
  what `Unknown` models. Nothing catches a throw, and no state changes before
  it. By Node's default an uncaught exception ends the process, so one such
  frame would end every session at once. The model does not capture that
  crash.
- `id` values that are not integers (JSON could carry a string) are not
  modelled. An `id` here is absent or an integer. Absent `sdp` or `candidate`
  fields are not told apart from present ones: the payloads are opaque
  strings that are only copied.
- `Math.random`, which is floating-point randomness. Each draw is any id in
  1000..9999 not yet drawn in the same call. Drawing an id again that was
  already found taken would only repeat an iteration.
- Server.Relay.GenerateUniqueId: requires that fewer than 9000 ids are held
  by viewers (counting the sender). With all 9000 held, the source's loop
  never ends.
- `console.log` logging. It has no effect on state.
- The WebSocket framing (section 5.6 of RFC 6455) and message delivery. A send
  is recorded in the returned sequence and not transmitted.
- frontend/pages/view.js, share.js and index.js. These are browser clients
  (peer connections, screen capture, canvas snapshots, UI). They serve only as
  evidence of the frame shapes clients send.
- Concurrency. Node runs each handler to completion before the next event,
  and the model treats each event as one atomic step.
