# Room relay of NetSim Pro, in Dafny

The NetSim Pro server (`server.js`) pairs two browsers into a room and relays
transmission events between them. This project models its room registry
(`rooms`), its connection directory (`connections`), the socket.io adapter's
room membership, and the messages each HTTP request or socket event makes
the server emit. Node runs one handler at a time, so the server is a
sequential state machine: one request or event is one step.

Files:

- `protocol.dfy`: identifiers, the `Room` and `Binding` records, the
  emitted events, the HTTP reply bodies and the error strings.
- `transport.dfy`: the adapter's membership, a map from room name to the
  sockets in it in joining order (a JavaScript `Set` iterates in insertion
  order). It provides `socket.join`, the "leave every room" step the
  adapter performs when a socket closes, and the recipient sets of
  `io.to(r)` and `socket.to(r)`.
- `relay.dfy`: every handler as a transition on a `State` value. It also
  holds the invariant `Valid`, which every handler preserves:
  - adapter rooms are non-empty and free of duplicates;
  - every socket in an adapter room has a binding;
  - every bound socket is in the adapter room it is bound to;
  - no registry entry lists more than two computers.
- `server.dfy`: class `RelayServer`. Its fields are the two Maps and the
  adapter table, and its methods update them in place as the handlers do.
  Each handler method is proved equal to the `Relay` transition of the same
  name. `UpdateRoomInfo` and `RequestRoomInfo` are proved equal to
  `Relay.RoomInfo`. `LeaveRoom`, for the event without a handler, is proved
  to emit nothing and change nothing.
- `traces.dfy`: dispatches requests to the handlers and runs sequences of
  them. Proves that the cap holds on every run and that transmission ids in
  a room are 1, 2, 3, and so on. Also plays the two-machine scenario from
  room creation until the room is deleted.

What the code does that a reader might not expect (modelled as written):

- The two-computer cap is checked only by `POST /join-room`
  (server.js:49). The socket `join-room` event checks nothing.
- `room.computers` never shrinks. A disconnect does not remove the name.
- A room is deleted on disconnect when its adapter room is empty
  (server.js:175-177). The `computers` list plays no part. So a room
  created over HTTP that one socket joined and left is deleted, even though
  its name list is full; see `Relay.DisconnectUndoesJoin`.
- Create-room overwrites an entry with the same id. The id generator's
  collisions are not checked.
- Clients emit `leave-room` (public/script.js:298-302), but the server has
  no handler for it.
- `request-room-info` from any socket sends the snapshot to the whole
  room. The requester receives it only if it is in that room.
- A socket bound to a room that is not in the registry makes
  `start-transmission` read `room.transmissions` of `undefined`
  (server.js:105). The handler throws before emitting anything. The model
  calls this outcome `Fault` and leaves the state unchanged.
- The guard `senderInfo && senderInfo.roomId` treats an empty room id as
  unbound (`Relay.Bound`). The disconnect handler only checks that a
  binding exists.

## Model

| member | source | states |
|---|---|---|
| Protocol.Lookup | server.js:205 | `rooms.get(roomId)`: a value exactly when the key is present, and then that entry |
| Transport.Everyone | server.js:202 | `io.to(r)` reaches exactly the sockets in adapter room r |
| Transport.Others | server.js:69 | `socket.to(r)` reaches exactly the sockets in room r other than the sender, never the sender |
| Transport.Join | server.js:62 | `socket.join(r)` adds r and nothing else to the room set. The new members are the old ones plus (r, socket). Other rooms are unchanged. A repeated join changes nothing. A new socket goes to the end of the list. Well-formedness is kept |
| Transport.LeaveAll | server.js:175-176 | when a socket closes, it leaves every adapter room and every room left empty is dropped. A room survives exactly when it had another socket. Memberships are the old ones minus the socket. No room is left empty. Well-formedness is kept. A socket in no room changes nothing |
| Transport.RemoveMiddle | server.js:175 | when a socket that is listed once leaves an adapter room, the sockets before and after it stay in their order, as they do when one entry is deleted from a `Set` |
| Transport.LeaveAllUndoesJoin | server.js:62 | for a socket in no room, leaving everything after a join restores the membership exactly, order included |
| Relay.InitialValid | server.js:22-23 | the empty registry, directory and adapter table satisfy the invariant |
| Relay.CreateRoom | server.js:30-38 | the id maps to a room with no computers and counter 0, and no other entry changes. An existing entry with that id is overwritten. The invariant is kept |
| Relay.HttpJoin | server.js:41-55 | an unknown id gives "Sala no encontrada" and a full room gives "Sala llena (máximo 2 computadoras)", both with the state untouched. It succeeds exactly when the room exists with fewer than two names. On success the name is appended, the counter is kept, the reply carries the stored room, and nothing else changes. It never pushes the list past two |
| Relay.Names | server.js:195-200 | the snapshot's name list holds exactly the names of the member sockets that have a binding, and no more entries than sockets; unbound sockets are skipped. When every socket is bound, the list is one name per socket, in membership order |
| Relay.RoomInfo | server.js:192-207 | one `room-update` exactly when the adapter room exists, addressed to all its members. It carries the room id, the registry entry or none, and the `Names` list of the room's sockets in membership order, which holds exactly the bound members' names |
| Relay.JoinRoom | server.js:60-79 | rooms are unchanged and the binding is (re)set. The membership becomes exactly `Transport.Join` of the old one, so the socket is appended to the room. `computer-joined` goes to the previous other members only. Then comes exactly the snapshot `RoomInfo` of the new state, to all members including the joiner, listing the joiner's name and carrying the registry entry. The invariant is kept |
| Relay.InvariantAfterJoin | server.js:60-66 | joining and binding preserve the invariant |
| Relay.StartTransmission | server.js:81-120 | an unbound sender gets only `transmission-error` and nothing changes. A bound sender whose room is missing faults. Otherwise that room's counter rises by one, every other room and the bindings and membership are unchanged, and the new value is both the stamp and the id of `receive-transmission` (to the others) and of `transmission-sent` (to the sender). The invariant is kept |
| Relay.Forward | server.js:126-134 | a bound socket's event is emitted once, unchanged, to exactly the other members of its room; an unbound socket's goes nowhere |
| Relay.LayerUpdate | server.js:122-135 | bound sender: exactly one `layer-update-received` with the four fields as given, to the room's other members; unbound: nothing |
| Relay.TransmissionComplete | server.js:137-146 | bound sender: exactly one `transmission-completed` naming the bound computer, to the room's other members; unbound: nothing |
| Relay.ReportTransmissionError | server.js:148-157 | bound sender: exactly one `transmission-failed` naming the bound computer with the client's error, to the room's other members; unbound: nothing |
| Relay.Disconnect | server.js:159-184 | The membership becomes exactly `Transport.LeaveAll` of the old one: the socket leaves every adapter room and the other sockets keep their order, so the snapshot lists names in joining order. Its binding is removed. Unbound: nothing is emitted, the rooms are unchanged, and under the invariant nothing changes at all. Bound: `computer-left` goes to the remaining members, then the snapshot if the adapter room still exists. The registry entry survives exactly when the adapter room still has sockets, and then it is unchanged. Other rooms are untouched. The invariant is kept |
| Relay.InvariantAfterDisconnect | server.js:174-181 | leaving, unbinding and deleting registry entries preserve the invariant |
| Relay.DisconnectUndoesJoin | server.js:159-184 | for a fresh socket, join then disconnect restores bindings and membership and tells all previous members. The registry loses the room exactly when no socket was in it before |
| Server.RelayServer.constructor | server.js:22-23 | the server starts empty and valid |
| Server.RelayServer.CreateRoom | server.js:30-38 | in-place update equal to `Relay.CreateRoom`; replies with the id; keeps the invariant |
| Server.RelayServer.HttpJoin | server.js:41-55 | in-place update and reply equal to `Relay.HttpJoin`; keeps the invariant |
| Server.RelayServer.UpdateRoomInfo | server.js:192-207 | reads the state only and emits `Relay.RoomInfo` of it |
| Server.RelayServer.JoinRoom | server.js:60-79 | in-place update and messages equal to `Relay.JoinRoom`; keeps the invariant |
| Server.RelayServer.StartTransmission | server.js:81-120 | in-place update and messages equal to `Relay.StartTransmission`. It faults exactly when the relay faults, and then changes nothing |
| Server.RelayServer.LayerUpdate | server.js:122-135 | changes nothing; emits `Relay.LayerUpdate` |
| Server.RelayServer.TransmissionComplete | server.js:137-146 | changes nothing; emits `Relay.TransmissionComplete` |
| Server.RelayServer.ReportTransmissionError | server.js:148-157 | changes nothing; emits `Relay.ReportTransmissionError` |
| Server.RelayServer.Disconnect | server.js:159-184 | in-place update and messages equal to `Relay.Disconnect`; keeps the invariant |
| Server.RelayServer.RequestRoomInfo | server.js:186-189 | changes nothing; the whole room receives the snapshot, whoever asked |
| Server.RelayServer.LeaveRoom | public/script.js:298-302 | the event clients emit has no server handler: nothing is emitted and nothing changes |
| Traces.Step | server.js:57-189 | only `start-transmission` can throw, and exactly when its bound room is missing. Only the HTTP endpoints reply. Steps other than creation or a transmission never raise a counter or add a room. Every completed step keeps the invariant |
| Traces.RunKeepsValid | server.js:57-189 | every completed run from a valid state ends in a valid state |
| Traces.CapHoldsOnEveryRun | server.js:49-53 | along every run from the empty server, no room ever lists more than two computers |
| Traces.StepCounter | server.js:92-98 | any step but re-creating the room leaves its counter alone (or deletes the room) and acknowledges no id there, or raises it by one and acknowledges exactly the new value. A missing room stays missing |
| Traces.TallyConsecutive | server.js:92-114 | for any step function with that property, the ids acknowledged in a room are consecutive after its counter, and there are none in a missing room |
| Traces.IssuedIdsConsecutive | server.js:92-114 | along any run of the server that does not re-create room r, the ids acknowledged in r are counter+1, counter+2, and so on, and none if r does not exist |
| Traces.FreshRoomCountsFromOne | server.js:32-36 | after a room is created, its ids are 1, 2, 3, ... and strictly increasing until it is created again |
| Traces.ScenarioThirdHttpJoin | server.js:49-50 | a third HTTP join of a room listing two names is refused with the state unchanged |
| Traces.ScenarioTransmission | server.js:92-114 | from the paired state, a transmission from either machine raises the counter to n+1 and acknowledges exactly id n+1 |
| Traces.ScenarioDepartureNotice | server.js:165-169 | when PC-1 disconnects, `computer-left` for PC-1 reaches s2 alone |
| Traces.ScenarioFirstDeparture | server.js:174-181 | after PC-1 disconnects the room stays, both names remain listed, and s2 is its only socket |
| Traces.ScenarioSecondDeparture | server.js:175-177 | after PC-2 disconnects the server is empty again, and an HTTP join of the old id gets "Sala no encontrada" |
| Traces.ScenarioFilling | server.js:30-55 | create, two HTTP joins and a refused third: replies Created, Joined, Joined, RoomFull |
| Traces.ScenarioPairing | server.js:60-79 | both sockets join: the room's two sockets are bound to PC-1 and PC-2 |
| Traces.ScenarioExchange | server.js:81-120 | one transmission each way: ids 1 and 2, counter 2 |
| Traces.ScenarioLeaving | server.js:159-184 | both sockets leave, the room is deleted, and a later join gets "Sala no encontrada" |
| Traces.ScenarioOutcome | server.js:30-184 | the whole scenario: replies Created, Joined, Joined, RoomFull, RoomNotFound; ids 1 and 2 acknowledged in the room; the server ends empty |

## Left out

- Express and socket.io setup, static files, body limits, CORS,
  `server.listen` and every `console.log` (server.js:1-27, server.js:214-219):
  I/O plumbing.
- `generateRoomId` (server.js:210-212) uses `Math.random`. The room id is a
  parameter of create-room.
- `new Date()` timestamps, `createdAt`, and the human-readable `message`
  fields of emitted events: they are clock readings and fixed text.
- Payload contents (`transmissionData`, `data`, `error`, the layer fields)
  are opaque strings. The relay only routes them.
- Relay.StartTransmission: `transmissionData.dataType` is read at
  server.js:88 before the guard, so a request without `transmissionData`
  throws. The model takes the payload as always present.
- The socket fields `socket.roomId` and `socket.computerName`
  (server.js:63-64) are written and never read.
- A handler whose `data` argument is missing throws before it changes
  anything: `join-room` (server.js:61), `start-transmission`
  (server.js:82), `layer-update` before its guard (server.js:123),
  `transmission-error` reading `data.error` (server.js:153) and
  `request-room-info` (server.js:187). The model's events always carry
  their fields.
- socket.io puts every socket in a private room named by its socket id.
  The model leaves those rooms out and so assumes room ids never equal
  socket ids. A client that names a socket id as a room, for example a
  socket sending `request-room-info` with its own id, makes the server
  find that private room (server.js:193) and send it a `room-update`. The
  model emits nothing in that case.
- Relay.StartTransmission: JavaScript numbers lose precision beyond 2^53.
  The counter is an unbounded `nat`.
- What Node does after an uncaught exception in a handler (the process may
  stop) is outside the model. `Traces.Run` stops at a fault.
- public/script.js is the browser client (DOM, timers, FileReader,
  simulated errors). It matters only as the source of the events above.
- Real concurrency: Node processes one event at a time, so each event is
  one step.
