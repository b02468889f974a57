/**
 * The handlers of the relay server as transitions over its three pieces of
 * state: the room registry (`rooms`), the connection directory
 * (`connections`) and the transport's room membership (`members`). Each
 * handler returns the new state and the messages it emitted, in order.
 */
module Relay {
  import opened Protocol
  import Transport

  datatype State = State(
    rooms: map<RoomId, Room>,
    connections: map<SocketId, Binding>,
    members: Transport.Membership)

  const Initial := State(map[], map[], map[])

  /** The new state and the emitted messages of a handler that always completes. */
  datatype Effect = Effect(state: State, out: seq<Message>)

  /** The new state and the HTTP body of a request/response handler. */
  datatype Response = Response(state: State, reply: HttpReply)

  /**
   * The outcome of `start-transmission`, which can throw: `Fault` stands for
   * the TypeError raised before anything is emitted or changed.
   */
  datatype Outcome = Handled(state: State, out: seq<Message>) | Fault

  predicate CapHolds(rooms: map<RoomId, Room>) {
    forall r :: r in rooms ==> |rooms[r].computers| <= MaxComputers
  }

  /**
   * The invariant every reachable state keeps: transport rooms are non-empty
   * and duplicate-free, every socket in a transport room has a binding, every
   * bound socket is in the transport room it is bound to, and no registry
   * entry lists more than two computers.
   */
  ghost predicate Valid(s: State) {
    && Transport.WellFormed(s.members)
    && (forall r, y :: Transport.InRoom(s.members, r, y) ==> y in s.connections)
    && (forall y :: y in s.connections ==> Transport.InRoom(s.members, s.connections[y].roomId, y))
    && CapHolds(s.rooms)
  }

  lemma InitialValid()
    ensures Valid(Initial)
  {
  }

  /** The guard `senderInfo && senderInfo.roomId`: an empty room id is falsy. */
  predicate Bound(s: State, socket: SocketId) {
    socket in s.connections && s.connections[socket].roomId != ""
  }

  // ---------------------------------------------------------------- HTTP

  /** POST /create-room, with the generated id as a parameter; an existing entry is overwritten. */
  function CreateRoom(s: State, roomId: RoomId): (t: State)
    ensures t.rooms.Keys == s.rooms.Keys + {roomId}
    ensures t.rooms[roomId] == EmptyRoom
    ensures forall r :: r in s.rooms && r != roomId ==> t.rooms[r] == s.rooms[r]
    ensures t.connections == s.connections && t.members == s.members
    ensures Valid(s) ==> Valid(t)
  {
    s.(rooms := s.rooms[roomId := EmptyRoom])
  }

  /** POST /join-room: not-found and full checks, then the name is appended to `computers`. */
  function HttpJoin(s: State, roomId: RoomId, computerName: Name): (j: Response)
    ensures roomId !in s.rooms ==> j == Response(s, Rejected(RoomNotFound))
    ensures roomId in s.rooms && |s.rooms[roomId].computers| >= MaxComputers ==>
              j == Response(s, Rejected(RoomFull))
    ensures j.reply.Joined? <==> roomId in s.rooms && |s.rooms[roomId].computers| < MaxComputers
    ensures j.reply.Joined? ==>
              && j.state.rooms.Keys == s.rooms.Keys
              && j.state.rooms[roomId] == j.reply.room
              && j.reply.room.computers == s.rooms[roomId].computers + [computerName]
              && j.reply.room.transmissions == s.rooms[roomId].transmissions
              && forall r :: r in s.rooms && r != roomId ==> j.state.rooms[r] == s.rooms[r]
    ensures j.state.connections == s.connections && j.state.members == s.members
    ensures CapHolds(s.rooms) ==> CapHolds(j.state.rooms)
    ensures Valid(s) ==> Valid(j.state)
  {
    if roomId !in s.rooms then
      Response(s, Rejected(RoomNotFound))
    else
      var room := s.rooms[roomId];
      if |room.computers| >= MaxComputers then
        Response(s, Rejected(RoomFull))
      else
        var room' := room.(computers := room.computers + [computerName]);
        Response(s.(rooms := s.rooms[roomId := room']), Joined(room'))
  }

  // ------------------------------------------------------------- snapshot

  /** The names of the sockets that have a binding, in membership order; unbound ones are skipped. */
  function Names(sockets: seq<SocketId>, connections: map<SocketId, Binding>): (names: seq<Name>)
    ensures |names| <= |sockets|
    ensures (forall x :: x in sockets ==> x in connections) ==> |names| == |sockets|
    ensures forall n :: n in names <==>
              exists x :: x in sockets && x in connections && connections[x].computerName == n
    ensures (forall x :: x in sockets ==> x in connections) ==>
              forall i :: 0 <= i < |sockets| ==> names[i] == connections[sockets[i]].computerName
  {
    if sockets == [] then []
    else
      var rest := Names(sockets[1..], connections);
      assert forall x :: x in sockets <==> x == sockets[0] || x in sockets[1..];
      if sockets[0] in connections then [connections[sockets[0]].computerName] + rest else rest
  }

  /** `updateRoomInfo`: a `room-update` to every socket in the transport room, if there is one. */
  function RoomInfo(s: State, roomId: RoomId): (out: seq<Message>)
    ensures |out| <= 1
    ensures out != [] <==> roomId in s.members
    ensures out != [] ==>
              && out[0].to == Transport.Everyone(s.members, roomId)
              && out[0].event.RoomUpdate?
              && out[0].event.roomId == roomId
              && out[0].event.roomData == Lookup(s.rooms, roomId)
              && out[0].event.computers == Names(s.members[roomId], s.connections)
    ensures out != [] ==> forall n :: n in out[0].event.computers <==>
              exists x :: Transport.InRoom(s.members, roomId, x) && x in s.connections
                          && s.connections[x].computerName == n
  {
    if roomId in s.members then
      var computers := Names(s.members[roomId], s.connections);
      [Message(Transport.Everyone(s.members, roomId), RoomUpdate(computers, roomId, Lookup(s.rooms, roomId)))]
    else
      []
  }

  // -------------------------------------------------------- socket events

  /**
   * `join-room`: no check of any kind; binds, joins, notifies the others, then pushes the snapshot.
   * The defining clauses are the new rooms, connections and `members == Transport.Join(...)`,
   * the `computer-joined` message `e.out[0]`, and `e.out[1..] == RoomInfo(e.state, roomId)`.
   * The others spell out what `Join` and `RoomInfo` then give: who is in the room, and that
   * the snapshot reaches the joiner, lists its name and carries the registry entry.
   */
  function JoinRoom(s: State, socket: SocketId, roomId: RoomId, computerName: Name): (e: Effect)
    ensures e.state.rooms == s.rooms
    ensures e.state.connections == s.connections[socket := Binding(roomId, computerName)]
    ensures forall r, y :: Transport.InRoom(e.state.members, r, y) <==>
              Transport.InRoom(s.members, r, y) || (r == roomId && y == socket)
    ensures e.state.members == Transport.Join(s.members, roomId, socket)
    ensures |e.out| == 2
    ensures e.out[0].event == ComputerJoined(computerName)
    ensures forall y :: y in e.out[0].to <==> Transport.InRoom(s.members, roomId, y) && y != socket
    ensures forall y :: y in e.out[1].to <==> Transport.InRoom(e.state.members, roomId, y)
    ensures socket in e.out[1].to
    ensures e.out[1].event.RoomUpdate? && e.out[1].event.roomId == roomId
    ensures e.out[1].event.roomData == Lookup(s.rooms, roomId)
    ensures computerName in e.out[1].event.computers
    ensures e.out[1..] == RoomInfo(e.state, roomId)
    ensures Valid(s) ==> Valid(e.state)
  {
    var members := Transport.Join(s.members, roomId, socket);
    var t := State(s.rooms, s.connections[socket := Binding(roomId, computerName)], members);
    var joined := Message(Transport.Others(members, roomId, socket), ComputerJoined(computerName));
    var info := RoomInfo(t, roomId);
    assert Transport.InRoom(t.members, roomId, socket);
    InvariantAfterJoin(s, t, socket, roomId, computerName);
    Effect(t, [joined] + info)
  }

  lemma InvariantAfterJoin(s: State, t: State, socket: SocketId, roomId: RoomId, computerName: Name)
    requires t == State(s.rooms, s.connections[socket := Binding(roomId, computerName)],
                        Transport.Join(s.members, roomId, socket))
    ensures Valid(s) ==> Valid(t)
  {
    if Valid(s) {
      forall y | y in t.connections
        ensures Transport.InRoom(t.members, t.connections[y].roomId, y)
      {
        if y != socket {
          assert Transport.InRoom(s.members, s.connections[y].roomId, y);
        }
      }
    }
  }

  /**
   * `start-transmission`. An unbound sender gets a `transmission-error`. A
   * bound sender whose room is not in the registry makes the handler read
   * `room.transmissions` of an undefined room: a fault.
   */
  function StartTransmission(s: State, socket: SocketId, data: Data): (o: Outcome)
    ensures !Bound(s, socket) ==> o == Handled(s, [Message({socket}, TransmissionError(NotInRoom))])
    ensures Bound(s, socket) && s.connections[socket].roomId !in s.rooms ==> o == Fault
    ensures Bound(s, socket) && s.connections[socket].roomId in s.rooms ==>
              var b := s.connections[socket];
              var id := s.rooms[b.roomId].transmissions + 1;
              && o.Handled?
              && o.state.connections == s.connections && o.state.members == s.members
              && o.state.rooms.Keys == s.rooms.Keys
              && o.state.rooms[b.roomId] == s.rooms[b.roomId].(transmissions := id)
              && (forall r :: r in s.rooms && r != b.roomId ==> o.state.rooms[r] == s.rooms[r])
              && |o.out| == 2
              && o.out[0].event == ReceiveTransmission(data, id, b.computerName, id)
              && o.out[0].to == Transport.Others(s.members, b.roomId, socket)
              && o.out[1] == Message({socket}, TransmissionSent(id))
    ensures o.Handled? && Valid(s) ==> Valid(o.state)
  {
    if Bound(s, socket) then
      var b := s.connections[socket];
      if b.roomId in s.rooms then
        var room := s.rooms[b.roomId];
        var room' := room.(transmissions := room.transmissions + 1);
        var t := s.(rooms := s.rooms[b.roomId := room']);
        var id := room'.transmissions;
        Handled(t, [ Message(Transport.Others(s.members, b.roomId, socket),
                             ReceiveTransmission(data, id, b.computerName, id)),
                     Message({socket}, TransmissionSent(id)) ])
      else
        Fault
    else
      Handled(s, [Message({socket}, TransmissionError(NotInRoom))])
  }

  /** The pass-through relays: one message to the sender's room, sender excluded; nothing if unbound. */
  function Forward(s: State, socket: SocketId, event: Event): (out: seq<Message>)
    ensures !Bound(s, socket) ==> out == []
    ensures Bound(s, socket) ==>
              && |out| == 1
              && out[0].event == event
              && (forall y :: y in out[0].to <==>
                    Transport.InRoom(s.members, s.connections[socket].roomId, y) && y != socket)
  {
    if Bound(s, socket) then
      [Message(Transport.Others(s.members, s.connections[socket].roomId, socket), event)]
    else
      []
  }

  /** `layer-update`: the four fields are forwarded as given, including the client-chosen `computer`. */
  function LayerUpdate(s: State, socket: SocketId, layer: Data, progress: Data, computer: Data, kind: Data)
    : (out: seq<Message>)
    ensures !Bound(s, socket) ==> out == []
    ensures Bound(s, socket) ==>
              && |out| == 1
              && out[0].event == LayerUpdateReceived(layer, progress, computer, kind)
              && (forall y :: y in out[0].to <==>
                    Transport.InRoom(s.members, s.connections[socket].roomId, y) && y != socket)
  {
    Forward(s, socket, LayerUpdateReceived(layer, progress, computer, kind))
  }

  /** `transmission-complete`: relayed as `transmission-completed`, attributed to the bound name. */
  function TransmissionComplete(s: State, socket: SocketId, data: Data): (out: seq<Message>)
    ensures !Bound(s, socket) ==> out == []
    ensures Bound(s, socket) ==>
              && |out| == 1
              && out[0].event == TransmissionCompleted(s.connections[socket].computerName, data)
              && (forall y :: y in out[0].to <==>
                    Transport.InRoom(s.members, s.connections[socket].roomId, y) && y != socket)
  {
    if Bound(s, socket) then
      Forward(s, socket, TransmissionCompleted(s.connections[socket].computerName, data))
    else
      []
  }

  /** `transmission-error` from a client: relayed as `transmission-failed` with its `error` field. */
  function ReportTransmissionError(s: State, socket: SocketId, error: Data): (out: seq<Message>)
    ensures !Bound(s, socket) ==> out == []
    ensures Bound(s, socket) ==>
              && |out| == 1
              && out[0].event == TransmissionFailed(s.connections[socket].computerName, error)
              && (forall y :: y in out[0].to <==>
                    Transport.InRoom(s.members, s.connections[socket].roomId, y) && y != socket)
  {
    if Bound(s, socket) then
      Forward(s, socket, TransmissionFailed(s.connections[socket].computerName, error))
    else
      []
  }

  /**
   * `disconnect`. By the time the handler runs the transport has already
   * taken the socket out of every room it joined. For a bound socket the
   * handler sends `computer-left` and the snapshot, deletes the registry
   * entry of its room when no socket is left in that transport room, and
   * drops the binding.
   */
  function Disconnect(s: State, socket: SocketId): (e: Effect)
    ensures forall r, y :: Transport.InRoom(e.state.members, r, y) <==>
              Transport.InRoom(s.members, r, y) && y != socket
    ensures e.state.members == Transport.LeaveAll(s.members, socket)
    ensures e.state.connections == s.connections - {socket}
    ensures socket !in s.connections ==> e.state.rooms == s.rooms && e.out == []
    ensures Valid(s) && socket !in s.connections ==> e == Effect(s, [])
    ensures socket in s.connections ==>
              var b := s.connections[socket];
              && (b.roomId in e.state.rooms <==> b.roomId in s.rooms && b.roomId in e.state.members)
              && (b.roomId in e.state.rooms ==> e.state.rooms[b.roomId] == s.rooms[b.roomId])
              && (forall r :: r != b.roomId ==>
                    (r in e.state.rooms <==> r in s.rooms)
                    && (r in s.rooms ==> e.state.rooms[r] == s.rooms[r]))
              && |e.out| == (if b.roomId in e.state.members then 2 else 1)
              && e.out[0].event == ComputerLeft(b.computerName)
              && (forall y :: y in e.out[0].to <==> Transport.InRoom(s.members, b.roomId, y) && y != socket)
              && e.out[1..] == RoomInfo(State(s.rooms, s.connections, e.state.members), b.roomId)
    ensures Valid(s) ==> Valid(e.state)
  {
    var members := Transport.LeaveAll(s.members, socket);
    if socket in s.connections then
      var b := s.connections[socket];
      var left := Message(Transport.Others(members, b.roomId, socket), ComputerLeft(b.computerName));
      var info := RoomInfo(State(s.rooms, s.connections, members), b.roomId);
      var rooms := if b.roomId !in members || members[b.roomId] == [] then s.rooms - {b.roomId} else s.rooms;
      var t := State(rooms, s.connections - {socket}, members);
      InvariantAfterDisconnect(s, t, socket);
      Effect(t, [left] + info)
    else
      assert Valid(s) ==> members == s.members by {
        if Valid(s) {
          assert forall r :: !Transport.InRoom(s.members, r, socket);
        }
      }
      Effect(s.(members := members), [])
  }

  lemma InvariantAfterDisconnect(s: State, t: State, socket: SocketId)
    requires t.members == Transport.LeaveAll(s.members, socket)
    requires t.connections == s.connections - {socket}
    requires forall r :: r in t.rooms ==> r in s.rooms && t.rooms[r] == s.rooms[r]
    ensures Valid(s) ==> Valid(t)
  {
    if Valid(s) {
      forall y | y in t.connections
        ensures Transport.InRoom(t.members, t.connections[y].roomId, y)
      {
        assert Transport.InRoom(s.members, s.connections[y].roomId, y);
      }
    }
  }

  /**
   * A socket with no binding joins a room and then disconnects: the
   * connections and the membership are as before, everyone who was in the
   * room is told it left, and the registry loses the room exactly when no
   * socket was in it before, even if it was created over HTTP.
   */
  lemma DisconnectUndoesJoin(s: State, socket: SocketId, roomId: RoomId, computerName: Name)
    requires Valid(s) && socket !in s.connections
    ensures var e := Disconnect(JoinRoom(s, socket, roomId, computerName).state, socket);
            && e.state.members == s.members
            && e.state.connections == s.connections
            && e.state.rooms == (if roomId in s.members then s.rooms else s.rooms - {roomId})
            && e.out[0] == Message(Transport.Everyone(s.members, roomId), ComputerLeft(computerName))
  {
    assert forall r :: !Transport.InRoom(s.members, r, socket);
    DisconnectJoined(s, JoinRoom(s, socket, roomId, computerName).state, socket, Binding(roomId, computerName));
  }

  /** What disconnecting the socket that joined to get from `s` to `t` does. */
  lemma DisconnectJoined(s: State, t: State, socket: SocketId, b: Binding)
    requires Transport.WellFormed(s.members) && socket !in s.connections
    requires forall r :: !Transport.InRoom(s.members, r, socket)
    requires t.rooms == s.rooms && t.connections == s.connections[socket := b]
    requires t.members == Transport.Join(s.members, b.roomId, socket)
    ensures var e := Disconnect(t, socket);
            && e.state.members == s.members
            && e.state.connections == s.connections
            && e.state.rooms == (if b.roomId in s.members then s.rooms else s.rooms - {b.roomId})
            && e.out[0] == Message(Transport.Everyone(s.members, b.roomId), ComputerLeft(b.computerName))
  {
    Transport.LeaveAllUndoesJoin(s.members, b.roomId, socket);
    JoinedDirectory(s, t, socket, b);
    JoinedRegistry(s, t, socket, b);
    JoinedNotice(s, t, socket, b);
  }

  lemma JoinedDirectory(s: State, t: State, socket: SocketId, b: Binding)
    requires Transport.WellFormed(s.members) && socket !in s.connections
    requires forall r :: !Transport.InRoom(s.members, r, socket)
    requires t.rooms == s.rooms && t.connections == s.connections[socket := b]
    requires t.members == Transport.Join(s.members, b.roomId, socket)
    requires Transport.LeaveAll(t.members, socket) == s.members
    ensures Disconnect(t, socket).state.members == s.members
    ensures Disconnect(t, socket).state.connections == s.connections
  {
    assert t.connections - {socket} == s.connections;
  }

  lemma JoinedRegistry(s: State, t: State, socket: SocketId, b: Binding)
    requires Transport.WellFormed(s.members) && socket !in s.connections
    requires forall r :: !Transport.InRoom(s.members, r, socket)
    requires t.rooms == s.rooms && t.connections == s.connections[socket := b]
    requires t.members == Transport.Join(s.members, b.roomId, socket)
    requires Transport.LeaveAll(t.members, socket) == s.members
    ensures Disconnect(t, socket).state.rooms == (if b.roomId in s.members then s.rooms else s.rooms - {b.roomId})
  {
  }

  lemma JoinedNotice(s: State, t: State, socket: SocketId, b: Binding)
    requires Transport.WellFormed(s.members) && socket !in s.connections
    requires forall r :: !Transport.InRoom(s.members, r, socket)
    requires t.rooms == s.rooms && t.connections == s.connections[socket := b]
    requires t.members == Transport.Join(s.members, b.roomId, socket)
    requires Transport.LeaveAll(t.members, socket) == s.members
    ensures Disconnect(t, socket).out[0] == Message(Transport.Everyone(s.members, b.roomId), ComputerLeft(b.computerName))
  {
    assert Transport.Everyone(s.members, b.roomId) - {socket} == Transport.Everyone(s.members, b.roomId);
  }
}
