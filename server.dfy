/**
 * The server process: the two Maps of server.js and the socket.io adapter's
 * room table as fields, and one method per HTTP endpoint and socket event.
 * Each method updates the fields in place, as the handler does, and is
 * proved to agree with the transition of the same name in module Relay.
 */
module Server {
  import opened Protocol
  import Transport
  import Relay

  class RelayServer {
    var rooms: map<RoomId, Room>
    var connections: map<SocketId, Binding>
    var adapterRooms: Transport.Membership

    function Current(): Relay.State
      reads this
    {
      Relay.State(rooms, connections, adapterRooms)
    }

    ghost predicate Valid()
      reads this
    {
      Relay.Valid(Current())
    }

    constructor ()
      ensures Valid() && Current() == Relay.Initial
    {
      rooms := map[];
      connections := map[];
      adapterRooms := map[];
      Relay.InitialValid();
    }

    /** POST /create-room; `roomId` is what `generateRoomId` returned. */
    method CreateRoom(roomId: RoomId) returns (reply: HttpReply)
      requires Valid()
      modifies this
      ensures Valid()
      ensures Current() == Relay.CreateRoom(old(Current()), roomId)
      ensures reply == Created(roomId)
    {
      rooms := rooms[roomId := EmptyRoom];
      reply := Created(roomId);
    }

    /** POST /join-room. */
    method HttpJoin(roomId: RoomId, computerName: Name) returns (reply: HttpReply)
      requires Valid()
      modifies this
      ensures Valid()
      ensures Relay.HttpJoin(old(Current()), roomId, computerName) == Relay.Response(Current(), reply)
    {
      if roomId !in rooms {
        return Rejected(RoomNotFound);
      }
      var room := rooms[roomId];
      if |room.computers| >= MaxComputers {
        return Rejected(RoomFull);
      }
      room := room.(computers := room.computers + [computerName]);
      rooms := rooms[roomId := room];
      reply := Joined(room);
    }

    /** `updateRoomInfo(roomId)`: reads the state, changes nothing. */
    method UpdateRoomInfo(roomId: RoomId) returns (out: seq<Message>)
      ensures out == Relay.RoomInfo(Current(), roomId)
    {
      out := [];
      if roomId in adapterRooms {
        var computers := Relay.Names(adapterRooms[roomId], connections);
        out := [Message(Transport.Everyone(adapterRooms, roomId),
                        RoomUpdate(computers, roomId, Lookup(rooms, roomId)))];
      }
    }

    /** The `join-room` socket event. */
    method JoinRoom(socket: SocketId, roomId: RoomId, computerName: Name) returns (out: seq<Message>)
      requires Valid()
      modifies this
      ensures Valid()
      ensures Relay.JoinRoom(old(Current()), socket, roomId, computerName) == Relay.Effect(Current(), out)
    {
      ghost var before := Current();
      adapterRooms := Transport.Join(adapterRooms, roomId, socket);
      connections := connections[socket := Binding(roomId, computerName)];
      out := [Message(Transport.Others(adapterRooms, roomId, socket), ComputerJoined(computerName))];
      var info := UpdateRoomInfo(roomId);
      out := out + info;
      assert Current() == Relay.JoinRoom(before, socket, roomId, computerName).state;
    }

    /** The `start-transmission` socket event; `fault` is the TypeError of an unknown room. */
    method StartTransmission(socket: SocketId, data: Data) returns (out: seq<Message>, fault: bool)
      requires Valid()
      modifies this
      ensures Valid()
      ensures fault <==> Relay.StartTransmission(old(Current()), socket, data).Fault?
      ensures !fault ==> Relay.StartTransmission(old(Current()), socket, data) == Relay.Handled(Current(), out)
      ensures fault ==> Current() == old(Current()) && out == []
    {
      out, fault := [], false;
      if socket in connections && connections[socket].roomId != "" {
        var info := connections[socket];
        if info.roomId !in rooms {
          fault := true;
          return;
        }
        var room := rooms[info.roomId];
        room := room.(transmissions := room.transmissions + 1);
        rooms := rooms[info.roomId := room];
        out := [Message(Transport.Others(adapterRooms, info.roomId, socket),
                        ReceiveTransmission(data, room.transmissions, info.computerName, room.transmissions))];
        out := out + [Message({socket}, TransmissionSent(room.transmissions))];
      } else {
        out := [Message({socket}, TransmissionError(NotInRoom))];
      }
    }

    /** The `layer-update` socket event. */
    method LayerUpdate(socket: SocketId, layer: Data, progress: Data, computer: Data, kind: Data)
      returns (out: seq<Message>)
      ensures out == Relay.LayerUpdate(Current(), socket, layer, progress, computer, kind)
    {
      out := [];
      if socket in connections && connections[socket].roomId != "" {
        var info := connections[socket];
        out := [Message(Transport.Others(adapterRooms, info.roomId, socket),
                        LayerUpdateReceived(layer, progress, computer, kind))];
      }
    }

    /** The `transmission-complete` socket event. */
    method TransmissionComplete(socket: SocketId, data: Data) returns (out: seq<Message>)
      ensures out == Relay.TransmissionComplete(Current(), socket, data)
    {
      out := [];
      if socket in connections && connections[socket].roomId != "" {
        var info := connections[socket];
        out := [Message(Transport.Others(adapterRooms, info.roomId, socket),
                        TransmissionCompleted(info.computerName, data))];
      }
    }

    /** The `transmission-error` socket event sent by a client. */
    method ReportTransmissionError(socket: SocketId, error: Data) returns (out: seq<Message>)
      ensures out == Relay.ReportTransmissionError(Current(), socket, error)
    {
      out := [];
      if socket in connections && connections[socket].roomId != "" {
        var info := connections[socket];
        out := [Message(Transport.Others(adapterRooms, info.roomId, socket),
                        TransmissionFailed(info.computerName, error))];
      }
    }

    /** The `disconnect` socket event, after the transport has removed the socket from its rooms. */
    method Disconnect(socket: SocketId) returns (out: seq<Message>)
      requires Valid()
      modifies this
      ensures Valid()
      ensures Relay.Disconnect(old(Current()), socket) == Relay.Effect(Current(), out)
    {
      ghost var before := Current();
      adapterRooms := Transport.LeaveAll(adapterRooms, socket);
      out := [];
      if socket in connections {
        var info := connections[socket];
        out := [Message(Transport.Others(adapterRooms, info.roomId, socket), ComputerLeft(info.computerName))];
        var snapshot := UpdateRoomInfo(info.roomId);
        out := out + snapshot;
        if info.roomId !in adapterRooms || adapterRooms[info.roomId] == [] {
          rooms := rooms - {info.roomId};
        }
        connections := connections - {socket};
      }
      assert Current() == Relay.Disconnect(before, socket).state;
    }

    /** The `request-room-info` socket event: any socket may ask, the whole room gets the snapshot. */
    method RequestRoomInfo(roomId: RoomId) returns (out: seq<Message>)
      ensures out == Relay.RoomInfo(Current(), roomId)
    {
      out := UpdateRoomInfo(roomId);
    }

    /** `leave-room`, which clients emit but the server registers no handler for. */
    method LeaveRoom(roomId: RoomId) returns (out: seq<Message>)
      ensures out == []
    {
      out := [];
    }
  }
}
