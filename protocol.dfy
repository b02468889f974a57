/**
 * The vocabulary of the room relay: identifiers, the room record kept by the
 * registry, the per-connection binding, and the messages the server sends.
 */
module Protocol {

  type RoomId = string
  type SocketId = string
  type Name = string

  /** A client-supplied JSON value that the relay forwards without looking inside. */
  type Data = string

  datatype Option<+T> = None | Some(value: T)

  function Lookup<K, V>(m: map<K, V>, k: K): (o: Option<V>)
    ensures o.Some? <==> k in m
    ensures o.Some? ==> o.value == m[k]
  {
    if k in m then Some(m[k]) else None
  }

  /** HTTP join refuses a room whose `computers` list already has this many names. */
  const MaxComputers := 2

  const RoomNotFound := "Sala no encontrada"
  const RoomFull := "Sala llena (máximo 2 computadoras)"
  const NotInRoom := "No estás conectado a una sala válida"

  /** An entry of the room registry. Its creation timestamp is not modelled. */
  datatype Room = Room(computers: seq<Name>, transmissions: nat)

  const EmptyRoom := Room([], 0)

  /** An entry of the connection directory: what a socket announced in `join-room`. */
  datatype Binding = Binding(roomId: RoomId, computerName: Name)

  /** The events the server emits; timestamps and the human-readable `message` are left out. */
  datatype Event =
    | ComputerJoined(computerName: Name)
    | ComputerLeft(computerName: Name)
    | RoomUpdate(computers: seq<Name>, roomId: RoomId, roomData: Option<Room>)
    | ReceiveTransmission(transmissionData: Data, stamp: nat, sender: Name, transmissionId: nat)
    | TransmissionSent(transmissionId: nat)
    | TransmissionError(error: string)
    | LayerUpdateReceived(layer: Data, progress: Data, computer: Data, kind: Data)
    | TransmissionCompleted(sender: Name, data: Data)
    | TransmissionFailed(sender: Name, error: Data)

  /** One emitted event and the sockets it is delivered to. */
  datatype Message = Message(to: set<SocketId>, event: Event)

  /** The JSON bodies of the two HTTP endpoints. */
  datatype HttpReply =
    | Created(roomId: RoomId)
    | Joined(room: Room)
    | Rejected(error: string)
}
