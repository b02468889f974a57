/**
 * Node runs one handler at a time, so the server is a sequential state
 * machine: every inbound HTTP request or socket event is one step. This
 * module dispatches requests to the handlers of module Relay, runs
 * sequences of them, and states what holds along every run.
 */
module Traces {
  import opened Protocol
  import Transport
  import R = Relay

  /** Every request the server can receive; `LeaveRoom` has no handler. */
  datatype Request =
    | CreateRoom(roomId: RoomId)
    | HttpJoin(roomId: RoomId, computerName: Name)
    | JoinRoom(socket: SocketId, roomId: RoomId, computerName: Name)
    | StartTransmission(socket: SocketId, transmissionData: Data, targetComputer: Name)
    | LayerUpdate(socket: SocketId, layer: Data, progress: Data, computer: Data, kind: Data)
    | TransmissionComplete(socket: SocketId, data: Data)
    | ReportTransmissionError(socket: SocketId, error: Data)
    | Disconnect(socket: SocketId)
    | RequestRoomInfo(socket: SocketId, roomId: RoomId)
    | LeaveRoom(socket: SocketId, roomId: RoomId)

  /** What one step or a whole run produced; `Crashed` is a handler that threw. */
  datatype RunResult =
    | Done(state: R.State, out: seq<Message>, replies: seq<HttpReply>)
    | Crashed

  /**
   * One step. Only `start-transmission` can throw, only the two HTTP
   * endpoints answer, and every completed step keeps the invariant.
   */
  function Step(s: R.State, req: Request): (o: RunResult)
    ensures o.Crashed? <==>
              req.StartTransmission? && R.Bound(s, req.socket) && s.connections[req.socket].roomId !in s.rooms
    ensures o.Done? && !req.CreateRoom? && !req.HttpJoin? ==> o.replies == []
    ensures o.Done? && !req.StartTransmission? && !req.CreateRoom? ==>
              forall r :: r in o.state.rooms ==> r in s.rooms && o.state.rooms[r].transmissions == s.rooms[r].transmissions
    ensures o.Done? && R.Valid(s) ==> R.Valid(o.state)
  {
    match req
    case CreateRoom(r) =>
      Done(R.CreateRoom(s, r), [], [Created(r)])
    case HttpJoin(r, n) =>
      var j := R.HttpJoin(s, r, n);
      Done(j.state, [], [j.reply])
    case JoinRoom(x, r, n) =>
      var e := R.JoinRoom(s, x, r, n);
      Done(e.state, e.out, [])
    case StartTransmission(x, d, _) =>
      (match R.StartTransmission(s, x, d)
       case Handled(t, out) => Done(t, out, [])
       case Fault => Crashed)
    case LayerUpdate(x, l, p, c, k) =>
      Done(s, R.LayerUpdate(s, x, l, p, c, k), [])
    case TransmissionComplete(x, d) =>
      Done(s, R.TransmissionComplete(s, x, d), [])
    case ReportTransmissionError(x, err) =>
      Done(s, R.ReportTransmissionError(s, x, err), [])
    case Disconnect(x) =>
      var e := R.Disconnect(s, x);
      Done(e.state, e.out, [])
    case RequestRoomInfo(_, r) =>
      Done(s, R.RoomInfo(s, r), [])
    case LeaveRoom(_, _) =>
      Done(s, [], [])
  }

  /**
   * Feeds the requests to `step` in order, concatenating messages and
   * replies; stops at a crash. Generic in `step`, so that facts about the
   * shape of a run are proved once, without unfolding the handlers.
   */
  function Drive(step: (R.State, Request) -> RunResult, s: R.State, reqs: seq<Request>): RunResult
    decreases |reqs|
  {
    if reqs == [] then Done(s, [], [])
    else
      match step(s, reqs[0])
      case Crashed => Crashed
      case Done(t, out, replies) =>
        match Drive(step, t, reqs[1..])
        case Crashed => Crashed
        case Done(u, out', replies') => Done(u, out + out', replies + replies')
  }

  /** The server processing the requests one after another. */
  function Run(s: R.State, reqs: seq<Request>): RunResult {
    Drive(Step, s, reqs)
  }

  /** Every completed run preserves the invariant. */
  lemma {:induction false} RunKeepsValid(s: R.State, reqs: seq<Request>)
    requires R.Valid(s)
    ensures Run(s, reqs).Done? ==> R.Valid(Run(s, reqs).state)
    decreases |reqs|
  {
    if reqs != [] && Step(s, reqs[0]).Done? {
      RunKeepsValid(Step(s, reqs[0]).state, reqs[1..]);
    }
  }

  /** In every state a run from the empty server reaches, no room lists more than two computers. */
  lemma CapHoldsOnEveryRun(reqs: seq<Request>)
    ensures Run(R.Initial, reqs).Done? ==> R.CapHolds(Run(R.Initial, reqs).state.rooms)
  {
    R.InitialValid();
    RunKeepsValid(R.Initial, reqs);
  }

  /** Running a concatenation is running its halves one after the other. */
  lemma {:induction false} DriveAppend(step: (R.State, Request) -> RunResult, s: R.State, p: seq<Request>, q: seq<Request>)
    requires Drive(step, s, p).Done?
    ensures var u := Drive(step, s, p).state;
            && (Drive(step, s, p + q).Done? <==> Drive(step, u, q).Done?)
            && (Drive(step, u, q).Done? ==>
                  && Drive(step, s, p + q).state == Drive(step, u, q).state
                  && Drive(step, s, p + q).out == Drive(step, s, p).out + Drive(step, u, q).out
                  && Drive(step, s, p + q).replies == Drive(step, s, p).replies + Drive(step, u, q).replies)
    decreases |p|
  {
    if p == [] {
      assert p + q == q;
    } else {
      var h := step(s, p[0]);
      assert (p + q)[0] == p[0] && (p + q)[1..] == p[1..] + q;
      DriveAppend(step, h.state, p[1..], q);
      var a := Drive(step, h.state, p[1..]);
      var b := Drive(step, a.state, q);
      if b.Done? {
        assert h.out + (a.out + b.out) == (h.out + a.out) + b.out;
        assert h.replies + (a.replies + b.replies) == (h.replies + a.replies) + b.replies;
      }
    }
  }

  // -------------------------------------------------- transmission ids

  /** The ids in the `transmission-sent` acknowledgements among `out`. */
  function SentIds(out: seq<Message>): (ids: seq<nat>)
    ensures |ids| <= |out|
  {
    if out == [] then []
    else
      (if out[0].event.TransmissionSent? then [out[0].event.transmissionId] else [])
      + SentIds(out[1..])
  }

  /** The ids one step acknowledged to a sender bound to room `r`. */
  function IssuedBy(s: R.State, req: Request, r: RoomId, out: seq<Message>): seq<nat> {
    if req.StartTransmission? && R.Bound(s, req.socket) && s.connections[req.socket].roomId == r
    then SentIds(out)
    else []
  }

  /** The ids acknowledged in room `r`, in order, as `step` processes the requests. */
  function Tally(step: (R.State, Request) -> RunResult, s: R.State, reqs: seq<Request>, r: RoomId): seq<nat>
    decreases |reqs|
  {
    if reqs == [] then []
    else
      match step(s, reqs[0])
      case Crashed => []
      case Done(t, out, _) => IssuedBy(s, reqs[0], r, out) + Tally(step, t, reqs[1..], r)
  }

  /** The ids acknowledged in room `r`, in order, along a run of the server. */
  function Issued(s: R.State, reqs: seq<Request>, r: RoomId): seq<nat> {
    Tally(Step, s, reqs, r)
  }

  function Counter(s: R.State, r: RoomId): nat {
    if r in s.rooms then s.rooms[r].transmissions else 0
  }

  /**
   * What one completed step `o` from `s` may do to room `r`: either leave
   * its counter alone (or delete the room) and acknowledge nothing there,
   * or raise the counter by one and acknowledge exactly the new value. A
   * room that is gone stays gone.
   */
  predicate CounterStep(s: R.State, req: Request, r: RoomId, o: RunResult) {
    o.Done? &&
    var ids := IssuedBy(s, req, r, o.out);
    && (r !in s.rooms ==> r !in o.state.rooms && ids == [])
    && (r in s.rooms ==>
          || (ids == [] && (r in o.state.rooms ==> Counter(o.state, r) == Counter(s, r)))
          || (ids == [Counter(s, r) + 1] && r in o.state.rooms
              && Counter(o.state, r) == Counter(s, r) + 1))
  }

  /** Every server step other than re-creating room `r` is such a step. */
  lemma StepCounter(s: R.State, req: Request, r: RoomId)
    requires req != CreateRoom(r)
    requires Step(s, req).Done?
    ensures CounterStep(s, req, r, Step(s, req))
  {
    var o := Step(s, req);
    if req.StartTransmission? {
      var x := req.socket;
      var st := R.StartTransmission(s, x, req.transmissionData);
      if R.Bound(s, x) {
        var b := s.connections[x];
        var id := s.rooms[b.roomId].transmissions + 1;
        assert o.out == st.out;
        assert o.out[1..] == [Message({x}, TransmissionSent(id))];
        assert SentIds(o.out) == [id];
        if b.roomId != r {
          assert r in o.state.rooms <==> r in s.rooms;
        }
      } else {
        assert SentIds(o.out) == [];
      }
    } else if req.CreateRoom? {
      assert req.roomId != r;
    }
  }

  /**
   * For any step function whose steps are counter steps for `r`, the ids
   * tallied in `r` along requests that do not re-create it are the
   * consecutive integers after its counter; none in a room that does not
   * exist.
   */
  lemma {:induction false} TallyConsecutive(step: (R.State, Request) -> RunResult, s: R.State, reqs: seq<Request>, r: RoomId)
    requires forall t, req :: req != CreateRoom(r) && step(t, req).Done? ==> CounterStep(t, req, r, step(t, req))
    requires forall i :: 0 <= i < |reqs| ==> reqs[i] != CreateRoom(r)
    ensures r !in s.rooms ==> Tally(step, s, reqs, r) == []
    ensures var ids := Tally(step, s, reqs, r);
            forall i :: 0 <= i < |ids| ==> ids[i] == Counter(s, r) + 1 + i
    decreases |reqs|
  {
    if reqs != [] {
      var h := step(s, reqs[0]);
      if h.Done? {
        var t := h.state;
        assert CounterStep(s, reqs[0], r, h);
        TallyConsecutive(step, t, reqs[1..], r);
        var first, later := IssuedBy(s, reqs[0], r, h.out), Tally(step, t, reqs[1..], r);
        assert Tally(step, s, reqs, r) == first + later;
        assert forall j :: 0 <= j < |later| ==> later[j] == Counter(t, r) + 1 + j;
        if r in t.rooms {
          Consecutive(first, later, Counter(s, r), Counter(t, r));
        } else {
          assert later == [];
        }
      }
    }
  }

  /** Prepending at most the next number to a consecutive run keeps it consecutive. */
  lemma Consecutive(first: seq<nat>, later: seq<nat>, c: nat, c': nat)
    requires (first == [] && c' == c) || (first == [c + 1] && c' == c + 1)
    requires forall j :: 0 <= j < |later| ==> later[j] == c' + 1 + j
    ensures forall i :: 0 <= i < |first + later| ==> (first + later)[i] == c + 1 + i
  {
    forall i | 0 <= i < |first + later| ensures (first + later)[i] == c + 1 + i {
      if first != [] && i > 0 {
        assert (first + later)[i] == later[i - 1];
      }
    }
  }

  /**
   * Along any run that does not re-create room `r`, the ids acknowledged
   * in `r` are the consecutive integers after its counter; in a room
   * that does not exist none are issued.
   */
  lemma IssuedIdsConsecutive(s: R.State, reqs: seq<Request>, r: RoomId)
    requires forall i :: 0 <= i < |reqs| ==> reqs[i] != CreateRoom(r)
    ensures r !in s.rooms ==> Issued(s, reqs, r) == []
    ensures var ids := Issued(s, reqs, r);
            forall i :: 0 <= i < |ids| ==> ids[i] == Counter(s, r) + 1 + i
  {
    forall t, req | req != CreateRoom(r) && Step(t, req).Done? ensures CounterStep(t, req, r, Step(t, req)) {
      StepCounter(t, req, r);
    }
    TallyConsecutive(Step, s, reqs, r);
    assert var ids := Tally(Step, s, reqs, r); forall i :: 0 <= i < |ids| ==> ids[i] == Counter(s, r) + 1 + i;
  }

  /**
   * Once a room is created, the ids its senders are given are 1, 2, 3, ...
   * and therefore strictly increasing, until it is created again.
   */
  lemma FreshRoomCountsFromOne(s: R.State, r: RoomId, rest: seq<Request>)
    requires forall i :: 0 <= i < |rest| ==> rest[i] != CreateRoom(r)
    ensures var ids := Issued(s, [CreateRoom(r)] + rest, r);
            && (forall i :: 0 <= i < |ids| ==> ids[i] == i + 1)
            && (forall i, j :: 0 <= i < j < |ids| ==> ids[i] < ids[j])
  {
    var reqs := [CreateRoom(r)] + rest;
    var t := R.CreateRoom(s, r);
    assert reqs[1..] == rest;
    assert Issued(s, reqs, r) == Issued(t, rest, r);
    IssuedIdsConsecutive(t, rest, r);
  }

  // --------------------------------------------------------- scenario

  lemma StepHttpJoin(s: R.State, r: RoomId, n: Name)
    ensures Step(s, HttpJoin(r, n)) == Done(R.HttpJoin(s, r, n).state, [], [R.HttpJoin(s, r, n).reply])
  {
  }

  lemma StepJoinRoom(s: R.State, x: SocketId, r: RoomId, n: Name)
    ensures Step(s, JoinRoom(x, r, n)) == Done(R.JoinRoom(s, x, r, n).state, R.JoinRoom(s, x, r, n).out, [])
  {
  }

  lemma StepStartTransmission(s: R.State, x: SocketId, d: Data, target: Name)
    requires R.StartTransmission(s, x, d).Handled?
    ensures Step(s, StartTransmission(x, d, target))
            == Done(R.StartTransmission(s, x, d).state, R.StartTransmission(s, x, d).out, [])
  {
  }

  lemma StepDisconnect(s: R.State, x: SocketId)
    ensures Step(s, Disconnect(x)) == Done(R.Disconnect(s, x).state, R.Disconnect(s, x).out, [])
  {
  }

  /** Unfolds a run by one completed step. */
  lemma RunUnfold(s: R.State, q: Request, rest: seq<Request>, r: RoomId)
    requires Step(s, q).Done?
    ensures var t := Step(s, q).state;
            && Issued(s, [q] + rest, r) == IssuedBy(s, q, r, Step(s, q).out) + Issued(t, rest, r)
            && (Run(t, rest).Done? ==>
                  && Run(s, [q] + rest).Done?
                  && Run(s, [q] + rest).state == Run(t, rest).state
                  && Run(s, [q] + rest).replies == Step(s, q).replies + Run(t, rest).replies)
  {
    assert ([q] + rest)[0] == q && ([q] + rest)[1..] == rest;
  }

  const Code := "AB12CD"

  const Both := map["s1" := Binding(Code, "PC-1"), "s2" := Binding(Code, "PC-2")]

  const Listed := map[Code := Room(["PC-1", "PC-2"], 0)]

  /** The server after the two HTTP joins and the two socket joins, with the room's counter at `n`. */
  function Paired(n: nat): R.State {
    R.State(map[Code := Room(["PC-1", "PC-2"], n)], Both, map[Code := ["s1", "s2"]])
  }

  /** The server once PC-1 has disconnected. */
  const Remaining := R.State(map[Code := Room(["PC-1", "PC-2"], 2)], map["s2" := Binding(Code, "PC-2")], map[Code := ["s2"]])

  lemma ScenarioCreate()
    ensures Step(R.Initial, CreateRoom(Code)) == Done(R.State(map[Code := EmptyRoom], map[], map[]), [], [Created(Code)])
  {
  }

  lemma ScenarioFirstHttpJoin()
    ensures Step(R.State(map[Code := EmptyRoom], map[], map[]), HttpJoin(Code, "PC-1"))
            == Done(R.State(map[Code := Room(["PC-1"], 0)], map[], map[]), [], [Joined(Room(["PC-1"], 0))])
  {
    StepHttpJoin(R.State(map[Code := EmptyRoom], map[], map[]), Code, "PC-1");
    assert [] + ["PC-1"] == ["PC-1"];
  }

  lemma ScenarioSecondHttpJoin()
    ensures Step(R.State(map[Code := Room(["PC-1"], 0)], map[], map[]), HttpJoin(Code, "PC-2"))
            == Done(R.State(Listed, map[], map[]), [], [Joined(Room(["PC-1", "PC-2"], 0))])
  {
    StepHttpJoin(R.State(map[Code := Room(["PC-1"], 0)], map[], map[]), Code, "PC-2");
    assert ["PC-1"] + ["PC-2"] == ["PC-1", "PC-2"];
  }

  /** The third HTTP join finds two names listed and is refused. */
  lemma ScenarioThirdHttpJoin()
    ensures Step(R.State(Listed, map[], map[]), HttpJoin(Code, "PC-3"))
            == Done(R.State(Listed, map[], map[]), [], [Rejected(RoomFull)])
  {
    StepHttpJoin(R.State(Listed, map[], map[]), Code, "PC-3");
  }

  lemma ScenarioFirstSocket()
    ensures var o := Step(R.State(Listed, map[], map[]), JoinRoom("s1", Code, "PC-1"));
            && o.Done? && o.replies == []
            && o.state == R.State(Listed, map["s1" := Binding(Code, "PC-1")], map[Code := ["s1"]])
  {
    StepJoinRoom(R.State(Listed, map[], map[]), "s1", Code, "PC-1");
    assert Transport.Join(map[], Code, "s1") == map[Code := ["s1"]];
  }

  lemma ScenarioSecondSocket()
    ensures var o := Step(R.State(Listed, map["s1" := Binding(Code, "PC-1")], map[Code := ["s1"]]),
                          JoinRoom("s2", Code, "PC-2"));
            o.Done? && o.replies == [] && o.state == Paired(0)
  {
    var s := R.State(Listed, map["s1" := Binding(Code, "PC-1")], map[Code := ["s1"]]);
    StepJoinRoom(s, "s2", Code, "PC-2");
    assert Transport.Join(map[Code := ["s1"]], Code, "s2") == map[Code := ["s1", "s2"]] by {
      assert "s2" !in ["s1"];
      assert ["s1"] + ["s2"] == ["s1", "s2"];
    }
    assert R.JoinRoom(s, "s2", Code, "PC-2").state.connections == Both;
  }

  /** A transmission from either paired socket is given the next id. */
  lemma ScenarioTransmission(n: nat, sender: SocketId, data: Data, target: Name)
    requires sender in Both
    ensures var o := Step(Paired(n), StartTransmission(sender, data, target));
            && o.Done? && o.replies == [] && o.state == Paired(n + 1)
            && IssuedBy(Paired(n), StartTransmission(sender, data, target), Code, o.out) == [n + 1]
  {
    var h := R.StartTransmission(Paired(n), sender, data);
    StepStartTransmission(Paired(n), sender, data, target);
    assert SentIds(h.out) == [n + 1] by { assert h.out[1..][1..] == []; }
  }

  lemma FirstLeaves()
    ensures Transport.LeaveAll(map[Code := ["s1", "s2"]], "s1") == map[Code := ["s2"]]
  {
    assert Transport.Remove(["s1", "s2"], "s1") == ["s2"];
  }

  /** PC-1 leaves: the room stays, both names still listed, and s2 is its only socket. */
  lemma ScenarioFirstDeparture()
    ensures var o := Step(Paired(2), Disconnect("s1"));
            o.Done? && o.replies == [] && o.state == Remaining
  {
    StepDisconnect(Paired(2), "s1");
    FirstLeaves();
    assert R.Disconnect(Paired(2), "s1").state.connections == map["s2" := Binding(Code, "PC-2")];
  }

  /** The departure of PC-1 is announced to s2 alone. */
  lemma ScenarioDepartureNotice()
    ensures var out := R.Disconnect(Paired(2), "s1").out;
            |out| == 2 && out[0] == Message({"s2"}, ComputerLeft("PC-1"))
  {
    var e := R.Disconnect(Paired(2), "s1");
    FirstLeaves();
    assert e.out[0].to == {"s2"};
  }

  /** PC-2 leaves the emptied room: its registry entry is deleted, and joining it now fails. */
  lemma ScenarioSecondDeparture()
    ensures var o := Step(Remaining, Disconnect("s2"));
            o.Done? && o.replies == [] && o.state == R.Initial
    ensures Step(R.Initial, HttpJoin(Code, "PC-1")) == Done(R.Initial, [], [Rejected(RoomNotFound)])
  {
    StepDisconnect(Remaining, "s2");
    StepHttpJoin(R.Initial, Code, "PC-1");
    assert Transport.Remove(["s2"], "s2") == [];
    assert R.Disconnect(Remaining, "s2").state.members == map[];
    assert R.Disconnect(Remaining, "s2").state.connections == map[];
  }

  /** Create a room and fill it over HTTP; a third name is refused. */
  function Filling(): seq<Request> {
    [CreateRoom(Code), HttpJoin(Code, "PC-1"), HttpJoin(Code, "PC-2"), HttpJoin(Code, "PC-3")]
  }

  /** Both machines open their sockets and join the room. */
  function Pairing(): seq<Request> {
    [JoinRoom("s1", Code, "PC-1"), JoinRoom("s2", Code, "PC-2")]
  }

  /** One transmission each way. */
  function Exchange(): seq<Request> {
    [StartTransmission("s1", "hola", "PC-2"), StartTransmission("s2", "hola de vuelta", "PC-1")]
  }

  /** Both sockets close; then someone tries the room's code again. */
  function Leaving(): seq<Request> {
    [Disconnect("s1"), Disconnect("s2"), HttpJoin(Code, "PC-1")]
  }

  function Scenario(): seq<Request> {
    Filling() + (Pairing() + (Exchange() + Leaving()))
  }

  /** The ids issued along a concatenation are those of its halves, in order. */
  lemma {:induction false} IssuedAppend(s: R.State, p: seq<Request>, q: seq<Request>, r: RoomId)
    requires Run(s, p).Done?
    ensures Issued(s, p + q, r) == Issued(s, p, r) + Issued(Run(s, p).state, q, r)
    decreases |p|
  {
    if p == [] {
      assert p + q == q;
    } else {
      var h := Step(s, p[0]);
      assert (p + q)[0] == p[0] && (p + q)[1..] == p[1..] + q;
      IssuedAppend(h.state, p[1..], q, r);
      var a := Run(h.state, p[1..]);
      assert Run(s, p).state == a.state;
      var i := IssuedBy(s, p[0], r, h.out);
      assert i + (Issued(h.state, p[1..], r) + Issued(a.state, q, r))
          == (i + Issued(h.state, p[1..], r)) + Issued(a.state, q, r);
    }
  }

  // The phase lemmas take their start state and requests as parameters fixed
  // by their preconditions, so that the solver unfolds Run one proved step at
  // a time rather than on a literal argument.

  lemma ScenarioFilling(s: R.State, q: seq<Request>)
    requires s == R.Initial && q == Filling()
    ensures Run(s, q).Done? && Run(s, q).state == R.State(Listed, map[], map[])
    ensures Run(s, q).replies == [Created(Code), Joined(Room(["PC-1"], 0)), Joined(Room(["PC-1", "PC-2"], 0)), Rejected(RoomFull)]
    ensures Issued(s, q, Code) == []
  {
    var c, j1, j2, j3 := q[0], q[1], q[2], q[3];
    var e: seq<Request> := [];
    RunUnfold(R.State(Listed, map[], map[]), j3, e, Code);
    ScenarioThirdHttpJoin();
    ScenarioSecondHttpJoin();
    RunUnfold(R.State(map[Code := Room(["PC-1"], 0)], map[], map[]), j2, [j3] + e, Code);
    ScenarioFirstHttpJoin();
    RunUnfold(R.State(map[Code := EmptyRoom], map[], map[]), j1, [j2] + ([j3] + e), Code);
    ScenarioCreate();
    RunUnfold(s, c, [j1] + ([j2] + ([j3] + e)), Code);
    assert q == [c] + ([j1] + ([j2] + ([j3] + e)));
  }

  lemma ScenarioPairing(s: R.State, q: seq<Request>)
    requires s == R.State(Listed, map[], map[]) && q == Pairing()
    ensures Run(s, q).Done? && Run(s, q).state == Paired(0) && Run(s, q).replies == []
    ensures Issued(s, q, Code) == []
  {
    var a, b := q[0], q[1];
    var e: seq<Request> := [];
    ScenarioSecondSocket();
    RunUnfold(R.State(Listed, map["s1" := Binding(Code, "PC-1")], map[Code := ["s1"]]), b, e, Code);
    ScenarioFirstSocket();
    RunUnfold(s, a, [b] + e, Code);
    assert q == [a] + ([b] + e);
  }

  lemma ScenarioExchange(s: R.State, q: seq<Request>)
    requires s == Paired(0) && q == Exchange()
    ensures Run(s, q).Done? && Run(s, q).state == Paired(2) && Run(s, q).replies == []
    ensures Issued(s, q, Code) == [1, 2]
  {
    var a, b := q[0], q[1];
    var e: seq<Request> := [];
    ScenarioTransmission(1, "s2", "hola de vuelta", "PC-1");
    RunUnfold(Paired(1), b, e, Code);
    ScenarioTransmission(0, "s1", "hola", "PC-2");
    RunUnfold(s, a, [b] + e, Code);
    assert q == [a] + ([b] + e);
  }

  lemma ScenarioLeaving(s: R.State, q: seq<Request>)
    requires s == Paired(2) && q == Leaving()
    ensures Run(s, q).Done? && Run(s, q).state == R.Initial && Run(s, q).replies == [Rejected(RoomNotFound)]
    ensures Issued(s, q, Code) == []
  {
    var a, b, c := q[0], q[1], q[2];
    var e: seq<Request> := [];
    ScenarioSecondDeparture();
    RunUnfold(R.Initial, c, e, Code);
    RunUnfold(Remaining, b, [c] + e, Code);
    ScenarioFirstDeparture();
    RunUnfold(s, a, [b] + ([c] + e), Code);
    assert q == [a] + ([b] + ([c] + e));
  }

  /** The exchange and the departures, run one after the other. */
  lemma ScenarioSecondHalf(s: R.State, q: seq<Request>)
    requires s == Paired(0) && q == Exchange() + Leaving()
    ensures Run(s, q).Done? && Run(s, q).state == R.Initial && Run(s, q).replies == [Rejected(RoomNotFound)]
    ensures Issued(s, q, Code) == [1, 2]
  {
    ScenarioExchange(s, Exchange());
    ScenarioLeaving(Paired(2), Leaving());
    DriveAppend(Step, s, Exchange(), Leaving());
    IssuedAppend(s, Exchange(), Leaving(), Code);
  }

  /** The socket joins, then the second half. */
  lemma ScenarioFromListed(s: R.State, q: seq<Request>)
    requires s == R.State(Listed, map[], map[]) && q == Pairing() + (Exchange() + Leaving())
    ensures Run(s, q).Done? && Run(s, q).state == R.Initial && Run(s, q).replies == [Rejected(RoomNotFound)]
    ensures Issued(s, q, Code) == [1, 2]
  {
    var rest := Exchange() + Leaving();
    ScenarioPairing(s, Pairing());
    ScenarioSecondHalf(Paired(0), rest);
    DriveAppend(Step, s, Pairing(), rest);
    IssuedAppend(s, Pairing(), rest, Code);
  }

  /**
   * The whole scenario: create a room, fill it over HTTP, see a third join
   * refused, pair two sockets, exchange transmissions 1 and 2; both sockets
   * leave, the room is gone and joining it fails.
   */
  lemma ScenarioOutcome(s: R.State, q: seq<Request>)
    requires s == R.Initial && q == Scenario()
    ensures Run(s, q).Done?
    ensures Run(s, q).replies == [ Created(Code),
                                   Joined(Room(["PC-1"], 0)),
                                   Joined(Room(["PC-1", "PC-2"], 0)),
                                   Rejected(RoomFull),
                                   Rejected(RoomNotFound) ]
    ensures Run(s, q).state == R.Initial
    ensures Issued(s, q, Code) == [1, 2]
  {
    var rest := Pairing() + (Exchange() + Leaving());
    ScenarioFilling(s, Filling());
    ScenarioFromListed(R.State(Listed, map[], map[]), rest);
    DriveAppend(Step, s, Filling(), rest);
    IssuedAppend(s, Filling(), rest, Code);
  }
}
