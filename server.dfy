/**
 * The JSON WebSocket server of socket.js as an object: the `rooms` Map, the
 * connection objects whose fields the handlers write, the ws library's set
 * of clients, and the frames sent so far. Each handler is proved against the
 * matching function of Registry and keeps RegistryLaws.Invariant.
 */
module Server {
  import opened Types
  import opened Registry
  import opened RegistryLaws

  class Server {
    var conns: seq<Conn>
    var clients: seq<ConnId>
    var rooms: map<string, Room>
    var outbox: seq<Envelope>

    function Snapshot(): Registry
      reads this
    {
      Registry(conns, clients, rooms, outbox)
    }

    /** Rooms and connections agree (RegistryLaws.Invariant). */
    predicate Valid()
      reads this
    {
      Invariant(Snapshot())
    }

    /** useWebSocketServer(server): no connections, no rooms. */
    constructor ()
      ensures Snapshot() == Registry([], [], map[], [])
      ensures Valid()
    {
      conns := [];
      clients := [];
      rooms := map[];
      outbox := [];
    }

    /** The 'connection' event: a new open connection, tracked by the server. */
    method Connection() returns (id: ConnId)
      requires Valid()
      modifies this
      ensures Snapshot() == Connected(old(Snapshot())) && id == old(|conns|)
      ensures Valid()
    {
      ConnectedKeeps(Snapshot());
      id := |conns|;
      conns := conns + [Conn(Open, None, None, None, None, None, None, None)];
      clients := clients + [id];
    }

    /** The 'pong' event. */
    method OnPong(id: ConnId)
      requires Valid() && id < |conns|
      modifies this
      ensures Snapshot() == Ponged(old(Snapshot()), id)
      ensures Valid()
    {
      PongedKeeps(Snapshot(), id);
      conns := conns[id := conns[id].(isAlive := Some(true))];
    }

    /** The 'message' event, with the message already parsed (None when JSON.parse throws). */
    method OnMessage(id: ConnId, req: Option<Request>)
      requires Valid() && id < |conns| && conns[id].state != SocketState.Closed
      modifies this
      ensures Snapshot() == Received(old(Snapshot()), id, req)
      ensures Valid()
    {
      ReceivedKeeps(Snapshot(), id, req);
      conns := conns[id := conns[id].(isAlive := Some(true))];
      if req.None? {
        return;
      }
      if TypeIs(req.value, "join") {
        HandleJoin(id, req.value);
      } else {
        HandleRest(id, req.value);
      }
    }

    /** The join branch of the message handler. */
    method HandleJoin(id: ConnId, req: Request)
      requires WellFormed(Snapshot()) && id < |conns|
      modifies this
      ensures Snapshot() == Join(old(Snapshot()), id, req)
    {
      var ws := conns[id];
      if ws.roomId.Some? {
        return;
      }
      if !(IsString(Get(req, "name")) && IsString(Get(req, "roomId")) &&
           IsNumber(Get(req, "questType")) && IsNumber(Get(req, "hero"))) {
        return;
      }
      var roomId := req["roomId"].s;
      conns := conns[id := ws.(name := Get(req, "name"), roomId := Some(roomId), hero := Get(req, "hero"),
                               choice := Some(Or(Get(req, "choice"), JNull)),
                               spectator := Some(Or(Get(req, "spectator"), JBool(false))))];
      if roomId !in rooms {
        rooms := rooms[roomId := Room([id], false, 0, req["questType"])];
      } else {
        rooms := rooms[roomId := rooms[roomId].(clients := Added(rooms[roomId].clients, id))];
      }
      Broadcast(roomId, RoomUpdates);
    }

    /** The rest of the message handler: the room id check, then the switch on the type. */
    method HandleRest(id: ConnId, req: Request)
      requires WellFormed(Snapshot()) && id < |conns|
      modifies this
      ensures Snapshot() == Handle(old(Snapshot()), id, req)
    {
      ghost var r := Snapshot();
      var ws := conns[id];
      if ws.roomId.None? || ws.roomId.value == "" {
        return;
      }
      var roomId := ws.roomId.value;
      var changes := TypeIs(req, "reveal") || TypeIs(req, "newQuest") || TypeIs(req, "userUpdate");
      if changes && roomId !in rooms {
        return;
      }
      if TypeIs(req, "reveal") {
        rooms := rooms[roomId := rooms[roomId].(revealed := true)];
        assert Snapshot() == r.(rooms := r.rooms[roomId := r.rooms[roomId].(revealed := true)]);
      } else if TypeIs(req, "newQuest") {
        var room := rooms[roomId];
        rooms := rooms[roomId := room.(revealed := false, quest := room.quest + 1,
                                       questType := Or(Get(req, "questType"), room.questType))];
        ResetChoices(room.clients);
        assert Snapshot() == r.(rooms := r.rooms[roomId := room.(revealed := false, quest := room.quest + 1,
                                                                  questType := Or(Get(req, "questType"), room.questType))],
                                conns := ClearChoices(r.conns, room.clients));
      } else if TypeIs(req, "userUpdate") {
        conns := conns[id := Updated(ws, req, rooms[roomId].revealed)];
        assert Snapshot() == r.(conns := r.conns[id := Updated(ws, req, r.rooms[roomId].revealed)]);
      } else if TypeIs(req, "poke") {
        Broadcast(roomId, PokeFrom(id, Get(req, "pokedWith"), Get(req, "user")));
        return;
      } else if TypeIs(req, "ping") {
        outbox := outbox + [Envelope(id, Pong)];
        return;
      } else {
        return;
      }
      Broadcast(roomId, RoomUpdates);
    }

    /** Sets the choice of each of the room's clients to null, one at a time. */
    method ResetChoices(ids: seq<ConnId>)
      requires Bounded(conns, ids)
      modifies this
      ensures conns == ClearChoices(old(conns), ids)
      ensures clients == old(clients) && rooms == old(rooms) && outbox == old(outbox)
    {
      ghost var start := conns;
      for i := 0 to |ids|
        invariant conns == ClearChoices(start, ids[..i])
        invariant clients == old(clients) && rooms == old(rooms) && outbox == old(outbox)
      {
        var c := ids[i];
        assert c in ids;
        assert forall x :: x in ids[..i + 1] <==> x in ids[..i] || x == c by {
          assert ids[..i + 1] == ids[..i] + [c];
        }
        conns := conns[c := conns[c].(choice := Some(JNull))];
      }
      assert ids[..|ids|] == ids;
    }

    /** getRoomData(sender). */
    method GetRoomData(sender: ConnId) returns (info: RoomInfo)
      requires WellFormed(Snapshot()) && sender < |conns|
      ensures info == RoomInfoFor(Snapshot(), sender)
    {
      var roomId := conns[sender].roomId;
      if roomId.None? || roomId.value !in rooms {
        return RoomInfo(false, 0, None, []);
      }
      var room := rooms[roomId.value];
      var others := [];
      PrefixBounded(conns, room.clients);
      for i := 0 to |room.clients|
        invariant others == Others(conns, room.clients[..i], sender)
      {
        assert room.clients[..i + 1][..i] == room.clients[..i];
        var c := room.clients[i];
        assert c in room.clients;
        if c != sender {
          others := others + [AsMember(conns[c])];
        }
      }
      assert room.clients[..|room.clients|] == room.clients;
      info := RoomInfo(room.revealed, room.quest, Some(room.questType), others);
    }

    /** broadcast(roomId, type, data, filterPredicate), with its two uses as `cast`. */
    method Broadcast(roomId: string, cast: Cast)
      requires WellFormed(Snapshot())
      modifies this
      ensures Snapshot() == Announce(old(Snapshot()), roomId, cast)
    {
      if roomId !in rooms {
        return;
      }
      CastAll(rooms[roomId].clients, cast);
    }

    /** The forEach of broadcast over the given clients. */
    method CastAll(ids: seq<ConnId>, cast: Cast)
      requires WellFormed(Snapshot()) && Bounded(conns, ids)
      modifies this
      ensures outbox == old(outbox) + CastTo(old(Snapshot()), ids, cast)
      ensures conns == old(conns) && clients == old(clients) && rooms == old(rooms)
    {
      ghost var start := Snapshot();
      for i := 0 to |ids|
        invariant conns == start.conns && clients == start.clients && rooms == start.rooms
        invariant Bounded(conns, ids[..i])
        invariant outbox == start.outbox + CastTo(start, ids[..i], cast)
      {
        CastToStep(start, ids, i, cast);
        SendTo(ids[i], cast, start);
        assert outbox == start.outbox + CastTo(start, ids[..i], cast) + CastOne(start, ids[i], cast);
      }
      assert ids[..|ids|] == ids;
    }

    /** One step of the forEach of broadcast. */
    method SendTo(c: ConnId, cast: Cast, ghost s: Registry)
      requires WellFormed(s) && s.conns == conns && s.clients == clients && s.rooms == rooms && c < |conns|
      modifies this
      ensures outbox == old(outbox) + CastOne(s, c, cast)
      ensures conns == old(conns) && clients == old(clients) && rooms == old(rooms)
    {
      if conns[c].state == Open {
        match cast
        case RoomUpdates =>
          var info := GetRoomData(c);
          assert RoomInfoFor(Snapshot(), c) == RoomInfoFor(s, c);
          outbox := outbox + [Envelope(c, RoomUpdate(info))];
        case PokeFrom(sender, pokedWith, user) =>
          if c != sender {
            outbox := outbox + [Envelope(c, Poked(pokedWith, user))];
          }
      }
    }

    /** The 'close' event: the ws library drops the client, then the handler leaves its room. */
    method OnClose(id: ConnId)
      requires Valid() && id < |conns| && conns[id].state != SocketState.Closed
      modifies this
      ensures Snapshot() == Left(old(Snapshot()), id)
      ensures Valid()
    {
      ClosedKeeps(Snapshot(), id);
      var ws := conns[id];
      conns := conns[id := ws.(state := SocketState.Closed)];
      clients := Removed(clients, id);
      if ws.roomId.None? || ws.roomId.value == "" {
        return;
      }
      var roomId := ws.roomId.value;
      if roomId in rooms {
        rooms := rooms[roomId := rooms[roomId].(clients := Removed(rooms[roomId].clients, id))];
      }
      if roomId in rooms && rooms[roomId].clients == [] {
        rooms := rooms - {roomId};
      } else {
        Broadcast(roomId, RoomUpdates);
      }
    }

    /** The interval's sweep over the server's clients. */
    method Sweep()
      requires Valid()
      modifies this
      ensures Snapshot() == Swept(old(Snapshot()))
      ensures Valid()
    {
      SweptKeeps(Snapshot());
      ghost var start := Snapshot();
      var ids := clients;
      PrefixBounded(conns, ids);
      for i := 0 to |ids|
        invariant Snapshot() == SweepOver(start, ids[..i])
      {
        assert ids[..i + 1][..i] == ids[..i];
        var c := ids[i];
        assert c in ids;
        if conns[c].isAlive == Some(false) {
          conns := conns[c := conns[c].(state := Terminated(conns[c].state))];
        } else {
          conns := conns[c := conns[c].(isAlive := Some(false))];
          outbox := outbox + [Envelope(c, Ping)];
        }
      }
      assert ids[..|ids|] == ids;
    }
  }
}
