/**
 * The room registry of the JSON WebSocket server (socket.js), as values.
 *
 * The server keeps the `rooms` Map from room id to {clients, revealed, quest,
 * questType}, writes fields on each connection object (name, roomId, hero,
 * choice, spectator, edited, isAlive), and sends JSON frames. Here a
 * connection is a record in `conns` indexed by its id, the ws library's
 * client set is `clients` (in insertion order, as a Set iterates), a room's
 * client Set is a sequence without repetitions in insertion order, and every
 * frame the server sends is appended to `outbox`. Incoming JSON arrives
 * already parsed, as a map from keys to values.
 */
module Registry {
  import opened Types

  // ---------------------------------------------------------------------
  // Parsed JSON

  /** A JSON value; numbers are integers here. */
  datatype Json = JNull | JBool(b: bool) | JNum(n: int) | JStr(s: string) | JList(items: seq<Json>)

  /** A parsed JSON object. */
  type Request = map<string, Json>

  /** obj[key]: None when the key is absent (undefined). */
  function Get(req: Request, key: string): (r: Option<Json>)
    ensures r.Some? <==> key in req
    ensures r.Some? ==> r.value == req[key]
  {
    if key in req then Some(req[key]) else None
  }

  /** Undefined or null: the values a nullish default replaces. */
  predicate Nullish(o: Option<Json>)
  {
    o.None? || o.value == JNull
  }

  /** o, or d when o is nullish; d is always defined. */
  function Or(o: Option<Json>, d: Json): Json
  {
    if Nullish(o) then d else o.value
  }

  /** o, or d when o is nullish; d may itself be undefined. */
  function OrKeep(o: Option<Json>, d: Option<Json>): Option<Json>
  {
    if Nullish(o) then d else o
  }

  predicate IsString(o: Option<Json>) { o.Some? && o.value.JStr? }
  predicate IsNumber(o: Option<Json>) { o.Some? && o.value.JNum? }

  /** The message's type field is the string t. */
  predicate TypeIs(req: Request, t: string)
  {
    Get(req, "type") == Some(JStr(t))
  }

  // ---------------------------------------------------------------------
  // The state

  type ConnId = nat

  /** WebSocket.readyState on the server side. */
  datatype SocketState = Open | Closing | Closed

  /** A connection object with the fields the handlers write; None is undefined. */
  datatype Conn = Conn(
    state: SocketState,
    isAlive: Option<bool>,
    roomId: Option<string>,
    name: Option<Json>,
    hero: Option<Json>,
    choice: Option<Json>,
    spectator: Option<Json>,
    edited: Option<bool>)

  /** A room entry of the `rooms` Map. */
  datatype Room = Room(clients: seq<ConnId>, revealed: bool, quest: int, questType: Json)

  /** One participant in a roomUpdate; a missing choice is sent as null. */
  datatype Member = Member(name: Option<Json>, hero: Option<Json>, spectator: Option<Json>, choice: Json)

  /** What getRoomData returns; questType is undefined for an unknown room. */
  datatype RoomInfo = RoomInfo(revealed: bool, quest: int, questType: Option<Json>, otherUsers: seq<Member>)

  /** The frames the server sends. */
  datatype Frame = RoomUpdate(info: RoomInfo) | Poked(pokedWith: Option<Json>, user: Option<Json>) | Pong | Ping

  datatype Envelope = Envelope(to: ConnId, frame: Frame)

  datatype Registry = Registry(conns: seq<Conn>, clients: seq<ConnId>, rooms: map<string, Room>, outbox: seq<Envelope>)

  /** Every id in ids names a connection. */
  predicate Bounded(conns: seq<Conn>, ids: seq<ConnId>)
  {
    forall c :: c in ids ==> c < |conns|
  }

  /** Every id the registry holds names a connection. */
  predicate WellFormed(r: Registry)
  {
    Bounded(r.conns, r.clients) && forall k :: k in r.rooms ==> Bounded(r.conns, r.rooms[k].clients)
  }

  /** A Set's elements: no element twice. */
  predicate NoDup(ids: seq<ConnId>)
  {
    forall i, j :: 0 <= i < j < |ids| ==> ids[i] != ids[j]
  }

  /** All of ids but the last. */
  function Init(ids: seq<ConnId>): (r: seq<ConnId>)
    requires ids != []
    ensures r == ids[..|ids| - 1] && ids[|ids| - 1] in ids && forall x :: x in r ==> x in ids
  {
    ids[..|ids| - 1]
  }

  /** Every prefix of a bounded list is bounded. */
  lemma PrefixBounded(conns: seq<Conn>, ids: seq<ConnId>)
    requires Bounded(conns, ids)
    ensures forall i :: 0 <= i <= |ids| ==> Bounded(conns, ids[..i])
  {
    forall i, x | 0 <= i <= |ids| && x in ids[..i]
      ensures x < |conns|
    {
      var j :| 0 <= j < |ids[..i]| && ids[..i][j] == x;
      assert ids[j] == x && ids[j] in ids;
    }
  }

  /** Set.add. */
  function Added(ids: seq<ConnId>, id: ConnId): (r: seq<ConnId>)
    ensures forall x :: x in r <==> x in ids || x == id
  {
    if id in ids then ids else ids + [id]
  }

  /** Set.delete. */
  function Removed(ids: seq<ConnId>, id: ConnId): (r: seq<ConnId>)
    ensures forall x :: x in r <==> x in ids && x != id
    ensures |r| <= |ids|
  {
    if ids == [] then []
    else
      var rest := Removed(ids[..|ids| - 1], id);
      if ids[|ids| - 1] == id then rest else rest + [ids[|ids| - 1]]
  }

  // ---------------------------------------------------------------------
  // getRoomData and broadcast

  /** How one client appears in a roomUpdate: its name, hero and spectator flag, and its choice or null. */
  function AsMember(w: Conn): Member
  {
    Member(w.name, w.hero, w.spectator, Or(w.choice, JNull))
  }

  /** The participants of a roomUpdate: every client of the room but the receiver, in set order. */
  function Others(conns: seq<Conn>, ids: seq<ConnId>, receiver: ConnId): (r: seq<Member>)
    requires Bounded(conns, ids)
    ensures |r| <= |ids|
  {
    if ids == [] then []
    else
      var rest := Others(conns, Init(ids), receiver);
      var c := ids[|ids| - 1];
      if c == receiver then rest
      else rest + [AsMember(conns[c])]
  }

  /** getRoomData(sender): the sender's room, or the empty default when the room is unknown. */
  function RoomInfoFor(r: Registry, sender: ConnId): (ri: RoomInfo)
    requires WellFormed(r) && sender < |r.conns|
    ensures ri.questType.None? ==> ri == RoomInfo(false, 0, None, [])
    ensures var roomId := r.conns[sender].roomId;
            ri.questType.Some? <==> roomId.Some? && roomId.value in r.rooms
    ensures ri.questType.Some? ==> |ri.otherUsers| <= |r.rooms[r.conns[sender].roomId.value].clients|
    ensures ri.questType.Some? ==>
              ri == RoomInfo(r.rooms[r.conns[sender].roomId.value].revealed, r.rooms[r.conns[sender].roomId.value].quest,
                             Some(r.rooms[r.conns[sender].roomId.value].questType), ri.otherUsers)
  {
    var roomId := r.conns[sender].roomId;
    if roomId.Some? && roomId.value in r.rooms then
      var room := r.rooms[roomId.value];
      RoomInfo(room.revealed, room.quest, Some(room.questType), Others(r.conns, room.clients, sender))
    else RoomInfo(false, 0, None, [])
  }

  /** The two broadcasts the handlers make: a roomUpdate computed per receiver, or a poke that skips its sender. */
  datatype Cast = RoomUpdates | PokeFrom(sender: ConnId, pokedWith: Option<Json>, user: Option<Json>)

  /** What broadcast sends to one client of the room. */
  function CastOne(r: Registry, c: ConnId, cast: Cast): seq<Envelope>
    requires WellFormed(r) && c < |r.conns|
  {
    if r.conns[c].state != Open then []
    else match cast
      case RoomUpdates => [Envelope(c, RoomUpdate(RoomInfoFor(r, c)))]
      case PokeFrom(sender, pokedWith, user) => if c == sender then [] else [Envelope(c, Poked(pokedWith, user))]
  }

  /** The forEach of broadcast over the given clients. */
  function CastTo(r: Registry, ids: seq<ConnId>, cast: Cast): (out: seq<Envelope>)
    requires WellFormed(r) && Bounded(r.conns, ids)
    ensures |out| <= |ids|
  {
    if ids == [] then [] else CastTo(r, Init(ids), cast) + CastOne(r, ids[|ids| - 1], cast)
  }

  /** broadcast(roomId, ...): nothing when the room is unknown. */
  function Broadcast(r: Registry, roomId: string, cast: Cast): (out: seq<Envelope>)
    requires WellFormed(r)
    ensures out != [] ==> roomId in r.rooms
    ensures roomId in r.rooms ==> |out| <= |r.rooms[roomId].clients|
  {
    if roomId in r.rooms then CastTo(r, r.rooms[roomId].clients, cast) else []
  }

  /** r with the broadcast appended to its outbox. */
  function Announce(r: Registry, roomId: string, cast: Cast): Registry
    requires WellFormed(r)
  {
    r.(outbox := r.outbox + Broadcast(r, roomId, cast))
  }

  // ---------------------------------------------------------------------
  // The handlers

  /** A new connection: not alive-checked yet, not in a room, open, and tracked by the server. */
  function Connected(r: Registry): Registry
  {
    r.(conns := r.conns + [Conn(Open, None, None, None, None, None, None, None)], clients := r.clients + [|r.conns|])
  }

  /** A pong from the connection marks it alive. */
  function Ponged(r: Registry, id: ConnId): Registry
    requires id < |r.conns|
  {
    r.(conns := r.conns[id := r.conns[id].(isAlive := Some(true))])
  }

  /** The message handler: mark the connection alive, then handle the message when it parsed. */
  function Received(r: Registry, id: ConnId, req: Option<Request>): (r': Registry)
    requires WellFormed(r) && id < |r.conns|
    ensures |r'.conns| == |r.conns| && r'.clients == r.clients && r.outbox <= r'.outbox
  {
    var alive := Ponged(r, id);
    if req.None? then alive
    else if TypeIs(req.value, "join") then Join(alive, id, req.value)
    else Handle(alive, id, req.value)
  }

  /** The join message: the connection's fields, then create or add to its room, then a roomUpdate to all. */
  function Join(r: Registry, id: ConnId, req: Request): (r': Registry)
    requires WellFormed(r) && id < |r.conns|
    ensures |r'.conns| == |r.conns| && r'.clients == r.clients && r.outbox <= r'.outbox
    ensures r.conns[id].roomId.Some? ==> r' == r
  {
    var ws := r.conns[id];
    if ws.roomId.Some? then r
    else if !(IsString(Get(req, "name")) && IsString(Get(req, "roomId")) &&
              IsNumber(Get(req, "questType")) && IsNumber(Get(req, "hero"))) then r
    else
      var roomId := Get(req, "roomId").value.s;
      var joined := ws.(name := Get(req, "name"), roomId := Some(roomId), hero := Get(req, "hero"),
                        choice := Some(Or(Get(req, "choice"), JNull)),
                        spectator := Some(Or(Get(req, "spectator"), JBool(false))));
      var rooms :=
        if roomId !in r.rooms then r.rooms[roomId := Room([id], false, 0, Get(req, "questType").value)]
        else r.rooms[roomId := r.rooms[roomId].(clients := Added(r.rooms[roomId].clients, id))];
      Announce(r.(conns := r.conns[id := joined], rooms := rooms), roomId, RoomUpdates)
  }

  /** Every other message: dropped before a join; otherwise by type. */
  function Handle(r: Registry, id: ConnId, req: Request): (r': Registry)
    requires WellFormed(r) && id < |r.conns|
    ensures |r'.conns| == |r.conns| && r'.clients == r.clients && r.outbox <= r'.outbox
    ensures r.conns[id].roomId.None? || r.conns[id].roomId.value == "" ==> r' == r
  {
    var ws := r.conns[id];
    if ws.roomId.None? || ws.roomId.value == "" then r
    else
      var roomId := ws.roomId.value;
      if TypeIs(req, "poke") then
        Announce(r, roomId, PokeFrom(id, Get(req, "pokedWith"), Get(req, "user")))
      else if TypeIs(req, "ping") then
        r.(outbox := r.outbox + [Envelope(id, Pong)])
      else if !(TypeIs(req, "reveal") || TypeIs(req, "newQuest") || TypeIs(req, "userUpdate")) then r
      else if roomId !in r.rooms then r  // room is undefined: the handler throws before changing anything
      else
        var room := r.rooms[roomId];
        var r' :=
          if TypeIs(req, "reveal") then r.(rooms := r.rooms[roomId := room.(revealed := true)])
          else if TypeIs(req, "newQuest") then
            r.(rooms := r.rooms[roomId := room.(revealed := false, quest := room.quest + 1,
                                                 questType := Or(Get(req, "questType"), room.questType))],
               conns := ClearChoices(r.conns, room.clients))
          else r.(conns := r.conns[id := Updated(ws, req, room.revealed)]);
        Announce(r', roomId, RoomUpdates)
  }

  /** The forEach of newQuest: every client of the room has choice null. */
  function ClearChoices(conns: seq<Conn>, ids: seq<ConnId>): (r: seq<Conn>)
    ensures |r| == |conns|
  {
    seq(|conns|, i requires 0 <= i < |conns| => if i in ids then conns[i].(choice := Some(JNull)) else conns[i])
  }

  /** userUpdate on the sender's fields. */
  function Updated(ws: Conn, req: Request, revealed: bool): (w: Conn)
    ensures w.state == ws.state && w.roomId == ws.roomId && w.isAlive == ws.isAlive
    ensures w.edited == Some(revealed && "choice" in req)
    ensures !Nullish(Get(req, "choice")) ==> w.choice == Get(req, "choice")
  {
    ws.(edited := Some(revealed && Get(req, "choice").Some?),
        choice := OrKeep(Get(req, "choice"), ws.choice),
        name := OrKeep(Get(req, "name"), ws.name),
        hero := OrKeep(Get(req, "hero"), ws.hero),
        spectator := OrKeep(Get(req, "spectator"), ws.spectator))
  }

  /**
   * The connection closes: the ws library drops it from its clients; then
   * the close handler leaves its room, deleting the room when it is empty and
   * telling the rest otherwise. A falsy roomId ends the handler at once.
   */
  function Left(r: Registry, id: ConnId): (r': Registry)
    requires WellFormed(r) && id < |r.conns|
    ensures |r'.conns| == |r.conns| && r'.conns[id].state == SocketState.Closed
    ensures id !in r'.clients && forall c :: c in r'.clients <==> c in r.clients && c != id
    ensures r.outbox <= r'.outbox
  {
    var ws := r.conns[id];
    var gone := r.(conns := r.conns[id := ws.(state := SocketState.Closed)], clients := Removed(r.clients, id));
    if ws.roomId.None? || ws.roomId.value == "" then gone
    else
      var roomId := ws.roomId.value;
      if roomId !in gone.rooms then gone
      else
        var left := Removed(gone.rooms[roomId].clients, id);
        if left == [] then gone.(rooms := gone.rooms - {roomId})
        else Announce(gone.(rooms := gone.rooms[roomId := gone.rooms[roomId].(clients := left)]), roomId, RoomUpdates)
  }

  /** ws.terminate(): an open connection starts closing. */
  function Terminated(s: SocketState): SocketState
  {
    if s == Open then Closing else s
  }

  /** One step of the sweep: terminate a connection that did not answer, otherwise mark it and ping it. */
  function Visit(r: Registry, c: ConnId): (r': Registry)
    requires c < |r.conns|
    ensures |r'.conns| == |r.conns| && r'.clients == r.clients && r'.rooms == r.rooms && r.outbox <= r'.outbox
    ensures r'.conns[c].isAlive == Some(false)
    ensures forall j :: 0 <= j < |r.conns| && j != c ==> r'.conns[j] == r.conns[j]
  {
    if r.conns[c].isAlive == Some(false) then r.(conns := r.conns[c := r.conns[c].(state := Terminated(r.conns[c].state))])
    else r.(conns := r.conns[c := r.conns[c].(isAlive := Some(false))], outbox := r.outbox + [Envelope(c, Ping)])
  }

  /** The sweep over the given connections, in order. */
  function SweepOver(r: Registry, ids: seq<ConnId>): (r': Registry)
    requires Bounded(r.conns, ids)
    ensures |r'.conns| == |r.conns| && r'.clients == r.clients && r'.rooms == r.rooms
  {
    if ids == [] then r else Visit(SweepOver(r, Init(ids)), ids[|ids| - 1])
  }

  /** The interval's sweep over every tracked connection. */
  function Swept(r: Registry): (r': Registry)
    requires Bounded(r.conns, r.clients)
    ensures |r'.conns| == |r.conns| && r'.clients == r.clients && r'.rooms == r.rooms
  {
    SweepOver(r, r.clients)
  }
}

module RegistryLaws {
  import opened Types
  import opened Registry

  // ---------------------------------------------------------------------
  // The invariant: rooms and connections agree

  /** A room has clients, none twice, each of them joined to it; outside room "" none of them is closed. */
  predicate RoomOk(r: Registry, k: string)
    requires k in r.rooms
  {
    var ids := r.rooms[k].clients;
    ids != [] && NoDup(ids) &&
    forall c :: c in ids ==> c < |r.conns| && r.conns[c].roomId == Some(k) && (k != "" ==> r.conns[c].state != SocketState.Closed)
  }

  /** A joined connection that is not closed, or that joined room "", is a client of its room. */
  predicate Tracked(r: Registry, c: ConnId)
    requires c < |r.conns|
  {
    var ws := r.conns[c];
    ws.roomId.Some? && (ws.state != SocketState.Closed || ws.roomId.value == "") ==>
      ws.roomId.value in r.rooms && c in r.rooms[ws.roomId.value].clients
  }

  predicate Invariant(r: Registry)
  {
    && WellFormed(r)
    && NoDup(r.clients)
    && (forall c :: 0 <= c < |r.conns| ==> (c in r.clients <==> r.conns[c].state != SocketState.Closed))
    && (forall k :: k in r.rooms ==> RoomOk(r, k))
    && (forall c :: 0 <= c < |r.conns| ==> Tracked(r, c))
  }

  /** The invariant reads only the clients, the rooms' client lists and each connection's room id and closedness. */
  lemma Transfer(r: Registry, r': Registry)
    requires Invariant(r)
    requires |r'.conns| == |r.conns| && r'.clients == r.clients && r'.rooms.Keys == r.rooms.Keys
    requires forall k :: k in r.rooms ==> r'.rooms[k].clients == r.rooms[k].clients
    requires forall c :: 0 <= c < |r.conns| ==>
      r'.conns[c].roomId == r.conns[c].roomId && (r'.conns[c].state == SocketState.Closed <==> r.conns[c].state == SocketState.Closed)
    ensures Invariant(r')
  {
    forall k | k in r'.rooms
      ensures RoomOk(r', k)
    {
      assert RoomOk(r, k);
    }
    forall c | 0 <= c < |r'.conns|
      ensures Tracked(r', c)
    {
      assert Tracked(r, c);
    }
  }

  /** A new connection keeps the invariant. */
  lemma ConnectedKeeps(r: Registry)
    requires Invariant(r)
    ensures Invariant(Connected(r))
  {
    var r' := Connected(r);
    assert |r.conns| !in r.clients;
    forall i, j | 0 <= i < j < |r'.clients|
      ensures r'.clients[i] != r'.clients[j]
    {
      if j == |r.clients| {
        assert r'.clients[i] in r.clients;
      }
    }
    forall k | k in r'.rooms
      ensures RoomOk(r', k)
    {
      assert RoomOk(r, k);
    }
    forall c | 0 <= c < |r'.conns|
      ensures Tracked(r', c)
    {
      if c < |r.conns| {
        assert Tracked(r, c);
      }
    }
  }

  /** A pong, or any message, marking a connection alive keeps the invariant. */
  lemma PongedKeeps(r: Registry, id: ConnId)
    requires Invariant(r) && id < |r.conns|
    ensures Invariant(Ponged(r, id))
  {
    Transfer(r, Ponged(r, id));
  }

  /** The handlers other than join change no membership. */
  lemma HandleKeeps(r: Registry, id: ConnId, req: Request)
    requires Invariant(r) && id < |r.conns|
    ensures Invariant(Handle(r, id, req))
  {
    var ws := r.conns[id];
    var r' := Handle(r, id, req);
    if ws.roomId.Some? && ws.roomId.value != "" {
      var k := ws.roomId.value;
      if TypeIs(req, "poke") || TypeIs(req, "ping") {
        assert r' == r.(outbox := r'.outbox);
        OutboxFree(r, r'.outbox);
      } else if (TypeIs(req, "reveal") || TypeIs(req, "newQuest") || TypeIs(req, "userUpdate")) && k in r.rooms {
        var room := r.rooms[k];
        var mid := r'.(outbox := r.outbox);
        if TypeIs(req, "reveal") {
          assert mid == r.(rooms := r.rooms[k := room.(revealed := true)]);
        } else if TypeIs(req, "newQuest") {
          assert mid.rooms == r.rooms[k := mid.rooms[k]] && mid.rooms[k].clients == room.clients;
          assert mid.conns == ClearChoices(r.conns, room.clients);
        } else {
          assert mid == r.(conns := r.conns[id := Updated(ws, req, room.revealed)]);
        }
        Transfer(r, mid);
        assert r' == mid.(outbox := r'.outbox);
        OutboxFree(mid, r'.outbox);
      }
    }
  }

  /** A join adds the connection to exactly its room. */
  lemma JoinKeeps(r: Registry, id: ConnId, req: Request)
    requires Invariant(r) && id < |r.conns| && r.conns[id].state != SocketState.Closed
    ensures Invariant(Join(r, id, req))
  {
    var ws := r.conns[id];
    if ws.roomId.None? && IsString(Get(req, "name")) && IsString(Get(req, "roomId")) &&
       IsNumber(Get(req, "questType")) && IsNumber(Get(req, "hero")) {
      var k := Get(req, "roomId").value.s;
      var r' := Join(r, id, req);
      var mid := r'.(outbox := r.outbox);
      assert mid.conns == r.conns[id := mid.conns[id]] && mid.conns[id].roomId == Some(k);
      assert mid.conns[id].state == ws.state && mid.clients == r.clients;
      JoinedRoom(r, id, k, mid);
      OutboxFree(mid, r'.outbox);
    }
  }

  /** The state after a first join to room k, before the broadcast, keeps the invariant. */
  lemma JoinedRoom(r: Registry, id: ConnId, k: string, mid: Registry)
    requires Invariant(r) && id < |r.conns| && r.conns[id].state != SocketState.Closed && r.conns[id].roomId.None?
    requires |mid.conns| == |r.conns| && mid.clients == r.clients
    requires forall c :: 0 <= c < |r.conns| && c != id ==> mid.conns[c] == r.conns[c]
    requires mid.conns[id].roomId == Some(k) && mid.conns[id].state == r.conns[id].state
    requires k in r.rooms ==> mid.rooms == r.rooms[k := r.rooms[k].(clients := Added(r.rooms[k].clients, id))]
    requires k !in r.rooms ==> exists room :: mid.rooms == r.rooms[k := room] && room.clients == [id]
    ensures Invariant(mid)
  {
    forall j | j in r.rooms
      ensures id !in r.rooms[j].clients
    {
      assert RoomOk(r, j);
    }
    assert WellFormed(mid);
    assert forall c :: 0 <= c < |mid.conns| ==> (c in mid.clients <==> mid.conns[c].state != SocketState.Closed);
    forall j | j in mid.rooms
      ensures RoomOk(mid, j)
    {
      if j != k {
        assert RoomOk(r, j);
      } else if k in r.rooms {
        assert RoomOk(r, k);
        var ids := r.rooms[k].clients;
        assert mid.rooms[k].clients == ids + [id];
        forall a, b | 0 <= a < b < |ids + [id]|
          ensures (ids + [id])[a] != (ids + [id])[b]
        {
          if b == |ids| {
            assert (ids + [id])[a] in ids;
          }
        }
      }
    }
    forall c | 0 <= c < |mid.conns|
      ensures Tracked(mid, c)
    {
      if c != id {
        assert Tracked(r, c);
      }
    }
  }

  /** Every message a live connection receives keeps the invariant. */
  lemma ReceivedKeeps(r: Registry, id: ConnId, req: Option<Request>)
    requires Invariant(r) && id < |r.conns| && r.conns[id].state != SocketState.Closed
    ensures Invariant(Received(r, id, req))
  {
    PongedKeeps(r, id);
    if req.Some? {
      if TypeIs(req.value, "join") {
        JoinKeeps(Ponged(r, id), id, req.value);
      } else {
        HandleKeeps(Ponged(r, id), id, req.value);
      }
    }
  }

  /** Set.delete keeps a set a set. */
  lemma {:induction false} RemovedNoDup(ids: seq<ConnId>, id: ConnId)
    requires NoDup(ids)
    ensures NoDup(Removed(ids, id))
  {
    if ids != [] {
      var init := Init(ids);
      var last := ids[|ids| - 1];
      RemovedNoDup(init, id);
      assert last !in init;
      var rest := Removed(init, id);
      if last != id {
        forall a, b | 0 <= a < b < |rest + [last]|
          ensures (rest + [last])[a] != (rest + [last])[b]
        {
          if b == |rest| {
            assert (rest + [last])[a] in rest;
          }
        }
      }
    }
  }

  /** Casting to one more client appends what that client gets. */
  lemma CastToStep(r: Registry, ids: seq<ConnId>, i: nat, cast: Cast)
    requires WellFormed(r) && Bounded(r.conns, ids) && i < |ids|
    ensures Bounded(r.conns, ids[..i]) && Bounded(r.conns, ids[..i + 1]) && ids[i] < |r.conns|
    ensures CastTo(r, ids[..i + 1], cast) == CastTo(r, ids[..i], cast) + CastOne(r, ids[i], cast)
  {
    PrefixBounded(r.conns, ids);
    assert ids[i] in ids;
    assert Init(ids[..i + 1]) == ids[..i];
  }

  /** Every frame of a cast goes to one of the listed clients. */
  lemma {:induction false} CastToAddressed(r: Registry, ids: seq<ConnId>, cast: Cast)
    requires WellFormed(r) && Bounded(r.conns, ids)
    ensures forall e :: e in CastTo(r, ids, cast) ==> e.to in ids
  {
    if ids != [] {
      CastToAddressed(r, Init(ids), cast);
    }
  }

  /** Every frame of a broadcast goes to a client of that room; an unknown room gets nothing. */
  lemma BroadcastAddressed(r: Registry, roomId: string, cast: Cast)
    requires WellFormed(r)
    ensures forall e :: e in Broadcast(r, roomId, cast) ==> roomId in r.rooms && e.to in r.rooms[roomId].clients
  {
    if roomId in r.rooms {
      CastToAddressed(r, r.rooms[roomId].clients, cast);
    }
  }

  /** The invariant does not read the outbox. */
  lemma OutboxFree(r: Registry, outbox: seq<Envelope>)
    requires Invariant(r)
    ensures Invariant(r.(outbox := outbox))
  {
    var r' := r.(outbox := outbox);
    assert forall k :: k in r.rooms ==> RoomOk(r, k) == RoomOk(r', k);
    assert forall c :: 0 <= c < |r.conns| ==> Tracked(r, c) == Tracked(r', c);
  }

  /** A close keeps the invariant: the connection leaves its room, and an empty room goes. */
  lemma ClosedKeeps(r: Registry, id: ConnId)
    requires Invariant(r) && id < |r.conns| && r.conns[id].state != SocketState.Closed
    ensures Invariant(Left(r, id))
  {
    var ws := r.conns[id];
    var gone := r.(conns := r.conns[id := ws.(state := SocketState.Closed)], clients := Removed(r.clients, id));
    RemovedNoDup(r.clients, id);
    if ws.roomId.Some? && ws.roomId.value != "" && ws.roomId.value in r.rooms {
      var k := ws.roomId.value;
      assert Tracked(r, id);
      var left := Removed(r.rooms[k].clients, id);
      var mid := if left == [] then gone.(rooms := gone.rooms - {k}) else gone.(rooms := gone.rooms[k := gone.rooms[k].(clients := left)]);
      LeftRoom(r, id, k, mid);
      if left != [] {
        assert Left(r, id) == mid.(outbox := Left(r, id).outbox);
        OutboxFree(mid, Left(r, id).outbox);
      }
    } else {
      assert Left(r, id) == gone;
      assert WellFormed(gone) && NoDup(gone.clients);
      assert forall c :: 0 <= c < |gone.conns| ==> (c in gone.clients <==> gone.conns[c].state != SocketState.Closed);
      forall k | k in gone.rooms
        ensures RoomOk(gone, k)
      {
        assert RoomOk(r, k);
      }
      forall c | 0 <= c < |gone.conns|
        ensures Tracked(gone, c)
      {
        assert Tracked(r, c);
      }
    }
  }

  /** The state after a close in room k, before the broadcast, keeps the invariant. */
  lemma LeftRoom(r: Registry, id: ConnId, k: string, mid: Registry)
    requires Invariant(r) && id < |r.conns| && r.conns[id].state != SocketState.Closed
    requires r.conns[id].roomId == Some(k) && k != "" && k in r.rooms
    requires mid.conns == r.conns[id := r.conns[id].(state := SocketState.Closed)]
    requires mid.clients == Removed(r.clients, id) && NoDup(mid.clients)
    requires var left := Removed(r.rooms[k].clients, id);
             mid.rooms == if left == [] then r.rooms - {k} else r.rooms[k := r.rooms[k].(clients := left)]
    ensures Invariant(mid)
  {
    var left := Removed(r.rooms[k].clients, id);
    RemovedNoDup(r.rooms[k].clients, id);
    assert WellFormed(mid);
    assert forall c :: 0 <= c < |mid.conns| ==> (c in mid.clients <==> mid.conns[c].state != SocketState.Closed);
    forall j | j in mid.rooms
      ensures RoomOk(mid, j)
    {
      assert RoomOk(r, j);
    }
    forall c | 0 <= c < |mid.conns|
      ensures Tracked(mid, c)
    {
      assert Tracked(r, c);
      if c != id && r.conns[c].roomId == Some(k) && r.conns[c].state != SocketState.Closed {
        assert c in left;
      }
    }
  }

  /** What the sweep leaves of one connection it visits. */
  function SweptConn(ws: Conn): Conn
  {
    if ws.isAlive == Some(false) then ws.(state := Terminated(ws.state)) else ws.(isAlive := Some(false))
  }

  /** The pings of a sweep over ids, in order: one to each connection that was not marked dead. */
  function Pings(conns: seq<Conn>, ids: seq<ConnId>): seq<Envelope>
    requires Bounded(conns, ids)
  {
    if ids == [] then []
    else
      var c := ids[|ids| - 1];
      Pings(conns, Init(ids)) + if conns[c].isAlive == Some(false) then [] else [Envelope(c, Ping)]
  }

  /** The sweep over distinct connections visits each of them once, against the state before the sweep. */
  lemma {:induction false} SweepOverEffect(r: Registry, ids: seq<ConnId>)
    requires Bounded(r.conns, ids) && NoDup(ids)
    ensures var r' := SweepOver(r, ids);
      && (forall c :: 0 <= c < |r.conns| ==> r'.conns[c] == if c in ids then SweptConn(r.conns[c]) else r.conns[c])
      && r'.outbox == r.outbox + Pings(r.conns, ids)
  {
    if ids != [] {
      var init := Init(ids);
      var c := ids[|ids| - 1];
      SweepOverEffect(r, init);
      assert c !in init by {
        forall i | 0 <= i < |init|
          ensures init[i] != c
        {
          assert ids[i] == init[i];
        }
      }
      assert forall x :: x in ids <==> x in init || x == c;
    }
  }

  /** The pings go exactly to the listed connections not marked dead. */
  lemma {:induction false} PingsExactly(conns: seq<Conn>, ids: seq<ConnId>)
    requires Bounded(conns, ids)
    ensures forall e :: e in Pings(conns, ids) <==>
      e.frame == Ping && e.to in ids && e.to < |conns| && conns[e.to].isAlive != Some(false)
  {
    if ids != [] {
      PingsExactly(conns, Init(ids));
      assert forall x :: x in ids <==> x in Init(ids) || x == ids[|ids| - 1];
    }
  }

  /**
   * The heartbeat sweep terminates every tracked connection whose isAlive is
   * false and pings none of them; every other tracked connection is marked
   * not alive and pinged once; untracked connections are untouched.
   */
  lemma SweepEffect(r: Registry)
    requires Invariant(r)
    ensures var r' := Swept(r);
      && (forall c :: 0 <= c < |r.conns| && c in r.clients && r.conns[c].isAlive == Some(false) ==>
            r'.conns[c] == r.conns[c].(state := Terminated(r.conns[c].state)))
      && (forall c :: 0 <= c < |r.conns| && c in r.clients && r.conns[c].isAlive != Some(false) ==>
            r'.conns[c] == r.conns[c].(isAlive := Some(false)))
      && (forall c :: 0 <= c < |r.conns| && c !in r.clients ==> r'.conns[c] == r.conns[c])
      && r.outbox <= r'.outbox
      && (forall e :: e in r'.outbox[|r.outbox|..] <==>
            e.frame == Ping && e.to in r.clients && r.conns[e.to].isAlive != Some(false))
  {
    SweepOverEffect(r, r.clients);
    PingsExactly(r.conns, r.clients);
    assert Swept(r).outbox[|r.outbox|..] == Pings(r.conns, r.clients);
  }

  /** The sweep keeps the invariant: terminating only starts a close. */
  lemma SweptKeeps(r: Registry)
    requires Invariant(r)
    ensures Invariant(Swept(r))
  {
    SweepOverEffect(r, r.clients);
    Transfer(r, Swept(r));
  }

  // ---------------------------------------------------------------------
  // What each handler does

  /** broadcast sends each client of the list exactly what it sends that client alone. */
  lemma {:induction false} CastToExactly(r: Registry, ids: seq<ConnId>, cast: Cast)
    requires WellFormed(r) && Bounded(r.conns, ids)
    ensures forall e :: e in CastTo(r, ids, cast) <==> e.to in ids && e.to < |r.conns| && e in CastOne(r, e.to, cast)
  {
    if ids != [] {
      CastToExactly(r, Init(ids), cast);
      forall x | x in ids
        ensures x in Init(ids) || x == ids[|ids| - 1]
      {
      }
    }
  }

  /** A second join on a connection is ignored: only the alive mark changes. */
  lemma JoinTwiceIgnored(r: Registry, id: ConnId, req: Request)
    requires WellFormed(r) && id < |r.conns| && r.conns[id].roomId.Some? && TypeIs(req, "join")
    ensures Received(r, id, Some(req)) == Ponged(r, id)
  {
  }

  /** A join with a mistyped name, roomId, questType or hero is ignored. */
  lemma BadJoinIgnored(r: Registry, id: ConnId, req: Request)
    requires WellFormed(r) && id < |r.conns| && TypeIs(req, "join")
    requires !(IsString(Get(req, "name")) && IsString(Get(req, "roomId")) && IsNumber(Get(req, "questType")) && IsNumber(Get(req, "hero")))
    ensures Received(r, id, Some(req)) == Ponged(r, id)
  {
  }

  /** A well-typed first join on an open connection. */
  predicate GoodJoin(r: Registry, id: ConnId, req: Request)
  {
    id < |r.conns| && r.conns[id].state == Open && r.conns[id].roomId.None? && TypeIs(req, "join") &&
    IsString(Get(req, "name")) && IsString(Get(req, "roomId")) && IsNumber(Get(req, "questType")) && IsNumber(Get(req, "hero"))
  }

  /**
   * A join to an unknown room creates it with quest 0, hidden, and exactly the
   * joiner; a join to a known room only adds the joiner to its clients. Either
   * way the joiner is in the room and receives a roomUpdate.
   */
  lemma JoinCreatesOrAdds(r: Registry, id: ConnId, req: Request)
    requires WellFormed(r) && GoodJoin(r, id, req)
    ensures var k := Get(req, "roomId").value.s;
            var r' := Received(r, id, Some(req));
            && r'.rooms == (if k in r.rooms then r.rooms[k := r.rooms[k].(clients := Added(r.rooms[k].clients, id))]
                            else r.rooms[k := Room([id], false, 0, Get(req, "questType").value)])
            && r'.conns[id].roomId == Some(k)
            && (forall c :: 0 <= c < |r.conns| && c != id ==> r'.conns[c] == r.conns[c])
            && r.outbox <= r'.outbox
            && Envelope(id, RoomUpdate(RoomInfoFor(r', id))) in r'.outbox
  {
    var k := Get(req, "roomId").value.s;
    var r' := Received(r, id, Some(req));
    var mid := r'.(outbox := Ponged(r, id).outbox);
    assert r' == Announce(mid, k, RoomUpdates);
    CastToExactly(mid, mid.rooms[k].clients, RoomUpdates);
    assert Envelope(id, RoomUpdate(RoomInfoFor(mid, id))) in CastOne(mid, id, RoomUpdates);
  }

  /** Before a join, and on a connection that joined room "", every message but a join is dropped. */
  lemma UnjoinedDropped(r: Registry, id: ConnId, req: Request)
    requires WellFormed(r) && id < |r.conns| && !TypeIs(req, "join")
    requires r.conns[id].roomId.None? || r.conns[id].roomId == Some("")
    ensures Received(r, id, Some(req)) == Ponged(r, id)
  {
  }

  /** A joined connection, not in room "", whose room exists, sending a message of type t. */
  predicate InRoom(r: Registry, id: ConnId)
  {
    id < |r.conns| && r.conns[id].roomId.Some? && r.conns[id].roomId.value != "" && r.conns[id].roomId.value in r.rooms
  }

  /**
   * reveal, newQuest and userUpdate end in a roomUpdate to every open client
   * of the room, the sender included: the sender filter of socket.js line 149
   * sits in the data argument of broadcast, not in its filter argument.
   */
  lemma EveryoneUpdated(r: Registry, id: ConnId, req: Request, c: ConnId)
    requires WellFormed(r) && InRoom(r, id)
    requires TypeIs(req, "reveal") || TypeIs(req, "newQuest") || TypeIs(req, "userUpdate")
    requires c in r.rooms[r.conns[id].roomId.value].clients && r.conns[c].state == Open
    ensures var r' := Received(r, id, Some(req));
            r.outbox <= r'.outbox && Envelope(c, RoomUpdate(RoomInfoFor(r', c))) in r'.outbox
  {
    var k := r.conns[id].roomId.value;
    var r' := Received(r, id, Some(req));
    var mid := r'.(outbox := r.outbox);
    assert r' == Announce(mid, k, RoomUpdates);
    CastToExactly(mid, mid.rooms[k].clients, RoomUpdates);
    assert Envelope(c, RoomUpdate(RoomInfoFor(mid, c))) in CastOne(mid, c, RoomUpdates);
  }

  /** reveal sets only the room's flag. */
  lemma RevealSets(r: Registry, id: ConnId, req: Request)
    requires WellFormed(r) && InRoom(r, id) && TypeIs(req, "reveal")
    ensures var k := r.conns[id].roomId.value;
            var r' := Received(r, id, Some(req));
            r'.rooms == r.rooms[k := r.rooms[k].(revealed := true)] && r'.conns == Ponged(r, id).conns
  {
  }

  /**
   * newQuest hides the room, counts one more quest, keeps the old questType
   * unless a new one is given, and sets every client's choice to null.
   */
  lemma NewQuestResets(r: Registry, id: ConnId, req: Request)
    requires WellFormed(r) && InRoom(r, id) && TypeIs(req, "newQuest")
    ensures var k := r.conns[id].roomId.value;
            var room := r.rooms[k];
            var r' := Received(r, id, Some(req));
            && k in r'.rooms && r'.rooms[k].clients == room.clients
            && !r'.rooms[k].revealed && r'.rooms[k].quest == room.quest + 1
            && r'.rooms[k].questType == (if Nullish(Get(req, "questType")) then room.questType else req["questType"])
            && (forall j :: j in r.rooms && j != k ==> r'.rooms[j] == r.rooms[j])
            && |r'.conns| == |r.conns|
            && (forall c :: c in room.clients ==> r'.conns[c] == Ponged(r, id).conns[c].(choice := Some(JNull)))
            && (forall c :: 0 <= c < |r.conns| && c !in room.clients ==> r'.conns[c] == Ponged(r, id).conns[c])
  {
  }

  /**
   * userUpdate marks the sender edited exactly when the room is revealed and a
   * choice is present (even null); each of choice, name, hero and spectator
   * keeps its old value unless a non-null one is given.
   */
  lemma UserUpdateFields(r: Registry, id: ConnId, req: Request)
    requires WellFormed(r) && InRoom(r, id) && TypeIs(req, "userUpdate")
    ensures var k := r.conns[id].roomId.value;
            var ws := r.conns[id];
            var ws' := Received(r, id, Some(req)).conns[id];
            && ws'.edited == Some(r.rooms[k].revealed && "choice" in req)
            && ws'.choice == (if Nullish(Get(req, "choice")) then ws.choice else Some(req["choice"]))
            && ws'.name == (if Nullish(Get(req, "name")) then ws.name else Some(req["name"]))
            && ws'.hero == (if Nullish(Get(req, "hero")) then ws.hero else Some(req["hero"]))
            && ws'.spectator == (if Nullish(Get(req, "spectator")) then ws.spectator else Some(req["spectator"]))
            && ws'.roomId == ws.roomId && ws'.state == ws.state
            && Received(r, id, Some(req)).rooms == r.rooms
            && |Received(r, id, Some(req)).conns| == |r.conns|
            && (forall c :: 0 <= c < |r.conns| && c != id ==> Received(r, id, Some(req)).conns[c] == r.conns[c])
  {
  }

  /** A poke goes to every open client of the room but its sender, and to nobody else. */
  lemma PokeSkipsSender(r: Registry, id: ConnId, req: Request)
    requires WellFormed(r) && InRoom(r, id) && TypeIs(req, "poke")
    ensures var k := r.conns[id].roomId.value;
            var r' := Received(r, id, Some(req));
            && r.outbox <= r'.outbox
            && (forall e :: e in r'.outbox[|r.outbox|..] <==>
                  e.to in r.rooms[k].clients && e.to != id && e.to < |r.conns| && r.conns[e.to].state == Open &&
                  e.frame == Poked(Get(req, "pokedWith"), Get(req, "user")))
  {
    var k := r.conns[id].roomId.value;
    var r' := Received(r, id, Some(req));
    var alive := Ponged(r, id);
    CastToExactly(alive, alive.rooms[k].clients, PokeFrom(id, Get(req, "pokedWith"), Get(req, "user")));
    assert r'.outbox[|r.outbox|..] == Broadcast(alive, k, PokeFrom(id, Get(req, "pokedWith"), Get(req, "user")));
  }

  /** Any message, parsed or not, and any pong leave the sender marked alive. */
  lemma MessageMarksAlive(r: Registry, id: ConnId, req: Option<Request>)
    requires WellFormed(r) && id < |r.conns|
    ensures Ponged(r, id).conns[id].isAlive == Some(true)
    ensures Received(r, id, req).conns[id].isAlive == Some(true)
  {
  }

  /** A ping from a joined connection is answered with a pong to it alone. */
  lemma PingAnswered(r: Registry, id: ConnId, req: Request)
    requires WellFormed(r) && id < |r.conns| && r.conns[id].roomId.Some? && r.conns[id].roomId.value != ""
    requires TypeIs(req, "ping")
    ensures Received(r, id, Some(req)) == Ponged(r, id).(outbox := r.outbox + [Envelope(id, Pong)])
  {
  }

  /**
   * A close takes the connection out of the server's clients and out of its
   * room; the room is deleted exactly when no other client is left, and
   * nothing is sent then; the other rooms stay as they were.
   */
  lemma LeaveRoom(r: Registry, id: ConnId)
    requires Invariant(r) && id < |r.conns| && r.conns[id].state != SocketState.Closed
    requires r.conns[id].roomId.Some? && r.conns[id].roomId.value != ""
    ensures var k := r.conns[id].roomId.value;
            var r' := Left(r, id);
            && id !in r'.clients && r'.conns[id].state == SocketState.Closed && k in r.rooms
            && (k in r'.rooms <==> exists c :: c in r.rooms[k].clients && c != id)
            && (k in r'.rooms ==> forall c :: c in r'.rooms[k].clients <==> c in r.rooms[k].clients && c != id)
            && (k !in r'.rooms ==> r'.outbox == r.outbox)
            && (forall j :: j in r.rooms && j != k ==> j in r'.rooms && r'.rooms[j] == r.rooms[j])
  {
    var k := r.conns[id].roomId.value;
    assert Tracked(r, id);
    var left := Removed(r.rooms[k].clients, id);
    if exists c :: c in r.rooms[k].clients && c != id {
      var c :| c in r.rooms[k].clients && c != id;
      assert c in left;
    }
  }

  /** When the room is kept, every client left in it that is open gets a roomUpdate. */
  lemma LeaveRoomNotifies(r: Registry, id: ConnId)
    requires Invariant(r) && id < |r.conns| && r.conns[id].state != SocketState.Closed
    requires r.conns[id].roomId.Some? && r.conns[id].roomId.value != ""
    ensures var k := r.conns[id].roomId.value;
            var r' := Left(r, id);
            k in r'.rooms ==> forall c :: c in r'.rooms[k].clients && r'.conns[c].state == Open ==>
              Envelope(c, RoomUpdate(RoomInfoFor(r', c))) in r'.outbox
  {
    var k := r.conns[id].roomId.value;
    assert Tracked(r, id);
    var ws := r.conns[id];
    var gone := r.(conns := r.conns[id := ws.(state := SocketState.Closed)], clients := Removed(r.clients, id));
    var left := Removed(r.rooms[k].clients, id);
    if left != [] {
      var mid := gone.(rooms := gone.rooms[k := gone.rooms[k].(clients := left)]);
      RemovedNoDup(r.clients, id);
      LeftRoom(r, id, k, mid);
      assert Left(r, id) == Announce(mid, k, RoomUpdates);
      AnnounceReaches(mid, k);
    }
  }

  /** broadcast(k, 'roomUpdate') reaches every open client of room k with its own room data. */
  lemma AnnounceReaches(m: Registry, k: string)
    requires WellFormed(m) && k in m.rooms
    ensures var a := Announce(m, k, RoomUpdates);
            forall c :: c in m.rooms[k].clients && m.conns[c].state == Open ==>
              Envelope(c, RoomUpdate(RoomInfoFor(a, c))) in a.outbox
  {
    var a := Announce(m, k, RoomUpdates);
    CastToExactly(m, m.rooms[k].clients, RoomUpdates);
    forall c | c in m.rooms[k].clients && m.conns[c].state == Open
      ensures Envelope(c, RoomUpdate(RoomInfoFor(a, c))) in a.outbox
    {
      assert RoomInfoFor(a, c) == RoomInfoFor(m, c);
      assert Envelope(c, RoomUpdate(RoomInfoFor(m, c))) in CastOne(m, c, RoomUpdates);
    }
  }

  /**
   * A connection that joined room "" never leaves it: its messages are
   * dropped (the room id is falsy) and its close returns early, so the
   * closed connection stays a client of room "" and the room is never deleted.
   */
  lemma EmptyRoomIdStays(r: Registry, id: ConnId)
    requires Invariant(r) && id < |r.conns| && r.conns[id].state != SocketState.Closed && r.conns[id].roomId == Some("")
    ensures var r' := Left(r, id);
            r'.conns[id].state == SocketState.Closed && "" in r'.rooms && id in r'.rooms[""].clients && r'.rooms == r.rooms
  {
    assert Tracked(r, id);
  }

  /** getRoomData lists every other client of the room once: one fewer than the room has. */
  lemma {:induction false} OthersCount(conns: seq<Conn>, ids: seq<ConnId>, receiver: ConnId)
    requires Bounded(conns, ids) && NoDup(ids) && receiver in ids
    ensures |Others(conns, ids, receiver)| == |ids| - 1
  {
    var init := Init(ids);
    var last := ids[|ids| - 1];
    assert last !in init by {
      forall i | 0 <= i < |init|
        ensures init[i] != last
      {
        assert ids[i] == init[i];
      }
    }
    if last != receiver {
      assert receiver in init by {
        var i :| 0 <= i < |ids| && ids[i] == receiver;
        assert init[i] == receiver;
      }
      OthersCount(conns, init, receiver);
    } else {
      OthersAll(conns, init, receiver);
    }
  }

  /** getRoomData's otherUsers holds exactly the other clients of the list, each as its member record. */
  lemma {:induction false} OthersMembers(conns: seq<Conn>, ids: seq<ConnId>, receiver: ConnId, m: Member)
    requires Bounded(conns, ids)
    ensures m in Others(conns, ids, receiver) <==> exists c :: c in ids && c != receiver && m == AsMember(conns[c])
  {
    if ids != [] {
      var init, last := Init(ids), ids[|ids| - 1];
      assert forall x :: x in ids <==> x in init || x == last by {
        assert ids == init + [last];
      }
      OthersMembers(conns, init, receiver, m);
    }
  }

  /** For a known room, getRoomData returns its flag, quest and type, and a member record for every other client of the room and nothing else. */
  lemma RoomInfoMembers(r: Registry, sender: ConnId, m: Member)
    requires WellFormed(r) && sender < |r.conns|
    requires r.conns[sender].roomId.Some? && r.conns[sender].roomId.value in r.rooms
    ensures var room := r.rooms[r.conns[sender].roomId.value];
            var ri := RoomInfoFor(r, sender);
            ri.revealed == room.revealed && ri.quest == room.quest && ri.questType == Some(room.questType) &&
            (m in ri.otherUsers <==> exists c :: c in room.clients && c != sender && m == AsMember(r.conns[c]))
  {
    var room := r.rooms[r.conns[sender].roomId.value];
    OthersMembers(r.conns, room.clients, sender, m);
  }

  /** With the receiver absent, every client is listed. */
  lemma {:induction false} OthersAll(conns: seq<Conn>, ids: seq<ConnId>, receiver: ConnId)
    requires Bounded(conns, ids) && receiver !in ids
    ensures |Others(conns, ids, receiver)| == |ids|
  {
    if ids != [] {
      OthersAll(conns, Init(ids), receiver);
    }
  }
}
