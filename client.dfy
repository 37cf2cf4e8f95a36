/**
 * The client's objects: the shared room record (type RoomData,
 * src/lib/app.svelte.ts), the local user (src/lib/CurrentUser.svelte.ts) and
 * the NetworkClient with its socket state, reconnect bookkeeping and the
 * frames it has handed to the socket (src/lib/network.ts).
 *
 * The WebSocket itself is not modelled: its readyState is a field, sending a
 * frame appends it to `sent`, and the socket's events (open, message, close,
 * error) and the reconnect timer firing are methods the environment calls.
 */
module Client {
  import opened Bits
  import opened Codec
  import opened Types
  import opened Protocol
  import opened Receive
  import opened RoomView

  /** The shared room record; `room` in app.svelte.ts is one of these. */
  class RoomData {
    var connected: bool
    var quest: int
    var roomType: RoomType
    var revealed: bool
    var otherUsers: seq<UserData>
    var spectators: seq<UserData>

    /** The room app.svelte.ts starts from: disconnected, quest 0, story points, hidden, nobody else. */
    constructor ()
      ensures !connected && quest == 0 && roomType == StoryPoints && !revealed
      ensures otherUsers == [] && spectators == []
    {
      connected := false;
      quest := 0;
      roomType := StoryPoints;
      revealed := false;
      otherUsers := [];
      spectators := [];
    }
  }

  // ---------------------------------------------------------------------
  // The socket and the reconnect bookkeeping, as values

  /** WebSocket.readyState, with NoSocket before the first connect. */
  datatype ReadyState = NoSocket | Connecting | Open | Closing | Closed

  /**
   * The NetworkClient's own state: the socket's readyState, the attempt
   * counter, the flag that allows reconnecting, how many reconnect timers are
   * scheduled and have not fired, and the frames sent so far.
   */
  datatype Link = Link(state: ReadyState, attempts: nat, shouldReconnect: bool, timers: nat, sent: seq<seq<byte>>)

  /** #connect: nothing on an open socket; otherwise allow reconnecting and open a new socket. */
  function Connected(l: Link): (r: Link)
    ensures r.state == Open || (r.state == Connecting && r.shouldReconnect)
    ensures r.attempts == l.attempts && r.timers == l.timers && r.sent == l.sent
  {
    if l.state == Open then l else l.(state := Connecting, shouldReconnect := true)
  }

  /** #reconnect: count an attempt and schedule a connect, only while reconnecting is allowed. */
  function Reconnected(l: Link): (r: Link)
    ensures r.state == l.state && r.shouldReconnect == l.shouldReconnect && r.sent == l.sent
    ensures r.attempts > l.attempts <==> l.shouldReconnect
    ensures r.attempts <= l.attempts + 1 && r.timers - l.timers == r.attempts - l.attempts
  {
    if l.shouldReconnect then l.(attempts := l.attempts + 1, timers := l.timers + 1) else l
  }

  /** WebSocket.close(): a connecting or open socket starts closing; otherwise nothing happens. */
  function ClosedState(s: ReadyState): ReadyState
  {
    if s == Connecting || s == Open then Closing else s
  }

  /** The frame #send hands to the socket for m; none when a string does not fit and writeString throws. */
  function Frame(m: Outbound): seq<seq<byte>>
  {
    if Fits(m) then [Pack(Layout(m))] else []
  }

  /**
   * #send on link l with the room's connected flag: on an open socket the
   * frame is sent; on a closing one the room is marked disconnected and a
   * reconnect is attempted; otherwise nothing changes.
   */
  function AfterSend(l: Link, connected: bool, m: Outbound): (r: (Link, bool))
    ensures r.0.state == l.state && r.0.shouldReconnect == l.shouldReconnect
    ensures r.1 ==> connected
    ensures r.0.sent != l.sent ==> l.state == Open
    ensures r.0.attempts != l.attempts ==> l.state == Closing && !r.1
  {
    if l.state == Open then (l.(sent := l.sent + Frame(m)), connected)
    else if l.state == Closing then (Reconnected(l), false)
    else (l, connected)
  }

  /** The frames sent grow only at the end, and only by a frame for m. */
  lemma SendAppends(l: Link, connected: bool, m: Outbound)
    ensures var (l', _) := AfterSend(l, connected, m);
            l'.sent == l.sent || l'.sent == l.sent + [Pack(Layout(m))]
    ensures var (l', _) := AfterSend(l, connected, m);
            l'.sent != l.sent <==> l.state == Open && Fits(m)
  {
  }

  /** The attempt counter grows only while reconnecting is allowed, and then by exactly one. */
  lemma AttemptsOnlyWhileAllowed(l: Link, connected: bool, m: Outbound)
    ensures Reconnected(l).attempts == if l.shouldReconnect then l.attempts + 1 else l.attempts
    ensures AfterSend(l, connected, m).0.attempts > l.attempts ==> l.shouldReconnect && l.state == Closing
    ensures !l.shouldReconnect ==> AfterSend(l, connected, m).0.attempts == l.attempts
  {
  }

  /**
   * close() does not cancel a scheduled reconnect: when such a timer fires
   * after close(), #connect allows reconnecting again and opens a new socket.
   */
  lemma CloseDoesNotStopPendingReconnect(l: Link)
    requires l.timers > 0 && l.state != Open
    ensures var closed := l.(shouldReconnect := false, state := ClosedState(l.state));
            var fired := Connected(closed.(timers := closed.timers - 1));
            fired.shouldReconnect && fired.state == Connecting
  {
  }

  // ---------------------------------------------------------------------
  // The local user's vote and hero, as values

  /** JavaScript `===` on choices: equal numbers and equal strings match, null matches null, a pair never matches. */
  predicate StrictEquals(a: Choice, b: Choice)
  {
    a == b && !a.Pair?
  }

  /** The local user's vote after the choice setter, and whether it sends an update. */
  datatype Vote = Vote(choice: Choice, edited: bool, announce: bool)

  /** The choice setter with a room attached, from the room's revealed flag, the current vote and edited flag. */
  function Chosen(revealed: bool, current: Choice, edited: bool, c: Choice): (v: Vote)
    ensures v.choice == c || v.choice == current || v.choice == NoChoice
    ensures !v.announce <==> revealed && StrictEquals(current, c)
    ensures v.edited ==> edited || revealed
  {
    if !revealed && StrictEquals(current, c) then Vote(NoChoice, edited, true)
    else if revealed && StrictEquals(current, c) then Vote(current, edited, false)
    else Vote(c, revealed, true)
  }

  /** Before the reveal, choosing the current vote again withdraws it and announces null. */
  lemma ToggleOff(current: Choice, edited: bool, c: Choice)
    requires StrictEquals(current, c)
    ensures Chosen(false, current, edited, c) == Vote(NoChoice, edited, true)
  {
  }

  /** After the reveal, choosing the current vote again changes nothing and sends nothing. */
  lemma RevealedRepeatIgnored(current: Choice, edited: bool, c: Choice)
    requires StrictEquals(current, c)
    ensures Chosen(true, current, edited, c) == Vote(current, edited, false)
  {
  }

  /** A different vote is stored and announced, and marks the user edited exactly when the room is revealed. */
  lemma NewVote(revealed: bool, current: Choice, edited: bool, c: Choice)
    requires !StrictEquals(current, c)
    ensures Chosen(revealed, current, edited, c) == Vote(c, revealed, true)
  {
  }

  /** Before the reveal, choosing the same number or string twice leaves no vote; a pair is never withdrawn. */
  lemma ChooseTwice(current: Choice, edited: bool, c: Choice)
    requires c != NoChoice
    ensures var once := Chosen(false, current, edited, c);
            var twice := Chosen(false, once.choice, once.edited, c);
            twice.choice == if c.Pair? then c else if StrictEquals(current, c) then c else NoChoice
  {
  }

  /** JavaScript `%` on integers: the remainder takes the sign of the dividend. */
  function JsRem(a: int, b: int): (r: int)
    requires b > 0
    ensures a >= 0 ==> 0 <= r < b
    ensures a < 0 ==> -b < r <= 0
  {
    if a >= 0 then a % b else -((-a) % b)
  }

  /** The hero cycleHero(dir) moves to: (hero + dir + 32) % 32. */
  function Cycled(hero: int, dir: int): (r: int)
    ensures hero + dir + 32 >= 0 ==> 0 <= r < 32
    ensures (r - (hero + dir)) % 32 == 0
  {
    JsRem(hero + dir + 32, 32)
  }

  /** Cycling keeps a hero in [0, 32), and one step back undoes one step forward (and the other way round). */
  lemma CycleInverse(hero: int)
    requires 0 <= hero < 32
    ensures 0 <= Cycled(hero, 1) < 32 && 0 <= Cycled(hero, -1) < 32
    ensures Cycled(Cycled(hero, 1), -1) == hero && Cycled(Cycled(hero, -1), 1) == hero
  {
    CycleStep(hero);
    CycleStep(Cycled(hero, 1));
    CycleStep(Cycled(hero, -1));
  }

  /** One step forward or back, with the wrap at the ends written out. */
  lemma CycleStep(hero: int)
    requires 0 <= hero < 32
    ensures Cycled(hero, 1) == if hero == 31 then 0 else hero + 1
    ensures Cycled(hero, -1) == if hero == 0 then 31 else hero - 1
  {
    assert hero + 1 + 32 >= 0 && hero - 1 + 32 >= 0;
    if hero == 31 {
      assert (hero + 1 + 32) % 32 == 0;
    } else {
      assert (hero + 1 + 32) % 32 == hero + 1 by {
        assert hero + 1 + 32 == 1 * 32 + (hero + 1);
      }
    }
    if hero == 0 {
      assert (hero - 1 + 32) % 32 == 31;
    } else {
      assert (hero - 1 + 32) % 32 == hero - 1 by {
        assert hero - 1 + 32 == 1 * 32 + (hero - 1);
      }
    }
  }

  /** Half of the 32 heroes cycleHero reaches cannot be sent: hero 16 goes out as hero 0. */
  lemma CycledHeroOnTheWire()
    ensures Cycled(15, 1) == 16
    ensures Sent(UpdateHero(Cycled(15, 1))) == UpdateHero(0)
  {
    HeroOnTheWire(16);
  }

  /** "Unknown Hero", the name a user without a stored one gets. */
  const UnknownHero: seq<byte> := [0x55, 0x6e, 0x6b, 0x6e, 0x6f, 0x77, 0x6e, 0x20, 0x48, 0x65, 0x72, 0x6f]

  // ---------------------------------------------------------------------
  // The objects

  /** What onmessage reads and writes: the room record and the local user's id, vote and edited flag. */
  function ViewOf(room: RoomData, user: CurrentUser): View
    reads room, user
  {
    View(room.connected, room.quest, room.roomType, room.revealed, room.otherUsers, room.spectators,
         user.id, user.choice, user.edited)
  }

  /**
   * What one incoming message does: Apply to the view; in addition ResetRoom
   * clears the local vote through the choice setter, which sends
   * UpdateUserChoice(null).
   */
  function Handled(v: View, l: Link, m: Inbound): (r: (View, Link))
    ensures r.0 == Apply(v, m).(connected := r.0.connected)
    ensures r.0.connected ==> Apply(v, m).connected
    ensures !m.RoomReset? ==> r.1 == l
    ensures r.1.sent == l.sent || r.1.sent == l.sent + [Pack(Layout(UpdateChoice(NoChoice)))]
  {
    if m.RoomReset? then
      var (l', connected) := AfterSend(l, v.connected, UpdateChoice(NoChoice));
      (Apply(v, m).(connected := connected), l')
    else (Apply(v, m), l)
  }

  class NetworkClient {
    var state: ReadyState
    var attempts: nat
    var shouldReconnect: bool
    var timers: nat
    var sent: seq<seq<byte>>
    /** The `room` and `currentUser` that network.ts imports from app.svelte.ts. */
    const room: RoomData
    var user: CurrentUser?
    /** The room id in the page URL (page.params.roomId). */
    const roomId: seq<byte>

    function Status(): Link
      reads this
    {
      Link(state, attempts, shouldReconnect, timers, sent)
    }

    /** new NetworkClient(url): a first socket is opened at once. */
    constructor (room: RoomData, roomId: seq<byte>)
      ensures this.room == room && this.roomId == roomId && user == null
      ensures Status() == Link(Connecting, 0, true, 0, [])
    {
      this.room := room;
      this.roomId := roomId;
      user := null;
      state := Connecting;
      attempts := 0;
      shouldReconnect := true;
      timers := 0;
      sent := [];
    }

    /** #connect. */
    method Connect()
      modifies this
      ensures Status() == Connected(old(Status())) && user == old(user)
    {
      if state == Open {
        return;
      }
      shouldReconnect := true;
      state := Connecting;
    }

    /** #reconnect; the delay before the timer fires is left to the environment. */
    method Reconnect()
      modifies this
      ensures Status() == Reconnected(old(Status())) && user == old(user)
    {
      if shouldReconnect {
        attempts := attempts + 1;
        timers := timers + 1;
      }
    }

    /** A scheduled reconnect timer fires and connects again. */
    method ReconnectTimerFires()
      requires timers > 0
      modifies this
      ensures Status() == Connected(old(Status()).(timers := old(timers) - 1)) && user == old(user)
    {
      timers := timers - 1;
      Connect();
    }

    /** #send(cb), with the message the callback writes. */
    method Send(m: Outbound)
      modifies this, room
      ensures (Status(), room.connected) == AfterSend(old(Status()), old(room.connected), m)
      ensures user == old(user)
      ensures room.quest == old(room.quest) && room.roomType == old(room.roomType) && room.revealed == old(room.revealed)
      ensures room.otherUsers == old(room.otherUsers) && room.spectators == old(room.spectators)
    {
      if state == Open {
        var data, ok := Encode(m);
        if ok {
          sent := sent + [data];
        } else {
          assert sent + Frame(m) == sent;
        }
      } else if state == Closing {
        room.connected := false;
        Reconnect();
      }
    }

    /** The join the client sends on open, from the current user, the room and the page's room id. */
    function JoinOf(u: CurrentUser): Outbound
      reads this, u, room
    {
      Join(u.hero, room.roomType, u.spectator, u.choice, roomId, u.name)
    }

    /** onopen: reset the attempt counter and send the join. */
    method OnOpen()
      requires user != null
      modifies this, room
      ensures var l := old(Status()).(state := Open, attempts := 0);
              Status() == l.(sent := l.sent + Frame(old(JoinOf(user))))
      ensures user == old(user) && room.connected == old(room.connected)
      ensures room.quest == old(room.quest) && room.roomType == old(room.roomType) && room.revealed == old(room.revealed)
      ensures room.otherUsers == old(room.otherUsers) && room.spectators == old(room.spectators)
    {
      state := Open;
      attempts := 0;
      Send(JoinOf(user));
    }

    /** onclose: the room is disconnected and a reconnect is attempted. */
    method OnClose()
      modifies this, room
      ensures Status() == Reconnected(old(Status()).(state := Closed)) && !room.connected
      ensures user == old(user)
      ensures room.quest == old(room.quest) && room.roomType == old(room.roomType) && room.revealed == old(room.revealed)
      ensures room.otherUsers == old(room.otherUsers) && room.spectators == old(room.spectators)
    {
      state := Closed;
      room.connected := false;
      Reconnect();
    }

    /** onerror: the room is disconnected and the socket closed. */
    method OnError()
      modifies this, room
      ensures Status() == old(Status()).(state := ClosedState(old(state))) && !room.connected
      ensures user == old(user)
      ensures room.quest == old(room.quest) && room.roomType == old(room.roomType) && room.revealed == old(room.revealed)
      ensures room.otherUsers == old(room.otherUsers) && room.spectators == old(room.spectators)
    {
      room.connected := false;
      state := ClosedState(state);
    }

    /** close(): no more reconnecting, and the socket is closed. */
    method Close()
      modifies this
      ensures Status() == old(Status()).(shouldReconnect := false, state := ClosedState(old(state)))
      ensures user == old(user)
    {
      shouldReconnect := false;
      state := ClosedState(state);
    }

    /** onmessage: read the message from the bytes received, then apply it. */
    method OnMessage(data: seq<byte>)
      requires user != null && user.net == this && user.room == room
      modifies this, room, user
      ensures user == old(user) && user.name == old(user.name) && user.hero == old(user.hero)
      ensures (ViewOf(room, user), Status()) == Handled(old(ViewOf(room, user)), old(Status()), ParseInbound(data))
    {
      var m := ReadInbound(data);
      Dispatch(m);
    }

    /** The switch of onmessage, once the message is read. */
    method Dispatch(m: Inbound)
      requires user != null && user.net == this && user.room == room
      modifies this, room, user
      ensures user == old(user) && user.name == old(user.name) && user.hero == old(user.hero)
      ensures (ViewOf(room, user), Status()) == Handled(old(ViewOf(room, user)), old(Status()), m)
    {
      match m
      case Poked(_, _, _) =>
      case UserConnected(u) =>
        room.otherUsers := room.otherUsers + [u];
      case UserDisconnected(id) =>
        room.otherUsers := Remove(room.otherUsers, id);
      case UserChoice(id, ch) =>
        room.otherUsers := Update(room.otherUsers, id, SetVote(ch, room.revealed));
      case UserName(id, name) =>
        room.otherUsers := Update(room.otherUsers, id, SetName(name));
      case UserHero(id, h) =>
        room.otherUsers := Update(room.otherUsers, id, SetHero(h));
      case UserSpectator(id, s) =>
        room.otherUsers := Update(room.otherUsers, id, SetSpectator(s));
      case Revealed =>
        room.revealed := true;
      case RoomReset(rt) =>
        ResetRoom(rt);
      case Synced(self, kind, shown, quest, users) =>
        user.id := self;
        room.roomType := kind;
        room.revealed := shown;
        room.quest := quest;
        room.otherUsers := users;
        room.connected := true;
      case Other(_) =>
    }

    /** ResetRoom: next quest, the sent type, hidden; the local vote cleared through its setter; every vote cleared. */
    method ResetRoom(rt: RoomType)
      requires user != null && user.net == this && user.room == room
      modifies this, room, user
      ensures user == old(user) && user.name == old(user.name) && user.hero == old(user.hero)
      ensures (ViewOf(room, user), Status()) == Handled(old(ViewOf(room, user)), old(Status()), RoomReset(rt))
    {
      room.quest := room.quest + 1;
      room.roomType := rt;
      room.revealed := false;
      user.SetChoice(NoChoice);
      user.edited := false;
      room.otherUsers := ClearAll(room.otherUsers);
    }
  }

  /** Keeps the participants whose id differs from id, building the result front to back. */
  method Remove(users: seq<UserData>, id: int) returns (kept: seq<UserData>)
    ensures kept == Without(users, id)
  {
    kept := [];
    for i := 0 to |users|
      invariant kept == Without(users[..i], id)
    {
      assert users[..i + 1][..i] == users[..i];
      if users[i].id != id {
        kept := kept + [users[i]];
      }
    }
    assert users[..|users|] == users;
  }

  /** Finds the first participant with that id and, when there is one, applies the edit to it. */
  method Update(users: seq<UserData>, id: int, e: Edit) returns (updated: seq<UserData>)
    ensures updated == UpdateFirst(users, id, e)
  {
    var i := 0;
    while i < |users| && users[i].id != id
      invariant 0 <= i <= |users|
      invariant forall j :: 0 <= j < i ==> users[j].id != id
    {
      i := i + 1;
    }
    if i < |users| {
      updated := users[i := Edited(users[i], e)];
    } else {
      updated := users;
    }
  }

  /** Clears every participant's vote and edited flag, one at a time. */
  method ClearAll(users: seq<UserData>) returns (cleared: seq<UserData>)
    ensures cleared == ClearVotes(users)
  {
    cleared := users;
    for i := 0 to |users|
      invariant |cleared| == |users|
      invariant forall j :: 0 <= j < i ==> cleared[j] == Cleared(users[j])
      invariant forall j :: i <= j < |users| ==> cleared[j] == users[j]
    {
      cleared := cleared[i := Cleared(cleared[i])];
    }
  }

  class CurrentUser {
    var id: int
    /** Derived from the page's mode parameter; fixed for the life of the page. */
    const spectator: bool
    var name: seq<byte>
    var hero: int
    var choice: Choice
    var edited: bool
    const net: NetworkClient?
    const room: RoomData?

    /** The client sends through the same room record the user reads. */
    predicate Valid()
    {
      net != null ==> room == net.room
    }

    /**
     * new CurrentUser(net, room), with the name and hero found in storage
     * (None when there is none) and the roll Math.floor(Math.random() * 11.99).
     */
    constructor (net: NetworkClient?, room: RoomData?, spectator: bool,
                 storedName: Option<seq<byte>>, storedHero: Option<int>, roll: nat)
      requires net != null ==> room == net.room
      requires roll < 12
      ensures Valid() && this.net == net && this.room == room && this.spectator == spectator
      ensures id == 0 && choice == NoChoice && !edited
      ensures name == (if storedName.Some? then storedName.value else UnknownHero)
      ensures hero == (if storedHero.Some? then storedHero.value else roll)
    {
      this.net := net;
      this.room := room;
      this.spectator := spectator;
      id := 0;
      choice := NoChoice;
      edited := false;
      name := if storedName.Some? then storedName.value else UnknownHero;
      hero := if storedHero.Some? then storedHero.value else roll;
    }

    /** toUserData(). */
    function ToUserData(): (u: UserData)
      reads this
      ensures u.id == id && u.name == name && u.hero == hero
      ensures u.choice == choice && u.spectator == spectator && u.edited == edited
    {
      UserData(id, name, hero, choice, spectator, edited)
    }

    /** The choice setter. */
    method SetChoice(c: Choice)
      requires Valid()
      modifies this, net, room
      ensures room == null ==> choice == old(choice) && edited == old(edited)
      ensures room != null ==>
        var v := Chosen(old(room.revealed), old(choice), old(edited), c);
        choice == v.choice && edited == v.edited &&
        (net != null ==>
          (net.Status(), room.connected) ==
            if v.announce then AfterSend(old(net.Status()), old(room.connected), UpdateChoice(v.choice))
            else (old(net.Status()), old(room.connected)))
      ensures room != null && net == null ==> room.connected == old(room.connected)
      ensures room != null ==> Unmoved(room)
      ensures net != null ==> net.user == old(net.user)
      ensures id == old(id) && name == old(name) && hero == old(hero)
    {
      if room == null {
        return;
      }
      if !room.revealed && StrictEquals(choice, c) {
        choice := NoChoice;
      } else if room.revealed && StrictEquals(choice, c) {
        return;
      } else {
        edited := room.revealed;
        choice := c;
      }
      if net != null {
        net.Send(UpdateChoice(choice));
      }
    }

    /** The room fields other than connected are as they were. */
    twostate predicate Unmoved(room: RoomData)
      reads room
    {
      && room.quest == old(room.quest) && room.roomType == old(room.roomType) && room.revealed == old(room.revealed)
      && room.otherUsers == old(room.otherUsers) && room.spectators == old(room.spectators)
    }

    /** The name setter; storing the name in the browser is left out. */
    method SetName(newName: seq<byte>)
      requires Valid()
      modifies this, net, room
      ensures ToUserData() == old(ToUserData()).(name := newName)
      ensures net != null ==>
        (net.Status(), net.room.connected) == AfterSend(old(net.Status()), old(net.room.connected), UpdateName(newName))
      ensures net != null ==> net.user == old(net.user) && Unmoved(net.room)
      ensures net == null && room != null ==> room.connected == old(room.connected) && Unmoved(room)
    {
      name := newName;
      if net != null {
        net.Send(UpdateName(name));
      }
    }

    /** The hero setter; storing the hero in the browser is left out. */
    method SetHero(newHero: int)
      requires Valid()
      modifies this, net, room
      ensures ToUserData() == old(ToUserData()).(hero := newHero)
      ensures net != null ==>
        (net.Status(), net.room.connected) == AfterSend(old(net.Status()), old(net.room.connected), UpdateHero(newHero))
      ensures net != null ==> net.user == old(net.user) && Unmoved(net.room)
      ensures net == null && room != null ==> room.connected == old(room.connected) && Unmoved(room)
    {
      hero := newHero;
      if net != null {
        net.Send(UpdateHero(hero));
      }
    }

    /** cycleHero(dir): the next or previous of 32 heroes, set through the hero setter. */
    method CycleHero(dir: int)
      requires Valid() && (dir == 1 || dir == -1)
      modifies this, net, room
      ensures ToUserData() == old(ToUserData()).(hero := Cycled(old(hero), dir))
      ensures net != null ==>
        (net.Status(), net.room.connected) == AfterSend(old(net.Status()), old(net.room.connected), UpdateHero(Cycled(old(hero), dir)))
      ensures net != null ==> net.user == old(net.user) && Unmoved(net.room)
      ensures net == null && room != null ==> room.connected == old(room.connected) && Unmoved(room)
    {
      SetHero(Cycled(hero, dir));
    }

    /** resetChoice(): no vote, not edited, nothing sent. */
    method ResetChoice()
      modifies this
      ensures ToUserData() == old(ToUserData()).(choice := NoChoice, edited := false)
    {
      choice := NoChoice;
      edited := false;
    }
  }
}
