/**
 * src/lib/app.svelte.ts: the page-wide `room` record, the NetworkClient
 * `net` and the `currentUser`, and the two room actions the page offers,
 * reveal and newQuest, together with poke.
 */
module App {
  import opened Bits
  import opened Types
  import opened Protocol
  import opened Client

  /** The three module-level objects of app.svelte.ts, wired to each other. */
  class Page {
    const room: RoomData
    const net: NetworkClient
    const user: CurrentUser

    /** The client sends through, and the user reads, the one room record; the client's user is this user. */
    predicate Valid()
      reads this, net
    {
      net.room == room && net.user == user && user.net == net && user.room == room
    }

    /** Module initialisation: the initial room, a client connecting to it, and the user. */
    constructor (roomId: seq<byte>, spectator: bool, storedName: Option<seq<byte>>, storedHero: Option<int>, roll: nat)
      requires roll < 12
      ensures Valid() && fresh(room) && fresh(net) && fresh(user)
      ensures !room.connected && room.quest == 0 && room.roomType == StoryPoints && !room.revealed
      ensures room.otherUsers == [] && room.spectators == []
      ensures net.Status() == Link(Connecting, 0, true, 0, []) && net.roomId == roomId
      ensures user.ToUserData() == UserData(0, if storedName.Some? then storedName.value else UnknownHero,
                                            if storedHero.Some? then storedHero.value else roll, NoChoice, spectator, false)
    {
      var r := new RoomData();
      var n := new NetworkClient(r, roomId);
      var u := new CurrentUser(n, r, spectator, storedName, storedHero, roll);
      n.user := u;
      room, net, user := r, n, u;
    }

    /** reveal(): the room is revealed before the Reveal message goes out. */
    method Reveal()
      requires Valid()
      modifies room, net
      ensures Valid() && room.revealed
      ensures (net.Status(), room.connected) == AfterSend(old(net.Status()), old(room.connected), Protocol.Reveal)
      ensures room.quest == old(room.quest) && room.roomType == old(room.roomType)
      ensures room.otherUsers == old(room.otherUsers) && room.spectators == old(room.spectators)
    {
      room.revealed := true;
      net.Send(Protocol.Reveal);
    }

    /**
     * newQuest(roomType?): the next quest, of the given type or story points,
     * hidden, the local vote withdrawn, and a ResetRoom carrying the new type.
     */
    method NewQuest(roomType: Option<RoomType>)
      requires Valid()
      modifies room, net, user
      ensures Valid()
      ensures room.quest == old(room.quest) + 1
      ensures room.roomType == (if roomType.Some? then roomType.value else StoryPoints)
      ensures !room.revealed
      ensures user.ToUserData() == old(user.ToUserData()).(choice := NoChoice, edited := false)
      ensures (net.Status(), room.connected) == AfterSend(old(net.Status()), old(room.connected), ResetRoom(room.roomType))
      ensures room.otherUsers == old(room.otherUsers) && room.spectators == old(room.spectators)
    {
      room.quest := room.quest + 1;
      room.roomType := if roomType.Some? then roomType.value else StoryPoints;
      room.revealed := false;
      user.ResetChoice();
      net.Send(ResetRoom(room.roomType));
    }

    /** poke(user, pokedWith): only a Poke message; nothing local changes. */
    method Poke(poked: int, pokedWith: seq<byte>)
      requires Valid()
      modifies room, net
      ensures Valid()
      ensures (net.Status(), room.connected) == AfterSend(old(net.Status()), old(room.connected), Protocol.Poke(poked, pokedWith))
      ensures room.quest == old(room.quest) && room.roomType == old(room.roomType) && room.revealed == old(room.revealed)
      ensures room.otherUsers == old(room.otherUsers) && room.spectators == old(room.spectators)
    {
      net.Send(Protocol.Poke(poked, pokedWith));
    }
  }
}
