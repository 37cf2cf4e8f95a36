/**
 * What an incoming message does to what the client shows: the shared room
 * record (type RoomData, src/lib/app.svelte.ts) together with the local
 * user's id, vote and edited flag. The onmessage handler of NetworkClient
 * (src/lib/network.ts) changes these in place; Apply states the outcome as a
 * value, and the Client module performs it step by step against it.
 */
module RoomView {
  import opened Bits
  import opened Codec
  import opened Types
  import opened Receive

  /** The room record and the local user's fields that onmessage writes. */
  datatype View = View(
    connected: bool,
    quest: int,
    roomType: RoomType,
    revealed: bool,
    others: seq<UserData>,
    spectators: seq<UserData>,
    selfId: int,
    choice: Choice,
    edited: bool)

  // ---------------------------------------------------------------------
  // The array operations onmessage uses on room.otherUsers

  /** The participants whose id differs from id, in their order: the filter of a disconnect. */
  function Without(users: seq<UserData>, id: int): (r: seq<UserData>)
    ensures |r| <= |users|
  {
    if users == [] then []
    else
      var last := users[|users| - 1];
      Without(users[..|users| - 1], id) + (if last.id != id then [last] else [])
  }

  /** The index of the first participant with that id, or -1 when no participant has it. */
  function FirstWith(users: seq<UserData>, id: int): (r: int)
    ensures -1 <= r < |users|
    ensures r >= 0 ==> users[r].id == id && forall j :: 0 <= j < r ==> users[j].id != id
    ensures r == -1 ==> forall j :: 0 <= j < |users| ==> users[j].id != id
  {
    if users == [] then -1
    else if users[0].id == id then 0
    else
      var k := FirstWith(users[1..], id);
      if k == -1 then -1 else k + 1
  }

  /** The one field an Update* message assigns on the participant it finds. */
  datatype Edit =
    | SetVote(vote: Choice, editedTo: bool)
    | SetName(newName: seq<byte>)
    | SetHero(newHero: int)
    | SetSpectator(watching: bool)

  function Edited(u: UserData, e: Edit): UserData
  {
    match e
    case SetVote(ch, ed) => u.(choice := ch, edited := ed)
    case SetName(name) => u.(name := name)
    case SetHero(h) => u.(hero := h)
    case SetSpectator(s) => u.(spectator := s)
  }

  /** Assigning through the object find returned: only the first match changes. */
  function UpdateFirst(users: seq<UserData>, id: int, e: Edit): seq<UserData>
  {
    var k := FirstWith(users, id);
    if k == -1 then users else users[k := Edited(users[k], e)]
  }

  /** A participant after the forEach of ResetRoom: no vote, not edited. */
  function Cleared(u: UserData): UserData
  {
    u.(choice := NoChoice, edited := false)
  }

  /** Every participant with no vote and not edited: the loop of a reset. */
  function ClearVotes(users: seq<UserData>): (r: seq<UserData>)
    ensures |r| == |users|
    ensures forall i :: 0 <= i < |users| ==> r[i] == Cleared(users[i])
  {
    seq(|users|, i requires 0 <= i < |users| => Cleared(users[i]))
  }

  // ---------------------------------------------------------------------
  // The handler

  /**
   * The view after onmessage has handled m. No message touches the spectator
   * list; only a sync changes the local id or marks the room connected; only
   * a reset clears the local vote; at most one participant joins at a time.
   */
  function Apply(v: View, m: Inbound): (r: View)
    ensures r.spectators == v.spectators
    ensures !m.Synced? ==> r.selfId == v.selfId && r.connected == v.connected
    ensures !m.RoomReset? ==> r.choice == v.choice && r.edited == v.edited
    ensures !m.Synced? ==> |r.others| <= |v.others| + 1
    ensures m.UserConnected? <==> !m.Synced? && |r.others| == |v.others| + 1
  {
    match m
    case Poked(_, _, _) => v
    case UserConnected(u) => v.(others := v.others + [u])
    case UserDisconnected(id) => v.(others := Without(v.others, id))
    case UserChoice(id, ch) => v.(others := UpdateFirst(v.others, id, SetVote(ch, v.revealed)))
    case UserName(id, name) => v.(others := UpdateFirst(v.others, id, SetName(name)))
    case UserHero(id, h) => v.(others := UpdateFirst(v.others, id, SetHero(h)))
    case UserSpectator(id, s) => v.(others := UpdateFirst(v.others, id, SetSpectator(s)))
    case Revealed => v.(revealed := true)
    case RoomReset(rt) =>
      v.(quest := v.quest + 1, roomType := rt, revealed := false, choice := NoChoice, edited := false,
         others := ClearVotes(v.others))
    case Synced(self, kind, shown, quest, users) =>
      v.(selfId := self, roomType := kind, revealed := shown, quest := quest, others := users, connected := true)
    case Other(_) => v
  }

  /** The participant an Update* message names, and the edit it makes in view v. */
  predicate IsUpdate(m: Inbound)
  {
    m.UserChoice? || m.UserName? || m.UserHero? || m.UserSpectator?
  }

  function UpdateTarget(m: Inbound): int
    requires IsUpdate(m)
  {
    match m
    case UserChoice(id, _) => id
    case UserName(id, _) => id
    case UserHero(id, _) => id
    case UserSpectator(id, _) => id
  }

  function UpdateEdit(v: View, m: Inbound): Edit
    requires IsUpdate(m)
  {
    match m
    case UserChoice(_, ch) => SetVote(ch, v.revealed)
    case UserName(_, name) => SetName(name)
    case UserHero(_, h) => SetHero(h)
    case UserSpectator(_, s) => SetSpectator(s)
  }

  // ---------------------------------------------------------------------
  // Properties of the array operations

  /** filter keeps exactly the participants with another id, each as often as before. */
  lemma {:induction false} WithoutExactly(users: seq<UserData>, id: int)
    ensures forall u :: multiset(Without(users, id))[u] == if u.id == id then 0 else multiset(users)[u]
  {
    if users != [] {
      var init := users[..|users| - 1];
      var last := users[|users| - 1];
      WithoutExactly(init, id);
      assert users == init + [last];
      assert multiset(users) == multiset(init) + multiset([last]);
    }
  }

  /** No participant keeps the removed id. */
  lemma WithoutRemoves(users: seq<UserData>, id: int)
    ensures forall u :: u in Without(users, id) <==> u in users && u.id != id
  {
    WithoutExactly(users, id);
    forall u
      ensures u in Without(users, id) <==> u in users && u.id != id
    {
      assert u in Without(users, id) <==> multiset(Without(users, id))[u] > 0;
      assert u in users <==> multiset(users)[u] > 0;
    }
  }

  /** Removing an id that nobody has changes nothing. */
  lemma {:induction false} WithoutAbsent(users: seq<UserData>, id: int)
    requires forall j :: 0 <= j < |users| ==> users[j].id != id
    ensures Without(users, id) == users
  {
    if users != [] {
      var init := users[..|users| - 1];
      WithoutAbsent(init, id);
      assert init + [users[|users| - 1]] == users;
    }
  }

  /** A participant who connects and then disconnects leaves the list as a disconnect alone would. */
  lemma ConnectThenDisconnect(users: seq<UserData>, u: UserData)
    ensures Without(users + [u], u.id) == Without(users, u.id)
  {
    assert (users + [u])[..|users + [u]| - 1] == users;
  }

  /**
   * An Update* changes at most one participant, the first with the named id;
   * everyone else, and every participant with another id, stays as they were.
   */
  lemma UpdateTouchesOne(users: seq<UserData>, id: int, e: Edit)
    ensures |UpdateFirst(users, id, e)| == |users|
    ensures forall j :: 0 <= j < |users| && users[j].id != id ==> UpdateFirst(users, id, e)[j] == users[j]
    ensures forall i, j :: 0 <= i < j < |users| && UpdateFirst(users, id, e)[i] != users[i] ==> UpdateFirst(users, id, e)[j] == users[j]
    ensures (forall j :: 0 <= j < |users| ==> users[j].id != id) ==> UpdateFirst(users, id, e) == users
  {
  }

  /** The changed participant keeps its id and gets exactly the edit. */
  lemma UpdateHitsFirst(users: seq<UserData>, id: int, e: Edit, k: nat)
    requires k < |users| && users[k].id == id && forall j :: 0 <= j < k ==> users[j].id != id
    ensures UpdateFirst(users, id, e)[k] == Edited(users[k], e)
    ensures UpdateFirst(users, id, e)[k].id == id
  {
    assert FirstWith(users, id) == k;
  }

  // ---------------------------------------------------------------------
  // Properties of Apply

  /** Sync replaces the room: what it leaves is independent of the room before. */
  lemma SyncReplaces(v: View, w: View, m: Inbound)
    requires m.Synced?
    requires v.spectators == w.spectators && v.choice == w.choice && v.edited == w.edited
    ensures Apply(v, m) == Apply(w, m)
    ensures Apply(v, m).connected && Apply(v, m).others == m.users && Apply(v, m).selfId == m.self
  {
  }

  /**
   * A Sync brings exactly count participants, assembled index-wise from its
   * columns; ParseInbound reads the Sync body from cursor 4.
   */
  lemma SyncParticipants(v: View, buf: seq<byte>, c: nat)
    ensures var r := Apply(v, ParseSync(buf, c));
            |r.others| == ReadBitsAt(buf, c + 6, 6) &&
            forall i :: 0 <= i < |r.others| ==> r.others[i] == Row(SyncArrays(buf, c + 20, |r.others|), i)
  {
    SyncReplaces(v, v, ParseSync(buf, c));
  }

  /** A disconnect removes exactly the entries with that id, and nothing else changes. */
  lemma DisconnectRemoves(v: View, id: nat)
    ensures Apply(v, UserDisconnected(id)) == v.(others := Without(v.others, id))
    ensures forall u :: u in Apply(v, UserDisconnected(id)).others <==> u in v.others && u.id != id
  {
    WithoutRemoves(v.others, id);
  }

  /** An Update* for an id nobody has changes nothing at all. */
  lemma UpdateWithoutMatch(v: View, m: Inbound)
    requires IsUpdate(m) && forall j :: 0 <= j < |v.others| ==> v.others[j].id != UpdateTarget(m)
    ensures Apply(v, m) == v
  {
    UpdateTouchesOne(v.others, UpdateTarget(m), UpdateEdit(v, m));
  }

  /** An Update* changes only the participant list, and there only the first match. */
  lemma UpdateChangesOne(v: View, m: Inbound)
    requires IsUpdate(m)
    ensures Apply(v, m) == v.(others := UpdateFirst(v.others, UpdateTarget(m), UpdateEdit(v, m)))
    ensures forall j :: 0 <= j < |v.others| && v.others[j].id != UpdateTarget(m) ==> Apply(v, m).others[j] == v.others[j]
  {
    UpdateTouchesOne(v.others, UpdateTarget(m), UpdateEdit(v, m));
  }

  /** A vote that arrives after the reveal marks the voter as edited; one before does not. */
  lemma VoteMarksEdited(v: View, id: nat, ch: Choice, k: nat)
    requires k < |v.others| && v.others[k].id == id && forall j :: 0 <= j < k ==> v.others[j].id != id
    ensures Apply(v, UserChoice(id, ch)).others[k] == v.others[k].(choice := ch, edited := v.revealed)
  {
    UpdateHitsFirst(v.others, id, SetVote(ch, v.revealed), k);
  }

  /** Reveal sets only the flag, and revealing twice is revealing once. */
  lemma RevealOnce(v: View)
    ensures Apply(v, Revealed) == v.(revealed := true)
    ensures Apply(Apply(v, Revealed), Revealed) == Apply(v, Revealed)
  {
  }

  /** ResetRoom starts the next quest: one more, the sent type, hidden, and every vote cleared. */
  lemma ResetClears(v: View, rt: RoomType)
    ensures var r := Apply(v, RoomReset(rt));
            r.quest == v.quest + 1 && r.roomType == rt && !r.revealed &&
            r.choice == NoChoice && !r.edited && |r.others| == |v.others| &&
            forall i :: 0 <= i < |r.others| ==>
              r.others[i].choice == NoChoice && !r.others[i].edited &&
              r.others[i].(choice := v.others[i].choice, edited := v.others[i].edited) == v.others[i]
  {
  }
}
