/**
 * What the client reads out of a message from the server: the reads the
 * onmessage handler of NetworkClient (src/lib/network.ts) makes for each
 * message type, collected into one value. ParseInbound says what they return
 * for a buffer; ReadInbound performs them with a MessageReader.
 *
 * Every field the handler reads stays inside one byte: the header fields sit
 * in the first two bytes, the quest fills the third, and the arrays of a Sync
 * hold 4-, 1- and 2-bit entries starting on a byte boundary.
 */
module Receive {
  import opened Bits
  import opened BitStream
  import opened Types
  import opened Codec
  import opened Protocol

  /** An incoming message, as onmessage reads it. */
  datatype Inbound =
    | Poked(poker: nat, target: nat, pokedWith: seq<byte>)
    | UserConnected(user: UserData)
    | UserDisconnected(gone: nat)
    | UserChoice(chooser: nat, vote: Choice)
    | UserName(renamed: nat, newName: seq<byte>)
    | UserHero(changed: nat, newHero: nat)
    | UserSpectator(watcher: nat, watching: bool)
    | Revealed
    | RoomReset(nextType: RoomType)
    | Synced(self: nat, kind: RoomType, shown: bool, quest: nat, users: seq<UserData>)
    | Other(code: nat)

  /** The message a buffer holds, by its 4-bit type. */
  function ParseInbound(buf: seq<byte>): (r: Inbound)
    ensures r.Other? <==> ReadBitsAt(buf, 0, 4) in {JoinMsg, NotImplementedMsg, Reserved1Msg, Reserved2Msg, PingMsg, PongMsg}
    ensures r.Other? ==> r.code == ReadBitsAt(buf, 0, 4)
    ensures r.Synced? <==> ReadBitsAt(buf, 0, 4) == SyncMsg
    ensures r.UserConnected? ==> !r.user.edited && 0 <= r.user.id < 16 && 0 <= r.user.hero < 16
  {
    var t := ReadBitsAt(buf, 0, 4);
    if t == PokeMsg then
      Poked(ReadBitsAt(buf, 4, 4), ReadBitsAt(buf, 8, 4), StringAt(buf, 12).value)
    else if t == UserConnectedMsg then
      ParseConnected(buf)
    else if t == UserDisconnectedMsg then
      UserDisconnected(ReadBitsAt(buf, 4, 4))
    else if t == UpdateUserChoiceMsg then
      UserChoice(ReadBitsAt(buf, 4, 4), ChoiceAt(buf, 8, None).value)
    else if t == UpdateUserNameMsg then
      UserName(ReadBitsAt(buf, 4, 4), StringAt(buf, 8).value)
    else if t == UpdateUserHeroMsg then
      UserHero(ReadBitsAt(buf, 4, 4), ReadBitsAt(buf, 8, 4))
    else if t == UpdateUserSpectatorMsg then
      UserSpectator(ReadBitsAt(buf, 4, 4), ReadBitsAt(buf, 8, 1) != 0)
    else if t == RevealMsg then
      Revealed
    else if t == ResetRoomMsg then
      RoomReset(RoomTypeOf(ReadBitsAt(buf, 4, 1)))
    else if t == SyncMsg then
      ParseSync(buf, 4)
    else
      Other(t)
  }

  /** A new participant: id, hero, spectator flag, vote and name; not edited. */
  function ParseConnected(buf: seq<byte>): (r: Inbound)
    ensures r.UserConnected? && !r.user.edited
    ensures 0 <= r.user.id < 16 && 0 <= r.user.hero < 16
  {
    var ch := ChoiceAt(buf, 13, None);
    var name := StringAt(buf, ch.next);
    UserConnected(UserData(ReadBitsAt(buf, 4, 4), name.value, ReadBitsAt(buf, 8, 4), ch.value, ReadBitsAt(buf, 12, 1) != 0, false))
  }

  /** The columns of a Sync, one entry per participant. */
  datatype Columns = Columns(
    ids: seq<nat>, heroes: seq<nat>, spectators: seq<nat>, edited: seq<nat>,
    choices: seq<Choice>, names: seq<seq<byte>>)

  /** The columns of a Sync with n participants from cursor c on: each array follows the last. */
  function SyncArrays(buf: seq<byte>, c: nat, n: nat): (r: Columns)
    ensures ColumnsOf(r, n)
  {
    var tags := BitsArrayAt(buf, c + 10 * n, 2, n);
    var choices := ChoicesAt(buf, ChoicesStart(c, n), tags);
    Columns(
      BitsArrayAt(buf, c, 4, n),
      BitsArrayAt(buf, c + 4 * n, 4, n),
      BitsArrayAt(buf, c + 8 * n, 1, n),
      BitsArrayAt(buf, c + 9 * n, 1, n),
      choices.value,
      StringsAt(buf, choices.next, n).value)
  }

  /** Where the choices of a Sync start: after 4 + 4 + 1 + 1 + 2 bits per participant. */
  function ChoicesStart(c: nat, n: nat): nat
  {
    c + 12 * n
  }

  predicate ColumnsOf(cols: Columns, n: nat)
  {
    && |cols.ids| == n && |cols.heroes| == n && |cols.spectators| == n
    && |cols.edited| == n && |cols.choices| == n && |cols.names| == n
  }

  /** Participant i of the columns. */
  function Row(cols: Columns, i: nat): UserData
    requires i < |cols.ids| && i < |cols.heroes| && i < |cols.spectators|
    requires i < |cols.edited| && i < |cols.choices| && i < |cols.names|
  {
    UserData(cols.ids[i], cols.names[i], cols.heroes[i], cols.choices[i], cols.spectators[i] != 0, cols.edited[i] != 0)
  }

  /** The participants of a Sync, assembled row by row from its columns. */
  function Rows(cols: Columns, n: nat): (r: seq<UserData>)
    requires ColumnsOf(cols, n)
    ensures |r| == n
    ensures forall i :: 0 <= i < n ==> r[i] == Row(cols, i)
  {
    seq(n, i requires 0 <= i < n => Row(cols, i))
  }

  /**
   * A Sync whose body starts at cursor c (4, after the type): the local id,
   * room type, revealed flag, participant count and quest, then the columns.
   */
  function ParseSync(buf: seq<byte>, c: nat): (r: Inbound)
    ensures r.Synced? && |r.users| == ReadBitsAt(buf, c + 6, 6)
    ensures forall i :: 0 <= i < |r.users| ==> r.users[i] == Row(SyncArrays(buf, c + 20, |r.users|), i)
  {
    var n := ReadBitsAt(buf, c + 6, 6);
    var cols := SyncArrays(buf, c + 20, n);
    Synced(ReadBitsAt(buf, c, 4), RoomTypeOf(ReadBitsAt(buf, c + 4, 1)), ReadBitsAt(buf, c + 5, 1) != 0,
           ReadBitsAt(buf, c + 12, 8), Rows(cols, n))
  }

  // ---------------------------------------------------------------------
  // Reading

  /** The reads onmessage makes, from a fresh reader over the received bytes. */
  method ReadInbound(data: seq<byte>) returns (m: Inbound)
    ensures m == ParseInbound(data)
  {
    var r := new MessageReader(data);
    var t := r.ReadBits(4);
    if t == PokeMsg {
      var poker := r.ReadBits(4);
      var poked := r.ReadBits(4);
      var pokedWith := r.ReadString();
      m := Poked(poker, poked, pokedWith);
    } else if t == UserConnectedMsg {
      m := ReadConnected(r);
    } else if t == UserDisconnectedMsg {
      var id := r.ReadBits(4);
      m := UserDisconnected(id);
    } else if t == UpdateUserChoiceMsg {
      var id := r.ReadBits(4);
      var ch := ReadChoice(r, None);
      m := UserChoice(id, ch);
    } else if t == UpdateUserNameMsg {
      var id := r.ReadBits(4);
      var name := r.ReadString();
      m := UserName(id, name);
    } else if t == UpdateUserHeroMsg {
      var id := r.ReadBits(4);
      var hero := r.ReadBits(4);
      m := UserHero(id, hero);
    } else if t == UpdateUserSpectatorMsg {
      var id := r.ReadBits(4);
      var flag := r.ReadBits(1);
      m := UserSpectator(id, flag != 0);
    } else if t == RevealMsg {
      m := Revealed;
    } else if t == ResetRoomMsg {
      var rt := r.ReadBits(1);
      m := RoomReset(RoomTypeOf(rt));
    } else if t == SyncMsg {
      m := ReadSync(r, 4);
    } else {
      m := Other(t);
    }
  }

  /** UserConnected: the fields of the pushed object, in the order they are written. */
  method ReadConnected(r: MessageReader) returns (m: Inbound)
    requires r.Valid() && r.Cursor() == 4
    modifies r
    ensures m == ParseConnected(r.buf)
  {
    var id := r.ReadBits(4);
    var hero := r.ReadBits(4);
    var spectator := r.ReadBits(1);
    var ch := ReadChoice(r, None);
    var name := r.ReadString();
    m := UserConnected(UserData(id, name, hero, ch, spectator != 0, false));
  }

  /** Sync: the header, the columns, and the participants built from them. */
  method ReadSync(r: MessageReader, ghost c: nat) returns (m: Inbound)
    requires r.Valid() && r.Cursor() == c
    modifies r
    ensures m == ParseSync(r.buf, c)
  {
    var id, roomType, revealed, userCount, quest := ReadSyncHeader(r, c);
    var cols := ReadColumns(r, userCount, c + 20);
    var otherUsers := BuildUsers(cols, userCount);
    m := Synced(id, RoomTypeOf(roomType), revealed != 0, quest, otherUsers);
    SyncFrom(r.buf, c, id, roomType, revealed, userCount, quest, otherUsers);
  }

  /** The local id, room type, revealed flag, participant count and quest of a Sync. */
  method ReadSyncHeader(r: MessageReader, ghost c: nat) returns (id: nat, kind: nat, shown: nat, n: nat, quest: nat)
    requires r.Valid() && r.Cursor() == c
    modifies r
    ensures r.Valid() && r.Cursor() == c + 20
    ensures id == ReadBitsAt(r.buf, c, 4) && kind == ReadBitsAt(r.buf, c + 4, 1) && shown == ReadBitsAt(r.buf, c + 5, 1)
    ensures n == ReadBitsAt(r.buf, c + 6, 6) && quest == ReadBitsAt(r.buf, c + 12, 8)
  {
    id, kind, shown := ReadSyncFlags(r, c);
    n, quest := ReadSyncCounts(r, c + 6);
  }

  /** The local id, the room type and the revealed flag: the first six bits of a Sync body. */
  method ReadSyncFlags(r: MessageReader, ghost c: nat) returns (id: nat, kind: nat, shown: nat)
    requires r.Valid() && r.Cursor() == c
    modifies r
    ensures r.Valid() && r.Cursor() == c + 6
    ensures id == ReadBitsAt(r.buf, c, 4) && kind == ReadBitsAt(r.buf, c + 4, 1) && shown == ReadBitsAt(r.buf, c + 5, 1)
  {
    id := r.ReadBits(4);
    kind := r.ReadBits(1);
    shown := r.ReadBits(1);
  }

  /** The participant count and the quest, which follow the flags. */
  method ReadSyncCounts(r: MessageReader, ghost c: nat) returns (n: nat, quest: nat)
    requires r.Valid() && r.Cursor() == c
    modifies r
    ensures r.Valid() && r.Cursor() == c + 14
    ensures n == ReadBitsAt(r.buf, c, 6) && quest == ReadBitsAt(r.buf, c + 6, 8)
  {
    n := r.ReadBits(6);
    quest := r.ReadBits(8);
  }

  /** A Sync assembled from the values at its five header positions and its columns is ParseSync. */
  lemma SyncFrom(buf: seq<byte>, c: nat, id: nat, kind: nat, shown: nat, n: nat, quest: nat, users: seq<UserData>)
    requires id == ReadBitsAt(buf, c, 4) && kind == ReadBitsAt(buf, c + 4, 1) && shown == ReadBitsAt(buf, c + 5, 1)
    requires n == ReadBitsAt(buf, c + 6, 6) && quest == ReadBitsAt(buf, c + 12, 8)
    requires users == Rows(SyncArrays(buf, c + 20, n), n)
    ensures ParseSync(buf, c) == Synced(id, RoomTypeOf(kind), shown != 0, quest, users)
  {
  }

  /** The participant records, pushed one per index from the columns. */
  method BuildUsers(cols: Columns, n: nat) returns (users: seq<UserData>)
    requires ColumnsOf(cols, n)
    ensures users == Rows(cols, n)
  {
    users := [];
    for i := 0 to n
      invariant |users| == i
      invariant forall j :: 0 <= j < i ==> users[j] == Row(cols, j)
    {
      users := users + [Row(cols, i)];
    }
  }

  /** The six columns of a Sync with n participants, read in order from cursor c. */
  method ReadColumns(r: MessageReader, n: nat, ghost c: nat) returns (cols: Columns)
    requires r.Valid() && r.Cursor() == c
    modifies r
    ensures cols == SyncArrays(r.buf, c, n) && ColumnsOf(cols, n)
  {
    var userIds, heroes, spectatorFlags, editedFlags, choiceTypes := ReadNumberColumns(r, n, c);
    var choices, names := ReadTail(r, choiceTypes, n, ChoicesStart(c, n));
    cols := Columns(userIds, heroes, spectatorFlags, editedFlags, choices, names);
    ColumnsAt(r.buf, c, n, cols, choiceTypes);
  }

  /** The variable-width columns from cursor c: one choice per tag, then n names. */
  method ReadTail(r: MessageReader, tags: seq<nat>, n: nat, ghost c: nat) returns (choices: seq<Choice>, names: seq<seq<byte>>)
    requires r.Valid() && r.Cursor() == c
    modifies r
    ensures choices == ChoicesAt(r.buf, c, tags).value
    ensures names == StringsAt(r.buf, ChoicesAt(r.buf, c, tags).next, n).value
  {
    choices := ReadChoices(r, tags, c);
    names := ReadNames(r, n, r.Cursor());
  }

  /** Columns read one after another from cursor c are the columns SyncArrays describes. */
  lemma ColumnsAt(buf: seq<byte>, c: nat, n: nat, cols: Columns, tags: seq<nat>)
    requires cols.ids == BitsArrayAt(buf, c, 4, n) && cols.heroes == BitsArrayAt(buf, c + 4 * n, 4, n)
    requires cols.spectators == BitsArrayAt(buf, c + 8 * n, 1, n) && cols.edited == BitsArrayAt(buf, c + 9 * n, 1, n)
    requires tags == BitsArrayAt(buf, c + 10 * n, 2, n)
    requires cols.choices == ChoicesAt(buf, ChoicesStart(c, n), tags).value
    requires cols.names == StringsAt(buf, ChoicesAt(buf, ChoicesStart(c, n), tags).next, n).value
    ensures cols == SyncArrays(buf, c, n) && ColumnsOf(cols, n)
  {
  }

  /** The five fixed-width columns: ids, heroes, spectator and edited flags, choice tags. */
  method ReadNumberColumns(r: MessageReader, n: nat, ghost c: nat)
    returns (userIds: seq<nat>, heroes: seq<nat>, spectatorFlags: seq<nat>, editedFlags: seq<nat>, choiceTypes: seq<nat>)
    requires r.Valid() && r.Cursor() == c
    modifies r
    ensures r.Valid() && r.Cursor() == c + 12 * n
    ensures userIds == BitsArrayAt(r.buf, c, 4, n) && heroes == BitsArrayAt(r.buf, c + 4 * n, 4, n)
    ensures spectatorFlags == BitsArrayAt(r.buf, c + 8 * n, 1, n) && editedFlags == BitsArrayAt(r.buf, c + 9 * n, 1, n)
    ensures choiceTypes == BitsArrayAt(r.buf, c + 10 * n, 2, n)
  {
    userIds := ReadColumn(r, 4, n, c);
    heroes := ReadColumn(r, 4, n, c + 4 * n);
    spectatorFlags := ReadColumn(r, 1, n, c + 8 * n);
    editedFlags := ReadColumn(r, 1, n, c + 9 * n);
    choiceTypes := ReadColumn(r, 2, n, c + 10 * n);
  }

  /** readBitsArray(num, n) from cursor c. */
  method ReadColumn(r: MessageReader, num: nat, n: nat, ghost c: nat) returns (xs: seq<nat>)
    requires r.Valid() && r.Cursor() == c && num <= 8
    modifies r
    ensures r.Valid() && r.Cursor() == c + num * n
    ensures xs == BitsArrayAt(r.buf, c, num, n)
  {
    xs := r.ReadBitsArray(num, n);
  }

  /** readStringArray(n) from cursor c. */
  method ReadNames(r: MessageReader, n: nat, ghost c: nat) returns (names: seq<seq<byte>>)
    requires r.Valid() && r.Cursor() == c
    modifies r
    ensures names == StringsAt(r.buf, c, n).value
  {
    names := r.ReadStringArray(n);
  }

  /** One readChoice per participant, each with the tag sent for it. */
  method ReadChoices(r: MessageReader, tags: seq<nat>, ghost c: nat) returns (choices: seq<Choice>)
    requires r.Valid() && r.Cursor() == c
    modifies r
    ensures r.Valid() && r.Cursor() == ChoicesAt(r.buf, c, tags).next
    ensures choices == ChoicesAt(r.buf, c, tags).value
  {
    ghost var whole := ChoicesAt(r.buf, r.Cursor(), tags);
    choices := [];
    for i := 0 to |tags|
      invariant r.Valid()
      invariant whole.value == choices + ChoicesAt(r.buf, r.Cursor(), tags[i..]).value
      invariant whole.next == ChoicesAt(r.buf, r.Cursor(), tags[i..]).next
    {
      ghost var c := r.Cursor();
      var ch := ReadChoice(r, Some(tags[i]));
      ChoicesStep(r.buf, c, tags[i..], ch, r.Cursor(), choices);
      assert tags[i..][1..] == tags[i + 1..];
      choices := choices + [ch];
    }
    assert choices + [] == choices;
  }

  /** Reading the choices for tags is reading the first and then the rest. */
  lemma ChoicesStep(buf: seq<byte>, c: nat, tags: seq<nat>, ch: Choice, c': nat, prefix: seq<Choice>)
    requires tags != [] && ChoiceAt(buf, c, Some(tags[0])) == Parsed(ch, c')
    ensures prefix + ChoicesAt(buf, c, tags).value == prefix + [ch] + ChoicesAt(buf, c', tags[1..]).value
    ensures ChoicesAt(buf, c, tags).next == ChoicesAt(buf, c', tags[1..]).next
  {
    assert ChoicesAt(buf, c, tags).value == [ch] + ChoicesAt(buf, c', tags[1..]).value;
    assert prefix + ([ch] + ChoicesAt(buf, c', tags[1..]).value) == prefix + [ch] + ChoicesAt(buf, c', tags[1..]).value;
  }
}
