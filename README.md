# Planning-poker protocol, modelled in Dafny

This project models the core of a planning-poker web application. Participants
join a room by its id, vote with a card (a number, a text, a pair of numbers or
nothing), and reveal the votes. The room then starts the next "quest" with
every vote cleared. The model has four parts.

- **The binary codec and message catalogue** of the browser client
  (`src/lib/network.ts`):
  - `MessageWriter` packs fields of a declared bit width into a zero-filled
    2024-byte buffer, low bit first within each byte, and writes strings
    byte-aligned and zero-terminated.
  - `MessageReader` reads them back.
  - `writeChoice`/`readChoice` encode a vote as a 2-bit tag plus a
    byte-aligned payload.
  - Each outbound message has a fixed layout behind a 4-bit type.
- **The client's handling of inbound messages.** `NetworkClient.onmessage`
  updates the shared room record and the local user in place. The client
  also tracks its reconnect counter and flag, and its sends.
- **The local user and the page actions** (`src/lib/CurrentUser.svelte.ts`,
  `src/lib/app.svelte.ts`): the vote setter's toggle rule, hero cycling,
  `resetChoice`, the initial room, `reveal`, `newQuest` and `poke`.
- **The JSON WebSocket server** (`socket.js`):
  - a map from room id to its clients, revealed flag, quest number and quest
    type;
  - per-connection fields the handlers write;
  - the join, reveal, newQuest, userUpdate, poke, ping and close handlers;
  - `getRoomData`, and `broadcast` recorded as an outbox of frames;
  - the heartbeat sweep over the alive flags.

  This server speaks JSON. It is modelled separately from the binary client,
  which it does not interoperate with.

Each mutable object of the source is a Dafny class whose methods are proved
against a specification function on values:

| Class | Proved against |
|---|---|
| `MessageWriter` | its written bit stream, `Written` |
| `MessageReader` | a cursor and the functions `ReadBitsAt`, `StringAt` and `ChoiceAt` |
| `NetworkClient` with `RoomData` and `CurrentUser` | `Link`, `AfterSend` and `RoomView.Apply` |
| `Page` | the same functions as `NetworkClient` |
| `Server.Server` | the functions of module `Registry` |

`RegistryLaws.Invariant` states how rooms and connections agree. Every
server handler keeps it. In particular, a room exists only while it has
clients.

Modules, one per file:

| Module | File | Contents |
|---|---|---|
| `Bits` | `bits.dfy` | JavaScript's `<<`, `>>`, `&` and `\|` on non-negative integers |
| `BitStream` | `bitstream.dfy` | Bit sequences and the bits of a byte buffer |
| `Types` | `types.dfy` | `Choice`, `RoomType`, `UserData` and `Option` |
| `Codec` | `codec.dfy` | The writer, the reader and the choice codec |
| `RoundTrip` | `roundtrip.dfy` | What comes back from written bytes |
| `Protocol` | `protocol.dfy` | The outbound messages and their round trip |
| `Receive` | `receive.dfy` | Parsing of inbound messages |
| `RoomView` | `roomview.dfy` | What an inbound message does to the view |
| `Client` | `client.dfy` | The client classes |
| `App` | `app.dfy` | The page |
| `Registry` and `RegistryLaws` | `registry.dfy` | The server as values, and its laws |
| `Server` | `server.dfy` | The server class |

The model keeps these behaviours of the code as written:

- **Straddling fields.** The reader does not mirror the writer for a field
  that crosses a byte boundary (see Findings). No message layout has such a
  field.
- **Reads past the end.** A read past the end of the buffer yields zero bits
  rather than an error.
- **Strings without a terminator.** `readString` with no terminator takes the
  bytes up to, but not including, the last byte, and moves the offset to 0.
- **`roomUpdate` after a change.** reveal, newQuest and userUpdate send a
  `roomUpdate` to every open client of the room, the sender included. Line
  149 of `socket.js` passes its sender filter in the data slot of `broadcast`.
- **Spectators.** No inbound message moves a participant into a separate
  spectator list. `UpdateUserSpectator` only sets the flag.
- **Room id `""`.** A connection that joined room `""` is never removed from
  it. The id is falsy, so its messages are dropped and its close handler
  returns early.

## Model

| member | source | states |
|---|---|---|
| Types.ChoiceTag | src/lib/network.ts:9-14 | Every choice has one of the four 2-bit ChoiceType tags (below 4) |
| Codec.MessageWriter.constructor | src/lib/network.ts:37-39 | A new writer has written nothing and its buffer is fresh |
| Codec.MessageWriter.WriteBits | src/lib/network.ts:41-65 | The written stream grows by exactly the low `num` bits of the value, low bit first; the buffer keeps every earlier bit and stays zero beyond |
| Codec.MessageWriter.AlignToByte | src/lib/network.ts:67-72 | The stream is padded with zero bits to the next byte boundary, and not at all when already aligned |
| Codec.AlignedAligned | src/lib/network.ts:67-72 | Aligning a stream already at a byte boundary adds nothing, so aligning twice is aligning once |
| Codec.MessageWriter.WriteString | src/lib/network.ts:74-80 | After aligning, the string's bytes and one zero byte are appended when they fit the buffer; otherwise only the alignment happens and the result reports the failure (the RangeError) |
| Codec.MessageWriter.Finalize | src/lib/network.ts:82-87 | Exactly `offset` bytes, or `offset + 1` with a partial byte, capped by the buffer; they carry every written bit |
| RoundTrip.FinalizeCarries | src/lib/network.ts:82-87 | Bytes from `finalize` carry the written stream bit for bit, zeros past its end |
| Codec.WriteChoice | src/lib/network.ts:90-107 | The tag, an alignment, then one byte, a string or two bytes; nothing after the tag for no choice |
| Codec.MessageReader.constructor | src/lib/network.ts:115-117 | A new reader is at cursor 0 of the given bytes |
| Codec.MessageReader.ReadBits | src/lib/network.ts:119-142 | The cursor advances by `num` and the result is `ReadBitsAt` at the old cursor |
| Codec.NoStraddle | src/lib/network.ts:129-134 | A field inside one byte reads as the field's own bits, low bit first |
| Codec.Straddle | src/lib/network.ts:124-128 | A field across a byte boundary reads as the first part shifted up by the width, plus the second part |
| Codec.ReadBitsAt | src/lib/network.ts:119-136 | A read of 0 bits is 0, and a read that stays inside one byte is an `n`-bit value |
| Codec.BitsArrayAt | src/lib/network.ts:144-150 | An array read of `len` fields has exactly `len` entries |
| Codec.MessageReader.ReadBitsArray | src/lib/network.ts:144-150 | `length` successive reads of width `num`; the cursor moves by `length * num` |
| Codec.MessageReader.AlignToByte | src/lib/network.ts:152-155 | The cursor moves to the next byte boundary and no bits are left buffered |
| Codec.NextZero | src/lib/network.ts:157-164 | The first zero byte at or after `i`, or -1 exactly when there is none |
| Codec.MessageReader.FindNextZeroTerminator | src/lib/network.ts:157-164 | The loop finds `NextZero` |
| Codec.Clamp | src/lib/network.ts:169 | `subarray`'s index rule: in-range indices stay, negative ones count from the end (0 when that is still negative), indices past the length become the length |
| Codec.Subarray | src/lib/network.ts:169 | `subarray(b, e)`: never longer than the buffer, the slice `b..e` for in-range indices, and in every case a run of the buffer starting at the resolved `b` |
| Codec.StringAt | src/lib/network.ts:166-172 | The string read has no zero byte; with a terminator it is the bytes from the aligned cursor up to it and the cursor moves past it; without one the offset becomes 0 |
| Codec.MessageReader.ReadString | src/lib/network.ts:166-172 | The result and the new cursor are `StringAt` the old cursor |
| Codec.StringsAt | src/lib/network.ts:174-180 | A string array read of `len` strings has exactly `len` entries |
| Codec.MessageReader.ReadStringArray | src/lib/network.ts:174-180 | The results and the new cursor are `StringsAt` the old cursor |
| Codec.ReadPayload | src/lib/network.ts:188-197 | The payload for a tag: one byte, a string, two bytes, or nothing for any other tag |
| Codec.ReadChoice | src/lib/network.ts:183-198 | The tag, read when not given, then an alignment and the payload, as `ChoiceAt` |
| Codec.ChoiceAt | src/lib/network.ts:183-198 | The choice read carries the tag it was read with; a tag of 4 or more gives no choice; numbers and pair entries are bytes |
| Codec.ChoicesAt | src/lib/network.ts:342-346 | One choice per given tag |
| RoundTrip.FieldsRoundTrip | src/lib/network.ts:41-65 | Writing in-byte fields and finalizing gives `ceil(width/8)` bytes, from which the same widths read back each value's low bits |
| RoundTrip.ReadFields | src/lib/network.ts:119-136 | From bytes carrying in-byte fields, reading the same widths returns the values' low bits |
| RoundTrip.ReadField | src/lib/network.ts:119-136 | One field of such a read comes back |
| RoundTrip.StringRoundTrip | src/lib/network.ts:166-172 | A zero-free string laid out at an aligned offset reads back exactly, and the cursor ends one byte past its terminator |
| RoundTrip.Delivered | src/lib/network.ts:90-107 | The choice a reader gets keeps the written tag; numbers and pairs below 256 and all texts come back unchanged |
| RoundTrip.TagRoundTrip | src/lib/network.ts:90-107 | The 2-bit tag reads back as written |
| RoundTrip.NumberRoundTrip | src/lib/network.ts:91-94 | A number choice reads back as its low byte, and the reader ends aligned after it |
| RoundTrip.PairRoundTrip | src/lib/network.ts:99-103 | A pair reads back as its two low bytes |
| RoundTrip.TextRoundTrip | src/lib/network.ts:95-98 | A zero-free text reads back unchanged |
| RoundTrip.ChoiceRoundTrip | src/lib/network.ts:90-107 | Every choice reads back as `Delivered`, with the cursor at the next byte boundary after what was written |
| RoundTrip.NoneNotAligned | src/lib/network.ts:104-106 | After no choice the writer stays inside the byte, while the reader moves to the next boundary |
| RoundTrip.IntendedReadBitsAt | src/lib/network.ts:119-136 | A reader that takes the low bits first, wherever the field starts; its result is below `2^n` |
| RoundTrip.IntendedRoundTrip | src/lib/network.ts:41-65 | With that reader, every written field reads back, whether or not it crosses a byte |
| RoundTrip.InByteAgrees | src/lib/network.ts:129-134 | The reader as written agrees with it on every field inside one byte |
| RoundTrip.StraddleMisread | src/lib/network.ts:125 | Writing 6 bits of 0 and 4 bits of 5 gives the bytes [64, 1], which read back as 0 and 17 rather than 5 |
| Protocol.TypeOf | src/lib/network.ts:16-33 | Each outbound message has its type code, below 16 |
| Protocol.Prefix | src/lib/network.ts:422 | `substring(0, 18)`: at most 18 bytes, a prefix, the whole string when shorter |
| Protocol.WithString | src/lib/network.ts:74-80 | A string field takes the alignment, 8 bits per byte and one terminator byte |
| Protocol.JoinHead | src/lib/network.ts:417-420 | The join header is 10 bits: type, hero, room type, spectator |
| Protocol.Layout | src/lib/network.ts:415-474 | Every message's bit stream opens with its 4-bit type |
| Protocol.Fits | src/lib/network.ts:74-80 | A message whose strings have at most 1000 bytes always fits the 2024-byte buffer |
| Protocol.Pack | src/lib/network.ts:82-87 | Finalized bytes: `ceil(bits/8)`, capped by the buffer, holding the bits |
| Protocol.PackCarries | src/lib/network.ts:82-87 | When the layout fits the buffer, the packed bytes carry it bit for bit |
| Protocol.WriteMessage | src/lib/network.ts:415-474 | Each `send*` callback writes exactly its message layout, or reports that a string did not fit |
| Protocol.WriteJoin | src/lib/network.ts:415-425 | The join callback writes hero, room type, spectator, choice, the first 18 bytes of the room id, and the name |
| Protocol.Encode | src/lib/network.ts:393-398 | A fresh writer, the callback and `finalize` give the packed layout exactly when the message fits |
| Protocol.Sent | src/lib/network.ts:415-474 | The message a decoder recovers keeps its type; each field is truncated to its width |
| Protocol.TypeBack | src/lib/network.ts:417 | The first four bits read back the type |
| Protocol.DecodeOutbound | src/lib/network.ts:243-251 | A message is decoded exactly when the 4-bit type read is one the client sends, and the message decoded has that type |
| Protocol.JoinHeadBack | src/lib/network.ts:417-420 | The join's hero (low 4 bits), room type and spectator flag read back |
| Protocol.JoinTailBack | src/lib/network.ts:421-423 | The join's choice, truncated room id and name read back in order |
| Protocol.JoinBack | src/lib/network.ts:415-425 | A join decodes to what `Sent` says |
| Protocol.FieldMessageBack | src/lib/network.ts:433-438 | ResetRoom, UpdateUserHero and UpdateUserSpectator decode to what `Sent` says |
| Protocol.StringMessageBack | src/lib/network.ts:440-452 | UpdateUserChoice, UpdateUserName and Poke decode to what `Sent` says, with zero-free strings |
| Protocol.DecodeBack | src/lib/network.ts:415-474 | Any bytes carrying a message's layout decode to `Sent` of it |
| Protocol.SendRoundTrip | src/lib/network.ts:393-474 | The bytes a send produces decode to `Sent` of the message |
| Protocol.SentFixed | src/lib/network.ts:415-474 | A message comes back unchanged exactly when each field is within its width |
| Protocol.DeliveredFixed | src/lib/network.ts:90-107 | A choice comes back unchanged exactly when its numbers are below 256 |
| Protocol.HeroOnTheWire | src/lib/network.ts:454-459 | A hero in [0, 32) arrives as hero mod 16, so heroes 16 to 31 arrive as another hero |
| Receive.ReadInbound | src/lib/network.ts:243-366 | The message the handler reads from the bytes is `ParseInbound` of them |
| Receive.ParseInbound | src/lib/network.ts:243-366 | Types with no case (join, ping, pong, the reserved codes) fall through to `Other` with their code; Sync is parsed exactly for its code; a connect carries 4-bit id and hero and is not edited |
| Receive.ReadConnected | src/lib/network.ts:260-271 | UserConnected reads id, hero, spectator flag, choice and name, with `edited` false |
| Receive.ParseConnected | src/lib/network.ts:260-271 | A UserConnected whose id and hero are below 16 and whose `edited` is false |
| Receive.ParseSync | src/lib/network.ts:331-360 | A Sync carries exactly the count read at bit 6 of its body, and participant `i` is row `i` of the columns |
| Receive.SyncArrays | src/lib/network.ts:337-347 | The column arrays follow one another, each of the count's length |
| Receive.Rows | src/lib/network.ts:348-358 | Exactly `n` participants, participant `i` assembled from entry `i` of every column |
| Receive.ReadSync | src/lib/network.ts:331-360 | The Sync read by the handler is `ParseSync` |
| Receive.ReadSyncHeader | src/lib/network.ts:332-336 | The local id, room type, revealed flag, count and quest are the fields at body bits 0, 4, 5, 6 and 12 |
| Receive.ReadSyncFlags | src/lib/network.ts:332-334 | The local id, room type and revealed flag at body bits 0, 4 and 5 |
| Receive.ReadSyncCounts | src/lib/network.ts:335-336 | The count and the quest at body bits 6 and 12 |
| Receive.SyncFrom | src/lib/network.ts:331-360 | Values read at the header positions, with the rows of the columns, are the parsed Sync |
| Receive.ReadColumns | src/lib/network.ts:337-347 | The six column arrays read are `SyncArrays` |
| Receive.ColumnsAt | src/lib/network.ts:337-347 | Columns read one after another are `SyncArrays` |
| Receive.ReadNumberColumns | src/lib/network.ts:337-341 | Ids, heroes, spectator, edited flags and tags: successive arrays of widths 4, 4, 1, 1 and 2 |
| Receive.ReadColumn | src/lib/network.ts:337-341 | One array of `n` fields of width `num` |
| Receive.ReadTail | src/lib/network.ts:342-347 | The choices per tag, then `n` names after them |
| Receive.ReadChoices | src/lib/network.ts:342-346 | The loop reads one choice per tag, ending where `ChoicesAt` ends |
| Receive.ReadNames | src/lib/network.ts:347 | `n` names from the cursor |
| Receive.BuildUsers | src/lib/network.ts:348-358 | The loop builds exactly `Rows` |
| RoomView.Without | src/lib/network.ts:274 | `filter` never lengthens the list |
| RoomView.WithoutExactly | src/lib/network.ts:274 | `filter` keeps every participant with another id exactly as often as before, and none with that id |
| RoomView.WithoutRemoves | src/lib/network.ts:274 | A participant remains exactly when it was there and has another id |
| RoomView.WithoutAbsent | src/lib/network.ts:272-275 | Removing an id nobody has changes nothing |
| RoomView.ConnectThenDisconnect | src/lib/network.ts:260-275 | A connect followed by a disconnect of the same id leaves the list as the disconnect alone would |
| RoomView.FirstWith | src/lib/network.ts:280 | `find` returns the first participant with the id, or none when nobody has it |
| RoomView.ClearVotes | src/lib/network.ts:325-328 | Every participant, in place, with no vote and not edited |
| RoomView.UpdateTouchesOne | src/lib/network.ts:277-313 | An Update* keeps the length, changes at most one participant and none with another id, and changes nothing when no id matches |
| RoomView.UpdateHitsFirst | src/lib/network.ts:280-283 | The first participant with the id gets exactly the edit and keeps its id |
| RoomView.SyncReplaces | src/lib/network.ts:331-360 | A Sync's result does not depend on the room before; it is connected, with the sent participants and local id |
| RoomView.SyncParticipants | src/lib/network.ts:335-359 | After a Sync the list has exactly the count's entries, assembled index-wise from the columns |
| RoomView.DisconnectRemoves | src/lib/network.ts:272-275 | UserDisconnected removes exactly the entries with that id and changes nothing else |
| RoomView.UpdateWithoutMatch | src/lib/network.ts:277-313 | An Update* naming an absent id leaves the view as it was |
| RoomView.UpdateChangesOne | src/lib/network.ts:277-313 | An Update* changes only the participant list, and there only the first match |
| RoomView.VoteMarksEdited | src/lib/network.ts:277-285 | UpdateUserChoice sets the vote and `edited := revealed` on the matching participant |
| RoomView.RevealOnce | src/lib/network.ts:314-317 | Reveal sets only the flag, and a second reveal changes nothing |
| RoomView.ResetClears | src/lib/network.ts:318-329 | ResetRoom: the next quest, the sent type, hidden, local and every other vote cleared, nothing else changed |
| RoomView.Apply | src/lib/network.ts:251-365 | No message changes the spectator list; only Sync changes the local id or marks the room connected; only ResetRoom touches the local vote; only UserConnected lengthens the list, by one |
| Client.RoomData.constructor | src/lib/app.svelte.ts:24-31 | The initial room: disconnected, quest 0, story points, hidden, nobody else, no spectators |
| Client.SendAppends | src/lib/network.ts:393-406 | A send appends one frame, the packed message, exactly when the socket is open and the message fits; otherwise nothing |
| Client.AttemptsOnlyWhileAllowed | src/lib/network.ts:382-391 | The attempt counter grows by one exactly when reconnecting is allowed; a send raises it only on a closing socket |
| Client.CloseDoesNotStopPendingReconnect | src/lib/network.ts:476-481 | A reconnect timer pending at `close()` still fires and reconnects, setting the flag again |
| Client.Connected | src/lib/network.ts:226-234 | The socket ends open, or connecting with reconnecting allowed; counter, timers and frames unchanged |
| Client.Reconnected | src/lib/network.ts:382-391 | The counter grows exactly when reconnecting is allowed, by one, with one more pending timer; nothing else changes |
| Client.AfterSend | src/lib/network.ts:393-406 | A send never changes the socket state or the flag, never marks the room connected, sends only on an open socket, and counts an attempt only on a closing one |
| Client.Handled | src/lib/network.ts:243-366 | The view is `RoomView.Apply` of the message but for the connected flag, which a message can only clear; only ResetRoom touches the link, and then by at most the one UpdateUserChoice(null) frame |
| Client.NetworkClient.constructor | src/lib/network.ts:208-211 | A new client is connecting, with no attempts, reconnecting allowed and nothing sent |
| Client.NetworkClient.Connect | src/lib/network.ts:226-234 | Nothing on an open socket; otherwise a new connecting socket and the flag set |
| Client.NetworkClient.OnOpen | src/lib/network.ts:236-241 | The socket is open, the counter is reset to 0, and the join frame is sent; the room is left exactly as it was |
| Client.NetworkClient.OnMessage | src/lib/network.ts:243-366 | The room, the local vote and the client's state become `Handled` of the parsed message |
| Client.NetworkClient.Dispatch | src/lib/network.ts:251-365 | Each message kind applies as `RoomView.Apply` |
| Client.NetworkClient.ResetRoom | src/lib/network.ts:318-329 | ResetRoom clears every vote in place and the local one through the vote setter |
| Client.Remove | src/lib/network.ts:274 | The loop builds `Without` |
| Client.Update | src/lib/network.ts:280-283 | The loop finds the first match and edits it, as `UpdateFirst` |
| Client.ClearAll | src/lib/network.ts:325-328 | The loop builds `ClearVotes` |
| Client.NetworkClient.OnClose | src/lib/network.ts:369-373 | Closed, the room disconnected, and a reconnect scheduled when allowed; the room's quest, type, reveal flag, participants and spectators unchanged |
| Client.NetworkClient.OnError | src/lib/network.ts:375-379 | The room disconnected and the socket closing; the room's quest, type, reveal flag, participants and spectators unchanged |
| Client.NetworkClient.Reconnect | src/lib/network.ts:382-391 | With reconnecting allowed, one more attempt and one more pending timer; otherwise nothing |
| Client.NetworkClient.ReconnectTimerFires | src/lib/network.ts:389 | A pending timer fires and connects |
| Client.NetworkClient.Send | src/lib/network.ts:393-406 | An open socket sends the packed message; a closing one disconnects the room and schedules a reconnect when allowed; any other state changes nothing; the room's other fields are kept |
| Client.NetworkClient.Close | src/lib/network.ts:476-481 | Reconnecting is disallowed and the socket starts closing |
| Client.ToggleOff | src/lib/CurrentUser.svelte.ts:72-73 | While hidden, choosing the current vote again withdraws it and announces no vote |
| Client.RevealedRepeatIgnored | src/lib/CurrentUser.svelte.ts:74-75 | While revealed, choosing the current vote again changes and sends nothing |
| Client.NewVote | src/lib/CurrentUser.svelte.ts:76-80 | A different vote is stored, `edited` becomes the revealed flag, and it is sent |
| Client.ChooseTwice | src/lib/CurrentUser.svelte.ts:68-81 | While hidden, choosing the same number or text twice ends where it started (chosen if it was the vote, none otherwise); a pair, whose arrays are never `===`, stays chosen |
| Client.Chosen | src/lib/CurrentUser.svelte.ts:68-81 | The vote becomes the new choice, stays, or is withdrawn; nothing is sent exactly for a repeat after the reveal; `edited` is set only when already set or revealed |
| Client.CurrentUser.constructor | src/lib/CurrentUser.svelte.ts:15-24 | The stored name or "Unknown Hero", the stored hero or a roll below 12, id 0, no vote |
| Client.CurrentUser.SetChoice | src/lib/CurrentUser.svelte.ts:68-81 | Without a room nothing changes; otherwise the vote and `edited` become `Chosen` and an update is sent exactly when `Chosen` announces it |
| Client.CurrentUser.SetName | src/lib/CurrentUser.svelte.ts:26-33 | Only the name changes, and UpdateUserName is sent |
| Client.CurrentUser.SetHero | src/lib/CurrentUser.svelte.ts:55-62 | Only the hero changes, and UpdateUserHero is sent |
| Client.JsRem | src/lib/CurrentUser.svelte.ts:41 | JavaScript's `%`: the remainder takes the sign of the dividend |
| Client.CycleStep | src/lib/CurrentUser.svelte.ts:41 | Cycling forward from 31 wraps to 0, backward from 0 wraps to 31, otherwise one step |
| Client.Cycled | src/lib/CurrentUser.svelte.ts:41 | The new hero is congruent to `hero + dir` modulo 32, and in [0, 32) whenever `hero + dir + 32` is not negative |
| Client.CycleInverse | src/lib/CurrentUser.svelte.ts:39-43 | Cycling keeps a hero in [0, 32), and forward then back, or back then forward, restores it |
| Client.CycledHeroOnTheWire | src/lib/CurrentUser.svelte.ts:41 | Cycling from 15 gives hero 16, which the 4-bit field sends as hero 0 |
| Client.CurrentUser.CycleHero | src/lib/CurrentUser.svelte.ts:39-43 | The hero becomes `Cycled(hero, dir)` through the hero setter |
| Client.CurrentUser.ResetChoice | src/lib/CurrentUser.svelte.ts:83-86 | No vote, not edited, the other fields of `toUserData` unchanged |
| Client.CurrentUser.ToUserData | src/lib/CurrentUser.svelte.ts:92-101 | The snapshot carries the user's id, name, hero, vote, spectator flag and `edited` |
| App.Page.constructor | src/lib/app.svelte.ts:58-60 | The initial room, a connecting client sharing it, and the current user wired to both |
| App.Page.Poke | src/lib/app.svelte.ts:62-68 | Only a Poke message is sent; the room is unchanged |
| App.Page.Reveal | src/lib/app.svelte.ts:70-73 | The room is revealed, then Reveal is sent |
| App.Page.NewQuest | src/lib/app.svelte.ts:75-84 | Quest + 1, the given type or story points, hidden, the local vote cleared, and ResetRoom sent with the new type |
| Registry.Added | socket.js:99 | `Set.add`: the members are the old ones and the new one |
| Registry.Removed | socket.js:157 | `Set.delete`: the members are the old ones but that one |
| Registry.ClearChoices | socket.js:120-122 | Keeps the number of connections; which choices it clears is stated by `Server.Server.ResetChoices` and `RegistryLaws.NewQuestResets` |
| Registry.SweepOver | socket.js:167-174 | The sweep changes only connections and the outbox; what it does to each is stated by `RegistryLaws.SweepOverEffect` |
| Registry.RoomInfoFor | socket.js:13-34 | For an unknown room the default data with no quest type; for a known room its reveal flag, quest and quest type, and at most its clients as other users |
| Registry.Others | socket.js:25-32 | The other users list no more entries than the room has clients |
| Registry.CastTo | socket.js:37-44 | At most one frame per listed client |
| RegistryLaws.CastToAddressed | socket.js:37-44 | Every frame of the cast is addressed to one of the listed clients |
| Registry.Broadcast | socket.js:36-45 | Nothing for an unknown room; at most one frame per client of the room |
| RegistryLaws.BroadcastAddressed | socket.js:36-45 | Every frame of a broadcast goes to a client of that room, and only a known room gets any |
| Registry.Received | socket.js:54-150 | A message keeps the connections and the server's client set, and only appends to the outbox |
| Registry.Join | socket.js:71-103 | A join keeps the connections and the client set, only appends to the outbox, and does nothing on a connection that already has a room |
| Registry.Handle | socket.js:105-149 | The other messages keep the connections and client set, only append to the outbox, and do nothing before a join or in room "" |
| Registry.Updated | socket.js:124-130 | userUpdate keeps the connection's state, room and alive mark, sets `edited` to revealed-and-choice-given, and takes a non-null choice |
| Registry.Left | socket.js:152-163 | The connection is closed and leaves the server's client set, which otherwise stays; the outbox only grows |
| Registry.Visit | socket.js:167-174 | One sweep step leaves the connection marked not alive, changes no other connection, room or client set, and only appends to the outbox |
| Registry.Swept | socket.js:166-175 | The sweep keeps the number of connections, the client set and the rooms; `RegistryLaws.SweepEffect` states what it does to each connection |
| RegistryLaws.OthersCount | socket.js:25-26 | For a receiver in a duplicate-free client list, the list has exactly one entry fewer than the room has clients |
| RegistryLaws.OthersMembers | socket.js:25-32 | A record is among the other users exactly when it is the name, hero, spectator flag and choice-or-null of a listed client other than the receiver |
| RegistryLaws.RoomInfoMembers | socket.js:13-34 | For a known room, the data carries the room's flag, quest and type, and a record for every other client of the room and nothing else |
| RegistryLaws.OthersAll | socket.js:25-26 | For a receiver outside the list, everyone is listed |
| RegistryLaws.CastToExactly | socket.js:36-45 | `broadcast` sends exactly the frames for the room's clients |
| RegistryLaws.OutboxFree | socket.js:36-45 | Sending frames never breaks the invariant |
| RegistryLaws.ConnectedKeeps | socket.js:47 | A new connection keeps the invariant |
| RegistryLaws.PongedKeeps | socket.js:50-52 | A pong keeps the invariant |
| RegistryLaws.MessageMarksAlive | socket.js:50-56 | A pong, and any message, marks its connection alive |
| RegistryLaws.ReceivedKeeps | socket.js:54-150 | Every message keeps the invariant |
| RegistryLaws.JoinKeeps | socket.js:71-103 | A join keeps the invariant |
| RegistryLaws.JoinedRoom | socket.js:85-100 | Joining an existing room or a new one keeps the invariant |
| RegistryLaws.JoinTwiceIgnored | socket.js:71-75 | A second join only marks the connection alive |
| RegistryLaws.BadJoinIgnored | socket.js:76-84 | A join with a mistyped name, room id, quest type or hero only marks the connection alive |
| RegistryLaws.JoinCreatesOrAdds | socket.js:85-101 | An unknown id creates a room with quest 0, hidden, holding only the client; a known one only gains the client; the joiner gets a roomUpdate |
| RegistryLaws.UnjoinedDropped | socket.js:105-108 | Before a join every other message only marks the connection alive |
| RegistryLaws.HandleKeeps | socket.js:105-149 | The switch keeps the invariant |
| RegistryLaws.RevealSets | socket.js:113-115 | reveal sets only the room's flag |
| RegistryLaws.NewQuestResets | socket.js:116-123 | newQuest: hidden, quest + 1, the old quest type unless one is given, other rooms untouched; each client of the room changes only its choice, to null; every other connection is untouched |
| RegistryLaws.UserUpdateFields | socket.js:124-130 | `edited` is revealed and choice-given; each field keeps its old value unless a non-null one is given; rooms and every other connection unchanged |
| RegistryLaws.PokeSkipsSender | socket.js:131-138 | A poke goes to every open client of the room but the sender, and to nobody else |
| RegistryLaws.PingAnswered | socket.js:141-143 | A ping is answered with one pong to its sender |
| RegistryLaws.EveryoneUpdated | socket.js:149 | After reveal, newQuest or userUpdate, every open client of the room, the sender included, gets a roomUpdate |
| RegistryLaws.RemovedNoDup | socket.js:157 | Deleting from a duplicate-free client list keeps it duplicate-free |
| RegistryLaws.LeaveRoom | socket.js:152-163 | A close removes the client from the server and its room; the room is deleted exactly when no other client is left, and then nothing is sent; other rooms are untouched |
| RegistryLaws.LeaveRoomNotifies | socket.js:158-162 | When the room is kept, every open client left in it gets a roomUpdate |
| RegistryLaws.AnnounceReaches | socket.js:36-45 | `broadcast(k, 'roomUpdate')` reaches every open client of room k with its own room data |
| RegistryLaws.LeftRoom | socket.js:157-163 | Leaving a room keeps the invariant |
| RegistryLaws.ClosedKeeps | socket.js:152-163 | A close keeps the invariant |
| RegistryLaws.EmptyRoomIdStays | socket.js:153-156 | A connection in room "" stays in it after its close |
| RegistryLaws.SweepOverEffect | socket.js:167-174 | The sweep terminates or un-alives each visited connection and leaves the rest; its pings are appended in order |
| RegistryLaws.PingsExactly | socket.js:172-173 | Pings go exactly to the visited connections that were not marked dead |
| RegistryLaws.SweepEffect | socket.js:166-175 | Dead clients are terminated, the other clients un-alived and pinged, untracked connections untouched |
| RegistryLaws.SweptKeeps | socket.js:166-175 | The sweep keeps the invariant |
| Server.Server.constructor | socket.js:6-11 | No connections and no rooms |
| Server.Server.Connection | socket.js:47 | A new open connection, tracked by the server |
| Server.Server.OnPong | socket.js:50-52 | Only the connection's alive mark is set |
| Server.Server.OnMessage | socket.js:54-150 | The new state is `Received` of the old one; the invariant holds |
| Server.Server.HandleJoin | socket.js:71-103 | The new state is `Join` of the old one |
| Server.Server.HandleRest | socket.js:105-149 | The new state is `Handle` of the old one |
| Server.Server.ResetChoices | socket.js:120-122 | The `forEach` sets the choice of exactly the room's clients to null |
| Server.Server.GetRoomData | socket.js:13-34 | The room's flag, quest, type and every other client's fields; defaults for a missing room |
| Server.Server.Broadcast | socket.js:36-45 | The `forEach` appends the frames of `CastTo` for the room's clients |
| Server.Server.CastAll | socket.js:37-44 | Sending to each listed client in turn appends exactly their `CastTo` frames and changes nothing else |
| Server.Server.SendTo | socket.js:38-43 | One client: its own room data or the poke, if it is open and not filtered out |
| Server.Server.OnClose | socket.js:152-163 | The new state is `Left` of the old one; the invariant holds |
| Server.Server.Sweep | socket.js:166-175 | The loop computes `Swept`; the invariant holds |

## Left out

- The WebSocket transport is not modelled. Opening a socket, `send`, `close`,
  `terminate` and the upgrade routing are state changes and outbox appends.
- Timers are not modelled:
  - the client's ping/pong heartbeat timers and the heartbeat call on every
    inbound message;
  - the server's 4-second interval.

  The model counts pending reconnect timers. The sweep and the alive flags
  are modelled.
- The reconnect delay (a logarithm, a random jitter and a minimum) is
  floating point and randomness. It is left out.
- UTF-8 encoding and decoding are not modelled; strings are byte sequences.
  The UTF-16 `substring(0, 18)` on the room id is modelled as an 18-byte
  prefix.
- JSON text is not modelled. `JSON.parse` failing is the `None` request.
  JSON numbers are integers, and nested objects are not represented. A
  parsed message that is not an object is not modelled: `null` would throw,
  and a primitive would behave like an empty object.
- Browser storage (localStorage, sessionStorage) and `setRememberMe` are not
  modelled. Stored values are constructor parameters. A stored hero that
  `parseInt` cannot read (NaN), and an empty stored string, are not
  modelled.
- `getWebSocketAddress`, `useInactivityTimeout` and the hero images are not
  part of this model.
- Events from a socket that has already been replaced by a reconnect are not
  modelled: the client has one socket state.
- Aliasing of participant objects between the room lists and other holders
  is not modelled: participants are values.
- `onmessage` reads the whole message first, then applies it. The source
  interleaves reads and assignments, but nothing else observes the
  difference.
- Codec.MessageWriter.WriteBits: accepts widths up to 32, where JavaScript
  shifts wrap. The protocol uses widths up to 8.
- Codec.MessageReader.ReadBits: accepts widths up to 8, where the 32-bit
  accumulator stays exact. Every read in the source is at most 8 bits wide.
- Types.Choice: a vote's numbers are integers, where the source's `Choice`
  holds JavaScript numbers (doubles). A fractional vote is not modelled: the
  writer's bit operators would truncate it toward zero (2.5 is sent as 2),
  and `===` in the vote setter would compare the doubles themselves. Heroes
  and the poked user id are integers for the same reason.
- Client.StrictEquals: treats two pair choices as never `===`. The setter
  receives a fresh array each time, and identity of arrays is not modelled.
- Protocol.SendRoundTrip: states the round trip only when the layout fits the
  buffer and the strings have no zero byte.
- Protocol.HeroOnTheWire: is stated for heroes in [0, 32), the range
  `cycleHero` produces.
- Protocol.Encode: a string that does not fit the buffer makes `buf.set`
  throw a RangeError, which aborts the send. It is modelled as no frame
  being sent.
- Server.Server.OnMessage: requires the connection not to be closed. Messages
  after a close are not delivered.
- Server.Server.OnClose: requires the connection not to be closed already.
  It does not model a close event that arrives twice.
- Server.Server.SendTo: a frame to a connection that is not open is never
  sent. `ws.ping` in the sweep is recorded for every visited connection,
  including one that is only closing.
- Client.CurrentUser.SetChoice: the model keeps the room record of the
  client as the user's room and does not consider a user whose client sends
  to another room.

## Findings

| source | as written | input that shows it | evidently intended | confidence | as-written member | corrected member |
|---|---|---|---|---|---|---|
| src/lib/network.ts:125 | When a field crosses a byte boundary, `readBits` shifts the bits already read above the rest. The writer put them below, low bit first. | `writeBits(6, 0)` then `writeBits(4, 5)` gives the bytes [64, 1]. Reading 6 bits and then 4 bits gives 0 and 17, not 0 and 5. | The bits read first are the low bits, as the writer lays them out: `b \|= bits << bitsRead`. Every field then reads back. | not executed | RoundTrip.StraddleMisread | RoundTrip.IntendedRoundTrip |

No message layout of the protocol has a field that crosses a byte boundary.
`RoundTrip.InByteAgrees` shows that on such fields the reader as written and
the intended reader agree. The protocol round trips (`Protocol.DecodeBack`)
therefore hold for the reader as written.
