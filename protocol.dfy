/**
 * The client's outgoing messages (the send* methods of NetworkClient in
 * src/lib/network.ts): which fields each message writes, in which widths, and
 * what a receiver that reads them with MessageReader gets back.
 *
 * Every message starts with its 4-bit type. The layouts keep every field
 * inside one byte, so the reader's straddle quirk never applies; what does
 * not come back unchanged is any number wider than its field (the hero and the
 * poked user are sent in 4 bits, a numeric vote in 8) and the room id, which
 * is cut to 18 characters before it is sent.
 */
module Protocol {
  import opened Bits
  import opened BitStream
  import opened Types
  import opened Codec
  import opened RoundTrip

  // The message types (enum MessageType).
  const JoinMsg: nat := 0
  const RevealMsg: nat := 1
  const ResetRoomMsg: nat := 2
  const UpdateUserChoiceMsg: nat := 3
  const UpdateUserNameMsg: nat := 4
  const UpdateUserHeroMsg: nat := 5
  const UpdateUserSpectatorMsg: nat := 6
  const UserConnectedMsg: nat := 7
  const UserDisconnectedMsg: nat := 8
  const NotImplementedMsg: nat := 9
  const Reserved1Msg: nat := 10
  const SyncMsg: nat := 11
  const Reserved2Msg: nat := 12
  const PokeMsg: nat := 13
  const PingMsg: nat := 14
  const PongMsg: nat := 15

  /** The longest room id a join carries. */
  const RoomIdLength: nat := 18

  /** A message the client sends, with the values its sender passes in. */
  datatype Outbound =
    | Join(hero: int, roomType: RoomType, spectator: bool, choice: Choice, roomId: seq<byte>, name: seq<byte>)
    | Reveal
    | ResetRoom(resetTo: RoomType)
    | UpdateChoice(vote: Choice)
    | UpdateName(newName: seq<byte>)
    | UpdateHero(newHero: int)
    | UpdateSpectator(watching: bool)
    | Poke(poked: int, pokedWith: seq<byte>)

  function TypeOf(m: Outbound): (t: nat)
    ensures t < 16
  {
    match m
    case Join(_, _, _, _, _, _) => JoinMsg
    case Reveal => RevealMsg
    case ResetRoom(_) => ResetRoomMsg
    case UpdateChoice(_) => UpdateUserChoiceMsg
    case UpdateName(_) => UpdateUserNameMsg
    case UpdateHero(_) => UpdateUserHeroMsg
    case UpdateSpectator(_) => UpdateUserSpectatorMsg
    case Poke(_, _) => PokeMsg
  }

  /** A boolean written as one bit (`+spectator`, or the boolean itself shifted). */
  function BoolBit(b: bool): nat
  {
    if b then 1 else 0
  }

  /** roomId.substring(0, 18). */
  function Prefix(s: seq<byte>, n: nat): (r: seq<byte>)
    ensures |r| <= n && r <= s
    ensures |s| <= n ==> r == s
  {
    if |s| <= n then s else s[..n]
  }

  /** The stream after writeString appends s to w: padding to the byte, the bytes, a zero byte. */
  function WithString(w: seq<bool>, s: seq<byte>): (r: seq<bool>)
    ensures |r| == AlignUp(|w|) + 8 * |s| + 8
  {
    Aligned(w) + BytesBits(s) + Zeros(8)
  }

  /** writeString(s) on stream w completes: the bytes fit in the buffer. */
  predicate StringFits(w: seq<bool>, s: seq<byte>)
  {
    AlignUp(|w|) / 8 + |s| <= BufferSize
  }

  /** The fixed-width fields of a join: type, hero, room type and spectator flag. */
  function JoinHead(hero: int, roomType: RoomType, spectator: bool): (r: seq<bool>)
    ensures |r| == 10
  {
    ValueBits(JoinMsg, 4) + ValueBits(hero, 4) + ValueBits(RoomTypeBit(roomType), 1) + ValueBits(BoolBit(spectator), 1)
  }

  /** A join up to and including the vote. */
  function JoinVote(m: Outbound): seq<bool>
    requires m.Join?
  {
    WithChoice(JoinHead(m.hero, m.roomType, m.spectator), m.choice)
  }

  /** A join up to and including the room id. */
  function JoinRoom(m: Outbound): seq<bool>
    requires m.Join?
  {
    WithString(JoinVote(m), Prefix(m.roomId, RoomIdLength))
  }

  /** The bit stream each send* method writes: it always opens with the 4-bit message type. */
  function Layout(m: Outbound): (r: seq<bool>)
    ensures ValueBits(TypeOf(m), 4) <= r
  {
    var t := ValueBits(TypeOf(m), 4);
    match m
    case Join(_, _, _, _, _, name) =>
      JoinOpensWithType(m);
      StringKeeps(t, JoinRoom(m), name);
      WithString(JoinRoom(m), name)
    case Reveal => t
    case ResetRoom(rt) => t + ValueBits(RoomTypeBit(rt), 1)
    case UpdateChoice(ch) => ChoiceKeeps(t, t, ch); WithChoice(t, ch)
    case UpdateName(name) => StringKeeps(t, t, name); WithString(t, name)
    case UpdateHero(h) => t + ValueBits(h, 4)
    case UpdateSpectator(b) => t + ValueBits(BoolBit(b), 1)
    case Poke(p, s) => StringKeeps(t, t + ValueBits(p, 4), s); WithString(t + ValueBits(p, 4), s)
  }

  /** Appending to a stream keeps whatever it began with. */
  lemma AppendKeeps(p: seq<bool>, w: seq<bool>, x: seq<bool>)
    requires p <= w
    ensures p <= w + x
  {
    assert (w + x)[..|p|] == w[..|p|];
  }

  /** writeString keeps the stream it appends to. */
  lemma StringKeeps(p: seq<bool>, w: seq<bool>, s: seq<byte>)
    requires p <= w
    ensures p <= WithString(w, s)
  {
    AppendKeeps(p, w, Zeros(AlignUp(|w|) - |w|));
    AppendKeeps(p, Aligned(w), BytesBits(s));
    AppendKeeps(p, Aligned(w) + BytesBits(s), Zeros(8));
  }

  /** writeChoice keeps the stream it appends to. */
  lemma ChoiceKeeps(p: seq<bool>, w: seq<bool>, ch: Choice)
    requires p <= w
    ensures p <= WithChoice(w, ch)
  {
    var tagged := w + ValueBits(ChoiceTag(ch), 2);
    AppendKeeps(p, w, ValueBits(ChoiceTag(ch), 2));
    AppendKeeps(p, tagged, Zeros(AlignUp(|tagged|) - |tagged|));
    match ch
    case NoChoice =>
    case Number(n) => AppendKeeps(p, Aligned(tagged), ValueBits(n, 8));
    case Text(s) =>
      AppendKeeps(p, Aligned(tagged), BytesBits(s));
      AppendKeeps(p, Aligned(tagged) + BytesBits(s), Zeros(8));
    case Pair(x, y) =>
      AppendKeeps(p, Aligned(tagged), ValueBits(x, 8));
      AppendKeeps(p, Aligned(tagged) + ValueBits(x, 8), ValueBits(y, 8));
  }

  /** A join up to its room id opens with the join type. */
  lemma JoinOpensWithType(m: Outbound)
    requires m.Join?
    ensures ValueBits(JoinMsg, 4) <= JoinRoom(m)
  {
    var t := ValueBits(JoinMsg, 4);
    var h := JoinHead(m.hero, m.roomType, m.spectator);
    AppendKeeps(t, t, ValueBits(m.hero, 4));
    AppendKeeps(t, t + ValueBits(m.hero, 4), ValueBits(RoomTypeBit(m.roomType), 1));
    AppendKeeps(t, t + ValueBits(m.hero, 4) + ValueBits(RoomTypeBit(m.roomType), 1), ValueBits(BoolBit(m.spectator), 1));
    ChoiceKeeps(t, h, m.choice);
    StringKeeps(t, JoinVote(m), Prefix(m.roomId, RoomIdLength));
  }

  /** Every string of the message fits in the buffer where it is written (else writeString throws). */
  predicate Fits(m: Outbound)
    ensures Modest(m) ==> Fits(m)
  {
    var t := ValueBits(TypeOf(m), 4);
    match m
    case Join(h, rt, sp, ch, id, name) =>
      ModestJoinFits(m);
      && ChoiceFits(10, ch)
      && StringFits(JoinVote(m), Prefix(id, RoomIdLength))
      && StringFits(JoinRoom(m), name)
    case UpdateChoice(ch) => ChoiceFits(4, ch)
    case UpdateName(name) => StringFits(t, name)
    case Poke(p, s) => StringFits(t + ValueBits(p, 4), s)
    case _ => true
  }

  /** The longest string, in bytes, that a message may carry and still be sure to fit. */
  const ModestLength: nat := 1000

  /** Every string the message carries has at most ModestLength bytes (the room id is cut to 18 anyway). */
  predicate Modest(m: Outbound)
  {
    match m
    case Join(_, _, _, ch, _, name) => (ch.Text? ==> |ch.s| <= ModestLength) && |name| <= ModestLength
    case UpdateChoice(ch) => ch.Text? ==> |ch.s| <= ModestLength
    case UpdateName(name) => |name| <= ModestLength
    case Poke(_, s) => |s| <= ModestLength
    case _ => true
  }

  /** The stream writeChoice leaves, in bits, is at most the aligned tag plus the largest payload. */
  lemma ChoiceLength(w: seq<bool>, ch: Choice)
    ensures |WithChoice(w, ch)| <= AlignUp(|w| + 2) + (if ch.Text? then 8 * |ch.s| + 8 else 16)
  {
  }

  /** A join whose vote and name are modest fits: the room id is at most 18 bytes. */
  lemma ModestJoinFits(m: Outbound)
    requires m.Join?
    ensures Modest(m) ==>
      && ChoiceFits(10, m.choice)
      && StringFits(JoinVote(m), Prefix(m.roomId, RoomIdLength))
      && StringFits(JoinRoom(m), m.name)
  {
    if Modest(m) {
      ChoiceLength(JoinHead(m.hero, m.roomType, m.spectator), m.choice);
      assert AlignUp(12) == 16;
      assert |JoinVote(m)| <= 8024;
      assert AlignUp(|JoinVote(m)|) <= 8024;
      assert |JoinRoom(m)| <= 8024 + 8 * RoomIdLength + 8;
      assert AlignUp(|JoinRoom(m)|) / 8 <= 1022;
    }
  }

  /** Every string the message carries is free of zero bytes (a zero would end it early). */
  predicate ZeroFreeStrings(m: Outbound)
  {
    match m
    case Join(_, _, _, ch, id, name) => ZeroFree(ch) && ZeroFree(Text(id)) && ZeroFree(Text(name))
    case UpdateChoice(ch) => ZeroFree(ch)
    case UpdateName(name) => ZeroFree(Text(name))
    case Poke(_, s) => ZeroFree(Text(s))
    case _ => true
  }

  /** The bytes finalize returns for stream w: whole bytes up to the last partial one, at most the buffer. */
  function Pack(w: seq<bool>): (r: seq<byte>)
    ensures |r| == Min(BufferSize, (|w| + 7) / 8)
    ensures Holds(r, w)
  {
    seq(Min(BufferSize, (|w| + 7) / 8), i requires 0 <= i => ByteOf(w, i))
  }

  /** Byte i of a stream. */
  function ByteOf(w: seq<bool>, i: nat): byte
  {
    FromBitsBound(w, 8 * i, 8);
    assert Pow2(8) == 256;
    FromBits(w, 8 * i, 8) as byte
  }

  /** The bytes finalize returns are the packing of the stream written. */
  lemma PackHolds(r: seq<byte>, w: seq<bool>)
    requires Holds(r, w) && |r| == Min(BufferSize, (|w| + 7) / 8)
    ensures r == Pack(w)
  {
    forall i | 0 <= i < |r|
      ensures r[i] == Pack(w)[i]
    {
      assert Pack(w)[i] == ByteOf(w, i);
    }
  }

  /** A message that fits carries its whole stream. */
  lemma PackCarries(w: seq<bool>)
    requires |w| <= 8 * BufferSize
    ensures Carries(Pack(w), w) && |w| <= 8 * |Pack(w)|
  {
    FinalizeCarries(Pack(w), w);
  }

  // ---------------------------------------------------------------------
  // Sending

  /**
   * The callback each send* method hands to #send, run on a fresh writer and
   * finalized. ok is false when a string does not fit: writeString throws and
   * nothing is sent.
   */
  method Encode(m: Outbound) returns (data: seq<byte>, ok: bool)
    ensures ok == Fits(m)
    ensures ok ==> data == Pack(Layout(m))
  {
    data := [];
    var w := new MessageWriter();
    ok := WriteMessage(w, m);
    if ok {
      data := w.Finalize();
      PackHolds(data, w.Written);
    }
  }

  /** The fields of m, written to an empty writer. */
  method WriteMessage(w: MessageWriter, m: Outbound) returns (ok: bool)
    requires w.Valid() && w.Written == []
    modifies w, w.buf
    ensures w.Valid()
    ensures ok == Fits(m)
    ensures ok ==> w.Written == Layout(m)
  {
    w.WriteBits(4, TypeOf(m));
    assert w.Written == ValueBits(TypeOf(m), 4);
    if m.Join? {
      ok := WriteJoin(w, m);
      return;
    }
    match m
    case Reveal =>
      ok := true;
    case ResetRoom(rt) =>
      w.WriteBits(1, RoomTypeBit(rt));
      ok := true;
    case UpdateChoice(ch) =>
      ok := WriteChoice(w, ch);
    case UpdateName(name) =>
      ok := w.WriteString(name);
    case UpdateHero(h) =>
      w.WriteBits(4, h);
      ok := true;
    case UpdateSpectator(b) =>
      w.WriteBits(1, BoolBit(b));
      ok := true;
    case Poke(p, s) =>
      w.WriteBits(4, p);
      ok := w.WriteString(s);
  }

  /** The join fields after the type: sendJoin. */
  method WriteJoin(w: MessageWriter, m: Outbound) returns (ok: bool)
    requires m.Join? && w.Valid() && w.Written == ValueBits(JoinMsg, 4)
    modifies w, w.buf
    ensures w.Valid()
    ensures ok == Fits(m)
    ensures ok ==> w.Written == Layout(m)
  {
    w.WriteBits(4, m.hero);
    w.WriteBits(1, RoomTypeBit(m.roomType));
    w.WriteBits(1, BoolBit(m.spectator));
    assert w.Written == JoinHead(m.hero, m.roomType, m.spectator);
    ok := WriteChoice(w, m.choice);
    if !ok {
      return;
    }
    ok := w.WriteString(Prefix(m.roomId, RoomIdLength));
    if !ok {
      return;
    }
    ok := w.WriteString(m.name);
  }

  // ---------------------------------------------------------------------
  // Receiving what was sent

  /** What a receiver reading with MessageReader makes of a buffer, by its type. */
  function DecodeOutbound(buf: seq<byte>): (r: Option<Outbound>)
    ensures r.Some? ==> TypeOf(r.value) == ReadBitsAt(buf, 0, 4)
    ensures r.None? <==> ReadBitsAt(buf, 0, 4) !in {JoinMsg, RevealMsg, ResetRoomMsg, UpdateUserChoiceMsg,
                                                   UpdateUserNameMsg, UpdateUserHeroMsg, UpdateUserSpectatorMsg, PokeMsg}
  {
    var t := ReadBitsAt(buf, 0, 4);
    if t == JoinMsg then Some(DecodeJoin(buf))
    else if t == RevealMsg then Some(Reveal)
    else if t == ResetRoomMsg then Some(ResetRoom(RoomTypeOf(ReadBitsAt(buf, 4, 1))))
    else if t == UpdateUserChoiceMsg then Some(UpdateChoice(ChoiceAt(buf, 4, None).value))
    else if t == UpdateUserNameMsg then Some(UpdateName(StringAt(buf, 4).value))
    else if t == UpdateUserHeroMsg then Some(UpdateHero(ReadBitsAt(buf, 4, 4)))
    else if t == UpdateUserSpectatorMsg then Some(UpdateSpectator(ReadBitsAt(buf, 4, 1) != 0))
    else if t == PokeMsg then Some(Poke(ReadBitsAt(buf, 4, 4), StringAt(buf, 8).value))
    else None
  }

  /** A join read field by field. */
  function DecodeJoin(buf: seq<byte>): Outbound
  {
    var hero := ReadBitsAt(buf, 4, 4);
    var rt := ReadBitsAt(buf, 8, 1);
    var sp := ReadBitsAt(buf, 9, 1);
    var ch := ChoiceAt(buf, 10, None);
    var id := StringAt(buf, ch.next);
    var name := StringAt(buf, id.next);
    Join(hero, RoomTypeOf(rt), sp != 0, ch.value, id.value, name.value)
  }

  /**
   * The message that arrives: the hero and the poked user cut to 4 bits, a
   * numeric vote to 8, the room id to 18 bytes.
   */
  function Sent(m: Outbound): (r: Outbound)
    ensures TypeOf(r) == TypeOf(m)
  {
    match m
    case Join(h, rt, sp, ch, id, name) => Join(Low(h, 4), rt, sp, Delivered(ch), Prefix(id, RoomIdLength), name)
    case UpdateChoice(ch) => UpdateChoice(Delivered(ch))
    case UpdateHero(h) => UpdateHero(Low(h, 4))
    case Poke(p, s) => Poke(Low(p, 4), s)
    case _ => m
  }

  // ---------------------------------------------------------------------
  // Round trips

  /** A field ending a prefix of the stream reads back as its low n bits when it stays inside one byte. */
  lemma FieldBack(buf: seq<byte>, all: seq<bool>, pre: seq<bool>, v: int, n: nat)
    requires Carries(buf, all) && pre + ValueBits(v, n) <= all && |pre| % 8 + n <= 8
    ensures ReadBitsAt(buf, |pre|, n) == Low(v, n)
  {
    var c := |pre|;
    forall q: nat | c <= q < c + n
      ensures At(all, q) == Bit(v, q - c)
    {
      assert all[q] == (pre + ValueBits(v, n))[q];
    }
    ReadInByte(buf, all, c, n, v);
  }

  /** A vote inside the stream reads back as delivered. */
  lemma ChoiceBack(buf: seq<byte>, all: seq<bool>, w: seq<bool>, ch: Choice)
    requires Carries(buf, all) && WithChoice(w, ch) <= all && |all| <= 8 * |buf|
    requires |w| % 8 + 2 <= 8 && ZeroFree(ch)
    ensures ChoiceAt(buf, |w|, None) == Parsed(Delivered(ch), AlignUp(|WithChoice(w, ch)|))
  {
    var post := all[|WithChoice(w, ch)|..];
    assert all == WithChoice(w, ch) + post;
    ChoiceRoundTrip(buf, w, ch, post);
  }

  /** A string inside the stream reads back, from any cursor that aligns to where it was written. */
  lemma StringBack(buf: seq<byte>, all: seq<bool>, w: seq<bool>, s: seq<byte>, c: nat)
    requires Carries(buf, all) && WithString(w, s) <= all && |all| <= 8 * |buf|
    requires AlignUp(c) == AlignUp(|w|) && ZeroFree(Text(s))
    ensures StringAt(buf, c) == Parsed(s, |WithString(w, s)|)
  {
    var post := all[|WithString(w, s)|..];
    var pre := Aligned(w);
    assert all == pre + BytesBits(s) + Zeros(8) + post;
    var a := AlignUp(|w|) / 8;
    StringLayout(pre, s, post, a);
    StringRoundTrip(buf, all, s, a, c);
  }

  lemma ChoiceExtends(w: seq<bool>, ch: Choice)
    ensures w <= WithChoice(w, ch)
  {
    var tagged := w + ValueBits(ChoiceTag(ch), 2);
    assert w <= tagged;
    assert tagged <= Aligned(tagged);
  }

  lemma StringExtends(w: seq<bool>, s: seq<byte>)
    ensures w <= WithString(w, s)
  {
    assert w <= Aligned(w);
  }

  lemma PrefixTrans(a: seq<bool>, b: seq<bool>, c: seq<bool>)
    requires a <= b && b <= c
    ensures a <= c
  {
  }

  /** The 4-bit type of a message reads back. */
  lemma TypeBack(buf: seq<byte>, m: Outbound)
    requires Carries(buf, Layout(m))
    ensures ReadBitsAt(buf, 0, 4) == TypeOf(m)
  {
    var t := ValueBits(TypeOf(m), 4);
    assert t <= Layout(m) by {
      match m
      case Join(_, _, _, _, _, name) =>
        StringExtends(JoinRoom(m), name);
        StringExtends(JoinVote(m), Prefix(m.roomId, RoomIdLength));
        ChoiceExtends(JoinHead(m.hero, m.roomType, m.spectator), m.choice);
        assert t <= JoinHead(m.hero, m.roomType, m.spectator);
      case UpdateChoice(ch) =>
        ChoiceExtends(t, ch);
      case UpdateName(name) =>
        StringExtends(t, name);
      case Poke(p, s) =>
        StringExtends(t + ValueBits(p, 4), s);
      case _ =>
    }
    assert [] + t == t;
    FieldBack(buf, Layout(m), [], TypeOf(m), 4);
    assert Pow2(4) == 16;
    LowOfSmall(TypeOf(m), 4);
  }

  lemma OneBit(b: nat)
    requires b < 2
    ensures Low(b, 1) == b
  {
    assert Pow2(1) == 2;
    LowOfSmall(b, 1);
  }

  lemma AlignUpTwice(c: nat)
    ensures AlignUp(AlignUp(c)) == AlignUp(c)
  {
    AlignUpWhole(AlignUp(c), AlignUp(c), 0);
  }

  lemma PrefixZeroFree(s: seq<byte>, n: nat)
    requires ZeroFree(Text(s))
    ensures ZeroFree(Text(Prefix(s, n)))
  {
  }

  /** The fixed-width fields of a join read back. */
  lemma JoinHeadBack(buf: seq<byte>, m: Outbound)
    requires m.Join? && Carries(buf, Layout(m))
    ensures ReadBitsAt(buf, 4, 4) == Low(m.hero, 4)
    ensures RoomTypeOf(ReadBitsAt(buf, 8, 1)) == m.roomType
    ensures (ReadBitsAt(buf, 9, 1) != 0) == m.spectator
  {
    var all := Layout(m);
    var head := JoinHead(m.hero, m.roomType, m.spectator);
    var p1 := ValueBits(JoinMsg, 4);
    var p2 := p1 + ValueBits(m.hero, 4);
    var p3 := p2 + ValueBits(RoomTypeBit(m.roomType), 1);
    StringExtends(JoinRoom(m), m.name);
    StringExtends(JoinVote(m), Prefix(m.roomId, RoomIdLength));
    ChoiceExtends(head, m.choice);
    PrefixTrans(JoinVote(m), JoinRoom(m), all);
    PrefixTrans(head, JoinVote(m), all);
    assert p2 <= head && p3 <= head;
    PrefixTrans(p2, head, all);
    PrefixTrans(p3, head, all);
    FieldBack(buf, all, p1, m.hero, 4);
    FieldBack(buf, all, p2, RoomTypeBit(m.roomType), 1);
    FieldBack(buf, all, p3, BoolBit(m.spectator), 1);
    OneBit(RoomTypeBit(m.roomType));
    OneBit(BoolBit(m.spectator));
  }

  /** The vote, room id and name of a join read back. */
  lemma JoinTailBack(buf: seq<byte>, m: Outbound)
    requires m.Join? && Carries(buf, Layout(m)) && |Layout(m)| <= 8 * |buf| && ZeroFreeStrings(m)
    ensures ChoiceAt(buf, 10, None) == Parsed(Delivered(m.choice), AlignUp(|JoinVote(m)|))
    ensures StringAt(buf, AlignUp(|JoinVote(m)|)) == Parsed(Prefix(m.roomId, RoomIdLength), |JoinRoom(m)|)
    ensures StringAt(buf, |JoinRoom(m)|) == Parsed(m.name, |Layout(m)|)
  {
    var all := Layout(m);
    var head := JoinHead(m.hero, m.roomType, m.spectator);
    var id := Prefix(m.roomId, RoomIdLength);
    StringExtends(JoinRoom(m), m.name);
    StringExtends(JoinVote(m), id);
    PrefixTrans(JoinVote(m), JoinRoom(m), all);
    ChoiceBack(buf, all, head, m.choice);
    PrefixZeroFree(m.roomId, RoomIdLength);
    AlignUpTwice(|JoinVote(m)|);
    StringBack(buf, all, JoinVote(m), id, AlignUp(|JoinVote(m)|));
    StringBack(buf, all, JoinRoom(m), m.name, |JoinRoom(m)|);
  }

  /** A join arrives as sent. */
  lemma JoinBack(buf: seq<byte>, m: Outbound)
    requires m.Join? && Carries(buf, Layout(m)) && |Layout(m)| <= 8 * |buf| && ZeroFreeStrings(m)
    ensures DecodeJoin(buf) == Sent(m)
  {
    JoinHeadBack(buf, m);
    JoinTailBack(buf, m);
  }

  /** A reset, hero or spectator message: one field after the type. */
  lemma FieldMessageBack(buf: seq<byte>, m: Outbound)
    requires m.ResetRoom? || m.UpdateHero? || m.UpdateSpectator?
    requires Carries(buf, Layout(m))
    ensures DecodeOutbound(buf) == Some(Sent(m))
  {
    TypeBack(buf, m);
    var t := ValueBits(TypeOf(m), 4);
    match m
    case ResetRoom(rt) =>
      FieldBack(buf, Layout(m), t, RoomTypeBit(rt), 1);
      OneBit(RoomTypeBit(rt));
    case UpdateHero(h) =>
      FieldBack(buf, Layout(m), t, h, 4);
    case UpdateSpectator(b) =>
      FieldBack(buf, Layout(m), t, BoolBit(b), 1);
      OneBit(BoolBit(b));
  }

  /** A vote, name or poke message: a choice or a string after the type. */
  lemma StringMessageBack(buf: seq<byte>, m: Outbound)
    requires m.UpdateChoice? || m.UpdateName? || m.Poke?
    requires Carries(buf, Layout(m)) && |Layout(m)| <= 8 * |buf| && ZeroFreeStrings(m)
    ensures DecodeOutbound(buf) == Some(Sent(m))
  {
    TypeBack(buf, m);
    var all := Layout(m);
    var t := ValueBits(TypeOf(m), 4);
    match m
    case UpdateChoice(ch) =>
      assert WithChoice(t, ch) <= all;
      ChoiceBack(buf, all, t, ch);
    case UpdateName(name) =>
      assert WithString(t, name) <= all;
      StringBack(buf, all, t, name, 4);
    case Poke(p, s) =>
      var head := t + ValueBits(p, 4);
      StringExtends(head, s);
      FieldBack(buf, all, t, p, 4);
      StringBack(buf, all, head, s, 8);
  }

  /** Whatever reads a message the client sent gets Sent(m) back. */
  lemma DecodeBack(buf: seq<byte>, m: Outbound)
    requires Carries(buf, Layout(m)) && |Layout(m)| <= 8 * |buf| && ZeroFreeStrings(m)
    ensures DecodeOutbound(buf) == Some(Sent(m))
  {
    if m.Join? {
      TypeBack(buf, m);
      JoinBack(buf, m);
    } else if m.Reveal? {
      TypeBack(buf, m);
    } else if m.ResetRoom? || m.UpdateHero? || m.UpdateSpectator? {
      FieldMessageBack(buf, m);
    } else {
      StringMessageBack(buf, m);
    }
  }

  /**
   * The bytes Encode produces decode to the message sent, for every message
   * that fits whole in the buffer and has no zero byte in its strings.
   */
  lemma SendRoundTrip(m: Outbound)
    requires |Layout(m)| <= 8 * BufferSize && ZeroFreeStrings(m)
    ensures DecodeOutbound(Pack(Layout(m))) == Some(Sent(m))
  {
    PackCarries(Layout(m));
    DecodeBack(Pack(Layout(m)), m);
  }

  /**
   * The hero goes out in 4 bits: of the 32 heroes cycleHero ranges over,
   * 16 to 31 arrive as 0 to 15.
   */
  lemma HeroOnTheWire(h: int)
    requires 0 <= h < 32
    ensures Sent(UpdateHero(h)) == UpdateHero(h % 16)
    ensures 16 <= h ==> Sent(UpdateHero(h)).newHero == h - 16 != h
  {
    assert Pow2(4) == 16;
    if h < 16 {
      LowOfSmall(h, 4);
    } else {
      LowPeriodic(h - 16, 4);
      LowOfSmall(h - 16, 4);
    }
  }

  /** Which messages arrive exactly as sent: numbers within their widths, a room id of at most 18 bytes. */
  predicate InRange(m: Outbound)
  {
    match m
    case Join(h, _, _, ch, id, _) => 0 <= h < 16 && ChoiceInRange(ch) && |id| <= RoomIdLength
    case UpdateChoice(ch) => ChoiceInRange(ch)
    case UpdateHero(h) => 0 <= h < 16
    case Poke(p, _) => 0 <= p < 16
    case _ => true
  }

  predicate ChoiceInRange(ch: Choice)
  {
    && (ch.Number? ==> 0 <= ch.n < 256)
    && (ch.Pair? ==> 0 <= ch.first < 256 && 0 <= ch.second < 256)
  }

  lemma LowFixed(x: int, k: nat)
    ensures Low(x, k) == x <==> 0 <= x < Pow2(k)
  {
    LowBound(x, k);
    if 0 <= x < Pow2(k) {
      LowOfSmall(x, k);
    }
  }

  lemma DeliveredFixed(ch: Choice)
    ensures Delivered(ch) == ch <==> ChoiceInRange(ch)
  {
    assert Pow2(8) == 256;
    match ch
    case Number(n) =>
      LowFixed(n, 8);
    case Pair(x, y) =>
      LowFixed(x, 8);
      LowFixed(y, 8);
    case _ =>
  }

  /** A message arrives unchanged exactly when it is in range. */
  lemma SentFixed(m: Outbound)
    ensures Sent(m) == m <==> InRange(m)
  {
    assert Pow2(4) == 16;
    match m
    case Join(h, _, _, ch, id, _) =>
      LowFixed(h, 4);
      DeliveredFixed(ch);
    case UpdateChoice(ch) =>
      DeliveredFixed(ch);
    case UpdateHero(h) =>
      LowFixed(h, 4);
    case Poke(p, _) =>
      LowFixed(p, 4);
    case _ =>
  }
}
