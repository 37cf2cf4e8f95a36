/**
 * What a MessageReader gets back from the bytes a MessageWriter produced:
 * fields that stay inside one byte, strings without zero bytes and choices
 * come back as written (numbers truncated to the width they were sent in).
 * A field that straddles a byte boundary does not: readBits puts its two
 * parts together in the wrong order.
 */
module RoundTrip {
  import opened Bits
  import opened BitStream
  import opened Types
  import opened Codec

  /** Bit q of the buffer is bit q of the stream s. */
  predicate Agree(buf: seq<byte>, s: seq<bool>, q: nat)
  {
    BitAt(buf, q) == At(s, q)
  }

  /** The buffer carries the bit stream s: every bit agrees, including the zero bits past either end. */
  ghost predicate Carries(buf: seq<byte>, s: seq<bool>)
  {
    forall q: nat :: Agree(buf, s, q)
  }

  /** The n bits of s at position c are the low n bits of v. */
  ghost predicate HoldsValue(s: seq<bool>, c: nat, n: nat, v: int)
  {
    forall q: nat :: c <= q < c + n ==> At(s, q) == Bit(v, q - c)
  }

  /** What finalize returns carries everything written, as long as it fits the buffer. */
  lemma FinalizeCarries(bytes: seq<byte>, w: seq<bool>)
    requires Holds(bytes, w) && |w| <= 8 * |bytes|
    ensures Carries(bytes, w)
  {
    forall q: nat
      ensures Agree(bytes, w, q)
    {
      HoldsBit(bytes, w, q);
    }
  }

  /** Reading the bits of a field at any position gives back the low n bits of the value written there. */
  lemma FieldFromStream(buf: seq<byte>, s: seq<bool>, c: nat, n: nat, v: int)
    requires Carries(buf, s) && HoldsValue(s, c, n, v)
    ensures FieldAt(buf, c, n) == Low(v, n)
  {
    forall q | c <= q < c + n
      ensures BitAt(buf, q) == At(s, q)
    {
      assert Agree(buf, s, q);
    }
    forall j | 0 <= j < n
      ensures At(s, c + j) == Bit(v, j)
    {
      assert At(s, c + j) == Bit(v, c + j - c);
    }
    FieldAgree(buf, s, c, n);
    FromBitsOfValue(s, c, n, v);
  }

  /** readBits on a field that lies inside one byte returns the low n bits of the value written there. */
  lemma ReadInByte(buf: seq<byte>, s: seq<bool>, c: nat, n: nat, v: int)
    requires Carries(buf, s) && HoldsValue(s, c, n, v) && c % 8 + n <= 8
    ensures ReadBitsAt(buf, c, n) == Low(v, n)
  {
    FieldFromStream(buf, s, c, n, v);
  }

  /** A whole byte written as v reads back as v. */
  lemma ByteFromStream(buf: seq<byte>, s: seq<bool>, i: nat, v: byte)
    requires Carries(buf, s) && HoldsValue(s, 8 * i, 8, v)
    ensures ByteAt(buf, i) == v
  {
    WholeByte(buf, i, 8 * i);
    FieldFromStream(buf, s, 8 * i, 8, v);
    assert Pow2(8) == 256;
    LowOfSmall(v, 8);
  }

  // ---------------------------------------------------------------------
  // Sequences of fields

  /** One writeBits call: a width and a value. */
  datatype Field = Field(width: nat, value: int)

  /** The number of bits a sequence of fields takes. */
  function Width(fs: seq<Field>): nat
  {
    if fs == [] then 0 else Width(fs[..|fs| - 1]) + fs[|fs| - 1].width
  }

  /** The stream a writer holds after writing the fields in order. */
  function Stream(fs: seq<Field>): (r: seq<bool>)
    ensures |r| == Width(fs)
  {
    if fs == [] then [] else Stream(fs[..|fs| - 1]) + ValueBits(fs[|fs| - 1].value, fs[|fs| - 1].width)
  }

  /** Every field has at most 8 bits and does not cross a byte boundary, as in every message the client sends. */
  predicate InByteLayout(fs: seq<Field>)
  {
    forall i :: 0 <= i < |fs| ==> fs[i].width <= 8 && Width(fs[..i]) % 8 + fs[i].width <= 8
  }

  /** The values a reader gets back: each truncated to its width. */
  function Received(fs: seq<Field>): (r: seq<nat>)
    ensures |r| == |fs|
    ensures forall i :: 0 <= i < |fs| ==> r[i] == Low(fs[i].value, fs[i].width)
  {
    seq(|fs|, i requires 0 <= i < |fs| => Low(fs[i].value, fs[i].width))
  }

  lemma {:induction false} WidthPrefix(fs: seq<Field>, i: nat)
    requires i < |fs|
    ensures Width(fs[..i]) + fs[i].width <= Width(fs)
    decreases |fs|
  {
    var init := fs[..|fs| - 1];
    if i < |fs| - 1 {
      WidthPrefix(init, i);
      assert init[..i] == fs[..i];
    } else {
      assert init == fs[..i];
    }
  }

  /** Field i of a sequence sits in the stream right after the fields before it. */
  lemma {:induction false} StreamField(fs: seq<Field>, i: nat)
    requires i < |fs|
    ensures HoldsValue(Stream(fs), Width(fs[..i]), fs[i].width, fs[i].value)
    decreases |fs|
  {
    var init := fs[..|fs| - 1];
    var last := ValueBits(fs[|fs| - 1].value, fs[|fs| - 1].width);
    var c := Width(fs[..i]);
    if i < |fs| - 1 {
      StreamField(init, i);
      WidthPrefix(init, i);
      assert init[..i] == fs[..i] && init[i] == fs[i];
      forall q: nat | c <= q < c + fs[i].width
        ensures At(Stream(fs), q) == Bit(fs[i].value, q - c)
      {
        AtAppend(Stream(init), last, q);
      }
    } else {
      assert init == fs[..i];
      forall q: nat | c <= q < c + fs[i].width
        ensures At(Stream(fs), q) == Bit(fs[i].value, q - c)
      {
        AtAppend(Stream(init), last, q);
      }
    }
  }

  /** Writing one more field appends it to the stream. */
  lemma StreamSnoc(fs: seq<Field>, i: nat)
    requires i < |fs|
    ensures Stream(fs[..i + 1]) == Stream(fs[..i]) + ValueBits(fs[i].value, fs[i].width)
    ensures Width(fs[..i + 1]) == Width(fs[..i]) + fs[i].width
  {
    assert fs[..i + 1][..i] == fs[..i];
  }

  /**
   * Write the fields with a fresh MessageWriter, finalize, and read the same
   * widths back with a MessageReader: the reader returns every value, cut to
   * its width, and the message has one byte per started 8 bits.
   */
  method FieldsRoundTrip(fs: seq<Field>) returns (bytes: seq<byte>, back: seq<nat>)
    requires InByteLayout(fs) && Width(fs) <= 8 * BufferSize
    ensures |bytes| == (Width(fs) + 7) / 8
    ensures back == Received(fs)
  {
    var w := new MessageWriter();
    for i := 0 to |fs|
      invariant w.Valid() && fresh(w.buf) && w.Written == Stream(fs[..i])
    {
      StreamSnoc(fs, i);
      w.WriteBits(fs[i].width, fs[i].value);
    }
    assert fs[..|fs|] == fs;
    bytes := w.Finalize();
    FinalizeCarries(bytes, w.Written);
    back := ReadFields(bytes, fs);
  }

  /** Read the widths of fs, in order, from a buffer that carries their stream. */
  method ReadFields(bytes: seq<byte>, fs: seq<Field>) returns (back: seq<nat>)
    requires InByteLayout(fs) && Carries(bytes, Stream(fs))
    ensures back == Received(fs)
  {
    var r := new MessageReader(bytes);
    back := [];
    assert Received(fs)[..|fs|] == Received(fs);
    for i := 0 to |fs|
      invariant r.Valid() && r.buf == bytes && r.Cursor() == Width(fs[..i])
      invariant back == Received(fs)[..i]
    {
      var x := ReadField(r, fs, i);
      assert Received(fs)[..i + 1] == Received(fs)[..i] + [x];
      back := back + [x];
    }
  }

  /** Read field i of fs, the reader standing where the fields before it end. */
  method ReadField(r: MessageReader, fs: seq<Field>, i: nat) returns (x: nat)
    requires InByteLayout(fs) && i < |fs| && Carries(r.buf, Stream(fs))
    requires r.Valid() && r.Cursor() == Width(fs[..i])
    modifies r
    ensures r.Valid() && r.Cursor() == Width(fs[..i + 1])
    ensures x == Received(fs)[i]
  {
    StreamField(fs, i);
    ReadInByte(r.buf, Stream(fs), r.Cursor(), fs[i].width, fs[i].value);
    x := r.ReadBits(fs[i].width);
    StreamSnoc(fs, i);
  }

  // ---------------------------------------------------------------------
  // Strings

  /** A value held inside a piece of the stream stays held once more bits come before it. */
  lemma HoldsAfter(pre: seq<bool>, mid: seq<bool>, d: nat, n: nat, v: int, c: nat)
    requires HoldsValue(mid, d, n, v) && d + n <= |mid| && c == |pre| + d
    ensures HoldsValue(pre + mid, c, n, v)
  {
    forall q: nat | c <= q < c + n
      ensures At(pre + mid, q) == Bit(v, q - c)
    {
      AtAppend(pre, mid, q);
      assert At(mid, q - |pre|) == Bit(v, q - |pre| - d);
    }
  }

  /** ... and once more bits come after it. */
  lemma HoldsExtend(s: seq<bool>, t: seq<bool>, c: nat, n: nat, v: int)
    requires HoldsValue(s, c, n, v) && c + n <= |s|
    ensures HoldsValue(s + t, c, n, v)
  {
    forall q: nat | c <= q < c + n
      ensures At(s + t, q) == Bit(v, q - c)
    {
      AtAppend(s, t, q);
    }
  }

  /** The n bits writeBits appends hold its value. */
  lemma ValueHolds(v: int, n: nat)
    ensures HoldsValue(ValueBits(v, n), 0, n, v)
  {
    forall q: nat | 0 <= q < n
      ensures At(ValueBits(v, n), q) == Bit(v, q - 0)
    {
    }
  }

  /** Where writeString puts byte k of s: bits 8 * (a + k) onward, for a string that starts at byte a. */
  lemma BytesAt(pre: seq<bool>, s: seq<byte>, post: seq<bool>, a: nat, k: nat)
    requires |pre| == 8 * a && k < |s|
    ensures HoldsValue(pre + BytesBits(s) + post, 8 * (a + k), 8, s[k])
  {
    var d := 8 * k;
    forall q: nat | d <= q < d + 8
      ensures At(BytesBits(s), q) == Bit(s[k], q - d)
    {
      BytesBitsAt(s, k, q - d);
    }
    HoldsAfter(pre, BytesBits(s), d, 8, s[k], 8 * (a + k));
    HoldsExtend(pre + BytesBits(s), post, 8 * (a + k), 8, s[k]);
  }

  /** Zero bits hold the value 0. */
  lemma ZerosHold(n: nat)
    ensures HoldsValue(Zeros(n), 0, n, 0)
  {
    forall q: nat | 0 <= q < n
      ensures At(Zeros(n), q) == Bit(0, q - 0)
    {
      BitZero(q);
    }
  }

  /** Where writeString puts the terminator of s. */
  lemma TerminatorAt(pre: seq<bool>, s: seq<byte>, post: seq<bool>, a: nat)
    requires |pre| == 8 * a
    ensures HoldsValue(pre + BytesBits(s) + Zeros(8) + post, 8 * (a + |s|), 8, 0)
  {
    ZerosHold(8);
    HoldsAfter(pre + BytesBits(s), Zeros(8), 0, 8, 0, 8 * (a + |s|));
    HoldsExtend(pre + BytesBits(s) + Zeros(8), post, 8 * (a + |s|), 8, 0);
  }

  /** NextZero finds the first zero byte. */
  lemma NextZeroIs(buf: seq<byte>, i: nat, t: nat)
    requires i <= t < |buf| && buf[t] == 0
    requires forall k :: i <= k < t ==> buf[k] != 0
    ensures NextZero(buf, i) == t
  {
  }

  /** The bits of s sit at byte a of the stream all, one byte per byte of s, with a zero byte after them. */
  ghost predicate StringLaid(all: seq<bool>, s: seq<byte>, a: nat)
  {
    (forall k :: 0 <= k < |s| ==> HoldsValue(all, 8 * (a + k), 8, s[k]))
    && HoldsValue(all, 8 * (a + |s|), 8, 0)
  }

  /** writeString lays out its string as StringLaid says. */
  lemma StringLayout(pre: seq<bool>, s: seq<byte>, post: seq<bool>, a: nat)
    requires |pre| == 8 * a
    ensures StringLaid(pre + BytesBits(s) + Zeros(8) + post, s, a)
  {
    assert pre + BytesBits(s) + Zeros(8) + post == pre + BytesBits(s) + (Zeros(8) + post);
    forall k | 0 <= k < |s|
      ensures HoldsValue(pre + BytesBits(s) + (Zeros(8) + post), 8 * (a + k), 8, s[k])
    {
      BytesAt(pre, s, Zeros(8) + post, a, k);
    }
    TerminatorAt(pre, s, post, a);
  }

  /**
   * readString after writeString: a string without zero bytes, laid out at
   * byte a, is read back whole from any cursor that aligns to that byte, and
   * the reader ends just past the terminator.
   */
  lemma StringRoundTrip(buf: seq<byte>, all: seq<bool>, s: seq<byte>, a: nat, c: nat)
    requires AlignUp(c) == 8 * a && a + |s| < |buf|
    requires Carries(buf, all) && StringLaid(all, s, a)
    requires forall k :: 0 <= k < |s| ==> s[k] != 0
    ensures StringAt(buf, c) == Parsed(s, 8 * a + 8 * |s| + 8)
  {
    forall i | 0 <= i < |s|
      ensures buf[a..a + |s|][i] == s[i]
    {
      ByteFromStream(buf, all, a + i, s[i]);
    }
    ByteFromStream(buf, all, a + |s|, 0);
    StringFound(buf, s, a, c);
  }

  /** readString finds a zero-free s followed by a zero byte at the aligned byte a. */
  lemma StringFound(buf: seq<byte>, s: seq<byte>, a: nat, c: nat)
    requires AlignUp(c) == 8 * a && a + |s| < |buf|
    requires buf[a..a + |s|] == s && ByteAt(buf, a + |s|) == 0
    requires forall k :: 0 <= k < |s| ==> s[k] != 0
    ensures StringAt(buf, c) == Parsed(s, 8 * a + 8 * |s| + 8)
  {
    forall k | a <= k < a + |s|
      ensures buf[k] != 0
    {
      assert buf[a..a + |s|][k - a] == buf[k];
    }
    NextZeroIs(buf, a, a + |s|);
    assert (8 * a) / 8 == a;
  }

  // ---------------------------------------------------------------------
  // Choices

  /** The choice the reader gets for a choice written: numbers are cut to the 8 bits they are sent in. */
  function Delivered(ch: Choice): (r: Choice)
    ensures ChoiceTag(r) == ChoiceTag(ch)
    ensures ch.Number? && 0 <= ch.n < 256 ==> r == ch
    ensures ch.Pair? && 0 <= ch.first < 256 && 0 <= ch.second < 256 ==> r == ch
    ensures ch.Text? || ch.NoChoice? ==> r == ch
  {
    match ch
    case Number(n) =>
      assert Pow2(8) == 256;
      LowOfSmall2(n);
      Number(Low(n, 8))
    case Pair(x, y) =>
      LowOfSmall2(x);
      LowOfSmall2(y);
      Pair(Low(x, 8), Low(y, 8))
    case _ => ch
  }

  lemma LowOfSmall2(x: int)
    ensures 0 <= x < 256 ==> Low(x, 8) == x
  {
    if 0 <= x < 256 {
      assert Pow2(8) == 256;
      LowOfSmall(x, 8);
    }
  }

  /** A string choice survives the trip only without zero bytes (the reader stops at the first). */
  predicate ZeroFree(ch: Choice)
  {
    ch.Text? ==> forall k :: 0 <= k < |ch.s| ==> ch.s[k] != 0
  }

  /** The stream after the tag: a tag that stays inside its byte reads back. */
  lemma TagRoundTrip(buf: seq<byte>, w: seq<bool>, ch: Choice, post: seq<bool>)
    requires |w| % 8 + 2 <= 8 && Carries(buf, WithChoice(w, ch) + post)
    ensures ReadBitsAt(buf, |w|, 2) == ChoiceTag(ch)
  {
    var all := WithChoice(w, ch) + post;
    var tagged := w + ValueBits(ChoiceTag(ch), 2);
    var c := |w|;
    forall q: nat | c <= q < c + 2
      ensures At(all, q) == Bit(ChoiceTag(ch), q - c)
    {
      assert At(tagged, q) == Bit(ChoiceTag(ch), q - c);
      if !ch.NoChoice? {
        assert At(Aligned(tagged), q) == At(tagged, q);
      }
    }
    ReadInByte(buf, all, |w|, 2, ChoiceTag(ch));
    assert Pow2(2) == 4;
    LowOfSmall(ChoiceTag(ch), 2);
  }

  /** A stream of whole bytes ends where alignToByte leaves it. */
  lemma AlignUpWhole(L: nat, a: nat, k: nat)
    requires a % 8 == 0 && L == a + 8 * k
    ensures AlignUp(L) == L
  {
  }

  lemma NextByte(a: nat)
    requires a % 8 == 0
    ensures (a + 8) % 8 == 0
  {
  }

  /** Where writeChoice puts a number: the 8 bits after the aligned tag. */
  lemma NumberLaid(pre: seq<bool>, n: int, post: seq<bool>, a: nat)
    requires |pre| == a
    ensures HoldsValue(pre + ValueBits(n, 8) + post, a, 8, n)
  {
    ValueHolds(n, 8);
    HoldsAfter(pre, ValueBits(n, 8), 0, 8, n, a);
    HoldsExtend(pre + ValueBits(n, 8), post, a, 8, n);
  }

  /** Where writeChoice puts a pair: two bytes after the aligned tag. */
  lemma PairLaid(pre: seq<bool>, x: int, y: int, post: seq<bool>, a: nat)
    requires |pre| == a
    ensures HoldsValue(pre + ValueBits(x, 8) + ValueBits(y, 8) + post, a, 8, x)
    ensures HoldsValue(pre + ValueBits(x, 8) + ValueBits(y, 8) + post, a + 8, 8, y)
  {
    var withX := pre + ValueBits(x, 8);
    var withY := withX + ValueBits(y, 8);
    ValueHolds(x, 8);
    HoldsAfter(pre, ValueBits(x, 8), 0, 8, x, a);
    HoldsExtend(withX, ValueBits(y, 8), a, 8, x);
    HoldsExtend(withY, post, a, 8, x);
    ValueHolds(y, 8);
    HoldsAfter(withX, ValueBits(y, 8), 0, 8, y, a + 8);
    HoldsExtend(withY, post, a + 8, 8, y);
  }

  /** readChoice on a number tag. */
  lemma NumberAt(buf: seq<byte>, c: nat, a: nat, n: nat)
    requires ReadBitsAt(buf, c, 2) == SingleNumber && a == AlignUp(c + 2) && ReadBitsAt(buf, a, 8) == n
    ensures ChoiceAt(buf, c, None) == Parsed(Number(n), a + 8)
  {
    var t := ChoiceTagAt(buf, c, None);
    assert t == SingleNumber;
    assert ChoiceAt(buf, c, None) == PayloadAt(buf, t, a);
    assert PayloadAt(buf, t, a) == Parsed(Number(ReadBitsAt(buf, a, 8)), a + 8);
  }

  /** readChoice on a pair tag. */
  lemma PairAt(buf: seq<byte>, c: nat, a: nat, x: nat, y: nat)
    requires ReadBitsAt(buf, c, 2) == TwoNumbers && a == AlignUp(c + 2)
    requires ReadBitsAt(buf, a, 8) == x && ReadBitsAt(buf, a + 8, 8) == y
    ensures ChoiceAt(buf, c, None) == Parsed(Pair(x, y), a + 16)
  {
    var t := ChoiceTagAt(buf, c, None);
    assert t == TwoNumbers;
    assert ChoiceAt(buf, c, None) == PayloadAt(buf, t, a);
    PairPayload(buf, a, x, y);
  }

  lemma PairPayload(buf: seq<byte>, a: nat, x: nat, y: nat)
    requires ReadBitsAt(buf, a, 8) == x && ReadBitsAt(buf, a + 8, 8) == y
    ensures PayloadAt(buf, TwoNumbers, a) == Parsed(Pair(x, y), a + 16)
  {
  }

  /** The two bytes of a pair read back from an aligned position. */
  lemma PairRead(buf: seq<byte>, all: seq<bool>, a: nat, x: int, y: int)
    requires a % 8 == 0 && Carries(buf, all)
    requires HoldsValue(all, a, 8, x) && HoldsValue(all, a + 8, 8, y)
    ensures ReadBitsAt(buf, a, 8) == Low(x, 8) && ReadBitsAt(buf, a + 8, 8) == Low(y, 8)
  {
    NextByte(a);
    ReadInByte(buf, all, a, 8, x);
    ReadInByte(buf, all, a + 8, 8, y);
  }

  lemma NumberRoundTrip(buf: seq<byte>, w: seq<bool>, n: int, post: seq<bool>)
    requires |w| % 8 + 2 <= 8 && Carries(buf, WithChoice(w, Number(n)) + post)
    ensures ChoiceAt(buf, |w|, None) == Parsed(Delivered(Number(n)), AlignUp(|WithChoice(w, Number(n))|))
  {
    var pre := Aligned(w + ValueBits(SingleNumber, 2));
    var a := AlignUp(|w| + 2);
    TagRoundTrip(buf, w, Number(n), post);
    NumberLaid(pre, n, post, a);
    ReadInByte(buf, WithChoice(w, Number(n)) + post, a, 8, n);
    NumberAt(buf, |w|, a, Low(n, 8));
    AlignUpWhole(|WithChoice(w, Number(n))|, a, 1);
  }

  lemma PairRoundTrip(buf: seq<byte>, w: seq<bool>, x: int, y: int, post: seq<bool>)
    requires |w| % 8 + 2 <= 8 && Carries(buf, WithChoice(w, Pair(x, y)) + post)
    ensures ChoiceAt(buf, |w|, None) == Parsed(Delivered(Pair(x, y)), AlignUp(|WithChoice(w, Pair(x, y))|))
  {
    var pre := Aligned(w + ValueBits(TwoNumbers, 2));
    var a := AlignUp(|w| + 2);
    TagRoundTrip(buf, w, Pair(x, y), post);
    PairLaid(pre, x, y, post, a);
    PairRead(buf, WithChoice(w, Pair(x, y)) + post, a, x, y);
    PairAt(buf, |w|, a, Low(x, 8), Low(y, 8));
    AlignUpWhole(|WithChoice(w, Pair(x, y))|, a, 2);
  }

  lemma TextRoundTrip(buf: seq<byte>, w: seq<bool>, s: seq<byte>, post: seq<bool>)
    requires |w| % 8 + 2 <= 8 && Carries(buf, WithChoice(w, Text(s)) + post)
    requires ZeroFree(Text(s)) && |WithChoice(w, Text(s))| <= 8 * |buf|
    ensures ChoiceAt(buf, |w|, None) == Parsed(Delivered(Text(s)), AlignUp(|WithChoice(w, Text(s))|))
  {
    var pre := Aligned(w + ValueBits(SingleString, 2));
    var a := |pre| / 8;
    assert |pre| == 8 * a;
    var all := WithChoice(w, Text(s)) + post;
    TagRoundTrip(buf, w, Text(s), post);
    StringLayout(pre, s, post, a);
    AlignUpWhole(|pre|, |pre|, 0);
    StringRoundTrip(buf, all, s, a, |pre|);
    AlignUpWhole(|WithChoice(w, Text(s))|, |pre|, |s| + 1);
  }

  /**
   * readChoice after writeChoice: a choice whose tag stays inside its byte
   * comes back as delivered, and the reader stops at the first byte boundary
   * at or after the end of what the writer wrote. For null the writer does not
   * align but the reader does, so the two agree only when the next field is
   * byte-aligned again.
   */
  lemma ChoiceRoundTrip(buf: seq<byte>, w: seq<bool>, ch: Choice, post: seq<bool>)
    requires |w| % 8 + 2 <= 8 && Carries(buf, WithChoice(w, ch) + post)
    requires ZeroFree(ch) && |WithChoice(w, ch)| <= 8 * |buf|
    ensures ChoiceAt(buf, |w|, None) == Parsed(Delivered(ch), AlignUp(|WithChoice(w, ch)|))
  {
    match ch
    case NoChoice =>
      TagRoundTrip(buf, w, ch, post);
    case Number(n) =>
      NumberRoundTrip(buf, w, n, post);
    case Text(s) =>
      TextRoundTrip(buf, w, s, post);
    case Pair(x, y) =>
      PairRoundTrip(buf, w, x, y, post);
  }

  /** writeChoice(null) leaves the writer inside the byte; readChoice moves to the next boundary. */
  lemma NoneNotAligned(buf: seq<byte>, w: seq<bool>, post: seq<bool>)
    requires |w| % 8 + 2 < 8 && Carries(buf, WithChoice(w, NoChoice) + post)
    ensures |WithChoice(w, NoChoice)| == |w| + 2
    ensures ChoiceAt(buf, |w|, None).next == AlignUp(|w| + 2) > |w| + 2
  {
    TagRoundTrip(buf, w, NoChoice, post);
  }

  // ---------------------------------------------------------------------
  // A field across a byte boundary

  /**
   * readBits as the reader was evidently meant to work: the low bits of the
   * field come first, wherever it starts.
   */
  function IntendedReadBitsAt(buf: seq<byte>, c: nat, n: nat): (r: nat)
    ensures r < Pow2(n)
  {
    FieldAtBound(buf, c, n);
    FieldAt(buf, c, n)
  }

  /** With the intended reader every field reads back, byte boundary or not. */
  lemma IntendedRoundTrip(buf: seq<byte>, s: seq<bool>, c: nat, n: nat, v: int)
    requires Carries(buf, s) && HoldsValue(s, c, n, v)
    ensures IntendedReadBitsAt(buf, c, n) == Low(v, n)
  {
    FieldFromStream(buf, s, c, n, v);
  }

  /** The reader as written agrees with the intended one on every field inside one byte. */
  lemma InByteAgrees(buf: seq<byte>, c: nat, n: nat)
    requires c % 8 + n <= 8
    ensures ReadBitsAt(buf, c, n) == IntendedReadBitsAt(buf, c, n)
  {
  }

  /**
   * writeBits(6, 0) then writeBits(4, 5) produce the bytes [64, 1]; reading
   * 6 bits and then 4 gives 0 and 17, not 0 and 5.
   */
  method StraddleMisread() returns (bytes: seq<byte>, first: nat, second: nat)
    ensures bytes == [64, 1]
    ensures first == 0 && second == 17
    ensures IntendedReadBitsAt(bytes, 6, 4) == 5
  {
    var w := new MessageWriter();
    w.WriteBits(6, 0);
    w.WriteBits(4, 5);
    bytes := w.Finalize();
    StraddleBytes(bytes, w.Written);
    var r := new MessageReader(bytes);
    first := r.ReadBits(6);
    ghost var c := r.Cursor();
    second := r.ReadBits(4);
    StraddleReads(bytes, c);
  }

  lemma StraddleBytes(bytes: seq<byte>, w: seq<bool>)
    requires w == [] + ValueBits(0, 6) + ValueBits(5, 4)
    requires |bytes| == Min(BufferSize, (|w| + 7) / 8) && Holds(bytes, w)
    ensures bytes == [64, 1]
  {
    assert |bytes| == 2;
    assert w == [false, false, false, false, false, false, true, false, true, false] by {
      forall j | 0 <= j < 6 ensures !Bit(0, j) { BitZero(j); }
      assert Bit(5, 0) && !Bit(5, 1) && Bit(5, 2) && !Bit(5, 3);
    }
    assert bytes[0] == FromBits(w, 0, 8) == 64;
    assert bytes[1] == FromBits(w, 8, 8) == 1;
  }

  lemma StraddleReads(buf: seq<byte>, c: nat)
    requires buf == [64, 1] && c == 6
    ensures ReadBitsAt(buf, 0, 6) == 0
    ensures ReadBitsAt(buf, c, 4) == 17
    ensures IntendedReadBitsAt(buf, 6, 4) == 5
  {
    assert ByteAt(buf, 0) == 64 && ByteAt(buf, 1) == 1;
    FieldInByte(buf, 0, 0, 6, 0);
    assert Low(2, 1) == 0 && Low(4, 2) == 0 && Low(8, 3) == 0;
    assert Low(16, 4) == 0 && Low(32, 5) == 0 && Low(64, 6) == 0;
    FieldInByte(buf, 0, 6, 2, 6);
    assert Shr(64, 6) == 1 && Low(1, 2) == 1;
    FieldInByte(buf, 1, 0, 2, 8);
    ShlIsMul(1, 4);
    assert Pow2(4) == 16;
    FieldInByte(buf, 0, 6, 1, 6);
    FieldInByte(buf, 0, 7, 1, 7);
    assert Low(Shr(64, 7), 1) == 0 && Low(1, 1) == 1;
    assert FieldAt(buf, 6, 4) == 2 * FieldAt(buf, 7, 3) + FieldAt(buf, 6, 1);
    assert FieldAt(buf, 7, 3) == 2 * FieldAt(buf, 8, 2) + FieldAt(buf, 7, 1);
  }
}
