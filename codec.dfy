/**
 * The bit-packed message codec of src/lib/network.ts: MessageWriter packs
 * fields into a fixed 2024-byte buffer, low bits first; MessageReader takes
 * them back out of a received buffer; WriteChoice / ReadChoice put a vote on
 * the wire.
 *
 * The writer is specified by the bit stream it has produced so far (the ghost
 * field Written); the reader by its cursor, the number of bits it has
 * consumed. The pure functions ReadBitsAt, StringAt, ChoiceAt and friends say
 * what a read at a given cursor returns and where it leaves the cursor.
 */
module Codec {
  import opened Bits
  import opened BitStream
  import opened Types

  /** The size of the writer's buffer. */
  const BufferSize: nat := 2024

  /** A value read from a buffer, with the cursor the read leaves behind. */
  datatype Parsed<T> = Parsed(value: T, next: nat)

  function Min(a: int, b: int): int
  {
    if a < b then a else b
  }

  // ---------------------------------------------------------------------
  // Writer

  /** Every byte of a buffer is the byte of the bit stream w at its position. */
  ghost predicate Holds(bytes: seq<byte>, w: seq<bool>)
  {
    forall i {:trigger bytes[i]} :: 0 <= i < |bytes| ==> bytes[i] == FromBits(w, 8 * i, 8)
  }

  /** Extending a stream leaves the bytes that lie wholly before or wholly after the extension alone. */
  lemma OtherByteUnchanged(w: seq<bool>, ext: seq<bool>, i: nat)
    requires 8 * i + 8 <= |w| || |w| + |ext| <= 8 * i
    ensures FromBits(w, 8 * i, 8) == FromBits(w + ext, 8 * i, 8)
  {
    forall t | 8 * i <= t < 8 * i + 8
      ensures At(w, t) == At(w + ext, t)
    {
      AtAppend(w, ext, t);
    }
    FromBitsAgree(w, w + ext, 8 * i, 8);
  }

  /** Bit j of the byte that holds the stream's end, after the low k bits of x are OR-ed in at p. */
  lemma WriteIntoByteBit(w: seq<bool>, x: int, k: nat, i: nat, p: nat, j: nat)
    requires |w| == 8 * i + p && p + k <= 8 && j < 8
    ensures Bit(Or(FromBits(w, 8 * i, 8), Shl(Low(x, k), p)), j) == Bit(FromBits(w + ValueBits(x, k), 8 * i, 8), j)
  {
    BitOr(FromBits(w, 8 * i, 8), Shl(Low(x, k), p), j);
    FromBitsBit(w, 8 * i, 8, j);
    FromBitsBit(w + ValueBits(x, k), 8 * i, 8, j);
    BitShl(Low(x, k), p, j);
    if j >= p {
      BitLow(x, k, j - p);
    }
    AtAppend(w, ValueBits(x, k), 8 * i + j);
  }

  /** OR-ing `(x & mask) << p` into the byte that holds the stream's end appends the low k bits of x. */
  lemma WriteIntoByte(w: seq<bool>, x: int, k: nat, i: nat, p: nat)
    requires |w| == 8 * i + p && p + k <= 8
    ensures Or(FromBits(w, 8 * i, 8), Shl(Low(x, k), p)) == FromBits(w + ValueBits(x, k), 8 * i, 8)
  {
    var before := FromBits(w, 8 * i, 8);
    var chunk := Shl(Low(x, k), p);
    var after := FromBits(w + ValueBits(x, k), 8 * i, 8);
    FromBitsBound(w, 8 * i, 8);
    FromBitsBound(w + ValueBits(x, k), 8 * i, 8);
    LowBound(x, k);
    ShlBound(Low(x, k), k, p);
    Pow2Mono(k + p, 8);
    OrBound(before, chunk, 8);
    forall j | 0 <= j < 8
      ensures Bit(Or(before, chunk), j) == Bit(after, j)
    {
      WriteIntoByteBit(w, x, k, i, p, j);
    }
    BitsDetermine(Or(before, chunk), after, 8);
  }

  /** One step of writeBits: OR-ing a chunk into byte o keeps the buffer holding the extended stream. */
  lemma WriteStep(bytes: seq<byte>, w: seq<bool>, x: int, k: nat, o: nat, p: nat)
    requires Holds(bytes, w) && |w| == 8 * o + p && p + k <= 8
    ensures o < |bytes| ==> Or(bytes[o], Shl(Low(x, k), p)) < 256
    ensures o < |bytes| ==> Holds(bytes[o := Or(bytes[o], Shl(Low(x, k), p))], w + ValueBits(x, k))
    ensures o >= |bytes| ==> Holds(bytes, w + ValueBits(x, k))
  {
    var w' := w + ValueBits(x, k);
    WriteIntoByte(w, x, k, o, p);
    FromBitsBound(w', 8 * o, 8);
    assert Pow2(8) == 256;
    forall i | 0 <= i < |bytes| && i != o
      ensures bytes[i] == FromBits(w', 8 * i, 8)
    {
      OtherByteUnchanged(w, ValueBits(x, k), i);
    }
  }

  /**
   * The state of writeBits after bitsWritten of the num bits of value,
   * started on stream start: bytes is the buffer, o and rem the writer's
   * offset and bitsRemaining, w the stream written so far.
   */
  ghost predicate Writing(bytes: seq<byte>, start: seq<bool>, value: int, num: nat, o: nat, rem: nat, bitsWritten: nat, w: seq<bool>)
  {
    && bitsWritten <= num
    && 1 <= rem <= 8
    && o * 8 + 8 - rem == |w|
    && w == start + ValueBits(value, bitsWritten)
    && Holds(bytes, w)
  }

  /** The chunk writeBits ORs into the current byte keeps it a byte. */
  lemma ChunkFits(bytes: seq<byte>, w: seq<bool>, x: int, k: nat, o: nat, p: nat)
    requires Holds(bytes, w) && |w| == 8 * o + p && p + k <= 8 && o < |bytes|
    ensures Or(bytes[o], Shl(Low(x, k), p)) < 256
  {
    WriteStep(bytes, w, x, k, o, p);
  }

  /** One pass of the writeBits loop: k more bits of value go into byte o at bit 8 - rem. */
  lemma WriteBitsStep(bytes: seq<byte>, start: seq<bool>, value: int, num: nat, o: nat, rem: nat, bw: nat, w: seq<bool>,
                      k: nat, bytes': seq<byte>, o': nat, rem': nat, bw': nat, w': seq<bool>)
    requires Writing(bytes, start, value, num, o, rem, bw, w)
    requires bw < num && k == Min(rem, num - bw)
    requires o < |bytes| ==> Or(bytes[o], Shl(Low(Shr(value, bw), k), 8 - rem)) < 256
    requires o < |bytes| ==> bytes' == bytes[o := Or(bytes[o], Shl(Low(Shr(value, bw), k), 8 - rem))]
    requires o >= |bytes| ==> bytes' == bytes
    requires rem - k == 0 ==> o' == o + 1 && rem' == 8
    requires rem - k != 0 ==> o' == o && rem' == rem - k
    requires bw' == bw + k && w' == w + ValueBits(Shr(value, bw), k)
    ensures Writing(bytes', start, value, num, o', rem', bw', w')
  {
    ValueBitsSplit(value, bw, k);
    assert w + ValueBits(Shr(value, bw), k) == start + (ValueBits(value, bw) + ValueBits(Shr(value, bw), k));
    WriteStep(bytes, w, Shr(value, bw), k, o, 8 - rem);
  }

  /** The low bits of v, taken bw at a time, add up to the low bits of v. */
  lemma ValueBitsSplit(v: int, bw: nat, k: nat)
    ensures ValueBits(v, bw) + ValueBits(Shr(v, bw), k) == ValueBits(v, bw + k)
  {
    var a := ValueBits(v, bw) + ValueBits(Shr(v, bw), k);
    forall j | 0 <= j < bw + k
      ensures a[j] == ValueBits(v, bw + k)[j]
    {
      if j >= bw {
        BitShr(v, bw, j - bw);
      }
    }
  }

  /** A stream padded with zero bits to the next byte boundary. */
  function Aligned(w: seq<bool>): (r: seq<bool>)
    ensures |r| == AlignUp(|w|) && |r| % 8 == 0
    ensures forall t :: At(r, t) == At(w, t)
  {
    var r := w + Zeros(AlignUp(|w|) - |w|);
    assert forall t :: At(r, t) == At(w, t) by {
      forall t ensures At(r, t) == At(w, t) {
        AtZeros(w, AlignUp(|w|) - |w|, t);
      }
    }
    r
  }

  /** Aligning a stream that ends on a byte boundary changes nothing. */
  lemma AlignedAligned(w: seq<bool>)
    requires |w| % 8 == 0
    ensures Aligned(w) == w
  {
    assert AlignUp(|w|) == |w|;
    assert w + Zeros(0) == w;
  }

  /** Where alignment moves a cursor that is inside byte o with rem bits of it left. */
  lemma AlignUpAt(o: nat, rem: nat, c: nat)
    requires 1 <= rem <= 8 && c == 8 * o + 8 - rem
    ensures AlignUp(c) == if rem < 8 then 8 * o + 8 else 8 * o
  {
    if rem < 8 {
      assert c + 7 == 8 * (o + 1) + (7 - rem);
    } else {
      assert c + 7 == 8 * o + 7;
    }
  }

  /** Appending zero bits leaves every byte as it was. */
  lemma PadStep(bytes: seq<byte>, w: seq<bool>, n: nat)
    requires Holds(bytes, w)
    ensures Holds(bytes, w + Zeros(n))
  {
    forall i | 0 <= i < |bytes|
      ensures FromBits(w, 8 * i, 8) == FromBits(w + Zeros(n), 8 * i, 8)
    {
      forall t | 8 * i <= t < 8 * i + 8
        ensures At(w, t) == At(w + Zeros(n), t)
      {
        AtZeros(w, n, t);
      }
      FromBitsAgree(w, w + Zeros(n), 8 * i, 8);
    }
  }

  /** Byte k of a string written at a byte boundary is the string's byte. */
  lemma StringByte(w: seq<bool>, s: seq<byte>, a: nat, k: nat, i: nat)
    requires |w| == 8 * a && k < |s| && i == a + k
    ensures FromBits(w + BytesBits(s) + Zeros(8), 8 * i, 8) == s[k]
  {
    var w' := w + BytesBits(s) + Zeros(8);
    forall j | 0 <= j < 8
      ensures At(w', 8 * i + j) == Bit(s[k], j)
    {
      BytesBitsAt(s, k, j);
      assert 8 * i + j == |w| + (8 * k + j);
      assert w'[8 * i + j] == BytesBits(s)[8 * k + j];
    }
    FromBitsOfValue(w', 8 * i, 8, s[k]);
    assert Pow2(8) == 256;
    LowOfSmall(s[k], 8);
  }

  /** A byte past a string and its terminator is 0 before and after. */
  lemma ByteAfterString(w: seq<bool>, s: seq<byte>, a: nat, i: nat)
    requires |w| == 8 * a && a + |s| <= i
    ensures FromBits(w + BytesBits(s) + Zeros(8), 8 * i, 8) == 0 == FromBits(w, 8 * i, 8)
  {
    var w' := w + BytesBits(s) + Zeros(8);
    forall t | 8 * i <= t < 8 * i + 8
      ensures At(w', t) == At([], t)
    {
      if t < |w'| {
        assert w'[t] == Zeros(8)[t - |w| - 8 * |s|];
      }
    }
    FromBitsAgree(w', [], 8 * i, 8);
    FromBitsPastEnd([], 8 * i, 8);
    FromBitsPastEnd(w, 8 * i, 8);
  }

  /** A byte wholly before a string written at byte a is unchanged by it. */
  lemma ByteBeforeString(w: seq<bool>, s: seq<byte>, i: nat)
    requires 8 * i + 8 <= |w|
    ensures FromBits(w, 8 * i, 8) == FromBits(w + BytesBits(s) + Zeros(8), 8 * i, 8)
  {
    OtherByteUnchanged(w, BytesBits(s) + Zeros(8), i);
    assert w + BytesBits(s) + Zeros(8) == w + (BytesBits(s) + Zeros(8));
  }

  /** Byte i of a buffer into which s is copied at byte a. */
  lemma SpliceAt(bytes: seq<byte>, s: seq<byte>, a: nat, i: nat)
    requires a + |s| <= |bytes| && i < |bytes|
    ensures |bytes[..a] + s + bytes[a + |s|..]| == |bytes|
    ensures (bytes[..a] + s + bytes[a + |s|..])[i] == if a <= i < a + |s| then s[i - a] else bytes[i]
  {
  }

  /** One byte of StringStep. */
  lemma StringStepByte(bytes: seq<byte>, w: seq<bool>, s: seq<byte>, a: nat, i: nat)
    requires |w| == 8 * a && a + |s| <= |bytes| && i < |bytes|
    requires bytes[i] == FromBits(w, 8 * i, 8)
    ensures (bytes[..a] + s + bytes[a + |s|..])[i] == FromBits(w + BytesBits(s) + Zeros(8), 8 * i, 8)
  {
    SpliceAt(bytes, s, a, i);
    if i < a {
      ByteBeforeString(w, s, i);
    } else if i < a + |s| {
      StringByte(w, s, a, i - a, i);
    } else {
      ByteAfterString(w, s, a, i);
    }
  }

  /** writeString at byte a: the buffer with the string copied in holds the stream with the string and its terminator. */
  lemma StringStep(bytes: seq<byte>, w: seq<bool>, s: seq<byte>, a: nat)
    requires Holds(bytes, w) && |w| == 8 * a && a + |s| <= |bytes|
    ensures Holds(bytes[..a] + s + bytes[a + |s|..], w + BytesBits(s) + Zeros(8))
  {
    var b' := bytes[..a] + s + bytes[a + |s|..];
    forall i | 0 <= i < |b'|
      ensures b'[i] == FromBits(w + BytesBits(s) + Zeros(8), 8 * i, 8)
    {
      assert bytes[i] == FromBits(w, 8 * i, 8);
      StringStepByte(bytes, w, s, a, i);
    }
  }

  /** The buffer after writeString has copied s in at byte a holds the stream with s and its terminator. */
  lemma CopyStep(bytes: seq<byte>, copied: seq<byte>, w: seq<bool>, s: seq<byte>, a: nat)
    requires Holds(bytes, w) && |w| == 8 * a && a + |s| <= |bytes| == |copied|
    requires forall k :: 0 <= k < |s| ==> copied[a + k] == s[k]
    requires forall j :: 0 <= j < |bytes| && !(a <= j < a + |s|) ==> copied[j] == bytes[j]
    ensures Holds(copied, w + BytesBits(s) + Zeros(8))
  {
    StringStep(bytes, w, s, a);
    forall j | 0 <= j < |bytes|
      ensures copied[j] == (bytes[..a] + s + bytes[a + |s|..])[j]
    {
      SpliceAt(bytes, s, a, j);
      if a <= j < a + |s| {
        assert copied[a + (j - a)] == s[j - a];
      }
    }
    assert copied == bytes[..a] + s + bytes[a + |s|..];
  }

  /** A buffer that holds a stream to its end carries it bit for bit. */
  lemma HoldsBit(bytes: seq<byte>, w: seq<bool>, q: nat)
    requires Holds(bytes, w) && |w| <= 8 * |bytes|
    ensures BitAt(bytes, q) == At(w, q)
  {
    var i := q / 8;
    if i < |bytes| {
      assert bytes[i] == FromBits(w, 8 * i, 8);
      FromBitsBit(w, 8 * i, 8, q % 8);
    } else {
      BitZero(q % 8);
    }
  }

  /**
   * The writer of a message. Written is the bit stream written so far; the
   * buffer holds its first 2024 bytes, and the cursor (offset, bitsRemaining)
   * sits at its end.
   */
  class MessageWriter {
    const buf: array<byte>
    var offset: nat
    var bitsRemaining: nat
    ghost var Written: seq<bool>

    ghost predicate Valid()
      reads this, buf
    {
      && buf.Length == BufferSize
      && 1 <= bitsRemaining <= 8
      && offset * 8 + 8 - bitsRemaining == |Written|
      && Holds(buf[..], Written)
    }

    constructor ()
      ensures Valid() && fresh(buf) && Written == []
    {
      buf := new byte[BufferSize](_ => 0);
      offset := 0;
      bitsRemaining := 8;
      Written := [];
      new;
      forall i | 0 <= i < BufferSize
        ensures buf[i] == FromBits([], 8 * i, 8)
      {
        FromBitsPastEnd([], 8 * i, 8);
      }
    }

    /** writeBits: append the low num bits of value to the stream. */
    method WriteBits(num: nat, value: int)
      requires Valid() && num <= 32
      modifies this, buf
      ensures Valid()
      ensures Written == old(Written) + ValueBits(value, num)
    {
      ghost var start := Written;
      var bitsWritten: nat := 0;
      while bitsWritten < num
        invariant Writing(buf[..], start, value, num, offset, bitsRemaining, bitsWritten, Written)
        decreases num - bitsWritten
      {
        ghost var (bytes, o, rem, w) := (buf[..], offset, bitsRemaining, Written);
        var bitsToWrite := num - bitsWritten;
        var k := if bitsRemaining < bitsToWrite then bitsRemaining else bitsToWrite;
        var chunk := Shl(Low(Shr(value, bitsWritten), k), 8 - bitsRemaining);
        if offset < buf.Length {
          ChunkFits(bytes, w, Shr(value, bitsWritten), k, offset, 8 - bitsRemaining);
          buf[offset] := Or(buf[offset], chunk);
          assert buf[..] == bytes[o := Or(bytes[o], chunk)];
        }
        if bitsRemaining < bitsToWrite {
          offset := offset + 1;
          bitsRemaining := 8;
        } else {
          bitsRemaining := bitsRemaining - bitsToWrite;
          if bitsRemaining == 0 {
            offset := offset + 1;
            bitsRemaining := 8;
          }
        }
        ghost var bw := bitsWritten;
        Written := Written + ValueBits(Shr(value, bitsWritten), k);
        bitsWritten := bitsWritten + k;
        WriteBitsStep(bytes, start, value, num, o, rem, bw, w, k, buf[..], offset, bitsRemaining, bitsWritten, Written);
      }
    }

    /** alignToByte: skip to the next byte boundary; the skipped bits stay 0. */
    method AlignToByte()
      requires Valid()
      modifies this
      ensures Valid()
      ensures Written == Aligned(old(Written))
    {
      ghost var pad := AlignUp(|Written|) - |Written|;
      AlignUpAt(offset, bitsRemaining, |Written|);
      PadStep(buf[..], Written, pad);
      Written := Written + Zeros(pad);
      if bitsRemaining < 8 {
        bitsRemaining := 8;
        offset := offset + 1;
      }
    }

    /**
     * writeString: align, then copy the string's bytes and leave a zero
     * terminator after them. ok is false when the bytes do not fit in the
     * buffer (Uint8Array.set throws a RangeError); the alignment has then
     * already happened and nothing else changes.
     */
    method WriteString(value: seq<byte>) returns (ok: bool)
      requires Valid()
      modifies this, buf
      ensures Valid()
      ensures ok == (AlignUp(|old(Written)|) / 8 + |value| <= BufferSize)
      ensures Written == if ok then Aligned(old(Written)) + BytesBits(value) + Zeros(8)
                         else Aligned(old(Written))
    {
      AlignToByte();
      if offset + |value| > buf.Length {
        ok := false;
        return;
      }
      ghost var bytes := buf[..];
      forall k | 0 <= k < |value| {
        buf[offset + k] := value[k];
      }
      CopyStep(bytes, buf[..], Written, value, offset);
      Written := Written + BytesBits(value) + Zeros(8);
      offset := offset + |value| + 1;
      bitsRemaining := 8;
      ok := true;
    }

    /**
     * finalize: the bytes written so far, up to and including a partly
     * filled last byte, at most the whole buffer. They hold the stream, and
     * carry all of it when it fits.
     */
    method Finalize() returns (r: seq<byte>)
      requires Valid()
      ensures |r| == Min(BufferSize, if bitsRemaining < 8 then offset + 1 else offset)
      ensures |r| == Min(BufferSize, (|Written| + 7) / 8)
      ensures r == buf[..|r|] && Holds(r, Written)
      ensures |Written| <= 8 * BufferSize ==> forall q :: BitAt(r, q) == At(Written, q)
    {
      var end := if bitsRemaining < 8 then offset + 1 else offset;
      r := buf[..Min(buf.Length, end)];
      assert forall i :: 0 <= i < |r| ==> r[i] == buf[..][i];
      if |Written| <= 8 * BufferSize {
        forall q: nat
          ensures BitAt(r, q) == At(Written, q)
        {
          HoldsBit(r, Written, q);
        }
      }
    }
  }

  // ---------------------------------------------------------------------
  // What a read at a cursor returns

  /**
   * readBits(n) at cursor c. A field that fits in the current byte is read
   * whole. A field that starts inside a byte and runs past it is put back
   * together with its first part shifted up by n, not by the width of the
   * second part: this is what the reader computes.
   */
  function ReadBitsAt(buf: seq<byte>, c: nat, n: nat): (r: nat)
    ensures n == 0 ==> r == 0
    ensures c % 8 + n <= 8 ==> r < Pow2(n)
  {
    var p := c % 8;
    if p != 0 && 8 - p < n then
      Shl(FieldAt(buf, c, 8 - p), n) + FieldAt(buf, c + 8 - p, n - (8 - p))
    else
      FieldAtBound(buf, c, n);
      FieldAt(buf, c, n)
  }

  /** readBitsArray(n, len) at cursor c: len consecutive reads of n bits. */
  function BitsArrayAt(buf: seq<byte>, c: nat, n: nat, len: nat): (r: seq<nat>)
    ensures |r| == len
    decreases len
  {
    if len == 0 then [] else [ReadBitsAt(buf, c, n)] + BitsArrayAt(buf, c + n, n, len - 1)
  }

  /** Reading len > 0 values is reading one and then len - 1 more; so is appending them. */
  lemma BitsArrayStep(buf: seq<byte>, c: nat, n: nat, len: nat, x: nat, c': nat, prefix: seq<nat>)
    requires len > 0 && x == ReadBitsAt(buf, c, n) && c' == c + n
    ensures prefix + BitsArrayAt(buf, c, n, len) == prefix + [x] + BitsArrayAt(buf, c', n, len - 1)
  {
    assert BitsArrayAt(buf, c, n, len) == [x] + BitsArrayAt(buf, c', n, len - 1);
    assert prefix + ([x] + BitsArrayAt(buf, c', n, len - 1)) == prefix + [x] + BitsArrayAt(buf, c', n, len - 1);
  }

  /** The first zero byte at index i or later, or -1 if there is none. */
  function NextZero(buf: seq<byte>, i: nat): (r: int)
    ensures r == -1 ==> forall k :: i <= k < |buf| ==> buf[k] != 0
    ensures r != -1 ==> i <= r < |buf| && buf[r] == 0 && forall k :: i <= k < r ==> buf[k] != 0
    decreases |buf| - i
  {
    if i >= |buf| then -1 else if buf[i] == 0 then i else NextZero(buf, i + 1)
  }

  /** An index argument of Uint8Array.subarray, resolved against the length. */
  function Clamp(i: int, len: nat): (r: nat)
    ensures r <= len
    ensures 0 <= i <= len ==> r == i
    ensures i < 0 ==> r == if len + i < 0 then 0 else len + i
    ensures i > len ==> r == len
  {
    if i < 0 then (if len + i < 0 then 0 else len + i) else if i > len then len else i
  }

  /** Uint8Array.subarray(b, e) as a value. */
  function Subarray(buf: seq<byte>, b: int, e: int): (r: seq<byte>)
    ensures |r| <= |buf|
    ensures 0 <= b <= e <= |buf| ==> r == buf[b..e]
    ensures forall k :: 0 <= k < |r| ==> Clamp(b, |buf|) + k < |buf| && r[k] == buf[Clamp(b, |buf|) + k]
  {
    var lo := Clamp(b, |buf|);
    var hi := Clamp(e, |buf|);
    if lo < hi then buf[lo..hi] else []
  }

  /**
   * readString at cursor c: align, take the bytes up to the next zero and
   * move past it. Without a terminator the result is subarray(start, -1)
   * and the reader's offset becomes 0.
   */
  function StringAt(buf: seq<byte>, c: nat): (r: Parsed<seq<byte>>)
    ensures forall k :: 0 <= k < |r.value| ==> r.value[k] != 0
    ensures var t := NextZero(buf, AlignUp(c) / 8);
            if t == -1 then r.next == 0
            else r.value == buf[AlignUp(c) / 8..t] && r.next == 8 * t + 8 && r.next > c
  {
    var a := AlignUp(c) / 8;
    var t := NextZero(buf, a);
    Parsed(Subarray(buf, a, t), (t + 1) * 8)
  }

  /** readStringArray(len) at cursor c. */
  function StringsAt(buf: seq<byte>, c: nat, len: nat): (r: Parsed<seq<seq<byte>>>)
    ensures |r.value| == len
    decreases len
  {
    if len == 0 then Parsed([], c)
    else
      var first := StringAt(buf, c);
      var rest := StringsAt(buf, first.next, len - 1);
      Parsed([first.value] + rest.value, rest.next)
  }

  /** The tag readChoice goes by: the caller's, or 2 bits read at cursor c. */
  function ChoiceTagAt(buf: seq<byte>, c: nat, tag: Option<nat>): nat
  {
    if tag.Some? then tag.value else ReadBitsAt(buf, c, 2)
  }

  /** What readChoice reads for tag t once it has aligned to byte boundary a. */
  function PayloadAt(buf: seq<byte>, t: nat, a: nat): Parsed<Choice>
  {
    if t == SingleNumber then
      Parsed(Number(ReadBitsAt(buf, a, 8)), a + 8)
    else if t == SingleString then
      var s := StringAt(buf, a);
      Parsed(Text(s.value), s.next)
    else if t == TwoNumbers then
      Parsed(Pair(ReadBitsAt(buf, a, 8), ReadBitsAt(buf, a + 8, 8)), a + 16)
    else
      Parsed(NoChoice, a)
  }

  /** Reading k > 0 strings is reading one and then k - 1 more; so is appending them. */
  lemma StringsStep(buf: seq<byte>, c: nat, k: nat, str: seq<byte>, c': nat, prefix: seq<seq<byte>>)
    requires k > 0 && StringAt(buf, c) == Parsed(str, c')
    ensures prefix + StringsAt(buf, c, k).value == prefix + [str] + StringsAt(buf, c', k - 1).value
    ensures StringsAt(buf, c, k).next == StringsAt(buf, c', k - 1).next
  {
    assert StringsAt(buf, c, k).value == [str] + StringsAt(buf, c', k - 1).value;
    assert prefix + ([str] + StringsAt(buf, c', k - 1).value) == prefix + [str] + StringsAt(buf, c', k - 1).value;
  }

  /**
   * readChoice at cursor c: the tag is read from the stream unless the caller
   * supplies it; the reader then always aligns, whatever the tag.
   */
  function ChoiceAt(buf: seq<byte>, c: nat, tag: Option<nat>): (r: Parsed<Choice>)
    ensures ChoiceTagAt(buf, c, tag) < 4 ==> ChoiceTag(r.value) == ChoiceTagAt(buf, c, tag)
    ensures ChoiceTagAt(buf, c, tag) >= 4 ==> r.value == NoChoice
    ensures r.value.Number? ==> r.value.n < Pow2(8)
    ensures r.value.Pair? ==> r.value.first < Pow2(8) && r.value.second < Pow2(8)
  {
    PayloadAt(buf, ChoiceTagAt(buf, c, tag), AlignUp(if tag.Some? then c else c + 2))
  }

  /** readChoice reads the payload its tag calls for at the aligned cursor a. */
  lemma ChoiceRead(buf: seq<byte>, c: nat, tag: Option<nat>, t: nat, a: nat, ch: Choice, c': nat)
    requires tag.Some? ==> t == tag.value && a == AlignUp(c)
    requires tag.None? ==> t == ReadBitsAt(buf, c, 2) && a == AlignUp(c + 2)
    requires Parsed(ch, c') == PayloadAt(buf, t, a)
    ensures Parsed(ch, c') == ChoiceAt(buf, c, tag)
  {
  }

  lemma PayloadNumber(buf: seq<byte>, t: nat, a: nat, n: nat, c': nat)
    requires t == SingleNumber && n == ReadBitsAt(buf, a, 8) && c' == a + 8
    ensures Parsed(Number(n), c') == PayloadAt(buf, t, a)
  {
  }

  lemma PayloadString(buf: seq<byte>, t: nat, a: nat, s: seq<byte>, c': nat)
    requires t == SingleString && Parsed(s, c') == StringAt(buf, a)
    ensures Parsed(Text(s), c') == PayloadAt(buf, t, a)
  {
  }

  lemma PayloadPair(buf: seq<byte>, t: nat, a: nat, arr: seq<nat>, c': nat)
    requires t == TwoNumbers && arr == BitsArrayAt(buf, a, 8, 2) && c' == a + 2 * 8
    ensures Parsed(Pair(arr[0], arr[1]), c') == PayloadAt(buf, t, a)
  {
    assert arr == [ReadBitsAt(buf, a, 8)] + ([ReadBitsAt(buf, a + 8, 8)] + []);
  }

  lemma PayloadNone(buf: seq<byte>, t: nat, a: nat)
    requires t > TwoNumbers
    ensures Parsed(NoChoice, a) == PayloadAt(buf, t, a)
  {
  }

  /** The choices of a Sync message, each read with the tag sent for it. */
  function ChoicesAt(buf: seq<byte>, c: nat, tags: seq<nat>): (r: Parsed<seq<Choice>>)
    ensures |r.value| == |tags|
    decreases |tags|
  {
    if tags == [] then Parsed([], c)
    else
      var first := ChoiceAt(buf, c, Some(tags[0]));
      var rest := ChoicesAt(buf, first.next, tags[1..]);
      Parsed([first.value] + rest.value, rest.next)
  }

  // ---------------------------------------------------------------------
  // Reader

  /** A read of n <= rem bits from the byte before offset, rem bits of which are unread. */
  lemma ReadInsideByte(buf: seq<byte>, o: nat, rem: nat, n: nat, c: nat)
    requires 1 <= n <= rem <= 8 && o >= 1 && c == 8 * o - rem
    ensures Low(Shr(ByteAt(buf, o - 1), 8 - rem), n) == ReadBitsAt(buf, c, n)
  {
    assert c % 8 == 0 || 8 - c % 8 == rem;
    NoStraddle(buf, c, n);
    FieldInByte(buf, o - 1, 8 - rem, n, c);
  }

  /** A read that does not cross a byte boundary is the plain field. */
  lemma NoStraddle(buf: seq<byte>, c: nat, n: nat)
    requires c % 8 == 0 || 8 - c % 8 >= n
    ensures ReadBitsAt(buf, c, n) == FieldAt(buf, c, n)
  {
  }

  /**
   * A read of n bits that crosses a byte boundary at bit p of its first
   * byte: the m = 8 - p bits before the boundary, shifted up by n, plus the
   * k = n - m bits after it.
   */
  lemma Straddle(buf: seq<byte>, c: nat, n: nat, p: nat, m: nat, k: nat)
    requires p == c % 8 && p != 0 && m == 8 - p && m < n && k == n - m
    ensures ReadBitsAt(buf, c, n) == Shl(FieldAt(buf, c, m), n) + FieldAt(buf, c + m, k)
  {
  }

  /** A field that starts at the beginning of byte o - 1 is that byte, masked. */
  lemma FieldFromByteStart(buf: seq<byte>, c: nat, k: nat, o: nat)
    requires 8 * (o - 1) == c && o >= 1 && k <= 8
    ensures FieldAt(buf, c, k) == Low(ByteAt(buf, o - 1), k)
  {
    FieldInByte(buf, o - 1, 0, k, c);
    assert Shr(ByteAt(buf, o - 1), 0) == ByteAt(buf, o - 1);
  }

  /** The unread rem bits of byte i, p of which are already read, are the field that starts at the cursor. */
  lemma RestOfByte(buf: seq<byte>, i: nat, p: nat, rem: nat, c: nat)
    requires p + rem == 8 && c == 8 * i + p
    ensures Shr(ByteAt(buf, i), p) == FieldAt(buf, c, rem)
  {
    FieldInByte(buf, i, p, rem, c);
    LowOfShrByte(ByteAt(buf, i), p, rem);
  }

  /** A read that straddles a byte boundary, as readBits puts it together from two bytes. */
  lemma ReadStraddle(buf: seq<byte>, c: nat, n: nat, first: nat, o: nat, p: nat, m: nat, k: nat)
    requires p == c % 8 && p != 0 && m == 8 - p && m < n <= 8 && k == n - m
    requires first == FieldAt(buf, c, m) && 8 * (o - 1) == c + m && o >= 1
    ensures Or(Shl(first, n), Low(ByteAt(buf, o - 1), k)) == ReadBitsAt(buf, c, n)
  {
    Straddle(buf, c, n, p, m, k);
    FieldFromByteStart(buf, c + m, k, o);
    LowBound(ByteAt(buf, o - 1), k);
    OrShlFits(first, n, Low(ByteAt(buf, o - 1), k), k);
  }

  /**
   * The state of readBits after bitsRead of num bits, started at cursor c0:
   * o, bits and rem are the reader's offset, held bits and bitsRemaining,
   * b the value assembled so far.
   */
  ghost predicate Reading(buf: seq<byte>, c0: nat, num: nat, o: nat, bits: nat, rem: nat, bitsRead: nat, b: nat)
  {
    && bitsRead <= num <= 8
    && rem <= 8 && (rem > 0 ==> o >= 1)
    && bits == (if rem == 0 then 0 else Shr(ByteAt(buf, o - 1), 8 - rem))
    && o * 8 - rem == c0 + bitsRead
    && (rem == 8 ==> bitsRead < num)
    && (bitsRead == 0 ==> b == 0)
    && (0 < bitsRead < num ==> rem == 8 && bitsRead < 8 && b == FieldAt(buf, c0, bitsRead))
    && (bitsRead == num ==> b == ReadBitsAt(buf, c0, num))
  }

  /** Loading the next byte: the bits still held are the field at the cursor. */
  lemma ReadLoad(buf: seq<byte>, o: nat, rem: nat, c0: nat, bits: nat, b: nat, bitsRead: nat)
    requires rem < 8 && (rem > 0 ==> o >= 1) && 8 * o - rem == c0
    requires bits == (if rem == 0 then 0 else Shr(ByteAt(buf, o - 1), 8 - rem))
    requires b == 0 && bitsRead == 0
    ensures Or(Shl(b, bitsRead + rem), bits) == (if rem == 0 then 0 else FieldAt(buf, c0, rem))
  {
    ShlZero(rem);
    if rem > 0 {
      RestOfByte(buf, o - 1, 8 - rem, rem, c0);
    }
  }

  /** The last step of readBits: the bits it combines are the read at the starting cursor. */
  lemma ReadFinish(buf: seq<byte>, o: nat, rem: nat, c0: nat, bitsRead: nat, b: nat, num: nat, t: nat, bits: nat)
    requires bitsRead < num <= 8 && t == num - bitsRead && t <= rem <= 8 && o >= 1
    requires 8 * o - rem == c0 + bitsRead
    requires bits == (if rem == 0 then 0 else Shr(ByteAt(buf, o - 1), 8 - rem))
    requires bitsRead == 0 ==> b == 0
    requires bitsRead > 0 ==> rem == 8 && bitsRead < 8 && b == FieldAt(buf, c0, bitsRead)
    ensures Or(Shl(b, t + bitsRead), Low(bits, t)) == ReadBitsAt(buf, c0, num)
  {
    assert t + bitsRead == num;
    if bitsRead == 0 {
      ShlZero(t + bitsRead);
      assert t == num && c0 == 8 * o - rem && bits == Shr(ByteAt(buf, o - 1), 8 - rem);
      ReadInsideByte(buf, o, rem, t, c0);
    } else {
      assert c0 % 8 == 8 - bitsRead;
      assert bits == ByteAt(buf, o - 1);
      ReadStraddle(buf, c0, num, b, o, 8 - bitsRead, bitsRead, t);
    }
  }

  /** The branch of readBits that loads the next byte. */
  lemma ReadLoadStep(buf: seq<byte>, c0: nat, num: nat, o: nat, bits: nat, rem: nat, bitsRead: nat, b: nat,
                     o': nat, bits': nat, rem': nat, bitsRead': nat, b': nat)
    requires Reading(buf, c0, num, o, bits, rem, bitsRead, b)
    requires bitsRead < num && rem < num - bitsRead
    requires o' == o + 1 && bits' == ByteAt(buf, o) && rem' == 8 && bitsRead' == bitsRead + rem
    requires b' == Or(Shl(b, bitsRead + rem), bits)
    ensures Reading(buf, c0, num, o', bits', rem', bitsRead', b')
  {
    ReadLoad(buf, o, rem, c0, bits, b, bitsRead);
    assert ByteAt(buf, o) == Shr(ByteAt(buf, o + 1 - 1), 8 - 8);
  }

  /** The branch of readBits that takes the last t bits from the held byte. */
  lemma ReadFinishStep(buf: seq<byte>, c0: nat, num: nat, o: nat, bits: nat, rem: nat, bitsRead: nat, b: nat, t: nat,
                       bits': nat, rem': nat, bitsRead': nat, b': nat)
    requires Reading(buf, c0, num, o, bits, rem, bitsRead, b)
    requires bitsRead < num && t == num - bitsRead && t <= rem
    requires bits' == Shr(bits, t) && rem' == rem - t && bitsRead' == num
    requires b' == Or(Shl(b, t + bitsRead), Low(bits, t))
    ensures Reading(buf, c0, num, o, bits', rem', bitsRead', b')
  {
    ReadFinish(buf, o, rem, c0, bitsRead, b, num, t, bits);
    HeldAfter(buf, o, rem, t, bits);
  }

  /** Taking t bits from the held ones leaves the rest of the same byte held. */
  lemma HeldAfter(buf: seq<byte>, o: nat, rem: nat, t: nat, bits: nat)
    requires 0 < t <= rem <= 8 && o >= 1 && bits == Shr(ByteAt(buf, o - 1), 8 - rem)
    ensures Shr(bits, t) == (if rem - t == 0 then 0 else Shr(ByteAt(buf, o - 1), 8 - (rem - t)))
  {
    ShrRest(ByteAt(buf, o - 1), 8 - rem, t, 8 - (rem - t));
  }

  /** Dropping t more bits of a byte of which a are already dropped leaves e = a + t dropped. */
  lemma ShrRest(x: byte, a: nat, t: nat, e: nat)
    requires a + t == e <= 8
    ensures 0 <= Shr(x, a) && Shr(Shr(x, a), t) == Shr(x, e) && 0 <= Shr(x, e)
    ensures e == 8 ==> Shr(x, e) == 0
  {
    ShrByte(x, a, 8 - a);
    ShrShr(x, a, t);
    ShrByte(x, e, 8 - e);
    assert Pow2(0) == 1;
  }

  /**
   * The reader of a received message. The cursor is offset * 8 minus the
   * bits of the last loaded byte not yet consumed; `bits` holds those bits.
   */
  class MessageReader {
    const buf: seq<byte>
    var offset: nat
    var bits: nat
    var bitsRemaining: nat

    ghost predicate Valid()
      reads this
    {
      && bitsRemaining < 8
      && (bitsRemaining > 0 ==> offset >= 1)
      && bits == (if bitsRemaining == 0 then 0 else Shr(ByteAt(buf, offset - 1), 8 - bitsRemaining))
    }

    ghost function Cursor(): nat
      reads this
      requires Valid()
    {
      offset * 8 - bitsRemaining
    }

    constructor (data: seq<byte>)
      ensures Valid() && buf == data && Cursor() == 0
    {
      buf := data;
      offset := 0;
      bits := 0;
      bitsRemaining := 0;
    }

    /** readBits(num) for the widths the protocol uses (at most 8). */
    method ReadBits(num: nat) returns (b: nat)
      requires Valid() && num <= 8
      modifies this
      ensures Valid() && Cursor() == old(Cursor()) + num
      ensures b == ReadBitsAt(buf, old(Cursor()), num)
    {
      ghost var c0 := Cursor();
      b := 0;
      var bitsRead: nat := 0;
      while bitsRead < num
        invariant Reading(buf, c0, num, offset, bits, bitsRemaining, bitsRead, b)
        decreases num - bitsRead, 8 - bitsRemaining
      {
        var bitsToRead := num - bitsRead;
        ghost var (o, held, rem, done, acc) := (offset, bits, bitsRemaining, bitsRead, b);
        if bitsRemaining < bitsToRead {
          b := Or(Shl(b, bitsRead + bitsRemaining), bits);
          bitsRead := bitsRead + bitsRemaining;
          bits := ByteAt(buf, offset);
          offset := offset + 1;
          bitsRemaining := 8;
          ReadLoadStep(buf, c0, num, o, held, rem, done, acc, offset, bits, bitsRemaining, bitsRead, b);
        } else {
          b := Or(Shl(b, bitsToRead + bitsRead), Low(bits, bitsToRead));
          bits := Shr(bits, bitsToRead);
          bitsRemaining := bitsRemaining - bitsToRead;
          bitsRead := num;
          ReadFinishStep(buf, c0, num, o, held, rem, done, acc, bitsToRead, bits, bitsRemaining, bitsRead, b);
        }
      }
    }

    /** readBitsArray(num, length): length reads of num bits in a row. */
    method ReadBitsArray(num: nat, length: nat) returns (arr: seq<nat>)
      requires Valid() && num <= 8
      modifies this
      ensures Valid() && Cursor() == old(Cursor()) + length * num
      ensures arr == BitsArrayAt(buf, old(Cursor()), num, length)
    {
      ghost var c0 := Cursor();
      ghost var whole := BitsArrayAt(buf, c0, num, length);
      arr := [];
      for i := 0 to length
        invariant Valid() && Cursor() == c0 + i * num
        invariant whole == arr + BitsArrayAt(buf, Cursor(), num, length - i)
      {
        ghost var rest := length - i;
        ghost var c := Cursor();
        var x := ReadBits(num);
        ghost var c' := Cursor();
        BitsArrayStep(buf, c, num, rest, x, c', arr);
        arr := arr + [x];
        assert length - (i + 1) == rest - 1;
        assert (i + 1) * num == i * num + num;
      }
      assert arr + [] == arr;
    }

    /** alignToByte: drop the unread bits of the current byte. */
    method AlignToByte()
      requires Valid()
      modifies this
      ensures Valid() && bitsRemaining == 0 && Cursor() == AlignUp(old(Cursor()))
    {
      bitsRemaining := 0;
      bits := 0;
    }

    /** #findNextZeroTerminator(start). */
    method FindNextZeroTerminator(start: nat) returns (t: int)
      ensures t == NextZero(buf, start)
    {
      var i := start;
      while i < |buf|
        invariant start <= i
        invariant NextZero(buf, start) == NextZero(buf, i)
        decreases |buf| - i
      {
        if buf[i] == 0 {
          return i;
        }
        i := i + 1;
      }
      return -1;
    }

    /** readString. */
    method ReadString() returns (s: seq<byte>)
      requires Valid()
      modifies this
      ensures Valid() && bitsRemaining == 0
      ensures Parsed(s, Cursor()) == StringAt(buf, old(Cursor()))
    {
      AlignToByte();
      var term := FindNextZeroTerminator(offset);
      s := Subarray(buf, offset, term);
      offset := term + 1;
    }

    /** readStringArray(length). */
    method ReadStringArray(length: nat) returns (strings: seq<seq<byte>>)
      requires Valid()
      modifies this
      ensures Valid()
      ensures Parsed(strings, Cursor()) == StringsAt(buf, old(Cursor()), length)
    {
      ghost var whole := StringsAt(buf, Cursor(), length);
      strings := [];
      for i := 0 to length
        invariant Valid()
        invariant whole.value == strings + StringsAt(buf, Cursor(), length - i).value
        invariant whole.next == StringsAt(buf, Cursor(), length - i).next
      {
        ghost var rest := length - i;
        ghost var c := Cursor();
        var s := ReadString();
        ghost var c' := Cursor();
        StringsStep(buf, c, rest, s, c', strings);
        strings := strings + [s];
        assert length - (i + 1) == rest - 1;
      }
      assert strings + [] == strings;
    }
  }

  // ---------------------------------------------------------------------
  // Choices

  /** Whether writeChoice at cursor c completes: a string must fit in the buffer. */
  predicate ChoiceFits(c: nat, ch: Choice)
  {
    ch.Text? ==> AlignUp(c + 2) / 8 + |ch.s| <= BufferSize
  }

  /**
   * The stream after writeChoice appends ch to w: a 2-bit tag, then, except
   * for null, padding to the next byte and the payload. A number is sent in
   * 8 bits; a string as its bytes and a zero terminator.
   */
  function WithChoice(w: seq<bool>, ch: Choice): seq<bool>
  {
    var tagged := w + ValueBits(ChoiceTag(ch), 2);
    match ch
    case NoChoice => tagged
    case Number(n) => Aligned(tagged) + ValueBits(n, 8)
    case Text(s) => Aligned(tagged) + BytesBits(s) + Zeros(8)
    case Pair(x, y) => Aligned(tagged) + ValueBits(x, 8) + ValueBits(y, 8)
  }

  /** writeChoice. ok is false when a string does not fit (the RangeError of writeString). */
  method WriteChoice(w: MessageWriter, ch: Choice) returns (ok: bool)
    requires w.Valid()
    modifies w, w.buf
    ensures w.Valid()
    ensures ok == ChoiceFits(|old(w.Written)|, ch)
    ensures ok ==> w.Written == WithChoice(old(w.Written), ch)
    ensures !ok ==> w.Written == Aligned(old(w.Written) + ValueBits(SingleString, 2))
  {
    ok := true;
    match ch
    case Number(n) =>
      w.WriteBits(2, SingleNumber);
      w.AlignToByte();
      w.WriteBits(8, n);
    case Text(s) =>
      w.WriteBits(2, SingleString);
      w.AlignToByte();
      AlignedAligned(w.Written);
      ok := w.WriteString(s);
    case Pair(x, y) =>
      w.WriteBits(2, TwoNumbers);
      w.AlignToByte();
      w.WriteBits(8, x);
      w.WriteBits(8, y);
    case NoChoice =>
      w.WriteBits(2, NoneTag);
  }

  /** The payload half of readChoice: what tag t calls for, read at an aligned cursor. */
  method ReadPayload(r: MessageReader, t: nat) returns (ch: Choice)
    requires r.Valid()
    modifies r
    ensures r.Valid()
    ensures Parsed(ch, r.Cursor()) == PayloadAt(r.buf, t, old(r.Cursor()))
  {
    ghost var a := r.Cursor();
    if t == SingleNumber {
      var n := r.ReadBits(8);
      ch := Number(n);
      PayloadNumber(r.buf, t, a, n, r.Cursor());
    } else if t == SingleString {
      var s := r.ReadString();
      ch := Text(s);
      PayloadString(r.buf, t, a, s, r.Cursor());
    } else if t == TwoNumbers {
      var arr := r.ReadBitsArray(8, 2);
      ch := Pair(arr[0], arr[1]);
      PayloadPair(r.buf, t, a, arr, r.Cursor());
    } else {
      ch := NoChoice;
      PayloadNone(r.buf, t, a);
    }
  }

  /** readChoice(choiceType): the tag is read only when the caller does not supply it. */
  method ReadChoice(r: MessageReader, tag: Option<nat>) returns (ch: Choice)
    requires r.Valid()
    modifies r
    ensures r.Valid()
    ensures Parsed(ch, r.Cursor()) == ChoiceAt(r.buf, old(r.Cursor()), tag)
  {
    ghost var c := r.Cursor();
    var t: nat;
    if tag.None? {
      t := r.ReadBits(2);
    } else {
      t := tag.value;
    }
    ghost var tagEnd := r.Cursor();
    r.AlignToByte();
    ghost var a := r.Cursor();
    assert a == AlignUp(tagEnd);
    ch := ReadPayload(r, t);
    ChoiceRead(r.buf, c, tag, t, a, ch, r.Cursor());
  }
}
