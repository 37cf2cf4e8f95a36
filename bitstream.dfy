/**
 * The codec's view of a message as a stream of bits: bit q of a buffer is bit
 * q % 8 of byte q / 8, so each byte is filled from its least significant bit
 * upward. Reading past the end of a buffer yields zero bits, as reading an
 * out-of-range Uint8Array index yields `undefined`, which every bitwise
 * operator treats as 0.
 */
module BitStream {
  import opened Bits

  /** Bit q of a bit sequence; positions past its end read as 0. */
  predicate At(bits: seq<bool>, q: nat)
  {
    q < |bits| && bits[q]
  }

  /** The unsigned value of the n bits starting at position s, lowest bit first. */
  function FromBits(bits: seq<bool>, s: nat, n: nat): nat
    decreases n
  {
    if n == 0 then 0 else 2 * FromBits(bits, s + 1, n - 1) + (if At(bits, s) then 1 else 0)
  }

  /** The low n bits of v, lowest first. */
  function ValueBits(v: int, n: nat): (r: seq<bool>)
    ensures |r| == n
    ensures forall j :: 0 <= j < n ==> r[j] == Bit(v, j)
  {
    seq(n, j requires 0 <= j < n => Bit(v, j))
  }

  /** n zero bits. */
  function Zeros(n: nat): (r: seq<bool>)
    ensures |r| == n
    ensures forall j :: 0 <= j < n ==> !r[j]
  {
    seq(n, j => false)
  }

  /** Byte i of a buffer, or 0 past its end. */
  function ByteAt(buf: seq<byte>, i: int): byte
  {
    if 0 <= i < |buf| then buf[i] else 0
  }

  /** The bit stream a byte buffer carries: its bytes' bits, byte after byte. */
  function BytesBits(s: seq<byte>): (r: seq<bool>)
    ensures |r| == 8 * |s|
  {
    if s == [] then [] else ValueBits(s[0], 8) + BytesBits(s[1..])
  }

  /** The first multiple of 8 at or after c: where alignToByte moves the cursor. */
  function AlignUp(c: nat): (r: nat)
    ensures r % 8 == 0 && c <= r < c + 8
  {
    (c + 7) / 8 * 8
  }

  /** Bit q of the stream a byte buffer carries. */
  predicate BitAt(buf: seq<byte>, q: nat)
  {
    Bit(ByteAt(buf, q / 8), q % 8)
  }

  /** The value of the n bits starting at bit c of a byte buffer, lowest first. */
  function FieldAt(buf: seq<byte>, c: nat, n: nat): nat
    decreases n
  {
    if n == 0 then 0 else 2 * FieldAt(buf, c + 1, n - 1) + (if BitAt(buf, c) then 1 else 0)
  }

  // ---------------------------------------------------------------------
  // Lemmas

  lemma {:induction false} FromBitsBit(bits: seq<bool>, s: nat, n: nat, j: nat)
    ensures Bit(FromBits(bits, s, n), j) == (j < n && At(bits, s + j))
    decreases n
  {
    if n == 0 {
      BitZero(j);
    } else {
      var rest := FromBits(bits, s + 1, n - 1);
      var b := if At(bits, s) then 1 else 0;
      assert FromBits(bits, s, n) == 2 * rest + b;
      if j > 0 {
        assert (2 * rest + b) / 2 == rest;
        FromBitsBit(bits, s + 1, n - 1, j - 1);
      }
    }
  }

  lemma {:induction false} FromBitsBound(bits: seq<bool>, s: nat, n: nat)
    ensures FromBits(bits, s, n) < Pow2(n)
    decreases n
  {
    if n > 0 {
      FromBitsBound(bits, s + 1, n - 1);
    }
  }

  /** The value of a field depends only on the bits inside it. */
  lemma {:induction false} FromBitsAgree(a: seq<bool>, b: seq<bool>, s: nat, n: nat)
    requires forall t :: s <= t < s + n ==> At(a, t) == At(b, t)
    ensures FromBits(a, s, n) == FromBits(b, s, n)
    decreases n
  {
    if n > 0 {
      FromBitsAgree(a, b, s + 1, n - 1);
    }
  }

  /** A field whose bits are the low n bits of v has the value of those bits. */
  lemma FromBitsOfValue(bits: seq<bool>, s: nat, n: nat, v: int)
    requires forall j :: 0 <= j < n ==> At(bits, s + j) == Bit(v, j)
    ensures FromBits(bits, s, n) == Low(v, n)
  {
    FromBitsBound(bits, s, n);
    LowBound(v, n);
    forall j | 0 <= j < n
      ensures Bit(FromBits(bits, s, n), j) == Bit(Low(v, n), j)
    {
      FromBitsBit(bits, s, n, j);
      BitLow(v, n, j);
    }
    BitsDetermine(FromBits(bits, s, n), Low(v, n), n);
  }

  /** A field that lies past the end of a bit sequence reads as 0. */
  lemma {:induction false} FromBitsPastEnd(bits: seq<bool>, s: nat, n: nat)
    requires |bits| <= s
    ensures FromBits(bits, s, n) == 0
    decreases n
  {
    if n > 0 {
      FromBitsPastEnd(bits, s + 1, n - 1);
    }
  }

  lemma {:induction false} FieldAtBit(buf: seq<byte>, c: nat, n: nat, j: nat)
    ensures Bit(FieldAt(buf, c, n), j) == (j < n && BitAt(buf, c + j))
    decreases n
  {
    if n == 0 {
      BitZero(j);
    } else {
      var rest := FieldAt(buf, c + 1, n - 1);
      var b := if BitAt(buf, c) then 1 else 0;
      assert FieldAt(buf, c, n) == 2 * rest + b;
      if j > 0 {
        assert (2 * rest + b) / 2 == rest;
        FieldAtBit(buf, c + 1, n - 1, j - 1);
      }
    }
  }

  lemma {:induction false} FieldAtBound(buf: seq<byte>, c: nat, n: nat)
    ensures FieldAt(buf, c, n) < Pow2(n)
    decreases n
  {
    if n > 0 {
      FieldAtBound(buf, c + 1, n - 1);
    }
  }

  /** A field of a buffer equals a field of any bit sequence that agrees with the buffer on its bits. */
  lemma {:induction false} FieldAgree(buf: seq<byte>, w: seq<bool>, c: nat, n: nat)
    requires forall q :: c <= q < c + n ==> BitAt(buf, q) == At(w, q)
    ensures FieldAt(buf, c, n) == FromBits(w, c, n)
    decreases n
  {
    if n > 0 {
      FieldAgree(buf, w, c + 1, n - 1);
    }
  }

  /**
   * Within one byte, a field is that byte shifted down and masked, as the
   * reader computes it. (The field's position c is a parameter of its own so
   * that callers name it exactly as they use it.)
   */
  lemma FieldInByte(buf: seq<byte>, i: nat, p: nat, n: nat, c: nat)
    requires p + n <= 8 && c == 8 * i + p
    ensures FieldAt(buf, c, n) == Low(Shr(ByteAt(buf, i), p), n)
  {
    var x := ByteAt(buf, i);
    FieldAtBound(buf, c, n);
    LowBound(Shr(x, p), n);
    forall j | 0 <= j < n
      ensures Bit(FieldAt(buf, c, n), j) == Bit(Low(Shr(x, p), n), j)
    {
      FieldAtBit(buf, c, n, j);
      BitLow(Shr(x, p), n, j);
      BitShr(x, p, j);
      assert (c + j) / 8 == i && (c + j) % 8 == p + j;
    }
    BitsDetermine(FieldAt(buf, c, n), Low(Shr(x, p), n), n);
  }

  /** A whole byte read from the stream is the byte itself. */
  lemma WholeByte(buf: seq<byte>, i: nat, c: nat)
    requires c == 8 * i
    ensures FieldAt(buf, c, 8) == ByteAt(buf, i)
  {
    FieldInByte(buf, i, 0, 8, c);
    assert Shr(ByteAt(buf, i), 0) == ByteAt(buf, i);
    assert Pow2(8) == 256;
    LowOfSmall(ByteAt(buf, i), 8);
  }

  /** Bit j of byte k of a byte string sits at position 8k + j of its bits. */
  lemma {:induction false} BytesBitsAt(s: seq<byte>, k: nat, j: nat)
    requires k < |s| && j < 8
    ensures BytesBits(s)[8 * k + j] == Bit(s[k], j)
  {
    if k > 0 {
      BytesBitsAt(s[1..], k - 1, j);
      assert BytesBits(s) == ValueBits(s[0], 8) + BytesBits(s[1..]);
    }
  }

  lemma AtAppend(a: seq<bool>, b: seq<bool>, t: nat)
    ensures At(a + b, t) == if t < |a| then At(a, t) else At(b, t - |a|)
  {
  }

  /** Appending zero bits changes no bit of the stream. */
  lemma AtZeros(a: seq<bool>, n: nat, t: nat)
    ensures At(a + Zeros(n), t) == At(a, t)
  {
  }
}
