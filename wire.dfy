/** Fixed-width unsigned integers and the big-endian field decoders of an
    ITCH 5.0 message (the reinterpretNbytes helpers of Vwap.H).

    A message is a sequence of bytes; a decoder reads a field of fixed width
    at a byte offset and returns its value in network byte order. The source
    loads the bytes with an unaligned pointer cast and swaps them with a
    compiler builtin; only the resulting byte-to-integer function is modelled,
    and the unchecked read becomes a length precondition. */
module Wire {

  type byte = x: int | 0 <= x < 0x100
  type uint16 = x: int | 0 <= x < 0x1_0000
  type uint32 = x: int | 0 <= x < 0x1_0000_0000
  type uint64 = x: int | 0 <= x < 0x1_0000_0000_0000_0000

  /** 256 to the power n. */
  function Pow256(n: nat): (r: nat)
    ensures r > 0
  {
    if n == 0 then 1 else 256 * Pow256(n - 1)
  }

  /** The reference decoding: the big-endian value of w, that is the sum of
      w[i] * 256^(|w| - 1 - i), written in Horner form. */
  function BigEndian(w: seq<byte>): nat
  {
    if |w| == 0 then 0 else BigEndian(w[..|w| - 1]) * 256 + w[|w| - 1]
  }

  /** The n-byte big-endian encoding of v: the inverse of BigEndian. */
  function Encode(v: nat, n: nat): (r: seq<byte>)
    requires v < Pow256(n)
    ensures |r| == n
    ensures BigEndian(r) == v
  {
    if n == 0 then []
    else
      var front := Encode(v / 256, n - 1);
      var r := front + [v % 256];
      assert r[..|r| - 1] == front;
      r
  }

  lemma {:induction false} BigEndianBound(w: seq<byte>)
    ensures BigEndian(w) < Pow256(|w|)
  {
    if |w| > 0 {
      BigEndianBound(w[..|w| - 1]);
    }
  }

  /** Decoding a concatenation: the front part is shifted past the back part. */
  lemma {:induction false} BigEndianConcat(a: seq<byte>, b: seq<byte>)
    ensures BigEndian(a + b) == BigEndian(a) * Pow256(|b|) + BigEndian(b)
  {
    if |b| == 0 {
      assert a + b == a;
    } else {
      var b' := b[..|b| - 1];
      assert (a + b)[..|a + b| - 1] == a + b';
      BigEndianConcat(a, b');
      calc {
        BigEndian(a + b);
        BigEndian(a + b') * 256 + b[|b| - 1];
        (BigEndian(a) * Pow256(|b'|) + BigEndian(b')) * 256 + b[|b| - 1];
        BigEndian(a) * (Pow256(|b'|) * 256) + (BigEndian(b') * 256 + b[|b| - 1]);
        BigEndian(a) * Pow256(|b|) + BigEndian(b);
      }
    }
  }

  /** Encoding the decoded value of w gives back w: BigEndian is injective
      on sequences of one length. */
  lemma {:induction false} EncodeBigEndian(w: seq<byte>)
    ensures BigEndian(w) < Pow256(|w|)
    ensures Encode(BigEndian(w), |w|) == w
  {
    BigEndianBound(w);
    if |w| > 0 {
      var front := w[..|w| - 1];
      EncodeBigEndian(front);
      assert BigEndian(w) / 256 == BigEndian(front);
      assert BigEndian(w) % 256 == w[|w| - 1];
      assert w == front + [w[|w| - 1]];
    }
  }

  /** One unfolding of BigEndian on a field of n bytes at off. */
  lemma FieldStep(msg: seq<byte>, off: nat, n: nat)
    requires 0 < n && off + n <= |msg|
    ensures BigEndian(msg[off..off + n]) == BigEndian(msg[off..off + n - 1]) * 256 + msg[off + n - 1]
  {
    assert msg[off..off + n][..n - 1] == msg[off..off + n - 1];
  }

  /** reinterpret2bytes: the 16-bit big-endian field at off. */
  function Read2Bytes(msg: seq<byte>, off: nat): uint16
    requires off + 2 <= |msg|
  {
    msg[off] as int * 0x100 + msg[off + 1]
  }

  /** reinterpret4bytes: the 32-bit big-endian field at off. */
  function Read4Bytes(msg: seq<byte>, off: nat): uint32
    requires off + 4 <= |msg|
  {
    msg[off] as int * 0x100_0000 + msg[off + 1] as int * 0x1_0000
    + msg[off + 2] as int * 0x100 + msg[off + 3]
  }

  /** reinterpret8bytes: the 64-bit big-endian field at off. */
  function Read8Bytes(msg: seq<byte>, off: nat): uint64
    requires off + 8 <= |msg|
  {
    msg[off] as int * 0x100_0000_0000_0000 + msg[off + 1] as int * 0x1_0000_0000_0000
    + msg[off + 2] as int * 0x100_0000_0000 + msg[off + 3] as int * 0x1_0000_0000
    + msg[off + 4] as int * 0x100_0000 + msg[off + 5] as int * 0x1_0000
    + msg[off + 6] as int * 0x100 + msg[off + 7]
  }

  /** reinterpret6bytes: loads the 64-bit big-endian word at off (eight bytes,
      as the source does), keeps its top 48 bits with the mask
      ((1 << 48) - 1) << 16 and shifts them down by 16. Clearing the low 16
      bits of x is written x - x % 2^16, the shift a division by 2^16. */
  function Read6Bytes(msg: seq<byte>, off: nat): uint64
    requires off + 8 <= |msg|
  {
    var word := Read8Bytes(msg, off);
    (word - word % 0x1_0000) / 0x1_0000
  }

  lemma Read2BytesValue(msg: seq<byte>, off: nat)
    requires off + 2 <= |msg|
    ensures Read2Bytes(msg, off) == BigEndian(msg[off..off + 2])
  {
    FieldStep(msg, off, 2);
    FieldStep(msg, off, 1);
  }

  lemma Read4BytesValue(msg: seq<byte>, off: nat)
    requires off + 4 <= |msg|
    ensures Read4Bytes(msg, off) == BigEndian(msg[off..off + 4])
  {
    assert msg[off..off + 4] == msg[off..off + 2] + msg[off + 2..off + 4];
    BigEndianConcat(msg[off..off + 2], msg[off + 2..off + 4]);
    Read2BytesValue(msg, off);
    Read2BytesValue(msg, off + 2);
    assert Pow256(2) == 0x1_0000;
  }

  lemma Read8BytesValue(msg: seq<byte>, off: nat)
    requires off + 8 <= |msg|
    ensures Read8Bytes(msg, off) == BigEndian(msg[off..off + 8])
  {
    assert msg[off..off + 8] == msg[off..off + 4] + msg[off + 4..off + 8];
    BigEndianConcat(msg[off..off + 4], msg[off + 4..off + 8]);
    Read4BytesValue(msg, off);
    Read4BytesValue(msg, off + 4);
    assert Pow256(4) == 0x1_0000_0000;
  }

  /** The 48-bit timestamp field: the value of bytes off..off+5 only, below 2^48. */
  lemma Read6BytesValue(msg: seq<byte>, off: nat)
    requires off + 8 <= |msg|
    ensures Read6Bytes(msg, off) == BigEndian(msg[off..off + 6])
    ensures Read6Bytes(msg, off) < 0x1_0000_0000_0000
  {
    var high, low := msg[off..off + 6], msg[off + 6..off + 8];
    assert msg[off..off + 8] == high + low;
    Read8BytesValue(msg, off);
    BigEndianConcat(high, low);
    BigEndianBound(high);
    BigEndianBound(low);
    assert Pow256(2) == 0x1_0000 && Pow256(6) == 0x1_0000_0000_0000;
    var word := Read8Bytes(msg, off);
    assert word == BigEndian(high) * 0x1_0000 + BigEndian(low);
    assert word % 0x1_0000 == BigEndian(low);
  }

  /** The timestamp decoder does not depend on the two bytes it loads past the field. */
  lemma Read6BytesIgnoresTail(msg: seq<byte>, msg': seq<byte>, off: nat)
    requires off + 8 <= |msg| && off + 8 <= |msg'|
    requires msg[off..off + 6] == msg'[off..off + 6]
    ensures Read6Bytes(msg, off) == Read6Bytes(msg', off)
  {
    Read6BytesValue(msg, off);
    Read6BytesValue(msg', off);
  }

  /** Decoding an encoded field at its offset gives back the value, whatever
      surrounds it; the timestamp decoder needs the two bytes it loads past
      its six-byte field. */
  lemma ReadEncoded(before: seq<byte>, v: nat, n: nat, after: seq<byte>)
    requires n in {2, 4, 6, 8} && v < Pow256(n)
    ensures var msg := before + Encode(v, n) + after;
      && (n == 2 ==> Read2Bytes(msg, |before|) == v)
      && (n == 4 ==> Read4Bytes(msg, |before|) == v)
      && (n == 6 && |after| >= 2 ==> Read6Bytes(msg, |before|) == v)
      && (n == 8 ==> Read8Bytes(msg, |before|) == v)
  {
    var msg := before + Encode(v, n) + after;
    assert msg[|before|..|before| + n] == Encode(v, n);
    if n == 2 {
      Read2BytesValue(msg, |before|);
    } else if n == 4 {
      Read4BytesValue(msg, |before|);
    } else if n == 6 {
      if |after| >= 2 {
        Read6BytesValue(msg, |before|);
      }
    } else {
      Read8BytesValue(msg, |before|);
    }
  }
}
