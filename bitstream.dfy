/** The engine's byte stream (source/core/Bitstream.cpp): a growable byte
    vector with a read cursor. Integers are written most significant byte
    first, strings as their bytes followed by a NUL byte, floats by their
    32-bit pattern. */
module Bitstreams {

  /** An unsigned byte, a 16-bit and a 32-bit unsigned word. */
  type Byte = x: int | 0 <= x < 0x100
  type U16 = x: int | 0 <= x < 0x1_0000
  type U32 = x: int | 0 <= x < 0x1_0000_0000

  /** Bytes the uint32 writer pushes, most significant first. */
  function U32Bytes(v: U32): (bs: seq<Byte>)
    ensures |bs| == 4
    ensures bs[0] == v / 0x100_0000 && bs[3] == v % 0x100
  {
    [v / 0x100 / 0x100 / 0x100, v / 0x100 / 0x100 % 0x100, v / 0x100 % 0x100, v % 0x100]
  }

  /** The word the uint32 reader assembles from the next four bytes. */
  function DecodeU32(bs: seq<Byte>): (v: U32)
    requires |bs| >= 4
  {
    var hi: int := bs[0] as int * 0x100 + bs[1];
    var mid: int := hi * 0x100 + bs[2];
    mid * 0x100 + bs[3]
  }

  /** Decoding the bytes of a word gives the word back. */
  lemma U32RoundTrip(v: U32)
    ensures DecodeU32(U32Bytes(v)) == v
  {
    var q1 := v / 0x100;
    var q2 := q1 / 0x100;
    assert v == q1 * 0x100 + v % 0x100;
    assert q1 == q2 * 0x100 + q1 % 0x100;
    assert q2 == (q2 / 0x100) * 0x100 + q2 % 0x100;
  }

  /** The uint32 reader sees only the next four bytes. */
  lemma DecodeWordAt(bs: seq<Byte>, w: U32)
    requires |bs| >= 4 && bs[..4] == U32Bytes(w)
    ensures DecodeU32(bs) == w
  {
    U32RoundTrip(w);
    assert DecodeU32(bs) == DecodeU32(bs[..4]);
  }

  /** Encoding a decoded word gives back the four bytes it came from. */
  lemma U32DecodeEncode(bs: seq<Byte>)
    requires |bs| >= 4
    ensures U32Bytes(DecodeU32(bs)) == bs[..4]
  {
    var hi: int := bs[0] as int * 0x100 + bs[1];
    var mid: int := hi * 0x100 + bs[2];
    DivModByte(mid, bs[3]);
    DivModByte(hi, bs[2]);
    DivModByte(bs[0], bs[1]);
  }

  lemma DivModByte(a: int, b: Byte)
    requires a >= 0
    ensures (a * 0x100 + b) / 0x100 == a && (a * 0x100 + b) % 0x100 == b
  {
  }

  /** Bytes the uint16 writer pushes as written: the "high byte" is `val << 8`
      cut down to a byte, which is always 0. */
  function U16BytesAsWritten(v: U16): (bs: seq<Byte>)
    ensures |bs| == 2 && bs[0] == 0 && bs[1] == v % 0x100
  {
    [(v * 0x100) % 0x100, v % 0x100]
  }

  /** Bytes of the uint16 writer as its comment describes it: high byte, then low byte. */
  function U16Bytes(v: U16): (bs: seq<Byte>)
    ensures |bs| == 2 && bs[0] == v / 0x100
    ensures DecodeU16(bs) == v
  {
    [v / 0x100, v % 0x100]
  }

  /** The value the uint16 reader assembles from the next two bytes. */
  function DecodeU16(bs: seq<Byte>): (v: U16)
    requires |bs| >= 2
  {
    bs[0] as int * 0x100 + bs[1]
  }

  /** Decoding two bytes and re-encoding them gives the same bytes. */
  lemma U16DecodeEncode(bs: seq<Byte>)
    requires |bs| >= 2
    ensures U16Bytes(DecodeU16(bs)) == bs[..2]
  {
  }

  /** A uint16 written as the source writes it reads back as its low byte only. */
  lemma U16AsWrittenKeepsLowByte(v: U16)
    ensures DecodeU16(U16BytesAsWritten(v)) == v % 0x100
  {
  }

  /** The smallest uint16 that does not survive the as-written round trip. */
  lemma U16AsWrittenLoses256()
    ensures DecodeU16(U16BytesAsWritten(0x100)) == 0 != 0x100
  {
  }

  /** Two's complement reading of a 32-bit pattern (the int32 reader's cast). */
  function ToSigned32(v: U32): (x: int)
    ensures -0x8000_0000 <= x < 0x8000_0000
    ensures (x < 0) == (v >= 0x8000_0000)
  {
    if v < 0x8000_0000 then v else v - 0x1_0000_0000
  }

  /** The 32-bit pattern of an int32 (the int32 writer's cast to uint32). */
  function ToUnsigned32(x: int): (v: U32)
    requires -0x8000_0000 <= x < 0x8000_0000
    ensures ToSigned32(v) == x
  {
    if x < 0 then x + 0x1_0000_0000 else x
  }

  /** Two's complement reading of a byte (the int8 reader's cast). */
  function ToSigned8(b: Byte): (x: int)
    ensures -0x80 <= x < 0x80
    ensures (x < 0) == (b >= 0x80)
  {
    if b < 0x80 then b else b - 0x100
  }

  /** The byte pattern of an int8 (the int8 writer's cast to uint8). */
  function ToUnsigned8(x: int): (b: Byte)
    requires -0x80 <= x < 0x80
    ensures ToSigned8(b) == x
  {
    if x < 0 then x + 0x100 else x
  }

  /** The 16-bit pattern of an int16 (the int16 writer's cast to uint16). */
  function ToUnsigned16(x: int): (v: U16)
    requires -0x8000 <= x < 0x8000
    ensures (if v < 0x8000 then v else v - 0x1_0000) == x
  {
    if x < 0 then x + 0x1_0000 else x
  }

  /** Index of the first NUL byte of `s`, if there is one. */
  function FirstNul(s: seq<Byte>): (k: nat)
    ensures k <= |s|
    ensures k < |s| ==> s[k] == 0
    ensures forall i :: 0 <= i < k ==> s[i] != 0
  {
    if s == [] || s[0] == 0 then 0 else 1 + FirstNul(s[1..])
  }

  /** What the string reader produces from the unread bytes `rest`, and how
      many bytes it pops: it stops after a NUL, or when the stream runs dry,
      in which case the last byte popped is dropped. */
  function StringRead(rest: seq<Byte>): (res: (seq<Byte>, nat))
    requires |rest| > 0
    ensures 0 < res.1 <= |rest|
    ensures res.0 == rest[..res.1 - 1]
    ensures forall i :: 0 <= i < |res.0| ==> res.0[i] != 0
  {
    var k := FirstNul(rest);
    if k < |rest| then (rest[..k], k + 1) else (rest[..|rest| - 1], |rest|)
  }

  /** A NUL-free string followed by its terminator reads back whole, and
      exactly its bytes and the NUL are consumed. */
  lemma {:induction false} StringRoundTrip(s: seq<Byte>, tail: seq<Byte>)
    requires forall i :: 0 <= i < |s| ==> s[i] != 0
    ensures StringRead(s + [0] + tail) == (s, |s| + 1)
  {
    var w := s + [0] + tail;
    FirstNulOfTerminated(s, tail);
    assert w[..|s|] == s;
  }

  lemma {:induction false} FirstNulOfTerminated(s: seq<Byte>, tail: seq<Byte>)
    requires forall i :: 0 <= i < |s| ==> s[i] != 0
    ensures FirstNul(s + [0] + tail) == |s|
  {
    if s != [] {
      assert (s + [0] + tail)[1..] == s[1..] + [0] + tail;
      FirstNulOfTerminated(s[1..], tail);
    }
  }

  /** A stream whose last bytes hold no NUL loses its final byte on read. */
  lemma UnterminatedDropsLastByte(rest: seq<Byte>)
    requires |rest| > 0
    requires forall i :: 0 <= i < |rest| ==> rest[i] != 0
    ensures StringRead(rest) == (rest[..|rest| - 1], |rest|)
  {
  }

  class Bitstream {
    var stream: seq<Byte>
    var front: nat

    ghost predicate Valid()
      reads this
    {
      front <= |stream|
    }

    /** The bytes that have not been read yet. */
    ghost function Unread(): seq<Byte>
      reads this
      requires Valid()
    {
      stream[front..]
    }

    constructor ()
      ensures Valid() && stream == [] && front == 0
    {
      stream := [];
      front := 0;
    }

    method Clear()
      modifies this
      ensures Valid() && stream == [] && front == 0
    {
      front := 0;
      stream := [];
    }

    function IsEmpty(): (e: bool)
      reads this
      requires Valid()
      ensures e <==> Unread() == []
    {
      front >= |stream|
    }

    function ByteLength(): (n: nat)
      reads this
      requires Valid()
      ensures n == |Unread()|
    {
      |stream| - front
    }

    /** Moves the cursor to `offset`, but never past the end of the stream. */
    method Rewind(offset: nat)
      requires Valid()
      modifies this
      ensures Valid() && stream == old(stream)
      ensures front <= |stream|
      ensures front == if offset <= |stream| then offset else |stream|
      ensures Unread() == old(stream)[front..]
    {
      front := offset;
      if front > |stream| {
        front := |stream|;
      }
    }

    /** Two streams are equal when their cursors and all their bytes agree. */
    method Equals(other: Bitstream) returns (eq: bool)
      requires Valid() && other.Valid()
      ensures eq <==> (front == other.front && stream == other.stream)
    {
      if ByteLength() != other.ByteLength() {
        return false;
      }
      if front != other.front {
        return false;
      }
      var i := 0;
      while i < |stream|
        invariant 0 <= i <= |stream| == |other.stream|
        invariant stream[..i] == other.stream[..i]
      {
        if stream[i] != other.stream[i] {
          return false;
        }
        i := i + 1;
      }
      assert stream == stream[..i] && other.stream == other.stream[..i];
      return true;
    }

    method PopByte() returns (b: Byte)
      requires Valid() && !IsEmpty()
      modifies this
      ensures Valid() && stream == old(stream) && front == old(front) + 1
      ensures [b] + Unread() == old(Unread())
    {
      b := stream[front];
      front := front + 1;
    }

    method PushByte(b: Byte)
      requires Valid()
      modifies this
      ensures Valid() && stream == old(stream) + [b] && front == old(front)
      ensures Unread() == old(Unread()) + [b] && !IsEmpty()
    {
      stream := stream + [b];
    }

    /** Pushes every byte of `bs` in order. */
    method PushBytes(bs: seq<Byte>)
      requires Valid()
      modifies this
      ensures Valid() && stream == old(stream) + bs && front == old(front)
    {
      var i := 0;
      while i < |bs|
        invariant 0 <= i <= |bs|
        invariant Valid() && stream == old(stream) + bs[..i] && front == old(front)
      {
        PushByte(bs[i]);
        assert bs[..i + 1] == bs[..i] + [bs[i]];
        i := i + 1;
      }
      assert bs[..i] == bs;
    }

    method WriteU8(v: Byte)
      requires Valid()
      modifies this
      ensures Valid() && stream == old(stream) + [v] && front == old(front)
    {
      PushByte(v);
    }

    /** The uint16 writer as written: its first byte is always 0. */
    method WriteU16AsWritten(v: U16)
      requires Valid()
      modifies this
      ensures Valid() && stream == old(stream) + U16BytesAsWritten(v) && front == old(front)
    {
      PushByte((v * 0x100) % 0x100);
      PushByte(v % 0x100);
    }

    /** The uint16 writer pushing the high byte, then the low byte. */
    method WriteU16(v: U16)
      requires Valid()
      modifies this
      ensures Valid() && stream == old(stream) + U16Bytes(v) && front == old(front)
    {
      PushByte(v / 0x100);
      PushByte(v % 0x100);
    }

    method WriteU32(v: U32)
      requires Valid()
      modifies this
      ensures Valid() && stream == old(stream) + U32Bytes(v) && front == old(front)
    {
      PushByte(v / 0x100_0000);
      PushByte((v / 0x1_0000) % 0x100);
      PushByte((v / 0x100) % 0x100);
      PushByte(v % 0x100);
    }

    method WriteI8(x: int)
      requires Valid() && -0x80 <= x < 0x80
      modifies this
      ensures Valid() && stream == old(stream) + [ToUnsigned8(x)] && front == old(front)
    {
      WriteU8(ToUnsigned8(x));
    }

    /** The int16 writer goes through the uint16 writer, so it inherits its defect. */
    method WriteI16(x: int)
      requires Valid() && -0x8000 <= x < 0x8000
      modifies this
      ensures Valid() && front == old(front)
      ensures stream == old(stream) + U16BytesAsWritten(ToUnsigned16(x))
    {
      WriteU16AsWritten(ToUnsigned16(x));
    }

    method WriteI32(x: int)
      requires Valid() && -0x8000_0000 <= x < 0x8000_0000
      modifies this
      ensures Valid() && stream == old(stream) + U32Bytes(ToUnsigned32(x)) && front == old(front)
    {
      WriteU32(ToUnsigned32(x));
    }

    /** A float32 is written as its 32-bit pattern. */
    method WriteF32(bits: U32)
      requires Valid()
      modifies this
      ensures Valid() && stream == old(stream) + U32Bytes(bits) && front == old(front)
    {
      WriteU32(bits);
    }

    /** A float64 is written as its two 32-bit words in memory order. */
    method WriteF64(word0: U32, word1: U32)
      requires Valid()
      modifies this
      ensures Valid() && stream == old(stream) + U32Bytes(word0) + U32Bytes(word1)
      ensures front == old(front)
    {
      WriteU32(word0);
      WriteU32(word1);
    }

    /** Appends every byte of `rhs`, read or not, leaving `rhs` untouched. */
    method WriteStream(rhs: Bitstream)
      requires Valid() && rhs != this
      modifies this
      ensures Valid() && stream == old(stream) + rhs.stream && front == old(front)
    {
      var i := 0;
      while i < |rhs.stream|
        invariant 0 <= i <= |rhs.stream|
        invariant Valid() && stream == old(stream) + rhs.stream[..i] && front == old(front)
      {
        WriteU8(rhs.stream[i]);
        assert rhs.stream[..i + 1] == rhs.stream[..i] + [rhs.stream[i]];
        i := i + 1;
      }
      assert rhs.stream[..i] == rhs.stream;
    }

    /** Writes each byte of `s`, then a NUL terminator. */
    method WriteString(s: seq<Byte>)
      requires Valid()
      modifies this
      ensures Valid() && stream == old(stream) + s + [0] && front == old(front)
    {
      var i := 0;
      while i < |s|
        invariant 0 <= i <= |s|
        invariant Valid() && stream == old(stream) + s[..i] && front == old(front)
      {
        PushByte(s[i]);
        assert s[..i + 1] == s[..i] + [s[i]];
        i := i + 1;
      }
      assert s[..i] == s;
      PushByte(0);
    }

    method ReadU8() returns (v: Byte)
      requires Valid() && !IsEmpty()
      modifies this
      ensures Valid() && stream == old(stream) && front == old(front) + 1
      ensures v == old(Unread())[0]
    {
      v := PopByte();
    }

    /** Reads two bytes, high byte first. */
    method ReadU16() returns (v: U16)
      requires Valid() && ByteLength() >= 2
      modifies this
      ensures Valid() && stream == old(stream) && front == old(front) + 2
      ensures v == DecodeU16(old(Unread()))
    {
      var b0 := PopByte();
      var b1 := PopByte();
      v := b0 as int * 0x100 + b1;
    }

    /** Reads four bytes, most significant first. */
    method ReadU32() returns (v: U32)
      requires Valid() && ByteLength() >= 4
      modifies this
      ensures Valid() && stream == old(stream) && front == old(front) + 4
      ensures v == DecodeU32(old(Unread()))
    {
      var b0 := PopByte();
      var b1 := PopByte();
      var b2 := PopByte();
      var b3 := PopByte();
      v := (((b0 as int * 0x100) + b1) * 0x100 + b2) * 0x100 + b3;
    }

    method ReadI8() returns (x: int)
      requires Valid() && !IsEmpty()
      modifies this
      ensures Valid() && stream == old(stream) && front == old(front) + 1
      ensures x == ToSigned8(old(Unread())[0])
    {
      var u := ReadU8();
      x := ToSigned8(u);
    }

    method ReadI16() returns (x: int)
      requires Valid() && ByteLength() >= 2
      modifies this
      ensures Valid() && stream == old(stream) && front == old(front) + 2
      ensures -0x8000 <= x < 0x8000
      ensures var u := DecodeU16(old(Unread())); x == if u < 0x8000 then u as int else u as int - 0x1_0000
    {
      var u := ReadU16();
      x := if u < 0x8000 then u as int else u as int - 0x1_0000;
    }

    method ReadI32() returns (x: int)
      requires Valid() && ByteLength() >= 4
      modifies this
      ensures Valid() && stream == old(stream) && front == old(front) + 4
      ensures x == ToSigned32(DecodeU32(old(Unread())))
    {
      var u := ReadU32();
      x := ToSigned32(u);
    }

    method ReadF32() returns (bits: U32)
      requires Valid() && ByteLength() >= 4
      modifies this
      ensures Valid() && stream == old(stream) && front == old(front) + 4
      ensures bits == DecodeU32(old(Unread()))
    {
      bits := ReadU32();
    }

    method ReadF64() returns (word0: U32, word1: U32)
      requires Valid() && ByteLength() >= 8
      modifies this
      ensures Valid() && stream == old(stream) && front == old(front) + 8
      ensures word0 == DecodeU32(old(Unread())) && word1 == DecodeU32(old(Unread())[4..])
    {
      word0 := ReadU32();
      word1 := ReadU32();
    }

    /** Writes every byte of this stream, read or not, into `rhs` without
        consuming anything here. */
    method ReadStream(rhs: Bitstream)
      requires Valid() && rhs.Valid() && rhs != this
      modifies rhs
      ensures rhs.Valid() && rhs.stream == old(rhs.stream) + stream && rhs.front == old(rhs.front)
    {
      rhs.WriteStream(this);
    }

    /** Pops bytes up to and including a NUL, or until the stream runs dry. */
    method ReadString() returns (s: seq<Byte>)
      requires Valid() && !IsEmpty()
      modifies this
      ensures Valid() && stream == old(stream)
      ensures (s, front - old(front)) == StringRead(old(Unread()))
    {
      ghost var rest := Unread();
      s := [];
      var c := PopByte();
      while c != 0 && !IsEmpty()
        invariant Valid() && stream == old(stream)
        invariant old(front) < front
        invariant c == rest[front - old(front) - 1]
        invariant s == rest[..front - old(front) - 1]
        invariant forall i :: 0 <= i < |s| ==> s[i] != 0
        decreases |stream| - front
      {
        s := s + [c];
        c := PopByte();
      }
      ghost var n := front - old(front);
      if c == 0 {
        assert rest[n - 1] == 0 && rest[..n - 1] == s;
      } else {
        assert n == |rest| && rest[..n - 1] == s;
      }
    }
  }

  /** A uint32 written to a fresh stream reads back unchanged. */
  method U32StreamRoundTrip(v: U32) returns (r: U32)
    ensures r == v
  {
    var s := new Bitstream();
    s.WriteU32(v);
    r := s.ReadU32();
  }

  /** An int32 written to a fresh stream reads back unchanged. */
  method I32StreamRoundTrip(x: int) returns (r: int)
    requires -0x8000_0000 <= x < 0x8000_0000
    ensures r == x
  {
    var s := new Bitstream();
    s.WriteI32(x);
    r := s.ReadI32();
  }

  /** A uint16 written by the as-written writer reads back as its low byte. */
  method U16StreamRoundTripAsWritten(v: U16) returns (r: U16)
    ensures r == v % 0x100
  {
    var s := new Bitstream();
    s.WriteU16AsWritten(v);
    r := s.ReadU16();
    U16AsWrittenKeepsLowByte(v);
  }

  /** A uint16 written high byte first reads back unchanged. */
  method U16StreamRoundTrip(v: U16) returns (r: U16)
    ensures r == v
  {
    var s := new Bitstream();
    s.WriteU16(v);
    r := s.ReadU16();
  }

  /** A NUL-free string written to a fresh stream reads back unchanged and
      leaves the stream empty. */
  method StringStreamRoundTrip(str: seq<Byte>) returns (r: seq<Byte>, left: nat)
    requires forall i :: 0 <= i < |str| ==> str[i] != 0
    ensures r == str && left == 0
  {
    var s := new Bitstream();
    s.WriteString(str);
    StringRoundTrip(str, []);
    assert s.Unread() == str + [0] + [];
    r := s.ReadString();
    left := s.ByteLength();
  }
}
