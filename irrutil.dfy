/** Coordinate conversions between the NERO (right-handed, x-y-z) and
    Irrlicht (left-handed, x-z-y) frames, and the byte-stream operators for
    float vectors and colours (branches/cleanmod/source/core/IrrUtil.h). A
    float32 is represented by its 32-bit pattern: that is exactly what the
    stream operators carry, and IEEE-754 negation flips only the sign bit. */
module IrrUtil {
  import opened Bitstreams

  /** A float32 by its bit pattern. */
  type F32 = U32

  const SignBit: int := 0x8000_0000

  /** Float negation: the same magnitude bits with the sign bit flipped. */
  function Negate(f: F32): (g: F32)
    ensures g % SignBit == f % SignBit
    ensures (g < SignBit) != (f < SignBit)
  {
    if f < SignBit then f + SignBit else f - SignBit
  }

  datatype Vec3 = Vec3(x: F32, y: F32, z: F32)

  /** NERO position to Irrlicht position: the Y and Z axes trade places. */
  function NeroToIrrlichtPosition(v: Vec3): (w: Vec3)
    ensures w.x == v.x && w.y == v.z && w.z == v.y
  {
    Vec3(v.x, v.z, v.y)
  }

  /** Irrlicht position back to NERO: the same swap, which undoes itself. */
  function IrrlichtToNeroPosition(v: Vec3): (w: Vec3)
    ensures NeroToIrrlichtPosition(w) == v
  {
    NeroToIrrlichtPosition(v)
  }

  /** NERO rotation to Irrlicht rotation: every component negated and the
      Y and Z components swapped. */
  function NeroToIrrlichtRotation(v: Vec3): (w: Vec3)
    ensures w.x == Negate(v.x) && w.y == Negate(v.z) && w.z == Negate(v.y)
  {
    Vec3(Negate(v.x), Negate(v.z), Negate(v.y))
  }

  /** Irrlicht rotation back to NERO: the same map, which undoes itself. */
  function IrrlichtToNeroRotation(v: Vec3): (w: Vec3)
    ensures NeroToIrrlichtRotation(w) == v
  {
    NeroToIrrlichtRotation(v)
  }

  /** Converting a position there and back, in either order, is the identity. */
  lemma PositionConversionsInverse(v: Vec3)
    ensures IrrlichtToNeroPosition(NeroToIrrlichtPosition(v)) == v
    ensures NeroToIrrlichtPosition(IrrlichtToNeroPosition(v)) == v
  {
  }

  /** Converting a rotation there and back, in either order, is the identity. */
  lemma RotationConversionsInverse(v: Vec3)
    ensures IrrlichtToNeroRotation(NeroToIrrlichtRotation(v)) == v
    ensures NeroToIrrlichtRotation(IrrlichtToNeroRotation(v)) == v
  {
  }

  /** Bytes a vector occupies in a stream: X, then Y, then Z. */
  function VectorBytes(v: Vec3): (bs: seq<Byte>)
    ensures |bs| == 12
  {
    U32Bytes(v.x) + U32Bytes(v.y) + U32Bytes(v.z)
  }

  method WriteVector(s: Bitstream, v: Vec3)
    requires s.Valid()
    modifies s
    ensures s.Valid() && s.stream == old(s.stream) + VectorBytes(v) && s.front == old(s.front)
  {
    s.WriteF32(v.x);
    s.WriteF32(v.y);
    s.WriteF32(v.z);
  }

  method ReadVector(s: Bitstream) returns (v: Vec3)
    requires s.Valid() && s.ByteLength() >= 12
    modifies s
    ensures s.Valid() && s.stream == old(s.stream) && s.front == old(s.front) + 12
    ensures v == Vec3(DecodeU32(old(s.Unread())), DecodeU32(old(s.Unread())[4..]),
                      DecodeU32(old(s.Unread())[8..]))
  {
    var x := s.ReadF32();
    var y := s.ReadF32();
    var z := s.ReadF32();
    v := Vec3(x, y, z);
  }

  /** A vector written to a fresh stream reads back component by component. */
  method VectorStreamRoundTrip(v: Vec3) returns (r: Vec3)
    ensures r == v
  {
    var s := new Bitstream();
    WriteVector(s, v);
    assert s.Unread() == VectorBytes(v) + [];
    VectorOfBytes(v, []);
    r := ReadVector(s);
  }

  /** An 8-bit-per-channel colour. */
  datatype Color = Color(alpha: Byte, red: Byte, green: Byte, blue: Byte)

  /** Bytes a colour occupies: alpha, red, green, blue, each as a 32-bit word. */
  function ColorBytes(c: Color): (bs: seq<Byte>)
    ensures |bs| == 16
  {
    U32Bytes(c.alpha) + U32Bytes(c.red) + U32Bytes(c.green) + U32Bytes(c.blue)
  }

  /** The colour set(a, r, g, b) builds: each channel keeps its low 8 bits. */
  function ColorFromWords(a: U32, r: U32, g: U32, b: U32): (c: Color)
    ensures c.alpha == a % 0x100 && c.red == r % 0x100
    ensures c.green == g % 0x100 && c.blue == b % 0x100
  {
    Color(a % 0x100, r % 0x100, g % 0x100, b % 0x100)
  }

  method WriteColor(s: Bitstream, c: Color)
    requires s.Valid()
    modifies s
    ensures s.Valid() && s.stream == old(s.stream) + ColorBytes(c) && s.front == old(s.front)
  {
    s.WriteU32(c.alpha);
    s.WriteU32(c.red);
    s.WriteU32(c.green);
    s.WriteU32(c.blue);
  }

  method ReadColor(s: Bitstream) returns (c: Color)
    requires s.Valid() && s.ByteLength() >= 16
    modifies s
    ensures s.Valid() && s.stream == old(s.stream) && s.front == old(s.front) + 16
    ensures c == ColorFromWords(DecodeU32(old(s.Unread())), DecodeU32(old(s.Unread())[4..]),
                                DecodeU32(old(s.Unread())[8..]), DecodeU32(old(s.Unread())[12..]))
  {
    var a := s.ReadU32();
    var r := s.ReadU32();
    var g := s.ReadU32();
    var b := s.ReadU32();
    c := ColorFromWords(a, r, g, b);
  }

  /** A colour written to a fresh stream reads back with the same channel order. */
  method ColorStreamRoundTrip(c: Color) returns (r: Color)
    ensures r == c
  {
    var s := new Bitstream();
    WriteColor(s, c);
    assert s.Unread() == ColorBytes(c) + [];
    ColorOfBytes(c, []);
    r := ReadColor(s);
  }

  /** A vector decoded from the front of its bytes, whatever follows, is unchanged. */
  lemma VectorOfBytes(v: Vec3, tail: seq<Byte>)
    ensures var u := VectorBytes(v) + tail;
            |u| >= 12 && Vec3(DecodeU32(u), DecodeU32(u[4..]), DecodeU32(u[8..])) == v
  {
    var u := VectorBytes(v) + tail;
    assert u == U32Bytes(v.x) + (U32Bytes(v.y) + (U32Bytes(v.z) + tail));
    DecodeWordAt(u, v.x);
    DecodeWordAt(u[4..], v.y);
    DecodeWordAt(u[8..], v.z);
  }

  /** A colour decoded from the front of its bytes, whatever follows, is unchanged. */
  lemma ColorOfBytes(c: Color, tail: seq<Byte>)
    ensures var u := ColorBytes(c) + tail;
            |u| >= 16 && ColorFromWords(DecodeU32(u), DecodeU32(u[4..]), DecodeU32(u[8..]), DecodeU32(u[12..])) == c
  {
    var u := ColorBytes(c) + tail;
    assert u == U32Bytes(c.alpha) + (U32Bytes(c.red) + (U32Bytes(c.green) + (U32Bytes(c.blue) + tail)));
    DecodeWordAt(u, c.alpha);
    DecodeWordAt(u[4..], c.red);
    DecodeWordAt(u[8..], c.green);
    DecodeWordAt(u[12..], c.blue);
  }

}
