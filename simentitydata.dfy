/** The state a simulated entity shares between its components, with the
    dirty-bit bookkeeping that drives delta transmission over a byte stream
    (source/game/SimEntityData.cpp). The numeric values of the kDB_* bits
    live in SimEntityData.h, which is not part of this model: they are taken
    to be nine distinct single bits, in declaration order. */
module SimEntityDatas {
  import opened Wrappers
  import opened Bitstreams
  import opened IrrUtil

  /** The dirty-bit mask, a uint32 in the source, as its 32 bits; bit `i`
      has weight 2^i. */
  type Mask = m: seq<bool> | |m| == 32 witness Clear32()

  function Clear32(): (m: seq<bool>)
    ensures |m| == 32
  {
    seq(32, _ => false)
  }

  const NoBits: Mask := Clear32()
  /** uint32_t(-1): every bit set. */
  const AllBits: Mask := seq(32, _ => true)

  function Or(a: Mask, b: Mask): (c: Mask)
  {
    seq(32, i requires 0 <= i < 32 => a[i] || b[i])
  }

  /** OR-ing into a clear mask gives the other operand; OR-ing never clears a bit. */
  lemma OrFacts(a: Mask, b: Mask)
    ensures Or(NoBits, b) == b
    ensures forall i :: 0 <= i < 32 && a[i] ==> Or(a, b)[i]
  {
    assert Or(NoBits, b) == b;
  }

  /** Whether `a` and `b` share a set bit: the C++ test (a & b) != 0. */
  predicate Overlap(a: Mask, b: Mask)
  {
    exists i :: 0 <= i < 32 && a[i] && b[i]
  }

  function Pow2(n: nat): (p: nat)
    ensures p > 0
  {
    if n == 0 then 1 else 2 * Pow2(n - 1)
  }

  /** The value of a little-endian bit sequence. */
  function Word(m: seq<bool>): (w: nat)
    ensures w < Pow2(|m|)
  {
    if m == [] then 0 else (if m[0] then 1 else 0) + 2 * Word(m[1..])
  }

  /** The low `n` bits of `w`, least significant first. */
  function BitsOf(w: nat, n: nat): (m: seq<bool>)
    ensures |m| == n
  {
    if n == 0 then [] else [w % 2 == 1] + BitsOf(w / 2, n - 1)
  }

  /** Splitting a bit sequence's value back into bits gives the sequence. */
  lemma {:induction false} BitsOfWord(m: seq<bool>)
    ensures BitsOf(Word(m), |m|) == m
  {
    if m != [] {
      var b := if m[0] then 1 else 0;
      var w := Word(m);
      assert w == b + 2 * Word(m[1..]);
      assert w % 2 == b && w / 2 == Word(m[1..]);
      BitsOfWord(m[1..]);
    }
  }

  /** The uint32 a mask is sent as. */
  function MaskWord(m: Mask): (w: U32)
  {
    Pow2Of32();
    Word(m)
  }

  lemma Pow2Of32()
    ensures Pow2(32) == 0x1_0000_0000
  {
    assert Pow2(4) == 16;
    assert Pow2(8) == 256 by { assert Pow2(8) == 16 * Pow2(4); }
    assert Pow2(12) == 0x1000 by { assert Pow2(12) == 16 * Pow2(8); }
    assert Pow2(16) == 0x1_0000 by { assert Pow2(16) == 16 * Pow2(12); }
    assert Pow2(20) == 0x10_0000 by { assert Pow2(20) == 16 * Pow2(16); }
    assert Pow2(24) == 0x100_0000 by { assert Pow2(24) == 16 * Pow2(20); }
    assert Pow2(28) == 0x1000_0000 by { assert Pow2(28) == 16 * Pow2(24); }
    assert Pow2(32) == 16 * Pow2(28);
  }

  /** The mask a received uint32 stands for. */
  function MaskOf(w: U32): (m: Mask)
  {
    BitsOf(w, 32)
  }

  /** A mask sent as a word and received back is the same mask. */
  lemma MaskRoundTrip(m: Mask)
    ensures MaskOf(MaskWord(m)) == m
  {
    BitsOfWord(m);
  }

  /** The streamed members of an entity, in the order the stream operators use. */
  datatype Field = Position | Rotation | Velocity | Scale | Acceleration | Label | Tint | Kind | Collision

  const WireOrder: seq<Field> := [Position, Rotation, Velocity, Scale, Acceleration, Label, Tint, Kind, Collision]

  /** The position of each member's dirty bit. */
  function Index(f: Field): (i: nat)
    ensures i < 9
  {
    match f
    case Position => 0
    case Rotation => 1
    case Velocity => 2
    case Scale => 3
    case Acceleration => 4
    case Label => 5
    case Tint => 6
    case Kind => 7
    case Collision => 8
  }

  /** The kDB_ constant of a member: its single bit. */
  function Bit(f: Field): (b: Mask)
  {
    NoBits[Index(f) := true]
  }

  /** Whether member `f`'s bit is set in `m`. */
  predicate Has(m: Mask, f: Field)
  {
    m[Index(f)]
  }

  /** Each kDB_ constant has exactly its member's bit, so distinct members'
      bits do not overlap. */
  lemma BitsDistinct(f: Field, g: Field)
    ensures Has(Bit(f), g) <==> f == g
    ensures f != g ==> !Overlap(Bit(f), Bit(g))
  {
  }

  /** A snapshot of the streamed members. */
  datatype EntityState = EntityState(
    position: Vec3, rotation: Vec3, velocity: Vec3, scale: Vec3, acceleration: Vec3,
    caption: seq<Byte>, color: Color, kind: U32, collision: U32)

  const UnitScale: Vec3 := Vec3(0x3F80_0000, 0x3F80_0000, 0x3F80_0000)  // (1.0f, 1.0f, 1.0f)
  const Zero: Vec3 := Vec3(0, 0, 0)
  const White: Color := Color(0xFF, 0xFF, 0xFF, 0xFF)

  predicate NulFree(s: seq<Byte>)
  {
    forall i :: 0 <= i < |s| ==> s[i] != 0
  }

  /** Bytes one member occupies in the stream. */
  function FieldBytes(f: Field, d: EntityState): (bs: seq<Byte>)
    ensures |bs| > 0
  {
    match f
    case Position => VectorBytes(d.position)
    case Rotation => VectorBytes(d.rotation)
    case Velocity => VectorBytes(d.velocity)
    case Scale => VectorBytes(d.scale)
    case Acceleration => VectorBytes(d.acceleration)
    case Label => d.caption + [0]
    case Tint => ColorBytes(d.color)
    case Kind => U32Bytes(d.kind)
    case Collision => U32Bytes(d.collision)
  }

  /** Bytes the members listed in `fs` contribute under `mask`: a member is
      present exactly when its bit is set. */
  function FieldsBytes(mask: Mask, d: EntityState, fs: seq<Field>): seq<Byte>
  {
    if fs == [] then []
    else (if Has(mask, fs[0]) then FieldBytes(fs[0], d) else [])
         + FieldsBytes(mask, d, fs[1..])
  }

  /** The whole delta message: the mask, then the dirty members in wire order. */
  function DeltaBytes(mask: Mask, d: EntityState): (bs: seq<Byte>)
    ensures |bs| >= 4 && bs[..4] == U32Bytes(MaskWord(mask))
  {
    U32Bytes(MaskWord(mask)) + FieldsBytes(mask, d, WireOrder)
  }

  /** `dst` with member `f` taken from `src`. */
  function CopyField(f: Field, src: EntityState, dst: EntityState): (r: EntityState)
  {
    match f
    case Position => dst.(position := src.position)
    case Rotation => dst.(rotation := src.rotation)
    case Velocity => dst.(velocity := src.velocity)
    case Scale => dst.(scale := src.scale)
    case Acceleration => dst.(acceleration := src.acceleration)
    case Label => dst.(caption := src.caption)
    case Tint => dst.(color := src.color)
    case Kind => dst.(kind := src.kind)
    case Collision => dst.(collision := src.collision)
  }

  /** `dst` with every member of `fs` whose bit is set in `mask` taken from `src`. */
  function Merge(mask: Mask, src: EntityState, dst: EntityState, fs: seq<Field>): EntityState
    decreases |fs|
  {
    if fs == [] then dst
    else Merge(mask, src, if Has(mask, fs[0]) then CopyField(fs[0], src, dst) else dst, fs[1..])
  }

  /** `d` with vector member `f` set to `v`. */
  function SetVector(f: Field, d: EntityState, v: Vec3): EntityState
  {
    match f
    case Position => d.(position := v)
    case Rotation => d.(rotation := v)
    case Velocity => d.(velocity := v)
    case Scale => d.(scale := v)
    case _ => d.(acceleration := v)
  }

  /** Decodes member `f` from the front of `u` into `d`, with the number of
      bytes used; None when the bytes run out. */
  function ReadField(f: Field, d: EntityState, u: seq<Byte>): (r: Option<(EntityState, nat)>)
    ensures r.Some? ==> 0 < r.value.1 <= |u|
  {
    match f
    case Label =>
      if |u| == 0 then None else var (s, n) := StringRead(u); Some((d.(caption := s), n))
    case Tint =>
      if |u| < 16 then None
      else Some((d.(color := ColorFromWords(DecodeU32(u), DecodeU32(u[4..]), DecodeU32(u[8..]), DecodeU32(u[12..]))), 16))
    case Kind =>
      if |u| < 4 then None else Some((d.(kind := DecodeU32(u)), 4))
    case Collision =>
      if |u| < 4 then None else Some((d.(collision := DecodeU32(u)), 4))
    case _ =>
      if |u| < 12 then None
      else Some((SetVector(f, d, Vec3(DecodeU32(u), DecodeU32(u[4..]), DecodeU32(u[8..]))), 12))
  }

  /** Decodes the members of `fs` whose bit is set in `mask`, in order. */
  function ReadFields(mask: Mask, d: EntityState, fs: seq<Field>, u: seq<Byte>): (r: Option<(EntityState, nat)>)
    ensures r.Some? ==> r.value.1 <= |u|
    decreases |fs|
  {
    if fs == [] then Some((d, 0))
    else if !Has(mask, fs[0]) then ReadFields(mask, d, fs[1..], u)
    else
      var first := ReadField(fs[0], d, u);
      if first.None? then None
      else
        var rest := ReadFields(mask, first.value.0, fs[1..], u[first.value.1..]);
        if rest.None? then None else Some((rest.value.0, first.value.1 + rest.value.1))
  }

  /** One member written and read back lands in the destination unchanged. */
  lemma ReadFieldOfBytes(f: Field, src: EntityState, dst: EntityState, tail: seq<Byte>)
    requires f == Label ==> NulFree(src.caption)
    ensures ReadField(f, dst, FieldBytes(f, src) + tail)
            == Some((CopyField(f, src, dst), |FieldBytes(f, src)|))
  {
    var u := FieldBytes(f, src) + tail;
    match f
    case Label => StringRoundTrip(src.caption, tail);
    case Tint => ColorOfBytes(src.color, tail);
    case Kind => DecodeWordAt(u, src.kind);
    case Collision => DecodeWordAt(u, src.collision);
    case Position => VectorOfBytes(src.position, tail);
    case Rotation => VectorOfBytes(src.rotation, tail);
    case Velocity => VectorOfBytes(src.velocity, tail);
    case Scale => VectorOfBytes(src.scale, tail);
    case Acceleration => VectorOfBytes(src.acceleration, tail);
  }

  /** Reading back what the writer produced for the members `fs` merges
      exactly the dirty ones into the destination and uses every byte. */
  lemma {:induction false} ReadFieldsOfBytes(mask: Mask, src: EntityState, dst: EntityState,
                                             fs: seq<Field>, tail: seq<Byte>)
    requires Has(mask, Label) ==> NulFree(src.caption)
    decreases |fs|
    ensures ReadFields(mask, dst, fs, FieldsBytes(mask, src, fs) + tail)
            == Some((Merge(mask, src, dst, fs), |FieldsBytes(mask, src, fs)|))
  {
    if fs != [] {
      var f := fs[0];
      var rest := FieldsBytes(mask, src, fs[1..]);
      if !Has(mask, f) {
        assert FieldsBytes(mask, src, fs) == rest;
        ReadFieldsOfBytes(mask, src, dst, fs[1..], tail);
      } else {
        var bs := FieldBytes(f, src);
        assert FieldsBytes(mask, src, fs) == bs + rest;
        assert (bs + rest) + tail == bs + (rest + tail);
        ReadFieldOfBytes(f, src, dst, rest + tail);
        assert (bs + (rest + tail))[|bs|..] == rest + tail;
        ReadFieldsOfBytes(mask, src, CopyField(f, src, dst), fs[1..], tail);
      }
    }
  }

  /** The receiving side of a delta: the mask read back is the sender's,
      and the members that follow merge the sender's dirty members into the
      receiver's state, using exactly the bytes the sender wrote. */
  lemma DeltaRoundTrip(mask: Mask, src: EntityState, dst: EntityState, tail: seq<Byte>)
    requires Has(mask, Label) ==> NulFree(src.caption)
    ensures var u := DeltaBytes(mask, src) + tail;
            MaskOf(DecodeU32(u)) == mask
            && ReadFields(mask, dst, WireOrder, u[4..]) == Some((Merge(mask, src, dst, WireOrder), |u| - 4 - |tail|))
  {
    var body := FieldsBytes(mask, src, WireOrder);
    var u := DeltaBytes(mask, src) + tail;
    assert u == U32Bytes(MaskWord(mask)) + (body + tail);
    DecodeWordAt(u, MaskWord(mask));
    MaskRoundTrip(mask);
    assert u[4..] == body + tail;
    ReadFieldsOfBytes(mask, src, dst, WireOrder, tail);
  }

  /** A member's value, whatever its type. */
  datatype FieldValue = VecValue(v: Vec3) | TextValue(t: seq<Byte>) | ColorValue(c: Color) | WordValue(w: U32)

  function Get(f: Field, d: EntityState): FieldValue
  {
    match f
    case Position => VecValue(d.position)
    case Rotation => VecValue(d.rotation)
    case Velocity => VecValue(d.velocity)
    case Scale => VecValue(d.scale)
    case Acceleration => VecValue(d.acceleration)
    case Label => TextValue(d.caption)
    case Tint => ColorValue(d.color)
    case Kind => WordValue(d.kind)
    case Collision => WordValue(d.collision)
  }

  /** Two states that agree on every member are equal. */
  lemma StatesAgree(a: EntityState, b: EntityState)
    requires forall g :: Get(g, a) == Get(g, b)
    ensures a == b
  {
    assert Get(Position, a) == Get(Position, b) && Get(Rotation, a) == Get(Rotation, b);
    assert Get(Velocity, a) == Get(Velocity, b) && Get(Scale, a) == Get(Scale, b);
    assert Get(Acceleration, a) == Get(Acceleration, b) && Get(Label, a) == Get(Label, b);
    assert Get(Tint, a) == Get(Tint, b) && Get(Kind, a) == Get(Kind, b);
    assert Get(Collision, a) == Get(Collision, b);
  }

  /** Copying one member changes that member and no other. */
  lemma CopyFieldChangesOnlyIt(f: Field, src: EntityState, dst: EntityState, g: Field)
    ensures Get(g, CopyField(f, src, dst)) == if g == f then Get(f, src) else Get(g, dst)
  {
  }

  /** After a merge, each member holds the sender's value exactly when it is
      listed and its bit is set, and the receiver's value otherwise. */
  lemma {:induction false} MergeMembers(mask: Mask, src: EntityState, dst: EntityState, fs: seq<Field>, g: Field)
    ensures Get(g, Merge(mask, src, dst, fs))
            == if g in fs && Has(mask, g) then Get(g, src) else Get(g, dst)
    decreases |fs|
  {
    if fs != [] {
      var f := fs[0];
      var d1 := if Has(mask, f) then CopyField(f, src, dst) else dst;
      MergeMembers(mask, src, d1, fs[1..], g);
      CopyFieldChangesOnlyIt(f, src, dst, g);
      assert g in fs <==> g == f || g in fs[1..];
    }
  }

  lemma InWireOrder(g: Field)
    ensures g in WireOrder
  {
    match g
    case Position => assert WireOrder[0] == g;
    case Rotation => assert WireOrder[1] == g;
    case Velocity => assert WireOrder[2] == g;
    case Scale => assert WireOrder[3] == g;
    case Acceleration => assert WireOrder[4] == g;
    case Label => assert WireOrder[5] == g;
    case Tint => assert WireOrder[6] == g;
    case Kind => assert WireOrder[7] == g;
    case Collision => assert WireOrder[8] == g;
  }

  /** With no bit set the receiver is untouched. */
  lemma MergeNone(src: EntityState, dst: EntityState)
    ensures Merge(NoBits, src, dst, WireOrder) == dst
  {
    forall g
      ensures Get(g, Merge(NoBits, src, dst, WireOrder)) == Get(g, dst)
    {
      MergeMembers(NoBits, src, dst, WireOrder, g);
    }
    StatesAgree(Merge(NoBits, src, dst, WireOrder), dst);
  }

  /** With every bit set the receiver becomes a copy of the sender. */
  lemma MergeAll(src: EntityState, dst: EntityState)
    ensures Merge(AllBits, src, dst, WireOrder) == src
  {
    forall g
      ensures Get(g, Merge(AllBits, src, dst, WireOrder)) == Get(g, src)
    {
      MergeMembers(AllBits, src, dst, WireOrder, g);
      InWireOrder(g);
    }
    StatesAgree(Merge(AllBits, src, dst, WireOrder), src);
  }

  /** Whether a delta message at the front of `u` can be read onto `d`:
      the mask and every member it marks are there in full. */
  predicate DeltaReadable(d: EntityState, u: seq<Byte>)
  {
    |u| >= 4 && ReadFields(MaskOf(DecodeU32(u)), d, WireOrder, u[4..]).Some?
  }

  /** Writes one member with its own stream operator. */
  method WriteMember(s: Bitstream, f: Field, d: EntityState)
    requires s.Valid()
    modifies s
    ensures s.Valid() && s.front == old(s.front)
    ensures s.stream == old(s.stream) + FieldBytes(f, d)
  {
    match f
    case Position => WriteVector(s, d.position);
    case Rotation => WriteVector(s, d.rotation);
    case Velocity => WriteVector(s, d.velocity);
    case Scale => WriteVector(s, d.scale);
    case Acceleration => WriteVector(s, d.acceleration);
    case Label => s.WriteString(d.caption);
    case Tint => WriteColor(s, d.color);
    case Kind => s.WriteU32(d.kind);
    case Collision => s.WriteU32(d.collision);
  }

  /** Writes the next member of `fs` when its bit is set in `mask`. */
  method WriteMemberIfDirty(s: Bitstream, mask: Mask, fs: seq<Field>, d: EntityState, ghost target: seq<Byte>)
    requires s.Valid() && fs != []
    requires s.stream + FieldsBytes(mask, d, fs) == target
    modifies s
    ensures s.Valid() && s.front == old(s.front)
    ensures s.stream + FieldsBytes(mask, d, fs[1..]) == target
  {
    ghost var rest := FieldsBytes(mask, d, fs[1..]);
    if Has(mask, fs[0]) {
      assert FieldsBytes(mask, d, fs) == FieldBytes(fs[0], d) + rest;
      WriteMember(s, fs[0], d);
    } else {
      assert FieldsBytes(mask, d, fs) == rest;
    }
  }

  /** The stream writer shared by the entity classes: the mask, then each
      member whose bit is set, in wire order. */
  method WriteDelta(s: Bitstream, mask: Mask, d: EntityState)
    requires s.Valid()
    modifies s
    ensures s.Valid() && s.front == old(s.front)
    ensures s.stream == old(s.stream) + DeltaBytes(mask, d)
  {
    ghost var target := old(s.stream) + DeltaBytes(mask, d);
    s.WriteU32(MaskWord(mask));
    var fs := WireOrder;
    WriteMemberIfDirty(s, mask, fs, d, target);
    fs := fs[1..];
    WriteMemberIfDirty(s, mask, fs, d, target);
    fs := fs[1..];
    WriteMemberIfDirty(s, mask, fs, d, target);
    fs := fs[1..];
    WriteMemberIfDirty(s, mask, fs, d, target);
    fs := fs[1..];
    WriteMemberIfDirty(s, mask, fs, d, target);
    fs := fs[1..];
    WriteMemberIfDirty(s, mask, fs, d, target);
    fs := fs[1..];
    WriteMemberIfDirty(s, mask, fs, d, target);
    fs := fs[1..];
    WriteMemberIfDirty(s, mask, fs, d, target);
    fs := fs[1..];
    WriteMemberIfDirty(s, mask, fs, d, target);
    assert fs[1..] == [];
  }

  /** Reads one member with its own stream operator into `d`. */
  method ReadMember(s: Bitstream, f: Field, d: EntityState) returns (d1: EntityState)
    requires s.Valid() && ReadField(f, d, s.Unread()).Some?
    modifies s
    ensures s.Valid() && s.stream == old(s.stream) && old(s.front) <= s.front
    ensures ReadField(f, d, old(s.Unread())) == Some((d1, s.front - old(s.front)))
  {
    match f
    case Position =>
      var v := ReadVector(s);
      d1 := d.(position := v);
    case Rotation =>
      var v := ReadVector(s);
      d1 := d.(rotation := v);
    case Velocity =>
      var v := ReadVector(s);
      d1 := d.(velocity := v);
    case Scale =>
      var v := ReadVector(s);
      d1 := d.(scale := v);
    case Acceleration =>
      var v := ReadVector(s);
      d1 := d.(acceleration := v);
    case Label =>
      var t := s.ReadString();
      d1 := d.(caption := t);
    case Tint =>
      var c := ReadColor(s);
      d1 := d.(color := c);
    case Kind =>
      var w := s.ReadU32();
      d1 := d.(kind := w);
    case Collision =>
      var w := s.ReadU32();
      d1 := d.(collision := w);
  }

  /** Reads the next member of `fs` when its bit is set in `mask`; the
      remaining members then decode to the same final state and end. */
  method ReadMemberIfDirty(s: Bitstream, mask: Mask, fs: seq<Field>, d: EntityState,
                           ghost final: EntityState, ghost end: int) returns (d1: EntityState)
    requires s.Valid() && fs != []
    requires ReadFields(mask, d, fs, s.Unread()) == Some((final, end - s.front))
    modifies s
    ensures s.Valid() && s.stream == old(s.stream)
    ensures ReadFields(mask, d1, fs[1..], s.Unread()) == Some((final, end - s.front))
  {
    d1 := d;
    if Has(mask, fs[0]) {
      ghost var u := s.Unread();
      d1 := ReadMember(s, fs[0], d);
      assert s.Unread() == u[s.front - old(s.front)..];
    }
  }

  /** Three steps of the reader: the next three members of `fs`. */
  method ReadThreeIfDirty(s: Bitstream, mask: Mask, fs: seq<Field>, d: EntityState,
                          ghost final: EntityState, ghost end: int) returns (d3: EntityState)
    requires s.Valid() && |fs| >= 3
    requires ReadFields(mask, d, fs, s.Unread()) == Some((final, end - s.front))
    modifies s
    ensures s.Valid() && s.stream == old(s.stream)
    ensures ReadFields(mask, d3, fs[3..], s.Unread()) == Some((final, end - s.front))
  {
    var d1 := ReadMemberIfDirty(s, mask, fs, d, final, end);
    var d2 := ReadMemberIfDirty(s, mask, fs[1..], d1, final, end);
    d3 := ReadMemberIfDirty(s, mask, fs[2..], d2, final, end);
    assert fs[2..][1..] == fs[3..];
  }

  /** Reads, in wire order, every member whose bit is set in `mask` into `d`. */
  method ReadMembers(s: Bitstream, mask: Mask, d: EntityState) returns (d1: EntityState)
    requires s.Valid() && ReadFields(mask, d, WireOrder, s.Unread()).Some?
    modifies s
    ensures s.Valid() && s.stream == old(s.stream)
    ensures var r := ReadFields(mask, d, WireOrder, old(s.Unread())).value;
            d1 == r.0 && s.front == old(s.front) + r.1
  {
    ghost var r := ReadFields(mask, d, WireOrder, s.Unread()).value;
    ghost var end := s.front + r.1;
    var fs := WireOrder;
    d1 := ReadThreeIfDirty(s, mask, fs, d, r.0, end);
    fs := fs[3..];
    d1 := ReadThreeIfDirty(s, mask, fs, d1, r.0, end);
    fs := fs[3..];
    d1 := ReadThreeIfDirty(s, mask, fs, d1, r.0, end);
    assert fs[3..] == [];
  }

  /** Reads the dirty mask at the front of a delta message. */
  method ReadMask(s: Bitstream) returns (mask: Mask)
    requires s.Valid() && s.ByteLength() >= 4
    modifies s
    ensures s.Valid() && s.stream == old(s.stream) && s.front == old(s.front) + 4
    ensures mask == MaskOf(DecodeU32(old(s.Unread()))) && s.Unread() == old(s.Unread())[4..]
  {
    var bits := s.ReadU32();
    mask := MaskOf(bits);
  }

  class SimEntityData {
    var position: Vec3
    var rotation: Vec3
    var velocity: Vec3
    var scale: Vec3
    var acceleration: Vec3
    var caption: seq<Byte>
    var color: Color
    var id: int
    var kind: U32
    var collision: U32
    var dirty: Mask

    /** The streamed members as a value. */
    function State(): (d: EntityState)
      reads this`position, this`rotation, this`velocity, this`scale, this`acceleration
      reads this`caption, this`color, this`kind, this`collision
      ensures d.position == position && d.caption == caption && d.collision == collision
    {
      EntityState(position, rotation, velocity, scale, acceleration, caption, color, kind, collision)
    }

    /** Default entity: zero vectors, unit scale, opaque white, all bits dirty. */
    constructor()
      ensures State() == EntityState(Zero, Zero, Zero, UnitScale, Zero, [], White, 0, 0)
      ensures id == 0 && dirty == AllBits
    {
      position, rotation, velocity, scale, acceleration := Zero, Zero, Zero, UnitScale, Zero;
      caption, color, id, kind, collision := [], White, 0, 0, 0;
      dirty := AllBits;
    }

    constructor Init(pos: Vec3, rot: Vec3, scl: Vec3, lbl: seq<Byte>, t: U32, mask: U32, sid: int)
      ensures State() == EntityState(pos, rot, Zero, scl, Zero, lbl, White, t, mask)
      ensures id == sid && dirty == AllBits
    {
      position, rotation, velocity, scale, acceleration := pos, rot, Zero, scl, Zero;
      caption, color, id, kind, collision := lbl, White, sid, t, mask;
      dirty := AllBits;
    }

    method SetPosition(pos: Vec3)
      modifies this
      ensures State() == old(State()).(position := pos) && id == old(id)
      ensures dirty == if pos != old(position) then Or(old(dirty), Bit(Position)) else old(dirty)
    {
      if pos != position {
        position := pos;
        dirty := Or(dirty, Bit(Position));
      }
    }

    method SetRotation(rot: Vec3)
      modifies this
      ensures State() == old(State()).(rotation := rot) && id == old(id)
      ensures dirty == if rot != old(rotation) then Or(old(dirty), Bit(Rotation)) else old(dirty)
    {
      if rot != rotation {
        rotation := rot;
        dirty := Or(dirty, Bit(Rotation));
      }
    }

    method SetVelocity(vel: Vec3)
      modifies this
      ensures State() == old(State()).(velocity := vel) && id == old(id)
      ensures dirty == if vel != old(velocity) then Or(old(dirty), Bit(Velocity)) else old(dirty)
    {
      if vel != velocity {
        velocity := vel;
        dirty := Or(dirty, Bit(Velocity));
      }
    }

    method SetAcceleration(acc: Vec3)
      modifies this
      ensures State() == old(State()).(acceleration := acc) && id == old(id)
      ensures dirty == if acc != old(acceleration) then Or(old(dirty), Bit(Acceleration)) else old(dirty)
    {
      if acc != acceleration {
        acceleration := acc;
        dirty := Or(dirty, Bit(Acceleration));
      }
    }

    method SetLabel(lbl: seq<Byte>)
      modifies this
      ensures State() == old(State()).(caption := lbl) && id == old(id)
      ensures dirty == if lbl != old(caption) then Or(old(dirty), Bit(Label)) else old(dirty)
    {
      if lbl != caption {
        caption := lbl;
        dirty := Or(dirty, Bit(Label));
      }
    }

    method SetColor(c: Color)
      modifies this
      ensures State() == old(State()).(color := c) && id == old(id)
      ensures dirty == if c != old(color) then Or(old(dirty), Bit(Tint)) else old(dirty)
    {
      if c != color {
        color := c;
        dirty := Or(dirty, Bit(Tint));
      }
    }

    method SetScale(scl: Vec3)
      modifies this
      ensures State() == old(State()).(scale := scl) && id == old(id)
      ensures dirty == if scl != old(scale) then Or(old(dirty), Bit(Scale)) else old(dirty)
    {
      if scl != scale {
        scale := scl;
        dirty := Or(dirty, Bit(Scale));
      }
    }

    method SetType(t: U32)
      modifies this
      ensures State() == old(State()).(kind := t) && id == old(id)
      ensures dirty == if t != old(kind) then Or(old(dirty), Bit(Kind)) else old(dirty)
    {
      if kind != t {
        kind := t;
        dirty := Or(dirty, Bit(Kind));
      }
    }

    method SetCollision(mask: U32)
      modifies this
      ensures State() == old(State()).(collision := mask) && id == old(id)
      ensures dirty == if mask != old(collision) then Or(old(dirty), Bit(Collision)) else old(dirty)
    {
      if collision != mask {
        collision := mask;
        dirty := Or(dirty, Bit(Collision));
      }
    }

    method ClearDirtyBits()
      modifies this
      ensures dirty == NoBits && State() == old(State()) && id == old(id)
    {
      dirty := NoBits;
    }

    /** SetDirtyBits() without an argument: every bit, including unused ones. */
    method SetAllDirtyBits()
      modifies this
      ensures dirty == AllBits && State() == old(State()) && id == old(id)
    {
      dirty := AllBits;
    }

    method SetDirtyBits(bits: Mask)
      modifies this
      ensures dirty == Or(old(dirty), bits) && State() == old(State()) && id == old(id)
    {
      dirty := Or(dirty, bits);
    }

    /** Whether any of `bits` is dirty. */
    function IsDirty(bits: Mask): (b: bool)
      reads this
    {
      Overlap(dirty, bits)
    }

    /** Stores a whole snapshot back into the members. */
    method SetState(d: EntityState)
      modifies this
      ensures State() == d && id == old(id) && dirty == old(dirty)
    {
      position, rotation, velocity, scale, acceleration := d.position, d.rotation, d.velocity, d.scale, d.acceleration;
      caption, color, kind, collision := d.caption, d.color, d.kind, d.collision;
    }

    /** The stream writer: the mask, then each dirty member in wire order. */
    method Write(s: Bitstream)
      requires s.Valid()
      modifies s
      ensures s.Valid() && s.front == old(s.front)
      ensures s.stream == old(s.stream) + DeltaBytes(dirty, State())
    {
      WriteDelta(s, dirty, State());
    }

    /** The stream reader: ORs the incoming mask into the dirty bits, then
        reads the members it marks, in wire order. */
    method Read(s: Bitstream)
      requires s.Valid() && DeltaReadable(State(), s.Unread())
      modifies this, s
      ensures s.Valid() && s.stream == old(s.stream) && id == old(id)
      ensures var mask := MaskOf(DecodeU32(old(s.Unread())));
              var r := old(ReadFields(mask, State(), WireOrder, s.Unread()[4..])).value;
              dirty == Or(old(dirty), mask) && State() == r.0 && s.front == old(s.front) + 4 + r.1
    {
      var mask := ReadMask(s);
      dirty := Or(dirty, mask);
      var d := ReadMembers(s, mask, State());
      SetState(d);
    }

    /** Entities compare equal exactly when their ids do. */
    function SameEntity(other: SimEntityData): (eq: bool)
      reads this, other
      ensures eq <==> id == other.id
    {
      id == other.id
    }
  }

  /** A clean entity holding `d`, built with the source's constructor and setters. */
  method Make(d: EntityState, sid: int) returns (e: SimEntityData)
    ensures fresh(e) && e.State() == d && e.dirty == NoBits && e.id == sid
  {
    e := new SimEntityData.Init(d.position, d.rotation, d.scale, d.caption, d.kind, d.collision, sid);
    e.SetVelocity(d.velocity);
    e.SetAcceleration(d.acceleration);
    e.SetColor(d.color);
    e.ClearDirtyBits();
  }

  /** The sender writes its dirty members; a fresh receiver whose bits were
      cleared reads them back: it ends up with the sender's mask and the
      sender's values for exactly the dirty members. */
  method DeltaStreamRoundTrip(src: EntityState, receiver: EntityState, mask: Mask)
    returns (got: EntityState, bits: Mask)
    requires Has(mask, Label) ==> NulFree(src.caption)
    ensures bits == mask && got == Merge(mask, src, receiver, WireOrder)
  {
    var a := Make(src, 1);
    a.SetDirtyBits(mask);
    OrFacts(NoBits, mask);
    var b := Make(receiver, 2);
    assert b.dirty == NoBits;
    var s := new Bitstream();
    a.Write(s);
    assert s.Unread() == DeltaBytes(mask, src) + [];
    DeltaRoundTrip(mask, src, receiver, []);
    b.Read(s);
    got := b.State();
    bits := b.dirty;
  }

  /** Dirty queries on a fresh entity, after ClearDirtyBits, and after
      SetDirtyBits(bits): a fresh entity is dirty for any nonzero query, a
      cleared one for none, and setting bits makes exactly those dirty again. */
  method DirtyQueries(bits: Mask) returns (initially: bool, cleared: bool, marked: bool)
    ensures initially <==> exists i :: 0 <= i < 32 && bits[i]
    ensures !cleared
    ensures marked <==> exists i :: 0 <= i < 32 && bits[i]
  {
    var e := new SimEntityData();
    initially := e.IsDirty(bits);
    e.ClearDirtyBits();
    cleared := e.IsDirty(bits);
    e.SetDirtyBits(bits);
    OrFacts(NoBits, bits);
    marked := e.IsDirty(bits);
  }
}
