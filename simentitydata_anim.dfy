/** The animation variant of the shared entity state
    (branches/animation_bug/source/game/SimEntityData.cpp): the members live
    in a current and a previous snapshot, ProcessTick copies the first into
    the second, and a "bumped" flag joins the members with a dirty bit of its
    own but no place in the stream. The kDB_Bumped value, like the others,
    lives in SimEntityData.h, which is not part of this model: it is taken to
    be the bit after kDB_Collision. */
module AnimSimEntityDatas {
  import opened Bitstreams
  import opened IrrUtil
  import opened SimEntityDatas

  /** SimEntityInternals: the streamed members plus the bumped flag. */
  datatype Internals = Internals(members: EntityState, bumped: bool)

  const DefaultInternals := Internals(EntityState(Zero, Zero, Zero, UnitScale, Zero, [], White, 0, 0), false)

  /** kDB_Bumped. */
  const BumpedBit: Mask := NoBits[9 := true]

  /** The bumped bit is none of the streamed members' bits. */
  lemma BumpedBitIsItsOwn(f: Field)
    ensures !Has(BumpedBit, f) && !Overlap(BumpedBit, Bit(f))
  {
    assert BumpedBit[Index(f)] == false;
    forall i | 0 <= i < 32 && BumpedBit[i]
      ensures !Bit(f)[i]
    {
      assert i == 9;
    }
  }

  class SimEntityData {
    var id: int
    var dirty: Mask
    var previous: Internals
    var current: Internals

    constructor()
      ensures previous == DefaultInternals && current == DefaultInternals
      ensures id == 0 && dirty == AllBits
    {
      id, dirty := 0, AllBits;
      previous, current := DefaultInternals, DefaultInternals;
    }

    /** Both snapshots start from the same given members, not bumped. */
    constructor Init(pos: Vec3, rot: Vec3, scl: Vec3, lbl: seq<Byte>, t: U32, mask: U32, sid: int)
      ensures current == Internals(EntityState(pos, rot, Zero, scl, Zero, lbl, White, t, mask), false)
      ensures previous == current && id == sid && dirty == AllBits
    {
      id, dirty := sid, AllBits;
      current := Internals(EntityState(pos, rot, Zero, scl, Zero, lbl, White, t, mask), false);
      previous := current;
    }

    /** The new dirty mask after member `f` was set to a value that changed
        it or not. */
    static function Mark(old_dirty: Mask, changed: bool, f: Field): Mask
    {
      if changed then Or(old_dirty, Bit(f)) else old_dirty
    }

    method SetPosition(pos: Vec3)
      modifies this
      ensures current == old(current).(members := old(current).members.(position := pos))
      ensures previous == old(previous) && id == old(id)
      ensures dirty == Mark(old(dirty), pos != old(current).members.position, Position)
    {
      if pos != current.members.position {
        current := current.(members := current.members.(position := pos));
        dirty := Or(dirty, Bit(Position));
      }
    }

    method SetRotation(rot: Vec3)
      modifies this
      ensures current == old(current).(members := old(current).members.(rotation := rot))
      ensures previous == old(previous) && id == old(id)
      ensures dirty == Mark(old(dirty), rot != old(current).members.rotation, Rotation)
    {
      if rot != current.members.rotation {
        current := current.(members := current.members.(rotation := rot));
        dirty := Or(dirty, Bit(Rotation));
      }
    }

    method SetVelocity(vel: Vec3)
      modifies this
      ensures current == old(current).(members := old(current).members.(velocity := vel))
      ensures previous == old(previous) && id == old(id)
      ensures dirty == Mark(old(dirty), vel != old(current).members.velocity, Velocity)
    {
      if vel != current.members.velocity {
        current := current.(members := current.members.(velocity := vel));
        dirty := Or(dirty, Bit(Velocity));
      }
    }

    method SetAcceleration(acc: Vec3)
      modifies this
      ensures current == old(current).(members := old(current).members.(acceleration := acc))
      ensures previous == old(previous) && id == old(id)
      ensures dirty == Mark(old(dirty), acc != old(current).members.acceleration, Acceleration)
    {
      if acc != current.members.acceleration {
        current := current.(members := current.members.(acceleration := acc));
        dirty := Or(dirty, Bit(Acceleration));
      }
    }

    method SetLabel(lbl: seq<Byte>)
      modifies this
      ensures current == old(current).(members := old(current).members.(caption := lbl))
      ensures previous == old(previous) && id == old(id)
      ensures dirty == Mark(old(dirty), lbl != old(current).members.caption, Label)
    {
      if lbl != current.members.caption {
        current := current.(members := current.members.(caption := lbl));
        dirty := Or(dirty, Bit(Label));
      }
    }

    method SetColor(c: Color)
      modifies this
      ensures current == old(current).(members := old(current).members.(color := c))
      ensures previous == old(previous) && id == old(id)
      ensures dirty == Mark(old(dirty), c != old(current).members.color, Tint)
    {
      if c != current.members.color {
        current := current.(members := current.members.(color := c));
        dirty := Or(dirty, Bit(Tint));
      }
    }

    method SetScale(scl: Vec3)
      modifies this
      ensures current == old(current).(members := old(current).members.(scale := scl))
      ensures previous == old(previous) && id == old(id)
      ensures dirty == Mark(old(dirty), scl != old(current).members.scale, Scale)
    {
      if scl != current.members.scale {
        current := current.(members := current.members.(scale := scl));
        dirty := Or(dirty, Bit(Scale));
      }
    }

    method SetType(t: U32)
      modifies this
      ensures current == old(current).(members := old(current).members.(kind := t))
      ensures previous == old(previous) && id == old(id)
      ensures dirty == Mark(old(dirty), t != old(current).members.kind, Kind)
    {
      if current.members.kind != t {
        current := current.(members := current.members.(kind := t));
        dirty := Or(dirty, Bit(Kind));
      }
    }

    method SetCollision(mask: U32)
      modifies this
      ensures current == old(current).(members := old(current).members.(collision := mask))
      ensures previous == old(previous) && id == old(id)
      ensures dirty == Mark(old(dirty), mask != old(current).members.collision, Collision)
    {
      if current.members.collision != mask {
        current := current.(members := current.members.(collision := mask));
        dirty := Or(dirty, Bit(Collision));
      }
    }

    /** Raises kDB_Bumped only when the flag actually changes. */
    method SetBumped(b: bool)
      modifies this
      ensures current == old(current).(bumped := b)
      ensures previous == old(previous) && id == old(id)
      ensures dirty == if b != old(current).bumped then Or(old(dirty), BumpedBit) else old(dirty)
    {
      if current.bumped != b {
        current := current.(bumped := b);
        dirty := Or(dirty, BumpedBit);
      }
    }

    method ClearDirtyBits()
      modifies this
      ensures dirty == NoBits && current == old(current) && previous == old(previous) && id == old(id)
    {
      dirty := NoBits;
    }

    method SetAllDirtyBits()
      modifies this
      ensures dirty == AllBits && current == old(current) && previous == old(previous) && id == old(id)
    {
      dirty := AllBits;
    }

    method SetDirtyBits(bits: Mask)
      modifies this
      ensures dirty == Or(old(dirty), bits)
      ensures current == old(current) && previous == old(previous) && id == old(id)
    {
      dirty := Or(dirty, bits);
    }

    function IsDirty(bits: Mask): bool
      reads this
    {
      Overlap(dirty, bits)
    }

    /** The end of a simulation step: the current snapshot becomes the
        previous one. The step length is not used. */
    method ProcessTick(dt: F32)
      modifies this
      ensures previous == old(current) && current == old(current)
      ensures dirty == old(dirty) && id == old(id)
    {
      previous := current;
    }

    function GetPrevious(): Internals
      reads this
    {
      previous
    }

    /** The stream writer: the mask, then the current snapshot's dirty
        members in wire order; the bumped flag is not sent. */
    method Write(s: Bitstream)
      requires s.Valid()
      modifies s
      ensures s.Valid() && s.front == old(s.front)
      ensures s.stream == old(s.stream) + DeltaBytes(dirty, current.members)
    {
      WriteDelta(s, dirty, current.members);
    }

    /** The stream reader: ORs the incoming mask into the dirty bits and
        reads the members it marks into the current snapshot only. */
    method Read(s: Bitstream)
      requires s.Valid() && DeltaReadable(current.members, s.Unread())
      modifies this, s
      ensures s.Valid() && s.stream == old(s.stream) && id == old(id) && previous == old(previous)
      ensures var mask := MaskOf(DecodeU32(old(s.Unread())));
              var r := old(ReadFields(mask, current.members, WireOrder, s.Unread()[4..])).value;
              dirty == Or(old(dirty), mask) && current == Internals(r.0, old(current).bumped)
              && s.front == old(s.front) + 4 + r.1
    {
      var mask := ReadMask(s);
      dirty := Or(dirty, mask);
      var d := ReadMembers(s, mask, current.members);
      current := current.(members := d);
    }

    function SameEntity(other: SimEntityData): (eq: bool)
      reads this, other
      ensures eq <==> id == other.id
    {
      id == other.id
    }
  }

  /** Setters between ticks change only the current snapshot: after setting
      `a`, ticking and setting `b`, the previous position is `a` and the
      current one `b`, and the position bit is dirty exactly when something
      moved. */
  method PreviousLagsOneTick(a: Vec3, b: Vec3) returns (prev: Vec3, cur: Vec3, moved: bool)
    ensures prev == a && cur == b
    ensures moved <==> (a != Zero || b != a)
  {
    var e := new SimEntityData();
    e.ClearDirtyBits();
    e.SetPosition(a);
    e.ProcessTick(0);
    e.SetPosition(b);
    prev := e.GetPrevious().members.position;
    cur := e.current.members.position;
    moved := e.IsDirty(Bit(Position));
    OrFacts(NoBits, Bit(Position));
    assert Overlap(Or(NoBits, Bit(Position)), Bit(Position)) by {
      assert Or(NoBits, Bit(Position))[Index(Position)] && Bit(Position)[Index(Position)];
    }
    assert Overlap(Or(Or(NoBits, Bit(Position)), Bit(Position)), Bit(Position)) by {
      var m := Or(Or(NoBits, Bit(Position)), Bit(Position));
      assert m[Index(Position)] && Bit(Position)[Index(Position)];
    }
  }

  /** A bump travels as a dirty bit only: a receiver reading the sender's
      message sees kDB_Bumped set in nothing it reads, keeps its own flag,
      and gets the sender's members. */
  method BumpIsNotStreamed(d: EntityState) returns (gotBumped: bool, got: EntityState)
    requires NulFree(d.caption)
    ensures !gotBumped && got == d
  {
    var sender := new SimEntityData.Init(d.position, d.rotation, d.scale, d.caption, d.kind, d.collision, 1);
    sender.SetVelocity(d.velocity);
    sender.SetAcceleration(d.acceleration);
    sender.SetColor(d.color);
    sender.SetBumped(true);
    sender.SetAllDirtyBits();
    assert sender.current.members == d;
    var receiver := new SimEntityData();
    var s := new Bitstream();
    sender.Write(s);
    assert s.Unread() == DeltaBytes(AllBits, d) + [];
    DeltaRoundTrip(AllBits, d, receiver.current.members, []);
    MergeAll(d, receiver.current.members);
    receiver.Read(s);
    gotBumped := receiver.current.bumped;
    got := receiver.current.members;
  }
}
