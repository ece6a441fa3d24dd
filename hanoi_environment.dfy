/* The Tower of Hanoi environment: the grid/world coordinate conversion, the
   block records with their `above`/`below` links, and the put-down and
   pick-up rules of a step. Block records are keyed by their scene object,
   as in the environment's block table; a link names the linked block's
   key. */
module HanoiEnvironment {
  import opened Wrappers

  /* ---------------- grid coordinates ---------------- */

  /** Python 2's round: halves go away from zero. */
  function Round(x: real): (r: int)
    ensures x - 0.5 <= r as real <= x + 0.5
  {
    if x >= 0.0 then (x + 0.5).Floor else -((-x + 0.5).Floor)
  }

  /** rc2xy: the world position of a grid cell, cells being one grid step
      apart and cell (0, 0) one step from the origin. */
  function RcToXy(r: int, c: int, dx: real, dy: real): (real, real) {
    ((r + 1) as real * dx, (c + 1) as real * dy)
  }

  /** xy2rc: the grid cell nearest to a world position. */
  function XyToRc(x: real, y: real, dx: real, dy: real): (int, int)
    requires dx != 0.0 && dy != 0.0
  {
    (Round(x / dx) - 1, Round(y / dy) - 1)
  }

  lemma RoundOfInteger(k: int)
    ensures Round(k as real) == k
  {
  }

  /** A cell's position converts back to the cell. */
  lemma GridRoundTrip(r: int, c: int, dx: real, dy: real)
    requires dx != 0.0 && dy != 0.0
    ensures XyToRc(RcToXy(r, c, dx, dy).0, RcToXy(r, c, dx, dy).1, dx, dy) == (r, c)
  {
    assert (r + 1) as real * dx / dx == (r + 1) as real;
    assert (c + 1) as real * dy / dy == (c + 1) as real;
    RoundOfInteger(r + 1);
    RoundOfInteger(c + 1);
  }

  /** A position converts to the cell whose centre is at most half a grid
      step away along the row axis. */
  lemma NearestRow(x: real, dx: real)
    requires dx > 0.0
    ensures var r := Round(x / dx) - 1;
      x - dx / 2.0 <= (r + 1) as real * dx <= x + dx / 2.0
  {
    var v := x / dx;
    var k := Round(v);
    var e := k as real - v;
    assert -0.5 <= e <= 0.5;
    assert e * dx <= 0.5 * dx && -0.5 * dx <= e * dx;
    assert k as real * dx == v * dx + e * dx;
    assert v * dx == x;
    assert ((k - 1) + 1) as real * dx == k as real * dx;
    assert k as real * dx <= x + e * dx;
    assert e * dx <= 0.5 * dx;
    assert k as real * dx <= x + 0.5 * dx;
    assert 0.5 * dx == dx / 2.0;
  }

  /* ---------------- blocks and stacks ---------------- */

  datatype BlockState = BlockState(rc: (int, int), height: int, below: Option<nat>,
                                   above: Option<nat>, name: string, mass: int)

  type Blocks = map<nat, BlockState>

  /** The links around block k agree: the block above it links back, stands
      on the same cell one level higher and is lighter; the block below it
      links back. */
  predicate LinkOk(bs: Blocks, k: nat)
    requires k in bs
  {
    (bs[k].above.Some? ==>
       var a := bs[k].above.value;
       a in bs && bs[a].below == Some(k) && bs[a].rc == bs[k].rc &&
       bs[a].height == bs[k].height + 1 && bs[a].mass < bs[k].mass) &&
    (bs[k].below.Some? ==>
       var b := bs[k].below.value;
       b in bs && bs[b].above == Some(k))
  }

  /** Every stack is well linked and lighter towards the top. */
  predicate Linked(bs: Blocks) {
    forall k :: k in bs ==> LinkOk(bs, k)
  }

  /** The held block, if any, is detached from every stack. */
  predicate HeldOk(bs: Blocks, holding: Option<nat>) {
    holding.Some? ==> holding.value in bs && bs[holding.value].above == None && bs[holding.value].below == None
  }

  function Higher(bs: Blocks, h: int): set<nat> {
    set k | k in bs && bs[k].height > h
  }

  /** The top of the stack through block k, following the `above` links. */
  function Top(bs: Blocks, k: nat): (t: nat)
    requires Linked(bs) && k in bs
    ensures t in bs && bs[t].above == None && bs[t].rc == bs[k].rc && bs[t].height >= bs[k].height
    decreases Higher(bs, bs[k].height)
  {
    if bs[k].above == None then k
    else
      var a := bs[k].above.value;
      assert LinkOk(bs, k);
      assert a in Higher(bs, bs[k].height) && a !in Higher(bs, bs[a].height);
      assert Higher(bs, bs[a].height) <= Higher(bs, bs[k].height);
      Top(bs, a)
  }

  /** The first block of the table, in its iteration order, standing on the
      cell. */
  function FirstAt(bs: Blocks, order: seq<nat>, cell: (int, int)): (r: Option<nat>)
    ensures r.None? <==> forall i :: 0 <= i < |order| ==> order[i] !in bs || bs[order[i]].rc != cell
    ensures r.Some? ==> r.value in order && r.value in bs && bs[r.value].rc == cell
  {
    if order == [] then None
    else if order[0] in bs && bs[order[0]].rc == cell then Some(order[0])
    else
      var r := FirstAt(bs, order[1..], cell);
      assert forall i :: 1 <= i < |order| ==> order[i] == order[1..][i - 1];
      r
  }

  /** get_top_block: the top of the stack through the first block found on
      the cell, or None when no block stands there. */
  function TopAt(bs: Blocks, order: seq<nat>, cell: (int, int)): Option<nat>
    requires Linked(bs)
  {
    match FirstAt(bs, order, cell)
    case None => None
    case Some(k) => Some(Top(bs, k))
  }

  /** The answer of get_top_block is a block on the cell with nothing above
      it, and there is none exactly when no listed block stands there. */
  lemma TopAtIsTop(bs: Blocks, order: seq<nat>, cell: (int, int))
    requires Linked(bs)
    ensures TopAt(bs, order, cell).None? <==> forall i :: 0 <= i < |order| ==> order[i] !in bs || bs[order[i]].rc != cell
    ensures TopAt(bs, order, cell).Some? ==>
      var t := TopAt(bs, order, cell).value;
      t in bs && bs[t].rc == cell && bs[t].above == None
  {
  }

  /** The direction faced, MOVES[int(z / 90)]: the index truncates toward
      zero and may be negative, as Python allows; an IndexError outside
      -4..3. */
  function Heading(rotZ: int): (r: Result<(int, int), string>)
    ensures r.Ok? <==> -450 < rotZ < 360
    ensures r.Ok? ==> r.value in {(1, 0), (0, 1), (-1, 0), (0, -1)}
    ensures 0 <= rotZ < 90 ==> r == Ok((1, 0))
  {
    var q := if rotZ >= 0 then rotZ / 90 else -((-rotZ) / 90);
    if -4 <= q < 4 then Ok([(1, 0), (0, 1), (-1, 0), (0, -1)][(q + 4) % 4])
    else Err("IndexError")
  }

  function Ahead(rc: (int, int), d: (int, int)): (int, int) {
    (rc.0 + d.0, rc.1 + d.1)
  }

  /** Putting the held block h down on `cell`, whose top block the lookup
      answered: onto an empty cell at height 0, onto a heavier top block one
      level above it, or not at all. The new table and the new holding. */
  function PlaceHeld(bs: Blocks, h: nat, cell: (int, int), top: Option<nat>): (Blocks, Option<nat>)
    requires h in bs && (top.Some? ==> top.value in bs)
  {
    match top
    case None =>
      (bs[h := bs[h].(below := None, above := None, height := 0, rc := cell)], None)
    case Some(t) =>
      if bs[t].mass > bs[h].mass then
        var bs1 := bs[t := bs[t].(above := Some(h))];
        (bs1[h := bs1[h].(below := Some(t), above := None, height := bs[t].height + 1, rc := cell)], None)
      else (bs, Some(h))
  }

  /** The put-down rule as the environment runs it. */
  function PutDownResult(bs: Blocks, order: seq<nat>, holding: Option<nat>, rc: (int, int), rotZ: int)
    : Result<(Blocks, Option<nat>), string>
    requires Linked(bs) && HeldOk(bs, holding)
  {
    if holding.None? then Ok((bs, holding))
    else match Heading(rotZ)
      case Err(e) => Err(e)
      case Ok(d) =>
        var cell := Ahead(rc, d);
        TopAtIsTop(bs, order, cell);
        Ok(PlaceHeld(bs, holding.value, cell, TopAt(bs, order, cell)))
  }

  /** Putting down keeps every stack well linked and lighter towards the
      top, and a block still held stays detached. */
  lemma PlaceHeldKeepsStacks(bs: Blocks, h: nat, cell: (int, int), top: Option<nat>)
    requires Linked(bs) && HeldOk(bs, Some(h))
    requires top.Some? ==> top.value in bs && bs[top.value].above == None && bs[top.value].rc == cell
    ensures Linked(PlaceHeld(bs, h, cell, top).0)
    ensures HeldOk(PlaceHeld(bs, h, cell, top).0, PlaceHeld(bs, h, cell, top).1)
  {
    var (bs', held) := PlaceHeld(bs, h, cell, top);
    // no block links to the detached block h
    forall k | k in bs
      ensures bs[k].above != Some(h) && bs[k].below != Some(h)
    {
      assert LinkOk(bs, k);
    }
    if top.Some? && bs[top.value].mass > bs[h].mass {
      var t := top.value;
      assert t != h;
      forall k | k in bs'
        ensures LinkOk(bs', k)
      {
        assert LinkOk(bs, k);
        if k != t && k != h && bs[k].below.Some? {
          assert bs[k].below.value != h;
        }
      }
    } else if top.None? {
      forall k | k in bs'
        ensures LinkOk(bs', k)
      {
        assert LinkOk(bs, k);
      }
    }
  }

  /** Where the block goes: onto a heavier top block one level above it,
      onto an empty cell at height 0, and otherwise it stays in hand. */
  lemma PlaceHeldPlaces(bs: Blocks, h: nat, cell: (int, int), top: Option<nat>)
    requires h in bs && (top.Some? ==> top.value in bs)
    ensures var (bs', held) := PlaceHeld(bs, h, cell, top);
      (held == None <==> top.None? || bs[top.value].mass > bs[h].mass) &&
      (held == None ==> h in bs' && bs'[h].rc == cell) &&
      (top.None? ==> bs'[h].height == 0 && bs'[h].below == None) &&
      (top.Some? && held == None ==> bs'[h].below == top && bs'[h].height == bs[top.value].height + 1 &&
                                      bs'[top.value].above == Some(h)) &&
      (held.Some? ==> bs' == bs && held == Some(h))
  {
  }

  /** Picking up from the cell: nothing when already holding or when no block
      stands there; otherwise the top block is detached, the block under it
      becoming the top, and held. */
  function PickUpResult(bs: Blocks, order: seq<nat>, holding: Option<nat>, rc: (int, int), rotZ: int)
    : Result<(Blocks, Option<nat>), string>
    requires Linked(bs)
  {
    if holding.Some? then Ok((bs, holding))
    else match Heading(rotZ)
      case Err(e) => Err(e)
      case Ok(d) =>
        var cell := Ahead(rc, d);
        TopAtIsTop(bs, order, cell);
        match TopAt(bs, order, cell)
        case None => Ok((bs, None))
        case Some(t) => Ok((Detach(bs, t), Some(t)))
  }

  /** Detaching block t, which has nothing above it, from the block below. */
  function Detach(bs: Blocks, t: nat): Blocks
    requires t in bs
  {
    var bs1 := if bs[t].below.Some? && bs[t].below.value in bs
               then bs[bs[t].below.value := bs[bs[t].below.value].(above := None)] else bs;
    bs1[t := bs[t].(below := None, above := None)]
  }

  /** Detaching the top block keeps every stack well linked, leaves the
      block detached, and changes only it and the block below. */
  lemma DetachKeepsStacks(bs: Blocks, t: nat)
    requires Linked(bs) && t in bs && bs[t].above == None
    ensures Linked(Detach(bs, t)) && HeldOk(Detach(bs, t), Some(t))
    ensures Detach(bs, t).Keys == bs.Keys
    ensures forall k :: k in bs && k != t && Some(k) != bs[t].below ==> Detach(bs, t)[k] == bs[k]
  {
    var bs' := Detach(bs, t);
    assert LinkOk(bs, t);
    forall k | k in bs'
      ensures LinkOk(bs', k)
    {
      assert LinkOk(bs, k);
      if bs[k].above == Some(t) {
        assert bs[t].below == Some(k);
      }
      if bs[k].below == Some(t) {
        assert false;
      }
    }
  }

  /** pick-up takes the top block of the cell ahead, if any; put-down then
      keeps every stack well linked and lighter towards the top. */
  lemma StepsKeepStacks(bs: Blocks, order: seq<nat>, holding: Option<nat>, rc: (int, int), rotZ: int)
    requires Linked(bs) && HeldOk(bs, holding)
    ensures PickUpResult(bs, order, holding, rc, rotZ).Ok? ==>
      var (bs', held) := PickUpResult(bs, order, holding, rc, rotZ).value;
      Linked(bs') && HeldOk(bs', held)
    ensures PutDownResult(bs, order, holding, rc, rotZ).Ok? ==>
      var (bs', held) := PutDownResult(bs, order, holding, rc, rotZ).value;
      Linked(bs') && HeldOk(bs', held)
  {
    if Heading(rotZ).Ok? {
      var cell := Ahead(rc, Heading(rotZ).value);
      TopAtIsTop(bs, order, cell);
      var top := TopAt(bs, order, cell);
      if holding.Some? {
        PlaceHeldKeepsStacks(bs, holding.value, cell, top);
      } else if top.Some? {
        DetachKeepsStacks(bs, top.value);
      }
    }
  }

  /* ---------------- the put-back defect ---------------- */

  /** A single block at (0, 1), held after being picked up from there. */
  const LoneBlock: Blocks := map[0 := BlockState((0, 1), 0, None, None, "blue", 5)]

  /** Picking up does not move the held block's cell, so the lookup finds the
      held block itself on its old cell and the put-down, comparing it with
      itself, refuses: facing the cell it came from, the agent cannot put
      the block back. */
  lemma PutBackRefused()
    ensures Linked(LoneBlock) && HeldOk(LoneBlock, Some(0))
    ensures PutDownResult(LoneBlock, [0], Some(0), (0, 0), 90) == Ok((LoneBlock, Some(0)))
  {
    assert LinkOk(LoneBlock, 0);
    assert Heading(90) == Ok((0, 1));
    assert FirstAt(LoneBlock, [0], (0, 1)) == Some(0);
  }

  /** The lookup the put-down evidently intends: the top of the stack through
      the first block on the cell other than the held one. */
  function TopAtExcept(bs: Blocks, order: seq<nat>, cell: (int, int), h: nat): Option<nat>
    requires Linked(bs)
  {
    match FirstAt(bs - {h}, order, cell)
    case None => None
    case Some(k) => Some(Top(bs, k))
  }

  /** With that lookup, a detached held block never answers for its old cell,
      so it is put down unless the top block there is lighter, and the
      stacks stay well linked and lighter towards the top. */
  lemma CorrectedPutDown(bs: Blocks, order: seq<nat>, h: nat, cell: (int, int))
    requires Linked(bs) && HeldOk(bs, Some(h))
    ensures var top := TopAtExcept(bs, order, cell, h);
      (top.Some? ==> top.value != h && top.value in bs && bs[top.value].rc == cell) &&
      (PlaceHeld(bs, h, cell, top).1 == None <==> top.None? || bs[top.value].mass > bs[h].mass) &&
      Linked(PlaceHeld(bs, h, cell, top).0) && HeldOk(PlaceHeld(bs, h, cell, top).0, PlaceHeld(bs, h, cell, top).1)
  {
    var top := TopAtExcept(bs, order, cell, h);
    if top.Some? {
      var k := FirstAt(bs - {h}, order, cell).value;
      assert k != h;
      assert LinkOk(bs, h);
      TopNotDetached(bs, k, h);
    }
    PlaceHeldKeepsStacks(bs, h, cell, top);
    PlaceHeldPlaces(bs, h, cell, top);
  }

  /** Following the links from another block never reaches a detached one. */
  lemma TopNotDetached(bs: Blocks, k: nat, h: nat)
    requires Linked(bs) && k in bs && k != h && HeldOk(bs, Some(h))
    ensures Top(bs, k) != h
    decreases Higher(bs, bs[k].height)
  {
    if bs[k].above.Some? {
      var a := bs[k].above.value;
      assert LinkOk(bs, k);
      assert a in Higher(bs, bs[k].height) && a !in Higher(bs, bs[a].height);
      TopNotDetached(bs, a, h);
    }
  }

  /** Back on its own cell: with the intended lookup the lone block is put
      back down. */
  lemma CorrectedPutBack()
    ensures TopAtExcept(LoneBlock, [0], (0, 1), 0) == None
    ensures PlaceHeld(LoneBlock, 0, (0, 1), None).1 == None
  {
    assert LinkOk(LoneBlock, 0);
  }

  /* ---------------- the initial tower ---------------- */

  /** The tower initialize_blocks evidently means to build on an empty table:
      blue (mass 5) at the bottom of cell (0, 1), then green, yellow, red and
      white, one level and one mass unit apart, m blocks in all. */
  function Tower(m: nat): (bs: Blocks)
    requires 1 <= m <= 5
    ensures forall k: nat :: k in bs <==> k < m
  {
    map k: nat | k < m :: BlockState((0, 1), k, if k == 0 then None else Some(k - 1),
                                    if k + 1 < m then Some(k + 1) else None,
                                    ["blue", "green", "yellow", "red", "white"][k], 5 - k)
  }

  /** initialize_blocks on an empty table as written: it links blue and green
      unconditionally, so with fewer than two disks it assigns a link on
      the missing green block and fails; beyond five disks it stops at
      white. */
  function InitialTower(numDisks: int): Result<Blocks, string> {
    if numDisks < 2 then Err("AttributeError")
    else Ok(Tower(if numDisks > 5 then 5 else numDisks))
  }

  /** A one-disk game cannot be set up. */
  lemma OneDiskFails()
    ensures InitialTower(1) == Err("AttributeError")
    ensures forall n :: 2 <= n ==> InitialTower(n).Ok?
  {
  }

  /** The tower, for every number of blocks one to five, is one well-linked
      stack, lighter towards the top, whose top is the lightest block. */
  lemma TowerIsStack(m: nat)
    requires 1 <= m <= 5
    ensures Linked(Tower(m))
    ensures Top(Tower(m), 0) == m - 1 && Tower(m)[m - 1].mass == 6 - m
  {
    var bs := Tower(m);
    forall k | k in bs
      ensures LinkOk(bs, k)
    {
    }
    TopOfTower(m, 0);
  }

  lemma {:induction false} TopOfTower(m: nat, k: nat)
    requires 1 <= m <= 5 && k < m && Linked(Tower(m))
    ensures Top(Tower(m), k) == m - 1
    decreases m - k
  {
    if k + 1 < m {
      TopOfTower(m, k + 1);
    }
  }

  /* ---------------- agent and environment state ---------------- */

  /** The per-agent state of the environment. */
  class AgentState {
    var rc: (int, int)
    var prevRc: (int, int)
    var goalReached: bool
    var holding: Option<nat>
    var nextRotation: int
    var initialRotationZ: int

    constructor()
      ensures rc == (0, 0) && prevRc == (0, 0) && holding == None
      ensures nextRotation == 0 && initialRotationZ == 0
    {
      rc, prevRc := (0, 0), (0, 0);
      goalReached := false;
      holding := None;
      nextRotation, initialRotationZ := 0, 0;
    }

    /** Back to the start cell, empty-handed, facing the initial way. */
    method Reset()
      modifies this
      ensures rc == (0, 0) && prevRc == (0, 0) && !goalReached && holding == None
      ensures nextRotation == initialRotationZ && initialRotationZ == old(initialRotationZ)
    {
      rc, prevRc := (0, 0), (0, 0);
      goalReached := false;
      holding := None;
      nextRotation := initialRotationZ;
    }
  }

  /** The iteration order lists exactly the blocks of the table. */
  predicate Listed(bs: Blocks, order: seq<nat>) {
    (forall k :: k in bs ==> k in order) && (forall i :: 0 <= i < |order| ==> order[i] in bs)
  }

  /** The block table of the environment, in its iteration order. */
  class TowerEnvironment {
    var blocks: Blocks
    var order: seq<nat>

    predicate Valid()
      reads this
    {
      Linked(blocks) && Listed(blocks, order)
    }

    constructor(bs: Blocks, order: seq<nat>)
      requires Linked(bs) && Listed(bs, order)
      ensures Valid() && blocks == bs && this.order == order
    {
      blocks := bs;
      this.order := order;
    }

    /** get_top_block: the first block on the cell in table order, then up
        its `above` links. */
    method GetTopBlock(r: int, c: int) returns (top: Option<nat>)
      requires Valid()
      ensures top == TopAt(blocks, order, (r, c))
    {
      var curr: Option<nat> := None;
      var i := 0;
      while i < |order|
        invariant 0 <= i <= |order|
        invariant FirstAt(blocks, order, (r, c)) == FirstAt(blocks, order[i..], (r, c))
      {
        assert order[i..][1..] == order[i + 1..];
        if order[i] in blocks && blocks[order[i]].rc == (r, c) {
          curr := Some(order[i]);
          break;
        }
        i := i + 1;
      }
      if curr.None? {
        assert order[i..] == [];
        return None;
      }
      var k := curr.value;
      while blocks[k].above.Some?
        invariant k in blocks && Top(blocks, k) == Top(blocks, curr.value)
        decreases Higher(blocks, blocks[k].height)
      {
        var a := blocks[k].above.value;
        assert LinkOk(blocks, k);
        assert a in Higher(blocks, blocks[k].height) && a !in Higher(blocks, blocks[a].height);
        k := a;
      }
      top := Some(k);
    }

    /** Action 2, put down, for the agent facing rotZ degrees. */
    method PutDown(st: AgentState, rotZ: int) returns (reward: Result<int, string>)
      requires Valid() && HeldOk(blocks, st.holding)
      modifies this, st
      ensures Valid() && HeldOk(blocks, st.holding)
      ensures var res := PutDownResult(old(blocks), old(order), old(st.holding), old(st.rc), rotZ);
        (res.Err? ==> reward == Err(res.error) && blocks == old(blocks) && st.holding == old(st.holding)) &&
        (res.Ok? ==> reward == Ok(-1) && (blocks, st.holding) == res.value)
      ensures order == old(order) && st.rc == old(st.rc) && st.prevRc == old(st.rc)
      ensures st.initialRotationZ == old(st.initialRotationZ) && st.nextRotation == old(st.nextRotation)
      ensures st.goalReached == old(st.goalReached)
    {
      st.prevRc := st.rc;
      StepsKeepStacks(blocks, order, st.holding, st.rc, rotZ);
      if st.holding.None? {
        return Ok(-1);
      }
      var d := Heading(rotZ);
      if d.Err? {
        return Err(d.error);
      }
      var cell := Ahead(st.rc, d.value);
      var top := GetTopBlock(cell.0, cell.1);
      TopAtIsTop(blocks, order, cell);
      var h := st.holding.value;
      var (bs', held) := PlaceHeld(blocks, h, cell, top);
      blocks := bs';
      st.holding := held;
      reward := Ok(-1);
    }

    /** Action 3, pick up, for the agent facing rotZ degrees. */
    method PickUp(st: AgentState, rotZ: int) returns (reward: Result<int, string>)
      requires Valid() && HeldOk(blocks, st.holding)
      modifies this, st
      ensures Valid() && HeldOk(blocks, st.holding)
      ensures var res := PickUpResult(old(blocks), old(order), old(st.holding), old(st.rc), rotZ);
        (res.Err? ==> reward == Err(res.error) && blocks == old(blocks) && st.holding == old(st.holding)) &&
        (res.Ok? ==> reward == Ok(-1) && (blocks, st.holding) == res.value)
      ensures order == old(order) && st.rc == old(st.rc) && st.prevRc == old(st.rc)
      ensures st.initialRotationZ == old(st.initialRotationZ) && st.nextRotation == old(st.nextRotation)
      ensures st.goalReached == old(st.goalReached)
    {
      st.prevRc := st.rc;
      StepsKeepStacks(blocks, order, st.holding, st.rc, rotZ);
      if st.holding.Some? {
        return Ok(-1);
      }
      var d := Heading(rotZ);
      if d.Err? {
        return Err(d.error);
      }
      var cell := Ahead(st.rc, d.value);
      var top := GetTopBlock(cell.0, cell.1);
      TopAtIsTop(blocks, order, cell);
      if top.Some? {
        DetachKeepsStacks(blocks, top.value);
        blocks := Detach(blocks, top.value);
        st.holding := top;
      }
      reward := Ok(-1);
    }
  }
}
