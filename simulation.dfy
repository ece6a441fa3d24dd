/** The simulation's entity registry (source/game/Simulation.cpp): entities
    by id, the set of all entities, the entities added since the last tick,
    and one set per type bit. Removal is deferred: Remove only flags the
    entity, and the removal pass of the next tick drops the flagged ones.
    Simulation.h and SimEntity.h are not part of this model: ids are
    naturals, and an entity is reduced to its id, its type word and its
    removal flag. */
module Simulations {
  import opened Bitstreams

  /** The part of a SimEntity the registry touches. */
  class SimEntity {
    const id: nat
    const kind: U32
    var removed: bool

    constructor(id: nat, kind: U32)
      ensures this.id == id && this.kind == kind && !removed
    {
      this.id, this.kind := id, kind;
      removed := false;
    }

    method SetRemoved()
      modifies this
      ensures removed
    {
      removed := true;
    }
  }

  /** The type bits that get a set of their own: `1 << i` for `i` below
      sizeof(uint32_t), that is below 4 (a count of bytes, so only the low
      four type bits are indexed). */
  const TypeBitCount := 4

  function TypeBit(i: nat): (t: U32)
    requires i < TypeBitCount
    ensures t in TypeKeys
  {
    [1, 2, 4, 8][i]
  }

  const TypeKeys: set<U32> := {1, 2, 4, 8}

  /** `kind & t` is non-zero, for `t` a single bit. */
  predicate HasType(kind: U32, t: U32)
    requires t in TypeKeys
  {
    (kind / t) % 2 == 1
  }

  /** The entities of `byId` flagged for removal. */
  ghost function Flagged(byId: map<nat, SimEntity>): set<SimEntity>
    reads byId.Values
  {
    set e | e in byId.Values && e.removed
  }

  /** The flagged entities of type `t`. */
  ghost function FlaggedOfType(byId: map<nat, SimEntity>, t: U32): set<SimEntity>
    requires t in TypeKeys
    reads byId.Values
  {
    set e | e in byId.Values && e.removed && HasType(e.kind, t)
  }

  /** The entries of `byId` whose entity is not flagged. */
  ghost function Kept(byId: map<nat, SimEntity>): map<nat, SimEntity>
    reads byId.Values
  {
    map id | id in byId && !byId[id].removed :: byId[id]
  }

  /** A type word whose four low bits are clear has none of the indexed
      type bits. */
  lemma NoLowTypeBits(kind: U32)
    requires kind % 16 == 0
    ensures forall t :: t in TypeKeys ==> !HasType(kind, t)
  {
    var q := kind / 16;
    assert kind == 16 * q;
    assert kind / 1 == 2 * (8 * q);
    assert kind / 2 == 2 * (4 * q);
    assert kind / 4 == 2 * (2 * q);
    assert kind / 8 == 2 * q;
  }

  /** Takes `e` out of the set of every type bit of its kind. */
  method DropFromTypes(types: map<U32, set<SimEntity>>, e: SimEntity) returns (r: map<U32, set<SimEntity>>)
    requires types.Keys == TypeKeys
    ensures r.Keys == TypeKeys
    ensures forall t :: t in TypeKeys ==> r[t] == if HasType(e.kind, t) then types[t] - {e} else types[t]
  {
    r := types;
    for i := 0 to TypeBitCount
      invariant r.Keys == TypeKeys
      invariant forall j :: 0 <= j < TypeBitCount ==>
                  r[TypeBit(j)] == if j < i && HasType(e.kind, TypeBit(j)) then types[TypeBit(j)] - {e} else types[TypeBit(j)]
    {
      var t := TypeBit(i);
      if HasType(e.kind, t) {
        if e in r[t] {
          r := r[t := r[t] - {e}];
        }
      }
    }
    assert forall t :: t in TypeKeys ==> exists j :: 0 <= j < TypeBitCount && t == TypeBit(j) by {
      assert TypeBit(0) == 1 && TypeBit(1) == 2 && TypeBit(2) == 4 && TypeBit(3) == 8;
    }
  }

  /** Every entity is filed under its own id. */
  ghost predicate FiledById(byId: map<nat, SimEntity>)
  {
    forall id :: id in byId ==> byId[id].id == id
  }

  /** The flagged entities among the ids in `done`, of type `t` when
      `typed`. */
  ghost function FlaggedAmong(byId: map<nat, SimEntity>, done: set<nat>, typed: bool, t: U32): set<SimEntity>
    requires t in TypeKeys
    reads byId.Values
  {
    set e | e in byId.Values && e.removed && e.id in done && (typed ==> HasType(e.kind, t))
  }

  lemma FlaggedAmongStep(byId: map<nat, SimEntity>, done: set<nat>, id: nat, typed: bool, t: U32)
    requires t in TypeKeys && id in byId && FiledById(byId)
    ensures FlaggedAmong(byId, done + {id}, typed, t)
            == FlaggedAmong(byId, done, typed, t)
               + (if byId[id].removed && (typed ==> HasType(byId[id].kind, t)) then {byId[id]} else {})
  {
  }

  lemma FlaggedAmongAll(byId: map<nat, SimEntity>, t: U32)
    requires t in TypeKeys
    ensures FlaggedAmong(byId, byId.Keys, false, t) == Flagged(byId)
    ensures FlaggedAmong(byId, byId.Keys, true, t) == FlaggedOfType(byId, t)
    requires FiledById(byId)
  {
    forall e | e in byId.Values
      ensures e.id in byId.Keys
    {
      var id :| id in byId && byId[id] == e;
    }
  }

  /** The entries of `byId` not flagged, or still to be visited. */
  ghost function KeptBut(byId: map<nat, SimEntity>, todo: set<nat>): map<nat, SimEntity>
    reads byId.Values
  {
    map id | id in byId && (id in todo || !byId[id].removed) :: byId[id]
  }

  lemma KeptButStep(byId: map<nat, SimEntity>, todo: set<nat>, id: nat)
    requires id in todo && id in byId
    ensures KeptBut(byId, todo - {id})
            == if byId[id].removed then KeptBut(byId, todo) - {id} else KeptBut(byId, todo)
  {
  }

  /** Dropping the flagged entries keeps exactly the unflagged entities. */
  lemma KeptValues(byId: map<nat, SimEntity>)
    ensures Kept(byId).Values == byId.Values - Flagged(byId)
  {
    forall e | e in byId.Values - Flagged(byId)
      ensures e in Kept(byId).Values
    {
      var id :| id in byId && byId[id] == e;
      assert Kept(byId)[id] == e;
    }
  }

  lemma ValuesOfUpdate(byId: map<nat, SimEntity>, id: nat, e: SimEntity)
    requires id !in byId
    ensures byId[id := e].Values == byId.Values + {e}
  {
    forall x | x in byId.Values
      ensures x in byId[id := e].Values
    {
      var k :| k in byId && byId[k] == x;
      assert byId[id := e][k] == x;
    }
    assert byId[id := e][id] == e;
  }

  /** One visit of the removal pass keeps the per-type sets equal to the
      original ones less the flagged entities visited so far. */
  lemma TypesStep(byId: map<nat, SimEntity>, done: set<nat>, id: nat,
                  types: map<U32, set<SimEntity>>, before: map<U32, set<SimEntity>>, after: map<U32, set<SimEntity>>)
    requires id in byId && FiledById(byId) && types.Keys == TypeKeys && before.Keys == TypeKeys && after.Keys == TypeKeys
    requires forall t :: t in TypeKeys ==> before[t] == types[t] - FlaggedAmong(byId, done, true, t)
    requires forall t :: t in TypeKeys ==>
               after[t] == if byId[id].removed && HasType(byId[id].kind, t) then before[t] - {byId[id]} else before[t]
    ensures forall t :: t in TypeKeys ==> after[t] == types[t] - FlaggedAmong(byId, done + {id}, true, t)
  {
    forall t | t in TypeKeys
      ensures after[t] == types[t] - FlaggedAmong(byId, done + {id}, true, t)
    {
      FlaggedAmongStep(byId, done, id, true, t);
    }
  }

  /** The state of the removal pass once every id of `byId` outside `todo`
      has been visited. */
  ghost predicate PassedOver(byId: map<nat, SimEntity>, entities: set<SimEntity>, types: map<U32, set<SimEntity>>,
                             todo: set<nat>,
                             byId': map<nat, SimEntity>, entities': set<SimEntity>, types': map<U32, set<SimEntity>>)
    reads byId.Values
  {
    && todo <= byId.Keys
    && types.Keys == TypeKeys && types'.Keys == TypeKeys
    && byId' == KeptBut(byId, todo)
    && entities' == entities - FlaggedAmong(byId, byId.Keys - todo, false, 1)
    && (forall t :: t in TypeKeys ==> types'[t] == types[t] - FlaggedAmong(byId, byId.Keys - todo, true, t))
  }

  /** One visit of the removal pass: a flagged entity leaves the id map,
      the entity set and the sets of its type bits. */
  method VisitForRemoval(ghost byId: map<nat, SimEntity>, ghost entities: set<SimEntity>, ghost types: map<U32, set<SimEntity>>,
                         ghost todo: set<nat>, id: nat, ent: SimEntity,
                         b: map<nat, SimEntity>, es: set<SimEntity>, ts: map<U32, set<SimEntity>>)
      returns (b': map<nat, SimEntity>, es': set<SimEntity>, ts': map<U32, set<SimEntity>>)
    requires FiledById(byId) && id in todo && id in byId && ent == byId[id]
    requires PassedOver(byId, entities, types, todo, b, es, ts)
    ensures PassedOver(byId, entities, types, todo - {id}, b', es', ts')
  {
    ghost var done := byId.Keys - todo;
    assert byId.Keys - (todo - {id}) == done + {id};
    FlaggedAmongStep(byId, done, id, false, 1);
    KeptButStep(byId, todo, id);
    if ent.removed {
      es' := es - {ent};
      ts' := DropFromTypes(ts, ent);
      TypesStep(byId, done, id, types, ts, ts');
      b' := b - {id};
    } else {
      b', es', ts' := b, es, ts;
      TypesStep(byId, done, id, types, ts, ts');
    }
  }

  /** The removal pass of ProcessTick over the entities registered at the
      start of the tick: each flagged one leaves the id map, the entity set
      and the sets of its type bits. */
  method RemovalPass(byId: map<nat, SimEntity>, entities: set<SimEntity>, types: map<U32, set<SimEntity>>)
      returns (byId': map<nat, SimEntity>, entities': set<SimEntity>, types': map<U32, set<SimEntity>>)
    requires types.Keys == TypeKeys && FiledById(byId)
    ensures byId' == Kept(byId)
    ensures entities' == entities - Flagged(byId)
    ensures types'.Keys == TypeKeys
    ensures forall t :: t in TypeKeys ==> types'[t] == types[t] - FlaggedOfType(byId, t)
  {
    byId', entities', types' := byId, entities, types;
    var todo := byId.Keys;
    assert byId.Keys - todo == {};
    while todo != {}
      invariant PassedOver(byId, entities, types, todo, byId', entities', types')
      decreases |todo|
    {
      var id :| id in todo;
      byId', entities', types' := VisitForRemoval(byId, entities, types, todo, id, byId[id], byId', entities', types');
      todo := todo - {id};
    }
    PassedAll(byId, entities, types, byId', entities', types');
  }

  lemma PassedAll(byId: map<nat, SimEntity>, entities: set<SimEntity>, types: map<U32, set<SimEntity>>,
                  byId': map<nat, SimEntity>, entities': set<SimEntity>, types': map<U32, set<SimEntity>>)
    requires FiledById(byId) && PassedOver(byId, entities, types, {}, byId', entities', types')
    ensures byId' == Kept(byId)
    ensures entities' == entities - Flagged(byId)
    ensures types'.Keys == TypeKeys
    ensures forall t :: t in TypeKeys ==> types'[t] == types[t] - FlaggedOfType(byId, t)
  {
    assert byId.Keys - {} == byId.Keys;
    assert KeptBut(byId, {}) == Kept(byId);
    FlaggedAmongAll(byId, 1);
    forall t | t in TypeKeys
      ensures types'[t] == types[t] - FlaggedOfType(byId, t)
    {
      FlaggedAmongAll(byId, t);
    }
  }

  /** Puts `e` into the set of every type bit of its kind. */
  method AddToTypes(types: map<U32, set<SimEntity>>, e: SimEntity) returns (r: map<U32, set<SimEntity>>)
    requires types.Keys == TypeKeys
    ensures r.Keys == TypeKeys
    ensures forall t :: t in TypeKeys ==> r[t] == if HasType(e.kind, t) then types[t] + {e} else types[t]
  {
    r := types;
    for i := 0 to TypeBitCount
      invariant r.Keys == TypeKeys
      invariant forall j :: 0 <= j < TypeBitCount ==>
                  r[TypeBit(j)] == if j < i && HasType(e.kind, TypeBit(j)) then types[TypeBit(j)] + {e} else types[TypeBit(j)]
    {
      var t := TypeBit(i);
      if HasType(e.kind, t) {
        r := r[t := r[t] + {e}];
      }
    }
    assert forall t :: t in TypeKeys ==> exists j :: 0 <= j < TypeBitCount && t == TypeBit(j) by {
      assert TypeBit(0) == 1 && TypeBit(1) == 2 && TypeBit(2) == 4 && TypeBit(3) == 8;
    }
  }

  class Simulation {
    /** mSimIdHashedEntities. */
    var byId: map<nat, SimEntity>
    /** mEntities. */
    var entities: set<SimEntity>
    /** mEntitiesAdded. */
    var added: seq<SimEntity>
    /** mEntityTypes. */
    var types: map<U32, set<SimEntity>>

    /** Every entity is filed under its own id, the entity set is the set
        of registered entities, and each registered entity is in the set of
        each of its indexed type bits. */
    ghost predicate Valid()
      reads this, byId.Values
    {
      && types.Keys == TypeKeys
      && FiledById(byId)
      && entities == byId.Values
      && (forall e, t :: e in byId.Values && t in TypeKeys && HasType(e.kind, t) ==> e in types[t])
    }

    /** An empty registry with an empty set for each indexed type bit. */
    constructor()
      ensures Valid() && byId == map[] && entities == {} && added == []
      ensures types == map t | t in TypeKeys :: {}
    {
      byId, entities, added := map[], {}, [];
      var ts: map<U32, set<SimEntity>> := map[];
      for i := 0 to TypeBitCount
        invariant ts.Keys == set j | 0 <= j < i :: TypeBit(j)
        invariant forall t :: t in ts ==> ts[t] == {}
      {
        ts := ts[TypeBit(i) := {}];
      }
      assert ts.Keys == TypeKeys by {
        assert TypeBit(0) == 1 && TypeBit(1) == 2 && TypeBit(2) == 4 && TypeBit(3) == 8;
      }
      types := ts;
    }

    /** The entity under `id`, or null. */
    function Find(id: nat): (r: SimEntity?)
      reads this
      ensures r != null <==> id in byId
      ensures r != null ==> r == byId[id]
    {
      if id in byId then byId[id] else null
    }

    /** Registers an entity whose id is not taken yet. */
    method AddSimEntity(ent: SimEntity)
      requires Valid() && Find(ent.id) == null && ent !in entities
      modifies this
      ensures Valid()
      ensures byId == old(byId)[ent.id := ent] && Find(ent.id) == ent
      ensures entities == old(entities) + {ent} && added == old(added) + [ent]
      ensures types.Keys == TypeKeys
      ensures forall t :: t in TypeKeys ==> types[t] == if HasType(ent.kind, t) then old(types[t]) + {ent} else old(types[t])
    {
      byId := byId[ent.id := ent];
      entities := entities + {ent};
      added := added + [ent];
      ValuesOfUpdate(old(byId), ent.id, ent);
      types := AddToTypes(types, ent);
    }

    /** Flags the entity under `id` for removal; it stays registered until
        the next tick. An unknown id changes nothing. */
    method Remove(id: nat)
      requires Valid()
      modifies byId.Values
      ensures Valid()
      ensures id in byId ==> byId[id].removed
      ensures forall e :: e in byId.Values && (id !in byId || e != byId[id]) ==> e.removed == old(e.removed)
    {
      var ent := Find(id);
      if ent != null {
        ent.SetRemoved();
      }
    }

    /** Empties the id map and the entity set; the per-type sets and the
        list of new entities are left as they are. */
    method Clear()
      requires Valid()
      modifies this
      ensures Valid() && byId == map[] && entities == {}
      ensures types == old(types) && added == old(added)
    {
      byId := map[];
      entities := {};
    }

    /** The removal pass of ProcessTick. The entity callbacks (BeforeTick,
        TickScene, TickAI) and the collision bookkeeping are not part of
        this model; the list of new entities is emptied. */
    method ProcessTick()
      requires Valid()
      modifies this
      ensures Valid()
      ensures byId == Kept(old(byId)) && added == []
      ensures entities == old(entities) - Flagged(old(byId))
      ensures types.Keys == TypeKeys
      ensures forall t :: t in TypeKeys ==> types[t] == old(types[t]) - FlaggedOfType(old(byId), t)
    {
      added := [];
      ghost var b0 := byId;
      byId, entities, types := RemovalPass(byId, entities, types);
      KeptValues(b0);
    }

    /** The union of the sets of the indexed type bits set in `mask`. */
    method GetEntities(mask: U32) returns (r: set<SimEntity>)
      requires Valid()
      ensures forall e :: e in r <==> exists t :: t in TypeKeys && HasType(mask, t) && e in types[t]
      ensures forall e, t :: e in byId.Values && t in TypeKeys && HasType(mask, t) && HasType(e.kind, t) ==> e in r
    {
      r := {};
      for i := 0 to TypeBitCount
        invariant forall e :: e in r <==> exists j :: 0 <= j < i && HasType(mask, TypeBit(j)) && e in types[TypeBit(j)]
      {
        var t := TypeBit(i);
        if HasType(mask, t) {
          r := r + types[t];
        }
      }
      assert forall t :: t in TypeKeys ==> exists j :: 0 <= j < TypeBitCount && t == TypeBit(j) by {
        assert TypeBit(0) == 1 && TypeBit(1) == 2 && TypeBit(2) == 4 && TypeBit(3) == 8;
      }
    }
  }
}

/** Uses of the registry. */
module SimulationClients {
  import opened Bitstreams
  import opened Simulations

  /** Remove only flags the entity: it is still found under its id until
      the next tick, whose removal pass drops it from every index. */
  method RemovalWaitsForTheTick(id: nat, kind: U32) returns (foundBefore: bool, foundAfter: bool, typedAfter: bool)
    ensures foundBefore && !foundAfter && !typedAfter
  {
    var sim := new Simulation();
    var ent := new SimEntity(id, kind);
    sim.AddSimEntity(ent);
    sim.Remove(id);
    foundBefore := sim.Find(id) == ent;
    sim.ProcessTick();
    assert Kept(map[id := ent]) == map[];
    foundAfter := sim.Find(id) != null;
    var all := sim.GetEntities(0xFFFF_FFFF);
    typedAfter := ent in all;
  }

  /** An entity whose type word has none of the four low bits is registered
      under its id but reachable through no type set, whatever the mask. */
  method HighTypeBitsAreNotIndexed(id: nat, kind: U32, mask: U32) returns (found: bool, typed: bool)
    requires kind % 16 == 0
    ensures found && !typed
  {
    var sim := new Simulation();
    var ent := new SimEntity(id, kind);
    NoLowTypeBits(kind);
    sim.AddSimEntity(ent);
    found := sim.Find(id) == ent;
    var r := sim.GetEntities(mask);
    typed := ent in r;
  }

  /** An entity of type 1|4 is found through mask 4 and not through mask 2. */
  method GetEntitiesByMask(id: nat) returns (inFour: bool, inTwo: bool)
    ensures inFour && !inTwo
  {
    var sim := new Simulation();
    var ent := new SimEntity(id, 5);
    assert HasType(5, 1) && !HasType(5, 2) && HasType(5, 4) && !HasType(5, 8);
    assert forall t :: t in TypeKeys ==> (HasType(4, t) <==> t == 4) && (HasType(2, t) <==> t == 2);
    sim.AddSimEntity(ent);
    var four := sim.GetEntities(4);
    var two := sim.GetEntities(2);
    inFour, inTwo := ent in four, ent in two;
  }

  /** Clear forgets the ids and the entity set but leaves the per-type sets
      holding the entities registered before. */
  method ClearLeavesTypeSets(id: nat) returns (found: bool, typed: bool)
    ensures !found && typed
  {
    var sim := new Simulation();
    var ent := new SimEntity(id, 1);
    assert 1 in TypeKeys && HasType(1, 1);
    sim.AddSimEntity(ent);
    assert ent in sim.types[1];
    sim.Clear();
    found := sim.Find(id) != null;
    var r := sim.GetEntities(1);
    typed := ent in r;
  }
}
