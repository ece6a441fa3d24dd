/** The registry of GUI elements (branches/tourney2013/source/gui/GuiManager.cpp):
    elements by id, ids by name, the id counter and the set of element
    factories. The Irrlicht side of an element (drawing, events, focus) is
    not modelled; of it only the ids of the element's children are kept,
    because Remove walks them. */
module GuiManagers {
  import opened Wrappers
  import opened Bitstreams
  import opened Decimals

  /** A GuiBase as the registry sees it: its own id, the factory key that
      made it, its name and the ids of its Irrlicht children (already taken
      to uint32, as Remove takes them). */
  datatype GuiElem = GuiElem(id: U32, kind: string, name: string, children: seq<U32>)

  /** The initial value of the static mGuiIdCounter. */
  const FirstGuiId: U32 := 1

  /** Keys registered by RegisterDefaultElementFactories. */
  const DefaultFactoryKeys: set<string> :=
    {"button", "scroll bar", "horizontal scroll bar", "combo box", "edit box", "check box",
     "text", "image", "window", "modal window", "context menu"}

  // ---------------------------------------------------------------------
  // Default names: "unnamed_" followed by the id in decimal.

  function DefaultName(id: U32): (s: string)
    ensures |s| > 8 && s[..8] == "unnamed_" && s[8..] == Decimal(id)
  {
    "unnamed_" + Decimal(id)
  }

  /** Two elements with different ids never get the same default name. */
  lemma DefaultNamesDistinct(a: U32, b: U32)
    requires a != b
    ensures DefaultName(a) != DefaultName(b)
  {
    DecimalRoundTrip(a);
    DecimalRoundTrip(b);
  }

  // ---------------------------------------------------------------------
  // The shape Remove walks.

  ghost predicate SubMap<K, V>(small: map<K, V>, big: map<K, V>)
  {
    forall k :: k in small ==> k in big && small[k] == big[k]
  }

  /** Every element of `b` missing from `r` took its children with it. */
  ghost predicate ChildrenGoWithParent(b: map<U32, GuiElem>, r: map<U32, GuiElem>)
  {
    forall y, c :: y in b && y !in r && c in b[y].children ==> c !in r
  }

  /** Below `x`, registered elements reach at most `h` levels down: the
      Irrlicht element tree is finite and acyclic. */
  ghost predicate Bounded(b: map<U32, GuiElem>, x: U32, h: nat)
    decreases h
  {
    x in b ==> h > 0 && forall c :: c in b[x].children ==> Bounded(b, c, h - 1)
  }

  /** `y` is `x` or reached from `x` through registered elements within `h`
      steps. */
  ghost predicate Below(b: map<U32, GuiElem>, x: U32, y: U32, h: nat)
    decreases h
  {
    y == x || (h > 0 && x in b && exists c :: c in b[x].children && Below(b, c, y, h - 1))
  }

  lemma {:induction false} BoundedShrinks(b: map<U32, GuiElem>, r: map<U32, GuiElem>, x: U32, h: nat)
    requires SubMap(r, b) && Bounded(b, x, h)
    ensures Bounded(r, x, h)
    decreases h
  {
    if x in r {
      forall c | c in r[x].children
        ensures Bounded(r, c, h - 1)
      {
        BoundedShrinks(b, r, c, h - 1);
      }
    }
  }

  lemma {:induction false} BelowGrows(b: map<U32, GuiElem>, r: map<U32, GuiElem>, x: U32, y: U32, h: nat)
    requires SubMap(r, b) && Below(r, x, y, h)
    ensures Below(b, x, y, h)
    decreases h
  {
    if y != x {
      var c :| c in r[x].children && Below(r, c, y, h - 1);
      BelowGrows(b, r, c, y, h - 1);
    }
  }

  /** What removing `x` from the maps `b` and `n` leaves in `r` and `rn`:
      only entries go, everything that went took its children with it and
      lies below `x`, and a name goes exactly when it is the name of an
      element that went. */
  ghost predicate Removal(b: map<U32, GuiElem>, n: map<string, U32>, r: map<U32, GuiElem>,
                          rn: map<string, U32>, x: U32, h: nat)
  {
    && SubMap(r, b) && ChildrenGoWithParent(b, r)
    && (forall y :: y in b && y !in r ==> Below(b, x, y, h))
    && SubMap(rn, n)
    && (forall y :: y in b && y !in r ==> b[y].name !in rn)
    && (forall m :: m in n && m !in rn ==> exists y :: y in b && y !in r && b[y].name == m)
  }

  /** Removing a child `c` of `x` after part of the removal of `x` is still
      part of the removal of `x`. */
  lemma RemovalStep(b: map<U32, GuiElem>, n: map<string, U32>, cur: map<U32, GuiElem>,
                    curNames: map<string, U32>, r: map<U32, GuiElem>, rn: map<string, U32>,
                    x: U32, c: U32, h: nat)
    requires x in b && c in b[x].children && h > 0
    requires Removal(b, n, cur, curNames, x, h) && Removal(cur, curNames, r, rn, c, h - 1)
    ensures Removal(b, n, r, rn, x, h)
  {
    forall y | y in b && y !in r
      ensures Below(b, x, y, h)
    {
      if y in cur {
        BelowGrows(b, cur, c, y, h - 1);
        assert c in b[x].children && Below(b, c, y, h - 1);
      }
    }
    forall m | m in n && m !in rn
      ensures exists y :: y in b && y !in r && b[y].name == m
    {
      if m in curNames {
        var y :| y in cur && y !in r && cur[y].name == m;
      }
    }
  }

  /** Once every child of `x` is gone, dropping `x` and its name completes
      the removal. */
  lemma RemovalLast(b: map<U32, GuiElem>, n: map<string, U32>, r: map<U32, GuiElem>,
                    rn: map<string, U32>, x: U32, h: nat)
    requires x in b && Removal(b, n, r, rn, x, h)
    requires forall c :: c in b[x].children ==> c !in r
    ensures Removal(b, n, r - {x}, rn - {b[x].name}, x, h)
  {
  }

  /** An element is gone as soon as some ancestor is gone. */
  lemma {:induction false} DescendantsGo(b: map<U32, GuiElem>, r: map<U32, GuiElem>, x: U32, y: U32, k: nat)
    requires ChildrenGoWithParent(b, r) && x !in r && Below(b, x, y, k)
    ensures y !in r
    decreases k
  {
    if y != x {
      var c :| c in b[x].children && Below(b, c, y, k - 1);
      DescendantsGo(b, r, c, y, k - 1);
    }
  }

  /** A removal of `x` takes exactly the elements below `x`. */
  lemma RemovalIsExactlyBelow(b: map<U32, GuiElem>, n: map<string, U32>, r: map<U32, GuiElem>,
                              rn: map<string, U32>, x: U32, h: nat)
    requires Removal(b, n, r, rn, x, h) && x !in r
    ensures forall y :: y in b ==> (y !in r <==> Below(b, x, y, h))
  {
    forall y | y in b && Below(b, x, y, h)
      ensures y !in r
    {
      DescendantsGo(b, r, x, y, h);
    }
  }

  class GuiManager {
    /** mGuiIdCounter (static in the source; one manager is modelled). */
    var nextId: U32
    /** mGuiBases. */
    var bases: map<U32, GuiElem>
    /** mGuiNames. */
    var names: map<string, U32>
    /** The keys of mElementFactoryMap. */
    var factories: set<string>

    constructor()
      ensures nextId == FirstGuiId && bases == map[] && names == map[]
      ensures factories == DefaultFactoryKeys
    {
      nextId, bases, names := FirstGuiId, map[], map[];
      factories := DefaultFactoryKeys;
    }

    /** The counter is asserted positive, then post-incremented with uint32
        wrap-around. */
    method AllocateGuiId() returns (id: U32)
      requires nextId > 0
      modifies this
      ensures id == old(nextId) && nextId == (id + 1) % 0x1_0000_0000
      ensures bases == old(bases) && names == old(names) && factories == old(factories)
    {
      id := nextId;
      nextId := (nextId + 1) % 0x1_0000_0000;
    }

    method RegisterElementFactory(key: string)
      modifies this
      ensures factories == old(factories) + {key}
      ensures nextId == old(nextId) && bases == old(bases) && names == old(names)
    {
      factories := factories + {key};
    }

    method RemoveElementFactory(key: string)
      modifies this
      ensures factories == old(factories) - {key}
      ensures nextId == old(nextId) && bases == old(bases) && names == old(names)
    {
      if key in factories {
        factories := factories - {key};
      }
    }

    method ClearElementFactories()
      modifies this
      ensures factories == {}
      ensures nextId == old(nextId) && bases == old(bases) && names == old(names)
    {
      factories := {};
    }

    function NumElements(): (n: nat)
      reads this
      ensures n == |bases.Keys|
    {
      |bases|
    }

    /** The element registered under `id`, or null. */
    function GetElement(id: U32): (r: Option<GuiElem>)
      reads this
      ensures r.Some? <==> id in bases
      ensures r.Some? ==> r.value == bases[id]
    {
      if id in bases then Some(bases[id]) else None
    }

    /** The name's id is read back as an int32: an unknown name gives -1 and
        so does any id of 2^31 or more, and a negative id gives null. */
    function GetElementByName(name: string): (r: Option<GuiElem>)
      reads this
      ensures r.Some? <==> name in names && names[name] < 0x8000_0000 && names[name] in bases
      ensures r.Some? ==> r.value == bases[names[name]]
    {
      var id: int := if name !in names then -1 else if names[name] < 0x8000_0000 then names[name] else names[name] as int - 0x1_0000_0000;
      if id < 0 then None else GetElement(id)
    }

    /** Moves the id of `oldName` to `newName` when the first is registered
        and the second is free; otherwise changes nothing. */
    method ModifyRegisteredElementName(oldName: string, newName: string) returns (ok: bool)
      modifies this
      ensures ok <==> oldName in old(names) && newName !in old(names)
      ensures ok ==> names == (old(names) - {oldName})[newName := old(names)[oldName]]
      ensures !ok ==> names == old(names)
      ensures nextId == old(nextId) && bases == old(bases) && factories == old(factories)
    {
      if oldName in names && newName !in names {
        var id := names[oldName];
        names := names[newName := id];
        names := names - {oldName};
        ok := true;
      } else {
        ok := false;
      }
    }

    /** Registers `base` under `id`. A nameless element is first renamed
        "unnamed_<id>" through setName, which also asks the registry to move
        the entry of the empty name; then the name maps to `id`. */
    method AddBase(id: U32, base: Option<GuiElem>) returns (r: Option<GuiElem>)
      modifies this
      ensures r.None? <==> base.None?
      ensures base.None? ==> bases == old(bases) && names == old(names)
      ensures base.Some? ==> r.value == base.value.(name := if base.value.name == "" then DefaultName(id) else base.value.name)
      ensures base.Some? ==> bases == old(bases)[id := r.value]
      ensures base.Some? ==>
                names == (if base.value.name == "" && "" in old(names) && DefaultName(id) !in old(names)
                          then old(names) - {""} else old(names))[r.value.name := id]
      ensures nextId == old(nextId) && factories == old(factories)
    {
      if base.None? {
        return None;
      }
      var e := base.value;
      if e.name == "" {
        var _ := ModifyRegisteredElementName("", DefaultName(id));
        e := e.(name := DefaultName(id));
      }
      bases := bases[id := e];
      names := names[e.name := id];
      r := Some(e);
    }

    /** Builds an element of a registered kind under a fresh id; an unknown
        kind gives null and changes nothing. The factories themselves are
        not part of this model: a new element is taken to be nameless and
        childless. */
    method CreateElement(kind: string) returns (r: Option<GuiElem>)
      requires kind in factories ==> nextId > 0
      modifies this
      ensures kind !in factories ==> r.None? && bases == old(bases) && names == old(names) && nextId == old(nextId)
      ensures kind in factories ==>
                var id := old(nextId);
                r == Some(GuiElem(id, kind, DefaultName(id), [])) && bases == old(bases)[id := r.value]
                && nextId == (id + 1) % 0x1_0000_0000
                && names == (if "" in old(names) && DefaultName(id) !in old(names)
                             then old(names) - {""} else old(names))[DefaultName(id) := id]
      ensures factories == old(factories)
    {
      if kind in factories {
        var id := AllocateGuiId();
        r := AddBase(id, Some(GuiElem(id, kind, "", [])));
      } else {
        r := None;
      }
    }

    /** Unregisters every element. */
    method RemoveAll()
      modifies this
      ensures bases == map[] && names == map[]
      ensures nextId == old(nextId) && factories == old(factories)
    {
      bases := map[];
      names := map[];
    }

    /** Removes the element `id`: first, one by one, the elements under its
        children's ids, then its own name entry and its id entry. An unknown
        id changes nothing. `h` bounds the depth of the element tree. The
        result: only entries go, the element and everything reached from it
        go, nothing else does, and a name goes exactly when it is the name
        of an element that went. */
    method Remove(id: U32, ghost h: nat)
      requires Bounded(bases, id, h)
      modifies this
      decreases h
      ensures id !in old(bases) ==> bases == old(bases) && names == old(names)
      ensures Removal(old(bases), old(names), bases, names, id, h) && id !in bases
      ensures nextId == old(nextId) && factories == old(factories)
    {
      if id !in bases {
        return;
      }
      var e := bases[id];
      ghost var b0, n0 := bases, names;
      var i := 0;
      while i < |e.children|
        invariant 0 <= i <= |e.children|
        invariant Removal(b0, n0, bases, names, id, h)
        invariant forall j :: 0 <= j < i ==> e.children[j] !in bases
        invariant nextId == old(nextId) && factories == old(factories)
      {
        var c := e.children[i];
        assert c in b0[id].children;
        ghost var cur, curNames := bases, names;
        BoundedShrinks(b0, bases, c, h - 1);
        Remove(c, h - 1);
        RemovalStep(b0, n0, cur, curNames, bases, names, id, c, h);
        i := i + 1;
      }
      RemovalLast(b0, n0, bases, names, id, h);
      names := names - {e.name};
      bases := bases - {id};
    }

    /** Removes the element registered under `name`, if the lookup finds
        one. */
    method RemoveByName(name: string, ghost h: nat)
      requires forall x :: Bounded(bases, x, h)
      modifies this
      ensures old(GetElementByName(name)).None? ==> bases == old(bases) && names == old(names)
      ensures old(GetElementByName(name)).Some? ==>
                var x := old(GetElementByName(name)).value.id;
                Removal(old(bases), old(names), bases, names, x, h) && x !in bases
      ensures nextId == old(nextId) && factories == old(factories)
    {
      var e := GetElementByName(name);
      if e.Some? {
        Remove(e.value.id, h);
      }
    }
  }

  // ---------------------------------------------------------------------
  // Uses of the registry.

  lemma SmallDefaultNames()
    ensures DefaultName(1) == "unnamed_1" && DefaultName(2) == "unnamed_2" && DefaultName(6) == "unnamed_6"
  {
    assert Decimal(1) == "1" && Decimal(2) == "2" && Decimal(6) == "6";
  }

  /** Created elements get the ids 1, 2, ... in order, default names built
      from them, and can be found by those names. */
  method CreatedElementsAreNamedById() returns (a: Option<GuiElem>, b: Option<GuiElem>, byName: Option<GuiElem>, count: nat)
    ensures a == Some(GuiElem(1, "button", "unnamed_1", []))
    ensures b == Some(GuiElem(2, "window", "unnamed_2", []))
    ensures byName == b && count == 2
  {
    SmallDefaultNames();
    var m := new GuiManager();
    a := m.CreateElement("button");
    b := m.CreateElement("window");
    byName := m.GetElementByName("unnamed_2");
    assert m.bases.Keys == {1, 2};
    count := m.NumElements();
  }

  /** A kind without a factory gives null and registers nothing. */
  method UnknownKindCreatesNothing(kind: string) returns (r: Option<GuiElem>, count: nat)
    requires kind !in DefaultFactoryKeys
    ensures r == None && count == 0
  {
    var m := new GuiManager();
    r := m.CreateElement(kind);
    count := m.NumElements();
  }

  /** A null base is not registered. */
  method AddingNullRegistersNothing(id: U32) returns (r: Option<GuiElem>, count: nat)
    ensures r == None && count == 0
  {
    var m := new GuiManager();
    r := m.AddBase(id, None);
    count := m.NumElements();
  }

  /** A rename to a free name moves the element there; a rename onto a
      taken name, or of a name that is not registered, fails. */
  method RenameMovesTheId(newName: string) returns (moved: bool, byOld: Option<GuiElem>, byNew: Option<GuiElem>, clash: bool, missing: bool)
    requires newName != "unnamed_1" && newName != "unnamed_2"
    ensures moved && byOld == None && byNew == Some(GuiElem(1, "button", "unnamed_1", []))
    ensures !clash && !missing
  {
    SmallDefaultNames();
    var m := new GuiManager();
    var first := m.CreateElement("button");
    var second := m.CreateElement("text");
    assert m.names == map["unnamed_1" := 1, "unnamed_2" := 2];
    moved := m.ModifyRegisteredElementName("unnamed_1", newName);
    byOld := m.GetElementByName("unnamed_1");
    byNew := m.GetElementByName(newName);
    clash := m.ModifyRegisteredElementName("unnamed_2", newName);
    missing := m.ModifyRegisteredElementName("unnamed_1", "fresh");
  }

  const Window := GuiElem(5, "window", "w", [6])
  const Button := GuiElem(6, "button", "unnamed_6", [])
  const Other := GuiElem(7, "text", "other", [])

  /** The maps left by removing the window from the window, its button and
      another element. */
  lemma RemovingTheWindow(r: map<U32, GuiElem>, rn: map<string, U32>)
    requires Removal(map[5 := Window, 6 := Button, 7 := Other], map["w" := 5, "unnamed_6" := 6, "other" := 7], r, rn, 5, 2)
    requires 5 !in r
    ensures r == map[7 := Other]
    ensures "w" !in rn && "unnamed_6" !in rn && "other" in rn && rn["other"] == 7
  {
    var b := map[5 := Window, 6 := Button, 7 := Other];
    assert b.Keys == {5, 6, 7};
    assert 6 in b[5].children;
    assert 6 !in r;
    assert !Below(b, 5, 7, 2) by {
      assert !Below(b, 6, 7, 1);
    }
    assert 7 in r && r[7] == Other;
    assert r.Keys == {7};
    assert b[5].name == "w" && b[6].name == "unnamed_6";
  }

  /** Removing a window takes its child button and both names with it and
      leaves an unrelated element alone. */
  method RemoveTakesChildren() returns (window: Option<GuiElem>, button: Option<GuiElem>, other: Option<GuiElem>, count: nat)
    ensures window == None && button == None
    ensures other == Some(Other) && count == 1
  {
    SmallDefaultNames();
    var m := new GuiManager();
    var w := m.AddBase(5, Some(Window));
    var btn := m.AddBase(6, Some(Button.(name := "")));
    var o := m.AddBase(7, Some(Other));
    assert m.bases == map[5 := Window, 6 := Button, 7 := Other];
    assert m.names == map["w" := 5, "unnamed_6" := 6, "other" := 7];
    assert Bounded(m.bases, 6, 1);
    m.Remove(5, 2);
    RemovingTheWindow(m.bases, m.names);
    window := m.GetElementByName("w");
    button := m.GetElementByName("unnamed_6");
    other := m.GetElementByName("other");
    count := m.NumElements();
  }

  /** RemoveAll leaves nothing to find. */
  method RemoveAllEmpties() returns (found: Option<GuiElem>, count: nat)
    ensures found == None && count == 0
  {
    var m := new GuiManager();
    var a := m.CreateElement("image");
    m.RemoveAll();
    found := m.GetElementByName("unnamed_1");
    count := m.NumElements();
  }
}
