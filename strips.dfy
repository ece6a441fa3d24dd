/**
 * STRIPS planning primitives of the BlocksTower mod: grounded conditions and
 * their matching, the world of facts and goals, action groundings, the list
 * state that the linear solver updates, and the linear solver itself.
 */
module Strips {
  import opened Wrappers

  /** A condition over literals; `truth` false stands for the negated condition. */
  datatype Grounded = Grounded(pred: string, literals: seq<string>, truth: bool)

  /** A condition over the parameter names of an action. */
  datatype Condition = Condition(pred: string, params: seq<string>, truth: bool)

  datatype Action = Action(name: string, params: seq<string>, pre: seq<Condition>, post: seq<Condition>)

  /**
   * An action with literals bound to its parameters. The back reference to
   * the action is kept as the action's name.
   */
  datatype GroundedAction = GroundedAction(name: string, literals: seq<string>, pre: seq<Grounded>,
                                           post: seq<Grounded>, completePost: seq<Grounded>)

  predicate Distinct<T(==)>(s: seq<T>) {
    forall i, j :: 0 <= i < j < |s| ==> s[i] != s[j]
  }

  // ---------------------------------------------------------------- matching

  /** Same predicate and the same literals; the truth value is ignored. */
  predicate WeakMatch(a: Grounded, b: Grounded) {
    a.pred == b.pred && a.literals == b.literals
  }

  /** A weak match with the same truth value. */
  predicate StrongMatch(a: Grounded, b: Grounded) {
    a.truth == b.truth && WeakMatch(a, b)
  }

  lemma StrongMatchIsEquality(a: Grounded, b: Grounded)
    ensures StrongMatch(a, b) <==> WeakMatch(a, b) && a.truth == b.truth
    ensures StrongMatch(a, b) <==> a == b
  {
  }

  /** weak_match: compares the predicates, the lengths, then the literals pairwise. */
  method CheckWeakMatch(a: Grounded, b: Grounded) returns (r: bool)
    ensures r <==> a.pred == b.pred && |a.literals| == |b.literals|
                   && forall i :: 0 <= i < |a.literals| ==> a.literals[i] == b.literals[i]
    ensures r == WeakMatch(a, b)
  {
    if a.pred != b.pred {
      return false;
    }
    if |a.literals| != |b.literals| {
      return false;
    }
    var i := 0;
    while i < |a.literals|
      invariant 0 <= i <= |a.literals|
      invariant forall j :: 0 <= j < i ==> a.literals[j] == b.literals[j]
    {
      if a.literals[i] != b.literals[i] {
        return false;
      }
      i := i + 1;
    }
    return true;
  }

  /** The position of the first item weakly matching `target`, or |items| when there is none. */
  function WeakIndex(items: seq<Grounded>, target: Grounded): (k: nat)
    ensures k <= |items|
    ensures k < |items| ==> WeakMatch(items[k], target)
    ensures forall j :: 0 <= j < k ==> !WeakMatch(items[j], target)
  {
    if |items| == 0 then 0
    else if WeakMatch(items[0], target) then 0
    else 1 + WeakIndex(items[1..], target)
  }

  predicate WeakContains(items: seq<Grounded>, target: Grounded) {
    WeakIndex(items, target) < |items|
  }

  lemma WeakContainsExists(items: seq<Grounded>, target: Grounded)
    ensures WeakContains(items, target) <==> exists j :: 0 <= j < |items| && WeakMatch(items[j], target)
  {
  }

  /** weak_contains */
  method ContainsWeak(items: seq<Grounded>, target: Grounded) returns (r: bool)
    ensures r <==> exists j :: 0 <= j < |items| && WeakMatch(items[j], target)
    ensures r == WeakContains(items, target)
  {
    var i := 0;
    while i < |items|
      invariant 0 <= i <= |items|
      invariant forall j :: 0 <= j < i ==> !WeakMatch(items[j], target)
    {
      var m := CheckWeakMatch(items[i], target);
      if m {
        return true;
      }
      i := i + 1;
    }
    return false;
  }

  /** weak_find: the first weakly matching item, or nothing. */
  method FindWeak(items: seq<Grounded>, target: Grounded) returns (r: Option<Grounded>)
    ensures r.None? <==> forall j :: 0 <= j < |items| ==> !WeakMatch(items[j], target)
    ensures r.Some? ==> WeakMatch(r.value, target) && r.value == items[WeakIndex(items, target)]
  {
    var i := 0;
    while i < |items|
      invariant 0 <= i <= |items|
      invariant forall j :: 0 <= j < i ==> !WeakMatch(items[j], target)
    {
      var m := CheckWeakMatch(items[i], target);
      if m {
        return Some(items[i]);
      }
      i := i + 1;
    }
    return None;
  }

  /** strong_find: the first item equal to `target` in predicate, literals and truth. */
  method FindStrong(items: seq<Grounded>, target: Grounded) returns (r: Option<Grounded>)
    ensures r.None? <==> target !in items
    ensures r.Some? ==> r.value == target
  {
    var i := 0;
    while i < |items|
      invariant 0 <= i <= |items|
      invariant target !in items[..i]
    {
      if StrongMatch(items[i], target) {
        StrongMatchIsEquality(items[i], target);
        return Some(items[i]);
      }
      assert items[..i + 1] == items[..i] + [items[i]];
      i := i + 1;
    }
    assert items[..i] == items;
    return None;
  }

  // ------------------------------------------------------------------- world

  /** The world state: for each predicate, the literal tuples that hold. */
  type Facts = map<string, set<seq<string>>>

  predicate Holds(facts: Facts, pred: string, literals: seq<string>) {
    pred in facts && literals in facts[pred]
  }

  /** GroundedCondition.reached: the fact's truth in the world agrees with the condition. */
  predicate Reached(facts: Facts, g: Grounded) {
    Holds(facts, g.pred, g.literals) == g.truth
  }

  /** The facts after set_true. */
  function Asserted(facts: Facts, pred: string, literals: seq<string>): (r: Facts)
    ensures Holds(r, pred, literals)
    ensures forall p, l :: (p, l) != (pred, literals) ==> (Holds(r, p, l) <==> Holds(facts, p, l))
  {
    var old_ := if pred in facts then facts[pred] else {};
    facts[pred := old_ + {literals}]
  }

  /**
   * The facts after set_false, or an error when the predicate is known but
   * the tuple is not one of its facts (the set's remove raises KeyError).
   */
  function Retracted(facts: Facts, pred: string, literals: seq<string>): (r: Result<Facts, string>)
    ensures r.Err? <==> pred in facts && literals !in facts[pred]
    ensures r.Ok? ==> !Holds(r.value, pred, literals)
    ensures r.Ok? ==> forall p, l :: (p, l) != (pred, literals) ==> (Holds(r.value, p, l) <==> Holds(facts, p, l))
  {
    if pred !in facts then Ok(facts)
    else if literals !in facts[pred] then Err("KeyError")
    else Ok(facts[pred := facts[pred] - {literals}])
  }

  lemma AssertThenRetract(facts: Facts, pred: string, literals: seq<string>)
    ensures Retracted(Asserted(facts, pred, literals), pred, literals).Ok?
    ensures forall p, l :: Holds(Retracted(Asserted(facts, pred, literals), pred, literals).value, p, l)
                           <==> Holds(facts, p, l) && (p, l) != (pred, literals)
  {
  }

  class World {
    var state: Facts
    var goals: set<Grounded>
    var knownLiterals: set<string>
    var actions: map<string, Action>

    constructor()
      ensures state == map[] && goals == {} && knownLiterals == {} && actions == map[]
    {
      state := map[];
      goals := {};
      knownLiterals := {};
      actions := map[];
    }

    predicate IsTrue(pred: string, literals: seq<string>)
      reads this
    {
      Holds(state, pred, literals)
    }

    predicate IsFalse(pred: string, literals: seq<string>)
      reads this
    {
      !IsTrue(pred, literals)
    }

    method SetTrue(pred: string, literals: seq<string>)
      modifies this
      ensures IsTrue(pred, literals)
      ensures state == Asserted(old(state), pred, literals)
      ensures goals == old(goals) && knownLiterals == old(knownLiterals) && actions == old(actions)
    {
      if pred !in state {
        state := state[pred := {}];
      }
      state := state[pred := state[pred] + {literals}];
    }

    /** set_false; an error stands for the KeyError of removing an absent tuple. */
    method SetFalse(pred: string, literals: seq<string>) returns (r: Result<(), string>)
      modifies this
      ensures r.Err? <==> Retracted(old(state), pred, literals).Err?
      ensures r.Ok? ==> state == Retracted(old(state), pred, literals).value && IsFalse(pred, literals)
      ensures r.Err? ==> state == old(state)
      ensures goals == old(goals) && knownLiterals == old(knownLiterals) && actions == old(actions)
    {
      if pred in state {
        if literals !in state[pred] {
          return Err("KeyError");
        }
        state := state[pred := state[pred] - {literals}];
      }
      return Ok(());
    }

    method AddGoal(pred: string, literals: seq<string>, truth: bool)
      modifies this
      ensures goals == old(goals) + {Grounded(pred, literals, truth)}
      ensures state == old(state) && knownLiterals == old(knownLiterals) && actions == old(actions)
    {
      goals := goals + {Grounded(pred, literals, truth)};
    }

    method AddLiteral(literal: string)
      modifies this
      ensures knownLiterals == old(knownLiterals) + {literal}
      ensures state == old(state) && goals == old(goals) && actions == old(actions)
    {
      knownLiterals := knownLiterals + {literal};
    }

    /** An action is registered only under a name not yet in use. */
    method AddAction(action: Action)
      modifies this
      ensures action.name in old(actions) ==> actions == old(actions)
      ensures action.name !in old(actions) ==> actions == old(actions)[action.name := action]
      ensures state == old(state) && goals == old(goals) && knownLiterals == old(knownLiterals)
    {
      if action.name !in actions {
        actions := actions[action.name := action];
      }
    }

    method GoalReached() returns (r: bool)
      ensures r <==> forall g :: g in goals ==> Reached(state, g)
    {
      var left := goals;
      while left != {}
        invariant left <= goals
        invariant forall g :: g in goals && g !in left ==> Reached(state, g)
        decreases left
      {
        var g :| g in left;
        if !Reached(state, g) {
          return false;
        }
        left := left - {g};
      }
      return true;
    }
  }

  // ---------------------------------------------------------- list state

  /** Closed-world reading of a list state: a listed condition holds, an unlisted one does not. */
  predicate Satisfied(state: seq<Grounded>, goal: Grounded) {
    var found := WeakContains(state, goal);
    if goal.truth then found else !found
  }

  predicate AllTrue(state: seq<Grounded>) {
    forall i :: 0 <= i < |state| ==> state[i].truth
  }

  lemma SatisfiedClosedWorld(state: seq<Grounded>, goal: Grounded)
    requires AllTrue(state)
    ensures Satisfied(state, goal) <==> (Grounded(goal.pred, goal.literals, true) in state) == goal.truth
  {
    var pos := Grounded(goal.pred, goal.literals, true);
    assert WeakContains(state, goal) ==> state[WeakIndex(state, goal)] == pos;
    assert forall j :: 0 <= j < |state| && state[j] == pos ==> WeakMatch(state[j], goal);
  }

  /** No two conditions of the list weakly match. */
  predicate NoWeakDuplicates(state: seq<Grounded>) {
    forall i, j :: 0 <= i < j < |state| ==> !WeakMatch(state[i], state[j])
  }

  /**
   * update_state: a positive condition is appended unless it is already
   * weakly present; a negative one removes the first weak match.
   */
  function UpdateState(state: seq<Grounded>, post: Grounded): (r: seq<Grounded>)
    ensures post.truth ==> Satisfied(r, post)
    ensures post.truth ==> r == state || r == state + [post]
    ensures !post.truth && WeakContains(state, post) ==>
              |r| + 1 == |state| && multiset(r) + multiset{state[WeakIndex(state, post)]} == multiset(state)
    ensures !post.truth && !WeakContains(state, post) ==> r == state
  {
    var k := WeakIndex(state, post);
    if post.truth then
      if k < |state| then state
      else
        assert WeakMatch((state + [post])[|state|], post);
        state + [post]
    else if k < |state| then
      assert state == state[..k] + [state[k]] + state[k + 1..];
      state[..k] + state[k + 1..]
    else state
  }

  /** A list without weak duplicates keeps that shape, and the updated list satisfies the condition. */
  lemma UpdateStateSatisfies(state: seq<Grounded>, post: Grounded)
    requires NoWeakDuplicates(state)
    ensures NoWeakDuplicates(UpdateState(state, post))
    ensures Satisfied(UpdateState(state, post), post)
    ensures AllTrue(state) && post.truth ==> AllTrue(UpdateState(state, post))
    ensures AllTrue(state) && !post.truth ==> AllTrue(UpdateState(state, post))
  {
    var k := WeakIndex(state, post);
    var r := UpdateState(state, post);
    if !post.truth && k < |state| {
      assert r == state[..k] + state[k + 1..];
      forall j | 0 <= j < |r|
        ensures !WeakMatch(r[j], post)
        ensures r[j] == state[if j < k then j else j + 1]
      {
        if j >= k {
          assert r[j] == state[j + 1];
          assert !WeakMatch(state[k], state[j + 1]);
        }
      }
      assert !WeakContains(r, post);
    }
  }

  // --------------------------------------------------------------- grounding

  function Substitute(param: string, args: map<string, string>): string {
    if param in args then args[param] else param
  }

  /** Condition.ground: mapped parameters are replaced, unmapped ones kept as they are. */
  function Grounding(c: Condition, args: map<string, string>): (g: Grounded)
    ensures g.pred == c.pred && g.truth == c.truth && |g.literals| == |c.params|
    ensures forall i :: 0 <= i < |c.params| && c.params[i] in args ==> g.literals[i] == args[c.params[i]]
    ensures forall i :: 0 <= i < |c.params| && c.params[i] !in args ==> g.literals[i] == c.params[i]
  {
    Grounded(c.pred, seq(|c.params|, i requires 0 <= i < |c.params| => Substitute(c.params[i], args)), c.truth)
  }

  method Ground(c: Condition, args: map<string, string>) returns (g: Grounded)
    ensures g == Grounding(c, args)
  {
    var lits: seq<string> := [];
    for i := 0 to |c.params|
      invariant |lits| == i
      invariant forall j :: 0 <= j < i ==> lits[j] == Substitute(c.params[j], args)
    {
      if c.params[i] in args {
        lits := lits + [args[c.params[i]]];
      } else {
        lits := lits + [c.params[i]];
      }
    }
    assert lits == Grounding(c, args).literals;
    return Grounded(c.pred, lits, c.truth);
  }

  /** dict(zip(params, values)): pairs up to the shorter length, a later parameter overriding an earlier one. */
  function ArgsMap(params: seq<string>, values: seq<string>): (m: map<string, string>)
    ensures forall p :: p in m ==> p in params
    decreases |params|
  {
    var n := if |params| < |values| then |params| else |values|;
    if n == 0 then map[]
    else
      var m := ArgsMap(params[..n - 1], values[..n - 1]);
      m[params[n - 1] := values[n - 1]]
  }

  lemma {:induction false} ArgsMapLookup(params: seq<string>, values: seq<string>, j: nat)
    requires Distinct(params) && j < |params| && j < |values|
    ensures params[j] in ArgsMap(params, values) && ArgsMap(params, values)[params[j]] == values[j]
    decreases |params|
  {
    var n := if |params| < |values| then |params| else |values|;
    if j < n - 1 {
      ArgsMapLookup(params[..n - 1], values[..n - 1], j);
      assert params[n - 1] != params[j];
    }
  }

  /** Grounding with the map built from an assignment binds each parameter to its value. */
  lemma GroundBindsParams(c: Condition, params: seq<string>, values: seq<string>, i: nat, j: nat)
    requires Distinct(params) && |values| == |params|
    requires i < |c.params| && j < |params| && c.params[i] == params[j]
    ensures Grounding(c, ArgsMap(params, values)).literals[i] == values[j]
  {
    ArgsMapLookup(params, values, j);
  }

  /**
   * GroundedAction's complete post conditions: the post conditions, then each
   * precondition that nothing before it weakly matches.
   */
  function CompletePostOf(pre: seq<Grounded>, post: seq<Grounded>): (cp: seq<Grounded>)
    ensures post <= cp
    ensures forall i :: 0 <= i < |pre| ==> WeakContains(cp, pre[i])
    ensures forall i :: |post| <= i < |cp| ==> cp[i] in pre && !WeakContains(post, cp[i])
    decreases |pre|
  {
    if |pre| == 0 then post
    else
      var c := CompletePostOf(pre[..|pre| - 1], post);
      var p := pre[|pre| - 1];
      assert forall i :: 0 <= i < |pre| - 1 ==> pre[..|pre| - 1][i] == pre[i];
      if WeakContains(c, p) then c
      else
        WeakContainsAppend(c, p);
        c + [p]
  }

  lemma WeakContainsAppend(c: seq<Grounded>, x: Grounded)
    ensures forall t :: WeakContains(c, t) ==> WeakContains(c + [x], t)
    ensures WeakContains(c + [x], x)
  {
    forall t | WeakContains(c, t)
      ensures WeakContains(c + [x], t)
    {
      assert (c + [x])[WeakIndex(c, t)] == c[WeakIndex(c, t)];
    }
    assert (c + [x])[|c|] == x;
  }

  /** The loop of GroundedAction's constructor that builds the complete post conditions. */
  method CompletePost(pre: seq<Grounded>, post: seq<Grounded>) returns (cp: seq<Grounded>)
    ensures cp == CompletePostOf(pre, post)
  {
    cp := post;
    for i := 0 to |pre|
      invariant cp == CompletePostOf(pre[..i], post)
    {
      assert pre[..i + 1][..i] == pre[..i];
      var present := ContainsWeak(cp, pre[i]);
      if !present {
        cp := cp + [pre[i]];
      }
    }
    assert pre[..|pre|] == pre;
  }

  // -------------------------------------------------------------- groundings

  /** The grounded action for one assignment of literals to the action's parameters. */
  function MakeGroundedAction(a: Action, literals: seq<string>): GroundedAction {
    var args := ArgsMap(a.params, literals);
    var pre := seq(|a.pre|, i requires 0 <= i < |a.pre| => Grounding(a.pre[i], args));
    var post := seq(|a.post|, i requires 0 <= i < |a.post| => Grounding(a.post[i], args));
    GroundedAction(a.name, literals, pre, post, CompletePostOf(pre, post))
  }

  /**
   * In a grounding of an action with distinct parameters, a condition's
   * parameter that is the action's j-th parameter becomes the j-th literal.
   */
  lemma GroundedActionBinds(a: Action, literals: seq<string>, i: nat, m: nat, j: nat)
    requires Distinct(a.params) && |literals| == |a.params| && j < |a.params|
    ensures i < |a.pre| && m < |a.pre[i].params| && a.pre[i].params[m] == a.params[j] ==>
              MakeGroundedAction(a, literals).pre[i].literals[m] == literals[j]
    ensures i < |a.post| && m < |a.post[i].params| && a.post[i].params[m] == a.params[j] ==>
              MakeGroundedAction(a, literals).post[i].literals[m] == literals[j]
  {
    ArgsMapLookup(a.params, literals, j);
  }

  method NewGroundedAction(a: Action, literals: seq<string>) returns (ga: GroundedAction)
    ensures ga == MakeGroundedAction(a, literals)
  {
    var args := ArgsMap(a.params, literals);
    var pre := seq(|a.pre|, i requires 0 <= i < |a.pre| => Grounding(a.pre[i], args));
    var post := seq(|a.post|, i requires 0 <= i < |a.post| => Grounding(a.post[i], args));
    var cp := CompletePost(pre, post);
    return GroundedAction(a.name, literals, pre, post, cp);
  }

  /**
   * groundings_helper: every extension of `cur` by literals not yet used,
   * taken in the order of `lits`, until each parameter has a literal.
   */
  function Groundings(a: Action, lits: seq<string>, cur: seq<string>): seq<GroundedAction>
    requires |cur| <= |a.params|
    decreases |a.params| - |cur|, |lits| + 1, 1
  {
    if |cur| == |a.params| then [MakeGroundedAction(a, cur)]
    else GroundingsFrom(a, lits, cur, 0)
  }

  /** The extensions of `cur` by lits[j], lits[j + 1], ... */
  function GroundingsFrom(a: Action, lits: seq<string>, cur: seq<string>, j: nat): seq<GroundedAction>
    requires |cur| < |a.params| && j <= |lits|
    decreases |a.params| - |cur|, |lits| - j, 1
  {
    if j == |lits| then [] else Branch(a, lits, cur, j) + GroundingsFrom(a, lits, cur, j + 1)
  }

  /** The extensions of `cur` that start with lits[j]; none when lits[j] is already used. */
  function Branch(a: Action, lits: seq<string>, cur: seq<string>, j: nat): seq<GroundedAction>
    requires |cur| < |a.params| && j < |lits|
    decreases |a.params| - |cur|, |lits| - j, 0
  {
    if lits[j] in cur then [] else Groundings(a, lits, cur + [lits[j]])
  }

  /** `s` assigns |params| distinct literals, extends `cur`, and takes its new literals from `lits`. */
  predicate Extends(lits: seq<string>, cur: seq<string>, s: seq<string>, k: nat) {
    |cur| <= |s| == k && s[..|cur|] == cur && Distinct(s) && forall i :: |cur| <= i < |s| ==> s[i] in lits
  }

  lemma {:induction false} GroundingsSound(a: Action, lits: seq<string>, cur: seq<string>)
    requires |cur| <= |a.params| && Distinct(cur)
    ensures forall g :: g in Groundings(a, lits, cur) ==>
              Extends(lits, cur, g.literals, |a.params|) && g == MakeGroundedAction(a, g.literals)
    decreases |a.params| - |cur|, |lits| + 1
  {
    if |cur| < |a.params| {
      GroundingsFromSound(a, lits, cur, 0);
    }
  }

  lemma {:induction false} GroundingsFromSound(a: Action, lits: seq<string>, cur: seq<string>, j: nat)
    requires |cur| < |a.params| && j <= |lits| && Distinct(cur)
    ensures forall g :: g in GroundingsFrom(a, lits, cur, j) ==>
              Extends(lits, cur, g.literals, |a.params|) && g == MakeGroundedAction(a, g.literals)
    decreases |a.params| - |cur|, |lits| - j
  {
    if j < |lits| {
      var piece := Branch(a, lits, cur, j);
      assert GroundingsFrom(a, lits, cur, j) == piece + GroundingsFrom(a, lits, cur, j + 1);
      GroundingsFromSound(a, lits, cur, j + 1);
      if lits[j] !in cur {
        var next := cur + [lits[j]];
        assert piece == Groundings(a, lits, next);
        GroundingsSound(a, lits, next);
        forall g | g in piece
          ensures Extends(lits, cur, g.literals, |a.params|)
        {
          var s := g.literals;
          assert s[..|next|] == next;
          assert s[..|cur|] == next[..|cur|] == cur;
        }
      }
    }
  }

  lemma {:induction false} GroundingsComplete(a: Action, lits: seq<string>, cur: seq<string>, s: seq<string>)
    requires |cur| <= |a.params| && Extends(lits, cur, s, |a.params|)
    ensures MakeGroundedAction(a, s) in Groundings(a, lits, cur)
    decreases |a.params| - |cur|
  {
    if |cur| == |a.params| {
      assert s == s[..|cur|] == cur;
    } else {
      var x := s[|cur|];
      var next := cur + [x];
      assert s[..|next|] == next;
      assert x !in cur by {
        forall i | 0 <= i < |cur| ensures cur[i] != x {
          assert cur[i] == s[i];
        }
      }
      GroundingsComplete(a, lits, next, s);
      var j :| 0 <= j < |lits| && lits[j] == x;
      GroundingsFromIncludes(a, lits, cur, 0, j);
    }
  }

  lemma {:induction false} GroundingsFromIncludes(a: Action, lits: seq<string>, cur: seq<string>, j0: nat, j: nat)
    requires |cur| < |a.params| && j0 <= j < |lits| && lits[j] !in cur
    ensures forall g :: g in Groundings(a, lits, cur + [lits[j]]) ==> g in GroundingsFrom(a, lits, cur, j0)
    decreases j - j0
  {
    var here := Groundings(a, lits, cur + [lits[j]]);
    var rest := GroundingsFrom(a, lits, cur, j0 + 1);
    var piece := Branch(a, lits, cur, j0);
    assert GroundingsFrom(a, lits, cur, j0) == piece + rest;
    if j0 < j {
      GroundingsFromIncludes(a, lits, cur, j0 + 1, j);
      assert forall g :: g in rest ==> g in piece + rest;
    } else {
      assert piece == here;
      assert forall g :: g in here ==> g in piece + rest;
    }
  }

  /** The falling factorial n (n - 1) ... (n - r + 1), which is zero once n runs out. */
  function Falling(n: int, r: nat): int {
    if r == 0 then 1 else if n <= 0 then 0 else n * Falling(n - 1, r - 1)
  }

  function Factorial(n: nat): nat {
    if n == 0 then 1 else n * Factorial(n - 1)
  }

  /** Falling(n, r) is n! / (n - r)!. */
  lemma {:induction false} FallingFactorial(n: nat, r: nat)
    requires r <= n
    ensures Falling(n, r) * Factorial(n - r) == Factorial(n)
  {
    if r > 0 {
      FallingFactorial(n - 1, r - 1);
      assert Falling(n, r) * Factorial(n - r) == n * (Falling(n - 1, r - 1) * Factorial(n - r));
    }
  }

  /** The number of positions j' >= j whose literal is not used by `cur`. */
  function Unused(lits: seq<string>, cur: seq<string>, j: nat): nat
    requires j <= |lits|
    decreases |lits| - j
  {
    if j == |lits| then 0 else (if lits[j] in cur then 0 else 1) + Unused(lits, cur, j + 1)
  }

  lemma {:induction false} UnusedAdd(lits: seq<string>, cur: seq<string>, x: string, j: nat)
    requires Distinct(lits) && j <= |lits|
    ensures Unused(lits, cur + [x], j) == Unused(lits, cur, j) - (if x !in cur && x in lits[j..] then 1 else 0)
    decreases |lits| - j
  {
    if j < |lits| {
      UnusedAdd(lits, cur, x, j + 1);
      assert lits[j..] == [lits[j]] + lits[j + 1..];
      assert x == lits[j] ==> x !in lits[j + 1..] by {
        forall i | j + 1 <= i < |lits| ensures lits[i] != lits[j] { }
      }
    }
  }

  lemma {:induction false} UnusedEmpty(lits: seq<string>, j: nat)
    requires j <= |lits|
    ensures Unused(lits, [], j) == |lits| - j
    decreases |lits| - j
  {
    if j < |lits| {
      UnusedEmpty(lits, j + 1);
    }
  }

  lemma {:induction false} GroundingsCount(a: Action, lits: seq<string>, cur: seq<string>)
    requires Distinct(lits) && |cur| <= |a.params| && forall x :: x in cur ==> x in lits
    ensures |Groundings(a, lits, cur)| == Falling(Unused(lits, cur, 0), |a.params| - |cur|)
    decreases |a.params| - |cur|, |lits| + 1
  {
    if |cur| < |a.params| {
      GroundingsFromCount(a, lits, cur, 0);
    }
  }

  lemma {:induction false} GroundingsFromCount(a: Action, lits: seq<string>, cur: seq<string>, j: nat)
    requires Distinct(lits) && |cur| < |a.params| && j <= |lits| && forall x :: x in cur ==> x in lits
    ensures |GroundingsFrom(a, lits, cur, j)|
            == Unused(lits, cur, j) * Falling(Unused(lits, cur, 0) - 1, |a.params| - |cur| - 1)
    decreases |a.params| - |cur|, |lits| - j
  {
    var f := Falling(Unused(lits, cur, 0) - 1, |a.params| - |cur| - 1);
    if j < |lits| {
      var piece := Branch(a, lits, cur, j);
      assert |GroundingsFrom(a, lits, cur, j)| == |piece| + |GroundingsFrom(a, lits, cur, j + 1)|;
      GroundingsFromCount(a, lits, cur, j + 1);
      if lits[j] !in cur {
        var next := cur + [lits[j]];
        assert piece == Groundings(a, lits, next);
        GroundingsCount(a, lits, next);
        UnusedAdd(lits, cur, lits[j], 0);
        assert lits[j] in lits[0..];
        assert |piece| == f;
        assert (1 + Unused(lits, cur, j + 1)) * f == f + Unused(lits, cur, j + 1) * f;
      }
    }
  }

  /**
   * The groundings of an action over distinct literals are exactly its
   * injective assignments, n! / (n - k)! of them for n literals and k parameters.
   */
  lemma GroundingsAreInjectiveAssignments(a: Action, lits: seq<string>)
    requires Distinct(lits)
    ensures |Groundings(a, lits, [])| == Falling(|lits|, |a.params|)
    ensures |a.params| <= |lits| ==>
              |Groundings(a, lits, [])| * Factorial(|lits| - |a.params|) == Factorial(|lits|)
    ensures forall g :: g in Groundings(a, lits, []) ==>
              |g.literals| == |a.params| && Distinct(g.literals) && (forall x :: x in g.literals ==> x in lits)
              && g == MakeGroundedAction(a, g.literals)
    ensures forall s :: |s| == |a.params| && Distinct(s) && (forall x :: x in s ==> x in lits) ==>
              MakeGroundedAction(a, s) in Groundings(a, lits, [])
  {
    GroundingsCount(a, lits, []);
    UnusedEmpty(lits, 0);
    if |a.params| <= |lits| {
      FallingFactorial(|lits|, |a.params|);
    }
    GroundingsSound(a, lits, []);
    forall g | g in Groundings(a, lits, [])
      ensures forall x :: x in g.literals ==> x in lits
    {
      assert Extends(lits, [], g.literals, |a.params|);
    }
    forall s | |s| == |a.params| && Distinct(s) && (forall x :: x in s ==> x in lits)
      ensures MakeGroundedAction(a, s) in Groundings(a, lits, [])
    {
      assert s[..0] == [];
      GroundingsComplete(a, lits, [], s);
    }
  }

  /** groundings_helper, appending each grounding to `g` in enumeration order. */
  method GroundingsHelper(a: Action, lits: seq<string>, cur: seq<string>, g: seq<GroundedAction>)
    returns (out: seq<GroundedAction>)
    requires |cur| <= |a.params|
    ensures out == g + Groundings(a, lits, cur)
    decreases |a.params| - |cur|
  {
    if |cur| == |a.params| {
      var ga := NewGroundedAction(a, cur);
      return g + [ga];
    }
    out := g;
    for j := 0 to |lits|
      invariant out + GroundingsFrom(a, lits, cur, j) == g + GroundingsFrom(a, lits, cur, 0)
    {
      ghost var before := out;
      if lits[j] !in cur {
        out := GroundingsHelper(a, lits, cur + [lits[j]], out);
      }
      GroundingsFromStep(a, lits, cur, j, before, out);
    }
    assert GroundingsFrom(a, lits, cur, |lits|) == [];
  }

  /** One step of the loop in GroundingsHelper. */
  lemma GroundingsFromStep(a: Action, lits: seq<string>, cur: seq<string>, j: nat,
                           before: seq<GroundedAction>, after: seq<GroundedAction>)
    requires |cur| < |a.params| && j < |lits|
    requires after == before + Branch(a, lits, cur, j)
    ensures after + GroundingsFrom(a, lits, cur, j + 1) == before + GroundingsFrom(a, lits, cur, j)
  {
    assert GroundingsFrom(a, lits, cur, j) == Branch(a, lits, cur, j) + GroundingsFrom(a, lits, cur, j + 1);
  }

  /** generate_groundings over the known literals, taken in the given order. */
  method GenerateGroundings(a: Action, lits: seq<string>) returns (grounds: seq<GroundedAction>)
    ensures grounds == Groundings(a, lits, [])
  {
    grounds := GroundingsHelper(a, lits, [], []);
  }

  // ---------------------------------------------------------------- solving

  /** The groundings of every action, action after action in the dictionary's order. */
  function Flatten(ag: seq<seq<GroundedAction>>): seq<GroundedAction> {
    if |ag| == 0 then [] else Flatten(ag[..|ag| - 1]) + ag[|ag| - 1]
  }

  lemma FlattenMember(ag: seq<seq<GroundedAction>>, i: nat, j: nat)
    requires i < |ag| && j < |ag[i]|
    ensures ag[i][j] in Flatten(ag)
  {
    if i < |ag| - 1 {
      FlattenMember(ag[..|ag| - 1], i, j);
    }
  }

  /** Some post condition of the grounded action strongly matches the goal. */
  predicate Achieves(ga: GroundedAction, goal: Grounded) {
    exists i :: 0 <= i < |ga.post| && StrongMatch(ga.post[i], goal)
  }

  lemma AchievesIsMembership(ga: GroundedAction, goal: Grounded)
    ensures Achieves(ga, goal) <==> goal in ga.post
  {
    if goal in ga.post {
      var i :| 0 <= i < |ga.post| && ga.post[i] == goal;
      assert StrongMatch(ga.post[i], goal);
    }
  }

  /** The grounded actions that achieve the goal, in their original order. */
  function Achievers(gs: seq<GroundedAction>, goal: Grounded): seq<GroundedAction> {
    if |gs| == 0 then []
    else
      var rest := Achievers(gs[..|gs| - 1], goal);
      var x := gs[|gs| - 1];
      if Achieves(x, goal) then rest + [x] else rest
  }

  lemma {:induction false} AchieversMembers(gs: seq<GroundedAction>, goal: Grounded)
    ensures |Achievers(gs, goal)| <= |gs|
    ensures forall x :: x in Achievers(gs, goal) <==> x in gs && Achieves(x, goal)
  {
    if |gs| > 0 {
      AchieversMembers(gs[..|gs| - 1], goal);
      assert gs == gs[..|gs| - 1] + [gs[|gs| - 1]];
    }
  }

  /** The inner loop of get_possible_grounds: stops at the first strongly matching post condition. */
  method PostAchieves(ga: GroundedAction, goal: Grounded) returns (r: bool)
    ensures r == Achieves(ga, goal)
  {
    for k := 0 to |ga.post|
      invariant forall m :: 0 <= m < k ==> !StrongMatch(ga.post[m], goal)
    {
      if StrongMatch(ga.post[k], goal) {
        return true;
      }
    }
    return false;
  }

  /** The loop of get_possible_grounds over one action's groundings. */
  method CollectAchievers(acc: seq<GroundedAction>, gs: seq<GroundedAction>, goal: Grounded)
    returns (out: seq<GroundedAction>)
    ensures out == acc + Achievers(gs, goal)
  {
    out := acc;
    for j := 0 to |gs|
      invariant out == acc + Achievers(gs[..j], goal)
    {
      var yes := PostAchieves(gs[j], goal);
      assert gs[..j + 1][..j] == gs[..j];
      if yes {
        out := out + [gs[j]];
      }
    }
    assert gs[..|gs|] == gs;
  }

  lemma {:induction false} AchieversConcat(a: seq<GroundedAction>, b: seq<GroundedAction>, goal: Grounded)
    ensures Achievers(a + b, goal) == Achievers(a, goal) + Achievers(b, goal)
    decreases |b|
  {
    if |b| == 0 {
      assert a + b == a;
    } else {
      AchieversConcat(a, b[..|b| - 1], goal);
      assert (a + b)[..|a + b| - 1] == a + b[..|b| - 1];
    }
  }

  /** get_possible_grounds */
  method GetPossibleGrounds(ag: seq<seq<GroundedAction>>, goal: Grounded) returns (results: seq<GroundedAction>)
    ensures results == Achievers(Flatten(ag), goal)
  {
    results := [];
    for i := 0 to |ag|
      invariant results == Achievers(Flatten(ag[..i]), goal)
    {
      assert ag[..i + 1][..i] == ag[..i];
      AchieversConcat(Flatten(ag[..i]), ag[i], goal);
      results := CollectAchievers(results, ag[i], goal);
    }
    assert ag[..|ag|] == ag;
  }

  /** precondition_reachable: reached in the world, or achieved by some grounding. */
  predicate Reachable(facts: Facts, ag: seq<seq<GroundedAction>>, pre: Grounded) {
    Reached(facts, pre) || exists g :: g in Flatten(ag) && Achieves(g, pre)
  }

  predicate AllReachable(facts: Facts, ag: seq<seq<GroundedAction>>, ga: GroundedAction) {
    forall i :: 0 <= i < |ga.pre| ==> Reachable(facts, ag, ga.pre[i])
  }

  method PreconditionReachable(facts: Facts, ag: seq<seq<GroundedAction>>, pre: Grounded) returns (r: bool)
    ensures r == Reachable(facts, ag, pre)
  {
    if Reached(facts, pre) {
      return true;
    }
    for i := 0 to |ag|
      invariant forall g :: g in Flatten(ag[..i]) ==> !Achieves(g, pre)
    {
      assert ag[..i + 1][..i] == ag[..i];
      for j := 0 to |ag[i]|
        invariant forall g :: g in Flatten(ag[..i]) + ag[i][..j] ==> !Achieves(g, pre)
      {
        var yes := PostAchieves(ag[i][j], pre);
        if yes {
          FlattenMember(ag, i, j);
          return true;
        }
        assert Flatten(ag[..i]) + ag[i][..j + 1] == Flatten(ag[..i]) + ag[i][..j] + [ag[i][j]];
      }
      assert ag[i][..|ag[i]|] == ag[i];
    }
    assert ag[..|ag|] == ag;
    return false;
  }

  method PreconditionsReachable(facts: Facts, ag: seq<seq<GroundedAction>>, ga: GroundedAction) returns (r: bool)
    ensures r == AllReachable(facts, ag, ga)
  {
    for i := 0 to |ga.pre|
      invariant forall m :: 0 <= m < i ==> Reachable(facts, ag, ga.pre[m])
    {
      var ok := PreconditionReachable(facts, ag, ga.pre[i]);
      if !ok {
        return false;
      }
    }
    return true;
  }

  /** The first weak match of `c` among `items` has the opposite truth value. */
  predicate Clashes(items: seq<Grounded>, c: Grounded) {
    WeakContains(items, c) && items[WeakIndex(items, c)].truth != c.truth
  }

  /** Without weak duplicates, a clash is any weak match of opposite truth. */
  lemma ClashesAnywhere(items: seq<Grounded>, c: Grounded)
    requires NoWeakDuplicates(items)
    ensures Clashes(items, c) <==> exists j :: 0 <= j < |items| && WeakMatch(items[j], c) && items[j].truth != c.truth
  {
    var k := WeakIndex(items, c);
    forall j | 0 <= j < |items| && WeakMatch(items[j], c)
      ensures j == k
    {
      if k < j {
        assert WeakMatch(items[k], items[j]);
      }
    }
  }

  /** contains_contradiction: some post condition clashes with the listed conditions. */
  predicate Contradicts(items: seq<Grounded>, ga: GroundedAction) {
    exists i :: 0 <= i < |ga.post| && Clashes(items, ga.post[i])
  }

  method ContainsContradiction(items: seq<Grounded>, ga: GroundedAction) returns (r: bool)
    ensures r == Contradicts(items, ga)
  {
    for i := 0 to |ga.post|
      invariant forall m :: 0 <= m < i ==> !Clashes(items, ga.post[m])
    {
      var m := FindWeak(items, ga.post[i]);
      if m.Some? && m.value.truth != ga.post[i].truth {
        return true;
      }
    }
    return false;
  }

  /** The number of preconditions the list state does not satisfy. */
  function Distance(state: seq<Grounded>, pres: seq<Grounded>): (d: nat)
    ensures d <= |pres|
    ensures d == 0 <==> forall i :: 0 <= i < |pres| ==> Satisfied(state, pres[i])
  {
    if |pres| == 0 then 0
    else
      var front := pres[..|pres| - 1];
      assert forall i :: 0 <= i < |front| ==> front[i] == pres[i];
      Distance(state, front) + (if Satisfied(state, pres[|pres| - 1]) then 0 else 1)
  }

  /** initial_state_distance */
  method InitialStateDistance(state: seq<Grounded>, pres: seq<Grounded>) returns (count: nat)
    ensures count == Distance(state, pres)
  {
    count := 0;
    for i := 0 to |pres|
      invariant count == Distance(state, pres[..i])
    {
      assert pres[..i + 1][..i] == pres[..i];
      if !Satisfied(state, pres[i]) {
        count := count + 1;
      }
    }
    assert pres[..|pres|] == pres;
  }

  predicate SortedBy(key: GroundedAction -> nat, s: seq<GroundedAction>) {
    forall i :: 0 <= i < |s| - 1 ==> key(s[i]) <= key(s[i + 1])
  }

  /** Inserts after every element whose key is not larger, which keeps the sort stable. */
  function InsertBy(key: GroundedAction -> nat, x: GroundedAction, s: seq<GroundedAction>): (r: seq<GroundedAction>)
    requires SortedBy(key, s)
    ensures multiset(r) == multiset(s) + multiset{x}
    ensures SortedBy(key, r)
    ensures |r| > 0 && (r[0] == x || (|s| > 0 && r[0] == s[0]))
  {
    if |s| == 0 then [x]
    else if key(x) < key(s[0]) then [x] + s
    else
      assert s == [s[0]] + s[1..];
      [s[0]] + InsertBy(key, x, s[1..])
  }

  /** Python's sorted(s, key=key): a permutation of s in ascending key order. */
  function SortBy(key: GroundedAction -> nat, s: seq<GroundedAction>): (r: seq<GroundedAction>)
    ensures multiset(r) == multiset(s)
    ensures SortedBy(key, r)
  {
    if |s| == 0 then []
    else
      assert s == s[..|s| - 1] + [s[|s| - 1]];
      InsertBy(key, s[|s| - 1], SortBy(key, s[..|s| - 1]))
  }

  /** The earlier goals, other than the goal just worked on, that the new state no longer satisfies. */
  function Clobbered(earlier: seq<Grounded>, goal: Grounded, state: seq<Grounded>): (r: seq<Grounded>)
    ensures |r| <= |earlier| && multiset(r) <= multiset(earlier)
    ensures forall x :: x in r ==> x != goal && !Satisfied(state, x)
  {
    if |earlier| == 0 then []
    else
      var rest := Clobbered(earlier[..|earlier| - 1], goal, state);
      var x := earlier[|earlier| - 1];
      assert earlier == earlier[..|earlier| - 1] + [x];
      if x != goal && !Satisfied(state, x) then rest + [x] else rest
  }

  /**
   * list.remove: drops the first element equal to x. The solver only removes
   * goals taken from the list itself; an absent x leaves the list as it is.
   */
  function RemoveFirst(s: seq<Grounded>, x: Grounded): (r: seq<Grounded>)
    ensures x in s ==> |r| == |s| - 1 && multiset(r) == multiset(s) - multiset{x}
    ensures x !in s ==> r == s
  {
    if |s| == 0 then s
    else if s[0] == x then
      assert s == [x] + s[1..];
      s[1..]
    else
      assert s == [s[0]] + s[1..];
      [s[0]] + RemoveFirst(s[1..], x)
  }

  /** Removes each of xs in turn. */
  function RemoveEach(s: seq<Grounded>, xs: seq<Grounded>): (r: seq<Grounded>)
    ensures |r| >= |s| - |xs|
    decreases |xs|
  {
    if |xs| == 0 then s else RemoveEach(RemoveFirst(s, xs[0]), xs[1..])
  }

  datatype Outcome = Solved(plan: seq<GroundedAction>) | NoPlan | OutOfSteps

  /** Every action of the plan is one of the groundings, with all its preconditions reachable. */
  predicate Usable(facts: Facts, ag: seq<seq<GroundedAction>>, plan: seq<GroundedAction>) {
    forall a :: a in plan ==> a in Flatten(ag) && AllReachable(facts, ag, a)
  }

  /** What working on one unsatisfied goal leads to. */
  datatype Progress =
    | Advanced(goals: seq<Grounded>, next: nat, state: seq<Grounded>, actions: seq<GroundedAction>)
    | Stuck
    | Exhausted

  /**
   * linear_solver_helper over the list state `state` and the goal list
   * `goals`. Each call may run its goal loop at most `steps` times, since the
   * loop can step back over re-added goals without bound; a call that runs
   * out reports OutOfSteps. The returned list is the state as the call left it.
   */
  method LinearSolverHelper(facts: Facts, ag: seq<seq<GroundedAction>>, state: seq<Grounded>,
                            goals: seq<Grounded>, depth: nat, steps: nat)
    returns (out: Outcome, state': seq<Grounded>)
    ensures goals == [] ==> out == Solved([]) && state' == state
    ensures goals != [] && depth > 15 ==> out == NoPlan && state' == state
    ensures out.Solved? ==> Usable(facts, ag, out.plan)
    decreases 16 - depth, 1
  {
    if |goals| == 0 {
      return Solved([]), state;
    }
    if depth > 15 {
      return NoPlan, state;
    }
    var gs := goals;
    state' := state;
    var plan: seq<GroundedAction> := [];
    var i := 0;
    var budget := steps;
    while i < |gs|
      invariant 0 <= i <= |gs|
      invariant Usable(facts, ag, plan)
      decreases budget
    {
      if budget == 0 {
        return OutOfSteps, state';
      }
      budget := budget - 1;
      if Satisfied(state', gs[i]) {
        i := i + 1;
        continue;
      }
      var p := AchieveGoal(facts, ag, state', gs, i, depth, steps);
      match p
      case Stuck =>
        return NoPlan, state';
      case Exhausted =>
        return OutOfSteps, state';
      case Advanced(goals', next, st, actions) =>
        gs, i, state', plan := goals', next, st, plan + actions;
    }
    return Solved(plan), state';
  }

  /**
   * The body of the goal loop for the unsatisfied goal gs[i]: tries the
   * achieving groundings, nearest to the state first. The first one whose
   * preconditions are reachable, which contradicts no goal, and whose
   * preconditions the recursive call can plan for, is taken; its post
   * conditions update the state, and the earlier goals it undid move to the
   * end of the list.
   */
  method AchieveGoal(facts: Facts, ag: seq<seq<GroundedAction>>, state: seq<Grounded>,
                     gs: seq<Grounded>, i: nat, depth: nat, steps: nat)
    returns (p: Progress)
    requires i < |gs| && depth <= 15
    ensures p.Advanced? ==> p.next <= |p.goals| && Usable(facts, ag, p.actions)
    decreases 16 - depth, 0
  {
    var goal := gs[i];
    var possible := GetPossibleGrounds(ag, goal);
    AchieversMembers(Flatten(ag), goal);
    var candidates := SortBy((ga: GroundedAction) => Distance(state, ga.pre), possible);
    for k := 0 to |candidates| {
      var action := candidates[k];
      assert action in multiset(possible);
      var reachable := PreconditionsReachable(facts, ag, action);
      if !reachable {
        continue;
      }
      var contradiction := ContainsContradiction(gs, action);
      if contradiction {
        continue;
      }
      var solution, temp := LinearSolverHelper(facts, ag, state, action.pre, depth + 1, steps);
      if solution.OutOfSteps? {
        return Exhausted;
      }
      if solution.NoPlan? {
        continue;
      }
      for m := 0 to |action.post| {
        temp := UpdateState(temp, action.post[m]);
      }
      var clobbered := Clobbered(gs[..i], goal, temp);
      var requeued := RemoveEach(gs, clobbered) + clobbered;
      return Advanced(requeued, i - |clobbered| + 1, temp, solution.plan + [action]);
    }
    return Stuck;
  }

  // ------------------------------------------------- a goal loop that cycles

  /** The list state after each post condition in turn. */
  function Apply(state: seq<Grounded>, posts: seq<Grounded>): seq<Grounded>
    decreases |posts|
  {
    if |posts| == 0 then state else Apply(UpdateState(state, posts[0]), posts[1..])
  }

  const GoalA := Grounded("A", [], true)
  const GoalB := Grounded("B", [], true)
  const PreP := Grounded("P", [], true)
  const PreQ := Grounded("Q", [], true)

  /** Each goal has one achiever, whose precondition's own achiever undoes
      the other goal; the recursive call only checks that achiever against
      its own precondition list, so nothing rejects it. */
  const AchieveA := GroundedAction("a", [], [PreP], [GoalA], [GoalA])
  const AchieveB := GroundedAction("b", [], [PreQ], [GoalB], [GoalB])
  const MakeP := GroundedAction("p", [], [], [PreP, GoalB.(truth := false), PreQ.(truth := false)],
                                [PreP, GoalB.(truth := false), PreQ.(truth := false)])
  const MakeQ := GroundedAction("q", [], [], [PreQ, GoalA.(truth := false), PreP.(truth := false)],
                                [PreQ, GoalA.(truth := false), PreP.(truth := false)])

  lemma UpdateAppends(state: seq<Grounded>, g: Grounded)
    requires g.truth && forall j :: 0 <= j < |state| ==> !WeakMatch(state[j], g)
    ensures UpdateState(state, g) == state + [g]
  {
  }

  lemma UpdateRemoves(state: seq<Grounded>, g: Grounded, k: nat)
    requires !g.truth && k < |state| && WeakMatch(state[k], g)
    requires forall j :: 0 <= j < k ==> !WeakMatch(state[j], g)
    ensures UpdateState(state, g) == state[..k] + state[k + 1..]
  {
  }

  lemma ApplyThree(state: seq<Grounded>, x: Grounded, y: Grounded, z: Grounded)
    ensures Apply(state, [x, y, z]) == UpdateState(UpdateState(UpdateState(state, x), y), z)
  {
    assert [x, y, z][1..] == [y, z] && [y, z][1..] == [z] && [z][1..] == [];
    var s1 := UpdateState(state, x);
    var s2 := UpdateState(s1, y);
    assert Apply(state, [x, y, z]) == Apply(s1, [y, z]);
    assert Apply(s1, [y, z]) == Apply(s2, [z]);
    assert Apply(s2, [z]) == Apply(UpdateState(s2, z), []);
  }

  lemma ApplyOne(state: seq<Grounded>, x: Grounded)
    ensures Apply(state, [x]) == UpdateState(state, x)
  {
  }

  lemma RemoveHead(x: Grounded, y: Grounded)
    ensures RemoveEach([x, y], [x]) + [x] == [y, x]
  {
    assert RemoveFirst([x, y], x) == [y];
  }

  lemma ClobberedOne(x: Grounded, goal: Grounded, state: seq<Grounded>)
    requires x != goal && !Satisfied(state, x)
    ensures Clobbered([x], goal, state) == [x]
  {
    assert [x][..0] == [];
  }

  /** py's achiever adds py and removes x and px from [px, x]. */
  lemma CycleUndo(x: Grounded, px: Grounded, py: Grounded)
    requires x.truth && px.truth && py.truth
    requires x.pred != px.pred && x.pred != py.pred && px.pred != py.pred
    ensures Apply([px, x], [py, x.(truth := false), px.(truth := false)]) == [py]
  {
    ApplyThree([px, x], py, x.(truth := false), px.(truth := false));
    UpdateAppends([px, x], py);
    UpdateRemoves([px, x, py], x.(truth := false), 1);
    assert [px, x, py][..1] + [px, x, py][2..] == [px, py];
    UpdateRemoves([px, py], px.(truth := false), 0);
    assert [px, py][..0] + [px, py][1..] == [py];
  }

  /** The list state of one pass of the goal loop from [px, x]: my adds py
      and removes x and px, ay then adds y. */
  lemma CycleState(x: Grounded, y: Grounded, px: Grounded, py: Grounded, ay: GroundedAction, my: GroundedAction)
    requires x.truth && y.truth && px.truth && py.truth
    requires x.pred != px.pred && x.pred != py.pred && px.pred != py.pred && y.pred != py.pred
    requires ay.post == [y]
    requires my.post == [py, x.(truth := false), px.(truth := false)]
    ensures Apply(Apply([px, x], my.post), ay.post) == [py, y]
  {
    CycleUndo(x, px, py);
    ApplyOne([py], y);
    UpdateAppends([py], y);
  }

  /** The checks of one pass of the goal loop from goals [x, y] at position
      1 and state [px, x]: goal y is unmet, and so is py, the precondition of
      its achiever ay; neither ay nor py's achiever my clashes with the goal
      list it is checked against. */
  lemma CycleChecks(x: Grounded, y: Grounded, px: Grounded, py: Grounded, ay: GroundedAction, my: GroundedAction)
    requires x.truth && y.truth && px.truth && py.truth
    requires x.pred !in {y.pred, px.pred, py.pred} && y.pred !in {px.pred, py.pred} && px.pred != py.pred
    requires ay.post == [y]
    requires my.post == [py, x.(truth := false), px.(truth := false)]
    ensures !Satisfied([px, x], y) && !Satisfied([px, x], py)
    ensures !Contradicts([x, y], ay) && !Contradicts([py], my)
  {
    assert WeakIndex([px, x], y) == 2;
    assert WeakIndex([px, x], py) == 2;
    assert WeakIndex([x, y], y) == 1;
    assert WeakIndex([py], py) == 0;
    assert WeakIndex([py], x.(truth := false)) == 1;
    assert WeakIndex([py], px.(truth := false)) == 1;
  }

  /** The requeue of one pass: x, undone, moves behind y. */
  lemma CycleRequeue(x: Grounded, y: Grounded, py: Grounded)
    requires x.truth && x.pred !in {y.pred, py.pred}
    ensures Clobbered([x], y, [py, y]) == [x]
    ensures RemoveEach([x, y], [x]) + [x] == [y, x]
  {
    assert WeakIndex([py, y], x) == 2;
    ClobberedOne(x, y, [py, y]);
    RemoveHead(x, y);
  }

  /**
   * The goal loop of linear_solver_helper can run forever. With the goals
   * [A, B], the loop at position 1 and the state [P, A], goal B is unmet;
   * its achiever passes the contradiction check, the recursive call plans
   * q for its precondition, and the resulting state [Q, B] undoes A, which
   * moves to the end: goals [B, A], position 1. Goal A is then unmet and the
   * mirror-image step gives back goals [A, B], position 1 and state [P, A],
   * where the loop started. Nothing in the loop ever stops this.
   */
  lemma GoalLoopCycles()
    ensures !Satisfied([PreP, GoalA], GoalB) && !Satisfied([PreP, GoalA], PreQ)
    ensures !Contradicts([GoalA, GoalB], AchieveB) && !Contradicts([PreQ], MakeQ)
    ensures Apply(Apply([PreP, GoalA], MakeQ.post), AchieveB.post) == [PreQ, GoalB]
    ensures Clobbered([GoalA], GoalB, [PreQ, GoalB]) == [GoalA]
    ensures RemoveEach([GoalA, GoalB], [GoalA]) + [GoalA] == [GoalB, GoalA]
    ensures !Satisfied([PreQ, GoalB], GoalA) && !Satisfied([PreQ, GoalB], PreP)
    ensures !Contradicts([GoalB, GoalA], AchieveA) && !Contradicts([PreP], MakeP)
    ensures Apply(Apply([PreQ, GoalB], MakeP.post), AchieveA.post) == [PreP, GoalA]
    ensures Clobbered([GoalB], GoalA, [PreP, GoalA]) == [GoalB]
    ensures RemoveEach([GoalB, GoalA], [GoalB]) + [GoalB] == [GoalA, GoalB]
  {
    CycleChecks(GoalA, GoalB, PreP, PreQ, AchieveB, MakeQ);
    CycleState(GoalA, GoalB, PreP, PreQ, AchieveB, MakeQ);
    CycleRequeue(GoalA, GoalB, PreQ);
    CycleChecks(GoalB, GoalA, PreQ, PreP, AchieveA, MakeP);
    CycleState(GoalB, GoalA, PreQ, PreP, AchieveA, MakeP);
    CycleRequeue(GoalB, GoalA, PreP);
  }
}
