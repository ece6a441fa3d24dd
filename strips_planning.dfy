/**
 * The goal-regression solver of the BlocksPlanning mod. It shares the
 * conditions, matching, world and groundings of the BlocksTower planner
 * (module Strips) and adds precondition and goal merging.
 */
module StripsPlanning {
  import opened Strips

  // ---------------------------------------------------------- subgoal filter

  /** valid_subgoal_action: no later precondition clashes with the complete post conditions. */
  predicate ValidSubgoal(ga: GroundedAction, preconds: seq<Grounded>) {
    forall i :: 0 <= i < |preconds| ==> !Clashes(ga.completePost, preconds[i])
  }

  method ValidSubgoalAction(ga: GroundedAction, preconds: seq<Grounded>) returns (r: bool)
    ensures !r <==> exists i :: 0 <= i < |preconds| && WeakContains(ga.completePost, preconds[i])
                               && ga.completePost[WeakIndex(ga.completePost, preconds[i])].truth != preconds[i].truth
    ensures r == ValidSubgoal(ga, preconds)
  {
    for i := 0 to |preconds|
      invariant forall m :: 0 <= m < i ==> !Clashes(ga.completePost, preconds[m])
    {
      var post := FindWeak(ga.completePost, preconds[i]);
      if post.Some? && post.value.truth != preconds[i].truth {
        return false;
      }
    }
    return true;
  }

  /**
   * When the complete post conditions hold no two weak matches, an action is
   * a valid subgoal exactly when none of them matches a precondition with the
   * opposite truth value.
   */
  lemma ValidSubgoalNoOpposite(ga: GroundedAction, preconds: seq<Grounded>)
    requires NoWeakDuplicates(ga.completePost)
    ensures ValidSubgoal(ga, preconds) <==>
              forall i, j :: 0 <= i < |preconds| && 0 <= j < |ga.completePost| && WeakMatch(ga.completePost[j], preconds[i])
                             ==> ga.completePost[j].truth == preconds[i].truth
  {
    forall i | 0 <= i < |preconds| {
      ClashesAnywhere(ga.completePost, preconds[i]);
    }
  }

  /** The grounded actions that are valid subgoals, in their original order. */
  function ValidOnes(grounds: seq<GroundedAction>, preconds: seq<Grounded>): seq<GroundedAction> {
    if |grounds| == 0 then []
    else
      var rest := ValidOnes(grounds[..|grounds| - 1], preconds);
      var ga := grounds[|grounds| - 1];
      if ValidSubgoal(ga, preconds) then rest + [ga] else rest
  }

  /** `r` is `s` with some elements left out and the rest in their order. */
  predicate Subsequence(r: seq<GroundedAction>, s: seq<GroundedAction>)
    decreases |s|
  {
    if |r| == 0 then true
    else if |s| == 0 then false
    else (r[|r| - 1] == s[|s| - 1] && Subsequence(r[..|r| - 1], s[..|s| - 1]))
         || Subsequence(r, s[..|s| - 1])
  }

  lemma {:induction false} ValidOnesKeepOrder(grounds: seq<GroundedAction>, preconds: seq<Grounded>)
    ensures Subsequence(ValidOnes(grounds, preconds), grounds)
    ensures forall ga :: ga in ValidOnes(grounds, preconds) <==> ga in grounds && ValidSubgoal(ga, preconds)
  {
    if |grounds| > 0 {
      var front := grounds[..|grounds| - 1];
      ValidOnesKeepOrder(front, preconds);
      assert grounds == front + [grounds[|grounds| - 1]];
      var rest := ValidOnes(front, preconds);
      if ValidSubgoal(grounds[|grounds| - 1], preconds) {
        assert (rest + [grounds[|grounds| - 1]])[..|rest|] == rest;
      }
    }
  }

  /** filter_grounded_actions */
  method FilterGroundedActions(grounds: seq<GroundedAction>, preconds: seq<Grounded>)
    returns (results: seq<GroundedAction>)
    ensures results == ValidOnes(grounds, preconds)
  {
    results := [];
    for i := 0 to |grounds|
      invariant results == ValidOnes(grounds[..i], preconds)
    {
      assert grounds[..i + 1][..i] == grounds[..i];
      var ok := ValidSubgoalAction(grounds[i], preconds);
      if ok {
        results := results + [grounds[i]];
      }
    }
    assert grounds[..|grounds|] == grounds;
  }

  // ---------------------------------------------------------- state distance

  /** The number of preconditions not reached in the world. */
  function StateDistance(facts: Facts, preconds: seq<Grounded>): (d: nat)
    ensures d <= |preconds|
    ensures d == 0 <==> forall i :: 0 <= i < |preconds| ==> Reached(facts, preconds[i])
  {
    if |preconds| == 0 then 0
    else
      var front := preconds[..|preconds| - 1];
      assert forall i :: 0 <= i < |front| ==> front[i] == preconds[i];
      StateDistance(facts, front) + (if Reached(facts, preconds[|preconds| - 1]) then 0 else 1)
  }

  /** state_distance */
  method ComputeStateDistance(facts: Facts, preconds: seq<Grounded>) returns (count: nat)
    ensures count == StateDistance(facts, preconds)
  {
    count := 0;
    for i := 0 to |preconds|
      invariant count == StateDistance(facts, preconds[..i])
    {
      assert preconds[..i + 1][..i] == preconds[..i];
      if !Reached(facts, preconds[i]) {
        count := count + 1;
      }
    }
    assert preconds[..|preconds|] == preconds;
  }

  // ---------------------------------------------------------------- merging

  /** The list without the element at k. */
  function RemoveAt(s: seq<Grounded>, k: nat): (r: seq<Grounded>)
    requires k < |s|
    ensures |r| == |s| - 1
    ensures forall j :: 0 <= j < |r| ==> r[j] == s[if j < k then j else j + 1]
  {
    s[..k] + s[k + 1..]
  }

  /**
   * One step of merge_preconditions for precondition p: a weak match of the
   * opposite truth is removed (and p is not added), a weak match of the
   * same truth is kept, and an unmatched p is appended.
   */
  function MergePrecondition(result: seq<Grounded>, p: Grounded): (r: seq<Grounded>)
    ensures !WeakContains(result, p) ==> r == result + [p]
    ensures WeakContains(result, p) && result[WeakIndex(result, p)].truth == p.truth ==> r == result
    ensures WeakContains(result, p) && result[WeakIndex(result, p)].truth != p.truth ==> |r| + 1 == |result|
    ensures WeakContains(result, p) && result[WeakIndex(result, p)].truth != p.truth && NoWeakDuplicates(result) ==>
              !WeakContains(r, p)
  {
    var k := WeakIndex(result, p);
    if k < |result| then
      if result[k].truth != p.truth then
        var r := RemoveAt(result, k);
        assert NoWeakDuplicates(result) ==> forall j :: 0 <= j < |r| ==> !WeakMatch(r[j], p) by {
          if NoWeakDuplicates(result) {
            forall j | 0 <= j < |r| ensures !WeakMatch(r[j], p) {
              if j >= k {
                assert !WeakMatch(result[k], result[j + 1]);
              }
            }
          }
        }
        r
      else result
    else result + [p]
  }

  /** merge_preconditions: the candidate's preconditions merged, one by one, into the later ones. */
  function MergedPreconditions(pre: seq<Grounded>, preconds: seq<Grounded>): seq<Grounded> {
    if |pre| == 0 then preconds
    else MergePrecondition(MergedPreconditions(pre[..|pre| - 1], preconds), pre[|pre| - 1])
  }

  lemma MergePreconditionKeepsDistinct(result: seq<Grounded>, p: Grounded)
    requires NoWeakDuplicates(result)
    ensures NoWeakDuplicates(MergePrecondition(result, p))
  {
    var k := WeakIndex(result, p);
    if k == |result| {
      assert forall j :: 0 <= j < |result| ==> (result + [p])[j] == result[j];
    }
  }

  /**
   * Preconditions that match nothing already required, and no two of which
   * match each other, are appended in order.
   */
  lemma {:induction false} MergeAppendsNew(pre: seq<Grounded>, preconds: seq<Grounded>)
    requires forall i, j :: 0 <= i < |pre| && 0 <= j < |preconds| ==> !WeakMatch(preconds[j], pre[i])
    requires NoWeakDuplicates(pre)
    ensures MergedPreconditions(pre, preconds) == preconds + pre
  {
    if |pre| > 0 {
      var front := pre[..|pre| - 1];
      var p := pre[|pre| - 1];
      MergeAppendsNew(front, preconds);
      forall j | 0 <= j < |preconds + front|
        ensures !WeakMatch((preconds + front)[j], p)
      {
        if j >= |preconds| {
          assert !WeakMatch(pre[j - |preconds|], pre[|pre| - 1]);
        }
      }
      assert preconds + front + [p] == preconds + pre;
    }
  }

  /** A precondition that conflicts with an earlier requirement cancels it and is not added. */
  lemma MergeDropsConflict(preconds: seq<Grounded>, p: Grounded)
    requires NoWeakDuplicates(preconds)
    requires WeakContains(preconds, p) && preconds[WeakIndex(preconds, p)].truth != p.truth
    ensures |MergedPreconditions([p], preconds)| + 1 == |preconds|
    ensures !WeakContains(MergedPreconditions([p], preconds), p)
  {
    assert [p][..0] == [];
  }

  method MergePreconditions(ga: GroundedAction, preconds: seq<Grounded>) returns (result: seq<Grounded>)
    ensures result == MergedPreconditions(ga.pre, preconds)
  {
    result := preconds;
    for i := 0 to |ga.pre|
      invariant result == MergedPreconditions(ga.pre[..i], preconds)
    {
      assert ga.pre[..i + 1][..i] == ga.pre[..i];
      var m := FindWeak(result, ga.pre[i]);
      if m.Some? {
        if m.value.truth != ga.pre[i].truth {
          result := RemoveAt(result, WeakIndex(result, ga.pre[i]));
        }
      } else {
        result := result + [ga.pre[i]];
      }
    }
    assert ga.pre[..|ga.pre|] == ga.pre;
  }

  /** The first loop of merge_goals for one post condition: a goal it achieves is removed. */
  function DropAchieved(result: seq<Grounded>, p: Grounded): seq<Grounded> {
    var k := WeakIndex(result, p);
    if k < |result| && result[k].truth == p.truth then RemoveAt(result, k) else result
  }

  function DroppedAll(goals: seq<Grounded>, post: seq<Grounded>): seq<Grounded> {
    if |post| == 0 then goals else DropAchieved(DroppedAll(goals, post[..|post| - 1]), post[|post| - 1])
  }

  /** The second loop of merge_goals for one precondition: added when absent and not reached in the world. */
  function AddUnmet(facts: Facts, result: seq<Grounded>, p: Grounded): seq<Grounded> {
    if !WeakContains(result, p) && Holds(facts, p.pred, p.literals) != p.truth then result + [p] else result
  }

  function AddedAll(facts: Facts, goals: seq<Grounded>, pre: seq<Grounded>): seq<Grounded> {
    if |pre| == 0 then goals else AddUnmet(facts, AddedAll(facts, goals, pre[..|pre| - 1]), pre[|pre| - 1])
  }

  function MergedGoals(facts: Facts, ga: GroundedAction, goals: seq<Grounded>): seq<Grounded> {
    AddedAll(facts, DroppedAll(goals, ga.post), ga.pre)
  }

  lemma DropAchievedStep(before: seq<Grounded>, p: Grounded)
    requires NoWeakDuplicates(before)
    ensures NoWeakDuplicates(DropAchieved(before, p))
    ensures p !in DropAchieved(before, p)
    ensures forall x :: x in DropAchieved(before, p) ==> x in before
  {
    var after := DropAchieved(before, p);
    var k := WeakIndex(before, p);
    if k < |before| && before[k].truth == p.truth {
      forall j | 0 <= j < |after|
        ensures after[j] != p
      {
        var j' := if j < k then j else j + 1;
        assert after[j] == before[j'];
        assert !WeakMatch(before[j'], before[k]) || j' == k;
      }
      forall i, j | 0 <= i < j < |after|
        ensures !WeakMatch(after[i], after[j])
      {
        var i' := if i < k then i else i + 1;
        var j' := if j < k then j else j + 1;
        assert after[i] == before[i'] && after[j] == before[j'];
      }
    } else {
      assert forall j :: 0 <= j < |before| && before[j] == p ==> WeakMatch(before[j], p);
    }
  }

  /** With goals free of weak duplicates, no post condition of the action is left as a goal. */
  lemma {:induction false} DroppedAllAchieved(goals: seq<Grounded>, post: seq<Grounded>)
    requires NoWeakDuplicates(goals)
    ensures NoWeakDuplicates(DroppedAll(goals, post))
    ensures forall x :: x in DroppedAll(goals, post) ==> x in goals
    ensures forall i :: 0 <= i < |post| ==> post[i] !in DroppedAll(goals, post)
  {
    if |post| > 0 {
      var front := post[..|post| - 1];
      DroppedAllAchieved(goals, front);
      DropAchievedStep(DroppedAll(goals, front), post[|post| - 1]);
      forall i | 0 <= i < |front|
        ensures post[i] !in DroppedAll(goals, post)
      {
        assert post[i] == front[i];
      }
    }
  }

  /** Afterwards every precondition of the action is a goal or already reached in the world. */
  lemma {:induction false} AddedAllCovers(facts: Facts, goals: seq<Grounded>, pre: seq<Grounded>)
    ensures goals <= AddedAll(facts, goals, pre)
    ensures forall i :: 0 <= i < |pre| ==>
              WeakContains(AddedAll(facts, goals, pre), pre[i]) || Reached(facts, pre[i])
    ensures forall x :: x in AddedAll(facts, goals, pre) ==> x in goals || x in pre
  {
    if |pre| > 0 {
      var front := pre[..|pre| - 1];
      var p := pre[|pre| - 1];
      AddedAllCovers(facts, goals, front);
      var before := AddedAll(facts, goals, front);
      WeakContainsAppend(before, p);
      forall i | 0 <= i < |pre|
        ensures WeakContains(AddedAll(facts, goals, pre), pre[i]) || Reached(facts, pre[i])
      {
        if i < |front| {
          assert pre[i] == front[i];
        }
      }
    }
  }

  /** The first loop of merge_goals. */
  method DropAchievedGoals(goals: seq<Grounded>, post: seq<Grounded>) returns (result: seq<Grounded>)
    ensures result == DroppedAll(goals, post)
  {
    result := goals;
    for i := 0 to |post|
      invariant result == DroppedAll(goals, post[..i])
    {
      assert post[..i + 1][..i] == post[..i];
      var m := FindWeak(result, post[i]);
      if m.Some? && m.value.truth == post[i].truth {
        result := RemoveAt(result, WeakIndex(result, post[i]));
      }
    }
    assert post[..|post|] == post;
  }

  /** The second loop of merge_goals. */
  method AddUnmetGoals(facts: Facts, goals: seq<Grounded>, pre: seq<Grounded>) returns (result: seq<Grounded>)
    ensures result == AddedAll(facts, goals, pre)
  {
    result := goals;
    for i := 0 to |pre|
      invariant result == AddedAll(facts, goals, pre[..i])
    {
      assert pre[..i + 1][..i] == pre[..i];
      var m := FindWeak(result, pre[i]);
      if m.None? && Holds(facts, pre[i].pred, pre[i].literals) != pre[i].truth {
        result := result + [pre[i]];
      }
    }
    assert pre[..|pre|] == pre;
  }

  /**
   * merge_goals: the goals without those the action's post conditions
   * achieve, then the action's preconditions that are neither listed nor
   * reached in the world.
   */
  method MergeGoals(facts: Facts, ga: GroundedAction, goals: seq<Grounded>) returns (result: seq<Grounded>)
    ensures result == MergedGoals(facts, ga, goals)
  {
    result := DropAchievedGoals(goals, ga.post);
    result := AddUnmetGoals(facts, result, ga.pre);
  }

  // ---------------------------------------------------------------- solving

  /**
   * solve_helper: regresses from the subgoals, extending `plan` with
   * candidate actions. The source recursion has no depth bound; `fuel`
   * bounds it here, and a call that runs out reports OutOfSteps where
   * CPython would raise RuntimeError at its recursion limit.
   */
  method SolveHelper(facts: Facts, ag: seq<seq<GroundedAction>>, subgoals: seq<Grounded>,
                     preconds: seq<Grounded>, plan: seq<GroundedAction>, fuel: nat)
    returns (out: Outcome)
    ensures subgoals == [] ==> out == Solved(plan)
    ensures subgoals != [] && plan != [] && StateDistance(facts, preconds) == 0 ==> out == Solved(plan)
    ensures out.Solved? ==> Extended(ag, plan, out.plan)
    decreases fuel, 1
  {
    if |subgoals| == 0 {
      return Solved(plan);
    }
    if |plan| > 0 && StateDistance(facts, preconds) == 0 {
      return Solved(plan);
    }
    if fuel == 0 {
      return OutOfSteps;
    }
    for gi := 0 to |subgoals| {
      var g := subgoals[gi];
      if Reached(facts, g) {
        continue;
      }
      var possible := GetPossibleGrounds(ag, g);
      var candidates := FilterGroundedActions(possible, preconds);
      if |candidates| == 0 {
        return NoPlan;
      }
      AchieversMembers(Flatten(ag), g);
      ValidOnesKeepOrder(possible, preconds);
      var sorted := SortBy((ga: GroundedAction) => StateDistance(facts, ga.pre), candidates);
      assert forall a :: a in sorted ==> a in multiset(candidates);
      out := TryCandidates(facts, ag, subgoals, preconds, plan, sorted, fuel);
      if !out.NoPlan? {
        return out;
      }
    }
    return NoPlan;
  }

  /** `full` is `plan` followed by groundings of the world's actions. */
  predicate Extended(ag: seq<seq<GroundedAction>>, plan: seq<GroundedAction>, full: seq<GroundedAction>) {
    plan <= full && forall a :: a in full[|plan|..] ==> a in Flatten(ag)
  }

  /** The loop of solve_helper over the sorted candidates of one subgoal. */
  method TryCandidates(facts: Facts, ag: seq<seq<GroundedAction>>, subgoals: seq<Grounded>,
                       preconds: seq<Grounded>, plan: seq<GroundedAction>, sorted: seq<GroundedAction>, fuel: nat)
    returns (out: Outcome)
    requires fuel > 0 && forall a :: a in sorted ==> a in Flatten(ag)
    ensures out.Solved? ==> Extended(ag, plan, out.plan)
    decreases fuel, 0
  {
    for ci := 0 to |sorted| {
      var candidate := sorted[ci];
      var candpre := MergePreconditions(candidate, preconds);
      var candgoals := MergeGoals(facts, candidate, subgoals);
      var result := SolveHelper(facts, ag, candgoals, candpre, plan + [candidate], fuel - 1);
      if result.OutOfSteps? {
        return OutOfSteps;
      }
      if result.Solved? {
        assert result.plan[|plan|..] == [candidate] + result.plan[|plan| + 1..];
        return result;
      }
    }
    return NoPlan;
  }

  // ------------------------------------------------ a regression that repeats

  const Needed := Grounded("G", [], true)

  /** An action that needs the very condition it makes true. */
  const SelfNeeding := GroundedAction("s", [], [Needed], [Needed], [Needed])

  /**
   * solve_helper can recurse until CPython's recursion limit stops it with
   * RuntimeError, as nothing catches it. In a world where G does not hold,
   * with the goal G and an action that needs G to make G, the action is the
   * only candidate, passes the precondition filter, and hands the recursive
   * call the goals [G] and the preconditions [G] again, which are not
   * reached; only the plan grows, so every level repeats the one before.
   */
  lemma RegressionRepeats()
    ensures !Reached(map[], Needed) && StateDistance(map[], [Needed]) > 0
    ensures Achievers(Flatten([[SelfNeeding]]), Needed) == [SelfNeeding]
    ensures ValidOnes([SelfNeeding], []) == [SelfNeeding] && ValidOnes([SelfNeeding], [Needed]) == [SelfNeeding]
    ensures MergedPreconditions(SelfNeeding.pre, []) == [Needed]
    ensures MergedPreconditions(SelfNeeding.pre, [Needed]) == [Needed]
    ensures MergedGoals(map[], SelfNeeding, [Needed]) == [Needed]
  {
    assert WeakIndex([Needed], Needed) == 0;
    assert [Needed][..0] == [] && SelfNeeding.pre[..0] == [] && SelfNeeding.post[..0] == [];
    assert RemoveAt([Needed], 0) == [];
    assert DroppedAll([Needed], SelfNeeding.post) == [];
    assert !Holds(map[], Needed.pred, Needed.literals);
    assert AddedAll(map[], [], SelfNeeding.pre) == AddUnmet(map[], [], Needed) == [Needed];
    assert StateDistance(map[], [Needed]) == 1;
    assert Flatten([[SelfNeeding]]) == [SelfNeeding] by {
      assert [[SelfNeeding]][..0] == [];
    }
    assert [SelfNeeding][..0] == [];
    assert Achieves(SelfNeeding, Needed) by {
      assert StrongMatch(SelfNeeding.post[0], Needed);
    }
  }
}
