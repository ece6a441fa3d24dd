/* The problem-reduction Tower of Hanoi agent and the command parser of the
   natural-language agent: pole-to-pole carry routines, the recursive move
   plan, the stream of actions the agent hands to the environment, and the
   rewriting of a typed command into "Mov"/"Pick"/"Put" form. */
module HanoiAgent {
  import opened Wrappers

  // Action codes: 0 jump, 1 forward, 2 put down, 3 pick up, 4 turn right, 5 turn left.
  const PUT_DOWN := 2
  const PICK_UP := 3

  const TURN_LEFT_TO_BEGIN1: seq<int> := [1, 5]
  const ACTIONS_1TO2: seq<int> := [5, 1, 4, 3, 4, 1, 5, 2]
  const ACTIONS_2TO1: seq<int> := [3, 5, 1, 4, 2, 4, 1, 5]
  const ACTIONS_1TO3: seq<int> := [5, 1, 4, 3, 4, 1, 1, 5, 2, 5, 1, 4]
  const ACTIONS_3TO1: seq<int> := [4, 1, 5, 3, 5, 1, 1, 4, 2, 4, 1, 5]
  const ACTIONS_2TO3: seq<int> := [3, 4, 1, 5, 2, 5, 1, 4]
  const ACTIONS_3TO2: seq<int> := [4, 1, 5, 3, 5, 1, 4, 2]
  const CELEBRATE: seq<int> := [0, 0, 0, 5, 5, 1]

  predicate IsPole(p: string) {
    p == "a" || p == "b" || p == "c"
  }

  predicate DistinctPoles(x: string, y: string, z: string) {
    IsPole(x) && IsPole(y) && IsPole(z) && x != y && y != z && x != z
  }

  /** The walking routine that carries the top disk from one pole to another;
      nothing (Python's None) for any other pair of names. */
  function Move(frm: string, to: string): (r: Option<seq<int>>)
    ensures r.Some? <==> IsPole(frm) && IsPole(to) && frm != to
  {
    if frm == "a" && to == "b" then Some(ACTIONS_1TO2)
    else if frm == "a" && to == "c" then Some(ACTIONS_1TO3)
    else if frm == "b" && to == "a" then Some(ACTIONS_2TO1)
    else if frm == "b" && to == "c" then Some(ACTIONS_2TO3)
    else if frm == "c" && to == "a" then Some(ACTIONS_3TO1)
    else if frm == "c" && to == "b" then Some(ACTIONS_3TO2)
    else None
  }

  /** x occurs in s at position i and nowhere else. */
  predicate OnlyAt(s: seq<int>, x: int, i: int) {
    0 <= i < |s| && s[i] == x && forall k :: 0 <= k < |s| && s[k] == x ==> k == i
  }

  /** Exactly one pick-up and one put-down, the pick-up first. */
  predicate CarriesOnce(s: seq<int>) {
    exists i, j :: 0 <= i < j < |s| && OnlyAt(s, PICK_UP, i) && OnlyAt(s, PUT_DOWN, j)
  }

  lemma OnlyAtCountsOne(s: seq<int>, x: int, i: int)
    requires OnlyAt(s, x, i)
    ensures multiset(s)[x] == 1
  {
    assert s == s[..i] + [x] + s[i + 1..];
    assert x !in s[..i];
    var tail := s[i + 1..];
    assert forall k :: 0 <= k < |tail| ==> tail[k] == s[i + 1 + k];
    assert x !in tail;
  }

  lemma RoutinesAbCarryOnce()
    ensures CarriesOnce(ACTIONS_1TO2) && CarriesOnce(ACTIONS_2TO1)
  {
    assert OnlyAt(ACTIONS_1TO2, PICK_UP, 3) && OnlyAt(ACTIONS_1TO2, PUT_DOWN, 7);
    assert OnlyAt(ACTIONS_2TO1, PICK_UP, 0) && OnlyAt(ACTIONS_2TO1, PUT_DOWN, 4);
  }

  lemma RoutinesAcCarryOnce()
    ensures CarriesOnce(ACTIONS_1TO3) && CarriesOnce(ACTIONS_3TO1)
  {
    assert OnlyAt(ACTIONS_1TO3, PICK_UP, 3) && OnlyAt(ACTIONS_1TO3, PUT_DOWN, 8);
    assert OnlyAt(ACTIONS_3TO1, PICK_UP, 3) && OnlyAt(ACTIONS_3TO1, PUT_DOWN, 8);
  }

  lemma RoutinesBcCarryOnce()
    ensures CarriesOnce(ACTIONS_2TO3) && CarriesOnce(ACTIONS_3TO2)
  {
    assert OnlyAt(ACTIONS_2TO3, PICK_UP, 0) && OnlyAt(ACTIONS_2TO3, PUT_DOWN, 4);
    assert OnlyAt(ACTIONS_3TO2, PICK_UP, 3) && OnlyAt(ACTIONS_3TO2, PUT_DOWN, 7);
  }

  /** Every carry routine picks up exactly once and puts down exactly once,
      the pick-up first. */
  lemma MoveCarriesOnce(frm: string, to: string)
    requires Move(frm, to).Some?
    ensures CarriesOnce(Move(frm, to).value)
  {
    RoutinesAbCarryOnce();
    RoutinesAcCarryOnce();
    RoutinesBcCarryOnce();
  }

  /** Different pole pairs have different routines. */
  lemma MoveInjective(f1: string, t1: string, f2: string, t2: string)
    requires Move(f1, t1).Some? && Move(f1, t1) == Move(f2, t2)
    ensures f1 == f2 && t1 == t2
  {
  }

  /* ---------------- the recursive plan ---------------- */

  function Pow2(n: nat): nat {
    if n == 0 then 1 else 2 * Pow2(n - 1)
  }

  /** The calls dohanoi makes to move, in order: first the n-1 smaller disks
      out of the way, then the largest, then the smaller ones back on top. */
  function Hanoi(n: nat, to: string, frm: string, using: string): seq<(string, string)> {
    if n == 0 then []
    else Hanoi(n - 1, using, frm, to) + [(frm, to)] + Hanoi(n - 1, to, using, frm)
  }

  lemma {:induction false} HanoiLength(n: nat, to: string, frm: string, using: string)
    ensures |Hanoi(n, to, frm, using)| == Pow2(n) - 1
  {
    if n > 0 {
      HanoiLength(n - 1, using, frm, to);
      HanoiLength(n - 1, to, using, frm);
    }
  }

  /** With three distinct poles every call is between two distinct poles, so
      move never answers None. */
  lemma {:induction false} HanoiMovesAreCarries(n: nat, to: string, frm: string, using: string)
    requires DistinctPoles(to, frm, using)
    ensures forall m :: m in Hanoi(n, to, frm, using) ==> Move(m.0, m.1).Some?
  {
    if n > 0 {
      HanoiMovesAreCarries(n - 1, using, frm, to);
      HanoiMovesAreCarries(n - 1, to, using, frm);
      var a, b := Hanoi(n - 1, using, frm, to), Hanoi(n - 1, to, using, frm);
      forall m | m in Hanoi(n, to, frm, using)
        ensures Move(m.0, m.1).Some?
      {
        assert m in a || m == (frm, to) || m in b;
      }
    }
  }

  /** The actions the generator yields for a list of move calls: the routines
      concatenated, or None when some call has no routine (iterating over
      None fails). */
  function Carry(ms: seq<(string, string)>): Option<seq<int>> {
    if ms == [] then Some([])
    else
      var first, rest := Move(ms[0].0, ms[0].1), Carry(ms[1..]);
      if first.Some? && rest.Some? then Some(first.value + rest.value) else None
  }

  lemma {:induction false} CarryAllValid(ms: seq<(string, string)>)
    requires forall m :: m in ms ==> Move(m.0, m.1).Some?
    ensures Carry(ms).Some?
    ensures multiset(Carry(ms).value)[PICK_UP] == |ms|
    ensures multiset(Carry(ms).value)[PUT_DOWN] == |ms|
  {
    if ms != [] {
      assert ms[0] in ms;
      assert forall m :: m in ms[1..] ==> m in ms;
      CarryAllValid(ms[1..]);
      MoveCarriesOnce(ms[0].0, ms[0].1);
      var r, c := Move(ms[0].0, ms[0].1).value, Carry(ms[1..]).value;
      var i, j :| 0 <= i < j < |r| && OnlyAt(r, PICK_UP, i) && OnlyAt(r, PUT_DOWN, j);
      OnlyAtCountsOne(r, PICK_UP, i);
      OnlyAtCountsOne(r, PUT_DOWN, j);
      assert Carry(ms).value == r + c;
      assert multiset(r + c) == multiset(r) + multiset(c);
    }
  }

  /** What dohanoi yields: defined for three distinct poles, with one pick-up
      and one put-down per move call, 2^n - 1 of each. */
  lemma DoHanoiActions(n: nat, to: string, frm: string, using: string)
    requires DistinctPoles(to, frm, using)
    ensures Carry(Hanoi(n, to, frm, using)).Some?
    ensures multiset(Carry(Hanoi(n, to, frm, using)).value)[PICK_UP] == Pow2(n) - 1
    ensures multiset(Carry(Hanoi(n, to, frm, using)).value)[PUT_DOWN] == Pow2(n) - 1
  {
    HanoiMovesAreCarries(n, to, frm, using);
    CarryAllValid(Hanoi(n, to, frm, using));
    HanoiLength(n, to, frm, using);
  }

  /* ---------------- the plan solves the puzzle ---------------- */

  /** Poles map to their disks, top first; a disk is its size. */
  type Towers = map<string, seq<nat>>

  /** One move of the top disk, refused when the source pole is empty or the
      destination's top disk is smaller. */
  function Step(t: Towers, m: (string, string)): Option<Towers> {
    if m.0 !in t || m.1 !in t || m.0 == m.1 || t[m.0] == [] then None
    else if t[m.1] != [] && t[m.1][0] < t[m.0][0] then None
    else Some(t[m.0 := t[m.0][1..]][m.1 := [t[m.0][0]] + t[m.1]])
  }

  function Run(t: Towers, ms: seq<(string, string)>): Option<Towers> {
    if ms == [] then Some(t)
    else match Step(t, ms[0])
      case None => None
      case Some(t') => Run(t', ms[1..])
  }

  lemma {:induction false} RunAppend(t: Towers, a: seq<(string, string)>, b: seq<(string, string)>)
    requires Run(t, a).Some?
    ensures Run(t, a + b) == Run(Run(t, a).value, b)
  {
    if a != [] {
      assert (a + b)[0] == a[0];
      assert (a + b)[1..] == a[1..] + b;
      RunAppend(Step(t, a[0]).value, a[1..], b);
    } else {
      assert a + b == b;
    }
  }

  /** The disks 1..n, smallest on top. */
  function Disks(n: nat): (s: seq<nat>)
    ensures |s| == n && forall i :: 0 <= i < n ==> s[i] == i + 1
  {
    if n == 0 then [] else Disks(n - 1) + [n]
  }

  predicate AllAbove(s: seq<nat>, n: nat) {
    forall i :: 0 <= i < |s| ==> s[i] > n
  }

  /** Moving the n smallest disks, all on top of `frm` and smaller than every
      other disk, takes only legal steps and leaves them on top of `to`, the
      other poles as they were. */
  lemma {:induction false} HanoiSolves(n: nat, to: string, frm: string, using: string, t: Towers)
    requires to != frm && frm != using && to != using && to in t && frm in t && using in t
    requires |t[frm]| >= n && t[frm][..n] == Disks(n)
    requires AllAbove(t[frm][n..], n) && AllAbove(t[to], n) && AllAbove(t[using], n)
    ensures Run(t, Hanoi(n, to, frm, using)) == Some(t[frm := t[frm][n..]][to := Disks(n) + t[to]])
    decreases n, 1
  {
    if n == 0 {
      assert t[frm][0..] == t[frm] && Disks(0) + t[to] == t[to];
      assert t[frm := t[frm][0..]][to := Disks(0) + t[to]] == t;
    } else {
      var rest := t[frm][n..];
      var h1, h2 := Hanoi(n - 1, using, frm, to), Hanoi(n - 1, to, using, frm);
      assert Hanoi(n, to, frm, using) == h1 + [(frm, to)] + h2;
      var t2 := HanoiFirstHalf(n, to, frm, using, t);
      HanoiSecondHalf(n, to, frm, using, t, t2);
      RunAppend(t, h1 + [(frm, to)], h2);
    }
  }

  /** The second half: the n-1 smaller disks follow disk n onto `to`. */
  lemma {:induction false} HanoiSecondHalf(n: nat, to: string, frm: string, using: string, t: Towers, t2: Towers)
    requires n > 0
    requires to != frm && frm != using && to != using && to in t && frm in t && using in t
    requires |t[frm]| >= n && AllAbove(t[frm][n..], n) && AllAbove(t[to], n) && AllAbove(t[using], n)
    requires t2 == t[frm := t[frm][n..]][using := Disks(n - 1) + t[using]][to := [n] + t[to]]
    ensures Run(t2, Hanoi(n - 1, to, using, frm)) == Some(t[frm := t[frm][n..]][to := Disks(n) + t[to]])
    decreases n, 0
  {
    var rest := t[frm][n..];
    SmallerOnTop(n, t[using]);
    assert t2[using] == Disks(n - 1) + t[using] && t2[to] == [n] + t[to] && t2[frm] == rest;
    assert AllAbove(t2[to], n - 1) && AllAbove(t2[frm], n - 1) && AllAbove(t2[using][n - 1..], n - 1);
    HanoiSolves(n - 1, to, using, frm, t2);
    assert Disks(n - 1) + ([n] + t[to]) == Disks(n) + t[to];
    UpdatesUndone(t, frm, using, to, rest, Disks(n - 1) + t[using], [n] + t[to], Disks(n) + t[to]);
  }

  /** The first half of the plan: the n-1 smaller disks out of the way onto
      `using`, then disk n onto `to`. */
  lemma {:induction false} HanoiFirstHalf(n: nat, to: string, frm: string, using: string, t: Towers)
      returns (t2: Towers)
    requires n > 0
    requires to != frm && frm != using && to != using && to in t && frm in t && using in t
    requires |t[frm]| >= n && t[frm][..n] == Disks(n)
    requires AllAbove(t[frm][n..], n) && AllAbove(t[to], n) && AllAbove(t[using], n)
    ensures t2 == t[frm := t[frm][n..]][using := Disks(n - 1) + t[using]][to := [n] + t[to]]
    ensures Run(t, Hanoi(n - 1, using, frm, to) + [(frm, to)]) == Some(t2)
    decreases n, 0
  {
    var rest := t[frm][n..];
    assert t[frm][n - 1..] == [n] + rest;
    assert t[frm][..n - 1] == Disks(n - 1);
    var h1 := Hanoi(n - 1, using, frm, to);
    HanoiSolves(n - 1, using, frm, to, t);
    var t1 := t[frm := [n] + rest][using := Disks(n - 1) + t[using]];
    assert Run(t, h1) == Some(t1);
    t2 := LargestStep(t1, frm, to, n);
    UpdatesCommute(t, frm, using, to, [n] + rest, rest, Disks(n - 1) + t[using], [n] + t[to]);
    RunAppend(t, h1, [(frm, to)]);
  }

  lemma UpdatesCommute(t: Towers, a: string, b: string, c: string, x: seq<nat>, x': seq<nat>, y: seq<nat>, z: seq<nat>)
    requires a != b && b != c && a != c
    ensures t[a := x][b := y][a := x'][c := z] == t[a := x'][b := y][c := z]
  {
  }

  lemma UpdatesUndone(t: Towers, a: string, b: string, c: string, x: seq<nat>, y: seq<nat>, z: seq<nat>, z': seq<nat>)
    requires a != b && b != c && a != c && b in t
    ensures t[a := x][b := y][c := z][b := t[b]][c := z'] == t[a := x][c := z']
  {
  }

  /** The middle move of the plan: disk n onto a pole of larger disks. */
  lemma LargestStep(t: Towers, frm: string, to: string, n: nat) returns (t': Towers)
    requires frm != to && frm in t && to in t && t[frm] != [] && t[frm][0] == n && AllAbove(t[to], n)
    ensures t' == t[frm := t[frm][1..]][to := [n] + t[to]]
    ensures Run(t, [(frm, to)]) == Some(t')
  {
    t' := t[frm := t[frm][1..]][to := [n] + t[to]];
    assert Step(t, (frm, to)) == Some(t');
  }

  lemma SmallerOnTop(n: nat, below: seq<nat>)
    requires n > 0
    ensures (Disks(n - 1) + below)[..n - 1] == Disks(n - 1)
    ensures (Disks(n - 1) + below)[n - 1..] == below
  {
  }

  /** The agent's problem: every disk on pole a, moved to pole c. */
  lemma HanoiSolvesPuzzle(n: nat)
    ensures Run(map["a" := Disks(n), "b" := [], "c" := []], Hanoi(n, "c", "a", "b"))
         == Some(map["a" := [], "b" := [], "c" := Disks(n)])
  {
    var t := map["a" := Disks(n), "b" := [], "c" := []];
    assert t["a"][..n] == Disks(n);
    HanoiSolves(n, "c", "a", "b", t);
    assert t["a"][n..] == [] && Disks(n) + t["c"] == Disks(n);
    assert t["a" := t["a"][n..]]["c" := Disks(n) + t["c"]] == map["a" := [], "b" := [], "c" := Disks(n)];
  }

  /* ---------------- the action stream ---------------- */

  /** Everything the action generator yields for `numDisks` disks: the turn
      to begin, the carries of the plan from pole a to pole c, the dance. */
  function Generated(numDisks: nat): (s: seq<int>)
    ensures |s| >= |TURN_LEFT_TO_BEGIN1| + |CELEBRATE|
  {
    DoHanoiActions(numDisks, "c", "a", "b");
    TURN_LEFT_TO_BEGIN1 + Carry(Hanoi(numDisks, "c", "a", "b")).value + CELEBRATE
  }

  /** The stream opens with the start actions and closes with the dance, and
      in between picks up and puts down once per move: 2^n - 1 times. */
  lemma GeneratedShape(numDisks: nat)
    ensures Generated(numDisks)[..2] == TURN_LEFT_TO_BEGIN1
    ensures Generated(numDisks)[|Generated(numDisks)| - 6..] == CELEBRATE
    ensures multiset(Generated(numDisks))[PICK_UP] == Pow2(numDisks) - 1
    ensures multiset(Generated(numDisks))[PUT_DOWN] == Pow2(numDisks) - 1
  {
    DoHanoiActions(numDisks, "c", "a", "b");
    var h := Carry(Hanoi(numDisks, "c", "a", "b")).value;
    var s := Generated(numDisks);
    assert s == TURN_LEFT_TO_BEGIN1 + h + CELEBRATE;
    BookendsCarryNothing();
    assert multiset(s) == multiset(TURN_LEFT_TO_BEGIN1) + multiset(h) + multiset(CELEBRATE);
  }

  lemma BookendsCarryNothing()
    ensures multiset(TURN_LEFT_TO_BEGIN1)[PICK_UP] == 0 && multiset(TURN_LEFT_TO_BEGIN1)[PUT_DOWN] == 0
    ensures multiset(CELEBRATE)[PICK_UP] == 0 && multiset(CELEBRATE)[PUT_DOWN] == 0
  {
    assert PICK_UP !in CELEBRATE && PUT_DOWN !in CELEBRATE;
  }

  /** The problem-reduction agent; `pending` is what its generator has still
      to yield, None before the first episode starts. */
  class ProblemReductionAgent {
    var numDisks: nat
    var pending: Option<seq<int>>

    constructor(numDisks: nat)
      ensures this.numDisks == numDisks && pending == None
    {
      this.numDisks := numDisks;
      pending := None;
    }

    /** A fresh generator; its first action is returned. */
    method Start() returns (a: int)
      modifies this
      ensures a == Generated(numDisks)[0] && a == 1
      ensures pending == Some(Generated(numDisks)[1..]) && numDisks == old(numDisks)
    {
      var s := Generated(numDisks);
      a := s[0];
      pending := Some(s[1..]);
    }

    /** The generator's next action, or 1 (walk forward) when it has none
        left or was never started. */
    method Act() returns (a: int)
      modifies this
      ensures old(pending) == None || old(pending) == Some([]) ==> a == 1 && pending == old(pending)
      ensures old(pending).Some? && old(pending).value != [] ==>
        a == old(pending).value[0] && pending == Some(old(pending).value[1..])
      ensures numDisks == old(numDisks)
    {
      match pending
      case None => a := 1;
      case Some(s) =>
        if s == [] {
          a := 1;
        } else {
          a := s[0];
          pending := Some(s[1..]);
        }
    }
  }

  /* ---------------- the command parser ---------------- */

  predicate IsSpace(c: char) {
    c == ' ' || c == '\t' || c == '\n' || c == '\r' || c as int == 11 || c as int == 12
  }

  predicate IsUpper(c: char) { 'A' <= c <= 'Z' }
  predicate IsLower(c: char) { 'a' <= c <= 'z' }

  function ToLowerChar(c: char): char {
    if IsUpper(c) then (c as int + 32) as char else c
  }

  function ToUpperChar(c: char): char {
    if IsLower(c) then (c as int - 32) as char else c
  }

  /** ASCII lower-casing. */
  function Lower(s: string): (r: string)
    ensures |r| == |s| && forall i :: 0 <= i < |s| ==> r[i] == ToLowerChar(s[i])
  {
    if s == [] then [] else [ToLowerChar(s[0])] + Lower(s[1..])
  }

  /** Title case: a letter is upper-cased when it follows no letter and
      lower-cased when it follows one; other characters are kept. */
  function TitleFrom(s: string, afterLetter: bool): (r: string)
    ensures |r| == |s|
  {
    if s == [] then []
    else if IsUpper(s[0]) || IsLower(s[0]) then
      [if afterLetter then ToLowerChar(s[0]) else ToUpperChar(s[0])] + TitleFrom(s[1..], true)
    else [s[0]] + TitleFrom(s[1..], false)
  }

  function Title(w: string): string {
    TitleFrom(w, false)
  }

  /** Title case changes only the case: lower-casing undoes it ... */
  lemma {:induction false} TitleFromLower(s: string, afterLetter: bool)
    ensures Lower(TitleFrom(s, afterLetter)) == Lower(s)
  {
    if s != [] {
      TitleFromLower(s[1..], IsUpper(s[0]) || IsLower(s[0]));
      var r := TitleFrom(s, afterLetter);
      assert r[1..] == TitleFrom(s[1..], IsUpper(s[0]) || IsLower(s[0]));
      assert Lower(r) == [ToLowerChar(r[0])] + Lower(r[1..]);
    }
  }

  /** ... and the whitespace is where it was. */
  lemma {:induction false} TitleFromSpaces(s: string, afterLetter: bool)
    ensures forall i :: 0 <= i < |s| ==> (IsSpace(TitleFrom(s, afterLetter)[i]) <==> IsSpace(s[i]))
  {
    if s != [] {
      TitleFromSpaces(s[1..], IsUpper(s[0]) || IsLower(s[0]));
      var r := TitleFrom(s, afterLetter);
      assert r[1..] == TitleFrom(s[1..], IsUpper(s[0]) || IsLower(s[0]));
      forall i | 0 <= i < |s|
        ensures IsSpace(r[i]) <==> IsSpace(s[i])
      {
        if i > 0 {
          assert r[i] == r[1..][i - 1];
        }
      }
    }
  }

  /** The end of the word starting at or before position i. */
  function WordEnd(s: string, i: nat): (k: nat)
    requires i <= |s|
    ensures i <= k <= |s|
    ensures i < |s| && !IsSpace(s[i]) ==> k > i
    ensures forall j :: i <= j < k ==> !IsSpace(s[j])
    ensures k < |s| ==> IsSpace(s[k])
    decreases |s| - i
  {
    if i == |s| || IsSpace(s[i]) then i else WordEnd(s, i + 1)
  }

  /** Splitting on runs of whitespace, ignoring it at both ends. */
  function Split(s: string): seq<string>
    decreases |s|
  {
    if s == [] then []
    else if IsSpace(s[0]) then Split(s[1..])
    else
      var k := WordEnd(s, 0);
      [s[..k]] + Split(s[k..])
  }

  predicate IsWord(w: string) {
    w != [] && forall i :: 0 <= i < |w| ==> !IsSpace(w[i])
  }

  /** Each word followed by one space. */
  function Join(ws: seq<string>): string {
    if ws == [] then [] else ws[0] + " " + Join(ws[1..])
  }

  /** Splitting what Join built gives the words back. */
  lemma {:induction false} SplitJoin(ws: seq<string>)
    requires forall i :: 0 <= i < |ws| ==> IsWord(ws[i])
    ensures Split(Join(ws)) == ws
  {
    if ws != [] {
      var w := ws[0];
      var s := Join(ws);
      var rest := Join(ws[1..]);
      assert s == w + ([' '] + rest);
      assert s[0] == w[0];
      WordEndOfWord(s, w, 0);
      assert s[..|w|] == w;
      assert s[|w|..] == [' '] + rest;
      assert Split(s[|w|..]) == Split(rest);
      SplitJoin(ws[1..]);
    }
  }

  lemma {:induction false} WordEndOfWord(s: string, w: string, i: nat)
    requires IsWord(w) && |s| > |w| && s[..|w|] == w && IsSpace(s[|w|]) && i <= |w|
    ensures WordEnd(s, i) == |w|
    decreases |w| - i
  {
    if i < |w| {
      assert s[i] == w[i];
      WordEndOfWord(s, w, i + 1);
    }
  }

  predicate InfixAt(w: string, p: string, i: int) {
    0 <= i && i + |p| <= |w| && w[i..i + |p|] == p
  }

  /** Python's `p in w` on strings. */
  predicate HasInfix(w: string, p: string) {
    exists i :: 0 <= i <= |w| && InfixAt(w, p, i)
  }

  predicate Mentioned(w: string) {
    HasInfix(w, "disk") || HasInfix(w, "pole")
  }

  /** The words parse_helper keeps, title-cased. */
  function KeptWords(ws: seq<string>): seq<string> {
    if ws == [] then []
    else if Mentioned(ws[0]) then [Title(ws[0])] + KeptWords(ws[1..])
    else KeptWords(ws[1..])
  }

  lemma {:induction false} SplitWords(s: string)
    ensures forall i :: 0 <= i < |Split(s)| ==> IsWord(Split(s)[i])
    decreases |s|
  {
    if s != [] {
      if IsSpace(s[0]) {
        SplitWords(s[1..]);
      } else {
        SplitWords(s[WordEnd(s, 0)..]);
      }
    }
  }

  /** Every kept word is a word: title case keeps the whitespace out. */
  lemma {:induction false} KeptWordsAreWords(ws: seq<string>)
    requires forall i :: 0 <= i < |ws| ==> IsWord(ws[i])
    ensures forall i :: 0 <= i < |KeptWords(ws)| ==> IsWord(KeptWords(ws)[i])
  {
    if ws != [] {
      KeptWordsAreWords(ws[1..]);
      if Mentioned(ws[0]) {
        TitleFromSpaces(ws[0], false);
        var k := KeptWords(ws);
        assert k == [Title(ws[0])] + KeptWords(ws[1..]);
        assert IsWord(Title(ws[0]));
      }
    }
  }

  /** Every kept word is the title case of an input word that mentions a disk
      or a pole, and no more words are kept than given. */
  lemma {:induction false} KeptWordsAreMentions(ws: seq<string>)
    ensures forall i :: 0 <= i < |KeptWords(ws)| ==>
      exists j :: 0 <= j < |ws| && KeptWords(ws)[i] == Title(ws[j]) && Mentioned(ws[j])
    ensures |KeptWords(ws)| <= |ws|
  {
    if ws != [] {
      KeptWordsAreMentions(ws[1..]);
      var k, k' := KeptWords(ws), KeptWords(ws[1..]);
      assert k == if Mentioned(ws[0]) then [Title(ws[0])] + k' else k';
      forall i | 0 <= i < |k|
        ensures exists j :: 0 <= j < |ws| && k[i] == Title(ws[j]) && Mentioned(ws[j])
      {
        if Mentioned(ws[0]) && i == 0 {
          assert k[0] == Title(ws[0]) && Mentioned(ws[0]);
        } else {
          var i' := if Mentioned(ws[0]) then i - 1 else i;
          assert k[i] == k'[i'];
          var j :| 0 <= j < |ws[1..]| && k'[i'] == Title(ws[1..][j]) && Mentioned(ws[1..][j]);
          assert ws[1..][j] == ws[j + 1];
          assert k[i] == Title(ws[j + 1]) && Mentioned(ws[j + 1]);
        }
      }
      assert forall i :: 0 <= i < |KeptWords(ws)| ==>
        exists j :: 0 <= j < |ws| && KeptWords(ws)[i] == Title(ws[j]) && Mentioned(ws[j]);
      assert |KeptWords(ws)| <= |ws|;
    } else {
      assert KeptWords(ws) == [];
    }
  }

  /** parse_helper: the words of the plan that mention a disk or a pole,
      title-cased, each followed by a space. */
  method ParseHelper(plan: string) returns (result: string)
    ensures result == Join(KeptWords(Split(plan)))
  {
    var words := Split(plan);
    result := "";
    var i := 0;
    while i < |words|
      invariant 0 <= i <= |words|
      invariant result + Join(KeptWords(words[i..])) == Join(KeptWords(words))
    {
      assert words[i..][1..] == words[i + 1..];
      if Mentioned(words[i]) {
        result := result + Title(words[i]) + " ";
      }
      i := i + 1;
    }
  }

  /** The words of parse_helper's answer are exactly the kept words. */
  lemma ParseHelperWords(plan: string)
    ensures Split(Join(KeptWords(Split(plan)))) == KeptWords(Split(plan))
  {
    SplitWords(plan);
    KeptWordsAreWords(Split(plan));
    SplitJoin(KeptWords(Split(plan)));
  }

  /** semantic_parser: the lower-cased command rewritten as "Mov", "Pick" or
      "Put" followed by its disk and pole words; any other command comes back
      lower-cased; a blank command has no first word (IndexError). */
  function SemanticParser(plan: string): (r: Result<string, string>)
    ensures r.Err? <==> Split(Lower(plan)) == []
    ensures r.Ok? && !(Split(Lower(plan))[0] in {"mov", "move", "pick", "put"}) ==> r.value == Lower(plan)
  {
    var p := Lower(plan);
    var words := Split(p);
    if words == [] then Err("IndexError")
    else if words[0] == "mov" || words[0] == "move" then Ok("Mov " + Join(KeptWords(words)))
    else if words[0] == "pick" then Ok("Pick " + Join(KeptWords(words)))
    else if words[0] == "put" then Ok("Put " + Join(KeptWords(words)))
    else Ok(p)
  }

  /** A recognised command parses to its keyword followed by the disk and
      pole words, which is what the action-list builder splits again. */
  lemma SemanticParserWords(plan: string)
    requires Split(Lower(plan)) != [] && Split(Lower(plan))[0] in {"mov", "move", "pick", "put"}
    ensures var w := Split(Lower(plan))[0];
      var key := if w == "pick" then "Pick" else if w == "put" then "Put" else "Mov";
      Split(SemanticParser(plan).value) == [key] + KeptWords(Split(Lower(plan)))
  {
    var words := Split(Lower(plan));
    var w := words[0];
    var key := if w == "pick" then "Pick" else if w == "put" then "Put" else "Mov";
    var ks := KeptWords(words);
    assert SemanticParser(plan).value == key + " " + Join(ks);
    SplitWords(Lower(plan));
    KeptWordsAreWords(words);
    KeyThenWords(key, ks);
  }

  lemma KeyThenWords(key: string, ks: seq<string>)
    requires key in {"Mov", "Pick", "Put"}
    requires forall i :: 0 <= i < |ks| ==> IsWord(ks[i])
    ensures Split(key + " " + Join(ks)) == [key] + ks
  {
    var all := [key] + ks;
    assert all[0] == key && all[1..] == ks;
    assert Join(all) == key + " " + Join(ks);
    assert IsWord(key);
    assert forall i :: 0 <= i < |all| ==> IsWord(all[i]);
    SplitJoin(all);
  }
}
