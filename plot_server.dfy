/* The data side of the performance plotter: a series of (x, y) points
   with its running bounds, the reward and fitness series of one agent,
   and the learning curve that files each logged tick under its agent and
   in a total series. The log-line parsing (regular expression, time
   stamps), the socket server, the locks and the drawing are outside this
   model. */
module PlotServer {
  import opened Wrappers

  /** The least element of a non-empty sequence. */
  function Min(s: seq<real>): real
    requires s != []
  {
    if |s| == 1 then s[0]
    else
      var m := Min(s[..|s| - 1]);
      if s[|s| - 1] < m then s[|s| - 1] else m
  }

  /** The greatest element of a non-empty sequence. */
  function Max(s: seq<real>): real
    requires s != []
  {
    if |s| == 1 then s[0]
    else
      var m := Max(s[..|s| - 1]);
      if s[|s| - 1] > m then s[|s| - 1] else m
  }

  /** Min and Max are bounds of the sequence attained by its elements. */
  lemma {:induction false} MinMaxAreBounds(s: seq<real>)
    requires s != []
    ensures forall i :: 0 <= i < |s| ==> Min(s) <= s[i] <= Max(s)
    ensures exists i :: 0 <= i < |s| && s[i] == Min(s)
    ensures exists j :: 0 <= j < |s| && s[j] == Max(s)
    decreases |s|
  {
    if |s| == 1 {
      assert s[0] == Min(s) && s[0] == Max(s);
    } else {
      var init := s[..|s| - 1];
      MinMaxAreBounds(init);
      assert forall i :: 0 <= i < |init| ==> s[i] == init[i];
      var i :| 0 <= i < |init| && init[i] == Min(init);
      var j :| 0 <= j < |init| && init[j] == Max(init);
      assert s[i] == Min(init) && s[j] == Max(init);
    }
  }

  /** Python truthiness of an optional number: not None and not zero. */
  predicate Truthy(v: Option<real>)
  {
    v.Some? && v.value != 0.0
  }

  function MinOf(a: real, b: real): real
  {
    if b < a then b else a
  }

  function MaxOf(a: real, b: real): real
  {
    if b > a then b else a
  }

  /** lo and hi are the bounds of s, or both None while s is empty. */
  ghost predicate Bounds(s: seq<real>, lo: Option<real>, hi: Option<real>)
  {
    if s == [] then lo.None? && hi.None? else lo == Some(Min(s)) && hi == Some(Max(s))
  }

  lemma BoundsOfSnoc(s: seq<real>, x: real)
    ensures (s + [x])[..|s|] == s
    ensures s != [] ==> Min(s + [x]) == MinOf(Min(s), x) && Max(s + [x]) == MaxOf(Max(s), x)
  {
    assert (s + [x])[..|s|] == s;
  }

  /** XYData: two parallel series with their least and greatest values. */
  class XYData {
    var xmin: Option<real>
    var xmax: Option<real>
    var ymin: Option<real>
    var ymax: Option<real>
    var xs: seq<real>
    var ys: seq<real>

    ghost predicate Valid()
      reads this
    {
      |xs| == |ys| && Bounds(xs, xmin, xmax) && Bounds(ys, ymin, ymax)
    }

    /** No points and no bounds. */
    constructor ()
      ensures Valid() && xs == [] && ys == []
      ensures xmin == None && xmax == None && ymin == None && ymax == None
    {
      xmin, xmax, ymin, ymax := None, None, None, None;
      xs, ys := [], [];
    }

    /** __len__. */
    function Length(): nat
      reads this
    {
      |xs|
    }

    /** append as the class means it: the point is added and the bounds
        stay the least and greatest values of each series. */
    method Append(x: real, y: real)
      requires Valid()
      modifies this
      ensures Valid()
      ensures xs == old(xs) + [x] && ys == old(ys) + [y]
    {
      BoundsOfSnoc(xs, x);
      BoundsOfSnoc(ys, y);
      xmin := if xmin.Some? then Some(MinOf(xmin.value, x)) else Some(x);
      xmax := if xmax.Some? then Some(MaxOf(xmax.value, x)) else Some(x);
      ymin := if ymin.Some? then Some(MinOf(ymin.value, y)) else Some(y);
      ymax := if ymax.Some? then Some(MaxOf(ymax.value, y)) else Some(y);
      xs := xs + [x];
      ys := ys + [y];
    }

    /** append as written: each bound is kept only when it is truthy, so a
        bound of 0 is dropped, and the x maximum is kept only when the y
        maximum is truthy. */
    method AppendAsWritten(x: real, y: real)
      modifies this
      ensures xmin == Some(if Truthy(old(xmin)) then MinOf(old(xmin).value, x) else x)
      ensures xmax == Some(if Truthy(old(ymax)) && old(xmax).Some? then MaxOf(old(xmax).value, x) else x)
      ensures ymin == Some(if Truthy(old(ymin)) then MinOf(old(ymin).value, y) else y)
      ensures ymax == Some(if Truthy(old(ymax)) then MaxOf(old(ymax).value, y) else y)
      ensures xs == old(xs) + [x] && ys == old(ys) + [y]
    {
      xmin := if Truthy(xmin) then Some(MinOf(xmin.value, x)) else Some(x);
      xmax := if Truthy(ymax) && xmax.Some? then Some(MaxOf(xmax.value, x)) else Some(x);
      ymin := if Truthy(ymin) then Some(MinOf(ymin.value, y)) else Some(y);
      ymax := if Truthy(ymax) then Some(MaxOf(ymax.value, y)) else Some(y);
      xs := xs + [x];
      ys := ys + [y];
    }
  }

  /** With the bounds kept as the class means them, the series always
      lies between them. */
  lemma PointsWithinBounds(d: XYData)
    requires d.Valid() && d.xs != []
    ensures forall i :: 0 <= i < |d.xs| ==> d.xmin.value <= d.xs[i] <= d.xmax.value
    ensures forall i :: 0 <= i < |d.ys| ==> d.ymin.value <= d.ys[i] <= d.ymax.value
  {
    MinMaxAreBounds(d.xs);
    MinMaxAreBounds(d.ys);
  }

  /** As written, a point with y = 0 followed by one with a smaller x
      leaves the x maximum at the smaller x: (5, 0) then (3, 1) gives an
      x maximum of 3 over the xs 5 and 3. */
  method AsWrittenLosesXMax() returns (xmax: Option<real>, xs: seq<real>)
    ensures xs == [5.0, 3.0] && Max(xs) == 5.0
    ensures xmax == Some(3.0)
  {
    var d := new XYData();
    d.AppendAsWritten(5.0, 0.0);
    d.AppendAsWritten(3.0, 1.0);
    xmax, xs := d.xmax, d.xs;
  }

  /** As written, an x minimum of 0 is forgotten: (0, 1) then (2, 1)
      gives an x minimum of 2 over the xs 0 and 2. */
  method AsWrittenLosesZeroMin() returns (xmin: Option<real>, xs: seq<real>)
    ensures xs == [0.0, 2.0] && Min(xs) == 0.0
    ensures xmin == Some(2.0)
  {
    var d := new XYData();
    d.AppendAsWritten(0.0, 1.0);
    d.AppendAsWritten(2.0, 1.0);
    xmin, xs := d.xmin, d.xs;
  }

  /** The same two points kept by the intended append have the bounds of
      the data. */
  method AppendKeepsXMax() returns (xmin: Option<real>, xmax: Option<real>)
    ensures xmin == Some(3.0) && xmax == Some(5.0)
  {
    var d := new XYData();
    d.Append(5.0, 0.0);
    d.Append(3.0, 1.0);
    assert d.xs == [5.0, 3.0];
    assert d.xs[..1] == [5.0];
    xmin, xmax := d.xmin, d.xmax;
  }

  /** The reward points of one agent within its episodes and its fitness
      at the end of each. */
  class AgentHistory {
    const reward: XYData
    const fitness: XYData

    ghost predicate Valid()
      reads this, reward, fitness
    {
      reward != fitness && reward.Valid() && fitness.Valid()
    }

    constructor ()
      ensures Valid() && fresh(reward) && fresh(fitness)
      ensures reward.xs == [] && reward.ys == [] && fitness.xs == [] && fitness.ys == []
    {
      reward := new XYData();
      fitness := new XYData();
    }

    /** append: one reward point. */
    method Append(ms: real, f: real)
      requires Valid()
      modifies reward
      ensures Valid()
      ensures reward.xs == old(reward.xs) + [ms] && reward.ys == old(reward.ys) + [f]
    {
      reward.Append(ms, f);
    }

    /** episode: the last reward point, if any, becomes a fitness point. */
    method Episode()
      requires Valid()
      modifies fitness
      ensures Valid()
      ensures old(reward.xs) == [] ==> fitness.xs == old(fitness.xs) && fitness.ys == old(fitness.ys)
      ensures old(reward.xs) != [] ==>
        fitness.xs == old(fitness.xs) + [reward.xs[|reward.xs| - 1]] && fitness.ys == old(fitness.ys) + [reward.ys[|reward.ys| - 1]]
    {
      if reward.Length() > 0 {
        fitness.Append(reward.xs[|reward.xs| - 1], reward.ys[|reward.ys| - 1]);
      }
    }
  }

  /** The learning curve of a group of agents. */
  class LearningCurve {
    var histories: map<int, AgentHistory>
    const total: XYData
    ghost var Repr: set<object>
    /** The agent whose history each series belongs to: no series is
        shared between agents or with the total. */
    ghost var Owner: map<XYData, int>

    ghost predicate Valid()
      reads this, Repr
    {
      total in Repr && total.Valid() && total !in Owner && Owner.Keys <= Repr
      && (forall id :: id in histories ==> histories[id] in Repr && histories[id].reward in Repr && histories[id].fitness in Repr)
      && (forall id {:trigger histories[id].Valid()} :: id in histories ==> histories[id].Valid())
      && (forall id :: id in histories ==> histories[id].reward in Owner && Owner[histories[id].reward] == id)
      && (forall id :: id in histories ==> histories[id].fitness in Owner && Owner[histories[id].fitness] == id)
    }

    constructor ()
      ensures Valid() && fresh(Repr)
      ensures histories == map[] && total.xs == [] && total.ys == []
    {
      histories := map[];
      total := new XYData();
      Repr := {total};
      Owner := map[];
    }

    /** tmax: the span of the logged times once there are two points, and
        1 before. */
    function Tmax(): (r: real)
      requires Valid()
      reads this, Repr
      ensures total.Length() > 1 ==> r == Max(total.xs) - Min(total.xs)
      ensures total.Length() <= 1 ==> r == 1.0
    {
      if total.Length() > 1 then total.xmax.value - total.xmin.value else 1.0
    }

    /** fmin: the least fitness logged, or 0. */
    function Fmin(): (r: real)
      requires Valid()
      reads this, Repr
      ensures total.Length() > 0 ==> r == Min(total.ys)
      ensures total.Length() == 0 ==> r == 0.0
    {
      if total.Length() > 0 then total.ymin.value else 0.0
    }

    /** fmax: the greatest fitness logged, or 1. */
    function Fmax(): (r: real)
      requires Valid()
      reads this, Repr
      ensures total.Length() > 0 ==> r == Max(total.ys)
      ensures total.Length() == 0 ==> r == 1.0
    {
      if total.Length() > 0 then total.ymax.value else 1.0
    }

    /** The agent's history, made and filed on its first tick. */
    method Record(id: int) returns (record: AgentHistory)
      requires Valid()
      modifies this
      ensures Valid() && fresh(Repr - old(Repr))
      ensures histories == old(histories)[id := record]
      ensures id in old(histories) ==> record == old(histories)[id]
      ensures id !in old(histories) ==> fresh(record) && record.reward.xs == [] && record.reward.ys == [] && record.fitness.xs == []
    {
      if id in histories {
        record := histories[id];
      } else {
        record := new AgentHistory();
        assert Repr == old(Repr);
        File(id, record);
        forall o | o in Repr && o !in old(Repr) ensures fresh(o) {
          assert o == record || o == record.reward || o == record.fitness;
        }
      }
    }

    /** Files a new history under a new agent. */
    method File(id: int, record: AgentHistory)
      requires Valid() && id !in histories
      requires record.Valid() && record !in Repr && record.reward !in Repr && record.fitness !in Repr
      modifies this
      ensures Valid() && Repr == old(Repr) + {record, record.reward, record.fitness}
      ensures histories == old(histories)[id := record]
    {
      ghost var before := Owner;
      histories := histories[id := record];
      Repr := Repr + {record, record.reward, record.fitness};
      Owner := Owner[record.reward := id][record.fitness := id];
      forall j | j in histories
        ensures histories[j].reward in Owner && Owner[histories[j].reward] == j
        ensures histories[j].fitness in Owner && Owner[histories[j].fitness] == j
      {
        if j != id {
          assert histories[j].reward in before && histories[j].fitness in before;
          assert histories[j].reward != record.reward && histories[j].reward != record.fitness;
          assert histories[j].fitness != record.reward && histories[j].fitness != record.fitness;
        }
      }
    }

    /** append: the tick is filed under its agent, whose history is made
        on its first tick; a tick at step 0 first closes the agent's
        episode; the (time, fitness) point goes to the agent's reward
        series and to the total. The reward argument is not used. */
    method Append(id: int, ms: real, episode: int, step: int, reward: real, fitness: real)
      requires Valid()
      modifies this, Repr
      ensures Valid() && fresh(Repr - old(Repr))
      ensures id in histories && histories == old(histories)[id := histories[id]]
      ensures total.xs == old(total.xs) + [ms] && total.ys == old(total.ys) + [fitness]
      ensures id !in old(histories) ==>
        fresh(histories[id]) && histories[id].reward.xs == [ms] && histories[id].reward.ys == [fitness] && histories[id].fitness.xs == []
      ensures id in old(histories) ==> histories[id] == old(histories[id])
      ensures id in old(histories) ==>
        histories[id].reward.xs == old(histories[id].reward.xs) + [ms] && histories[id].reward.ys == old(histories[id].reward.ys) + [fitness]
      ensures id in old(histories) ==> histories[id].fitness.xs == old(histories[id].fitness.xs) + EpisodeEnd(step, old(histories[id].reward.xs))
      ensures id in old(histories) ==> histories[id].fitness.ys == old(histories[id].fitness.ys) + EpisodeEnd(step, old(histories[id].reward.ys))
      ensures forall j :: j in old(histories) && j != id ==> unchanged(histories[j].reward, histories[j].fitness)
    {
      var record := Record(id);
      Tick(id, ms, step, fitness);
      AppendToTotal(ms, fitness);
    }

    /** The total series gets the point. */
    method AppendToTotal(ms: real, fitness: real)
      requires Valid()
      modifies total
      ensures Valid()
      ensures total.xs == old(total.xs) + [ms] && total.ys == old(total.ys) + [fitness]
      ensures forall j :: j in histories ==> unchanged(histories[j].reward, histories[j].fitness)
    {
      total.Append(ms, fitness);
    }

    /** The tick of an agent with a history: a tick at step 0 closes its
        episode, copying the last reward point to the fitness series, and
        the point goes to its reward series. */
    method Tick(id: int, ms: real, step: int, fitness: real)
      requires Valid() && id in histories
      modifies histories[id].reward, histories[id].fitness
      ensures Valid()
      ensures histories[id].reward.xs == old(histories[id].reward.xs) + [ms]
      ensures histories[id].reward.ys == old(histories[id].reward.ys) + [fitness]
      ensures histories[id].fitness.xs == old(histories[id].fitness.xs) + EpisodeEnd(step, old(histories[id].reward.xs))
      ensures histories[id].fitness.ys == old(histories[id].fitness.ys) + EpisodeEnd(step, old(histories[id].reward.ys))
      ensures forall j :: j in histories && j != id ==> unchanged(histories[j].reward, histories[j].fitness)
    {
      var record := histories[id];
      if step == 0 {
        record.Episode();
      }
      record.Append(ms, fitness);
      forall j | j in histories && j != id
        ensures unchanged(histories[j].reward, histories[j].fitness)
      {
        assert Owner[histories[j].reward] == j && Owner[histories[j].fitness] == j;
      }
      forall j | j in histories
        ensures histories[j].Valid()
      {
        if j != id {
          assert old(histories[j].Valid());
        }
      }
    }
  }

  /** The fitness coordinate closing an episode at this step: the last of
      the reward series' coordinates when the step is 0 and there is one. */
  function EpisodeEnd(step: int, rewardTimes: seq<real>): seq<real>
  {
    if step == 0 && rewardTimes != [] then [rewardTimes[|rewardTimes| - 1]] else []
  }

  /** A curve's time span is never negative and covers every pair of
      logged times. */
  lemma TmaxSpansTimes(c: LearningCurve)
    requires c.Valid() && c.total.Length() > 1
    ensures c.Tmax() >= 0.0
    ensures forall i, j :: 0 <= i < |c.total.xs| && 0 <= j < |c.total.xs| ==> c.total.xs[i] - c.total.xs[j] <= c.Tmax()
  {
    MinMaxAreBounds(c.total.xs);
  }
}
