/* The NERO battle environment's bookkeeping: the per-agent state with its
   damage counters and pose, the environment's registry of agent states and
   the two team rosters, the friend/foe split, the relative angle between
   two poses, the nearest-agent scan and the end-of-episode rule. Agents are
   identified by their id; the engine's body of an agent (its position in
   the world, its teleport) is outside this model. */
module NeroEnvironments {
  import opened Wrappers

  /** The two team identifiers. Their values are defined in constants.py,
      which is not part of this model; only their difference matters. */
  const Team0: int := 1
  const Team1: int := 2
  const Teams: set<int> := {Team0, Team1}

  /** x, y and heading (degrees). */
  datatype Pose = Pose(x: real, y: real, heading: real)

  /** What the environment reads of an agent object. */
  datatype Agent = Agent(id: int, team: int, group: string, ai: string, step: int)

  /** The state kept for each agent. */
  class AgentState {
    const id: int
    const team: int
    var pose: Pose
    var prevPose: Pose
    var totalDamage: int
    var currDamage: int

    /** A fresh state: both poses at the origin, no damage. */
    constructor (id: int, team: int)
      ensures this.id == id && this.team == team
      ensures pose == Pose(0.0, 0.0, 0.0) && prevPose == pose
      ensures totalDamage == 0 && currDamage == 0
    {
      this.id := id;
      this.team := team;
      pose := Pose(0.0, 0.0, 0.0);
      prevPose := Pose(0.0, 0.0, 0.0);
      totalDamage := 0;
      currDamage := 0;
    }

    /** A hit landed on the agent during this step. */
    method Hit()
      modifies this
      ensures currDamage == old(currDamage) + 1
      ensures totalDamage == old(totalDamage) && pose == old(pose) && prevPose == old(prevPose)
    {
      currDamage := currDamage + 1;
    }

    /** update_damage: the step's damage moves into the total and is
        returned; no damage is lost or counted twice. */
    method UpdateDamage() returns (damage: int)
      modifies this
      ensures damage == old(currDamage)
      ensures totalDamage == old(totalDamage) + damage && currDamage == 0
      ensures totalDamage + currDamage == old(totalDamage) + old(currDamage)
      ensures pose == old(pose) && prevPose == old(prevPose)
    {
      totalDamage := totalDamage + currDamage;
      damage := currDamage;
      currDamage := 0;
    }

    /** randomize: both poses move to the spawn point the caller drew, with
        the initial heading, which is 0. */
    method Respawn(x: real, y: real)
      modifies this
      ensures pose == Pose(x, y, 0.0) && prevPose == pose
      ensures totalDamage == old(totalDamage) && currDamage == old(currDamage)
    {
      pose := Pose(x, y, 0.0);
      prevPose := pose;
    }
  }

  /** The team an agent fights against. */
  function OtherTeam(team: int): (other: int)
    ensures other in Teams && other != team
  {
    if team == Team1 then Team0 else Team1
  }

  /** angle: the bearing of b seen from a, relative to a's heading; 0 when
      the two points are at distance 0. `dist` is math.hypot of the
      offset and `bearing` is degrees(atan2(...)) of it, both floating-point
      library results the caller computes. At most one correction of a
      full turn is made. */
  function Angle(dist: real, bearing: real, heading: real): (r: real)
    ensures dist == 0.0 ==> r == 0.0
    ensures dist != 0.0 ==>
      r == bearing - heading || r == bearing - heading + 360.0 || r == bearing - heading - 360.0
  {
    if dist == 0.0 then 0.0
    else
      var rh := bearing - heading;
      var rh1 := if rh < -180.0 then rh + 360.0 else rh;
      if rh1 > 180.0 then rh1 - 360.0 else rh1
  }

  /** With a bearing from atan2 (within [-180, 180]) and a heading within
      a full turn either way, the relative angle lies within [-180, 180]. */
  lemma AngleInHalfTurn(dist: real, bearing: real, heading: real)
    requires -180.0 <= bearing <= 180.0 && -360.0 <= heading <= 360.0
    ensures -180.0 <= Angle(dist, bearing, heading) <= 180.0
  {
  }

  /** A raw difference already within [-180, 180] is returned as it is. */
  lemma AngleKeepsHalfTurn(dist: real, bearing: real, heading: real)
    requires dist != 0.0 && -180.0 <= bearing - heading <= 180.0
    ensures Angle(dist, bearing, heading) == bearing - heading
  {
  }

  /** The agents nearest considers: strictly farther than 0 and closer
      than 5 * MAX_DIST. */
  predicate Candidate(dists: seq<real>, maxDist: real, i: int)
    requires 0 <= i < |dists|
  {
    0.0 < dists[i] < 5.0 * maxDist
  }

  /** nearest: the index of the first agent at the smallest positive
      distance below 5 * MAX_DIST, or None when there is none; agents at
      distance 0 are ignored. `dists` holds math.hypot of each agent's
      offset from the location, in iteration order. */
  method Nearest(dists: seq<real>, maxDist: real) returns (nearest: Option<nat>)
    ensures nearest.None? <==> forall i :: 0 <= i < |dists| ==> !Candidate(dists, maxDist, i)
    ensures nearest.Some? ==> nearest.value < |dists| && Candidate(dists, maxDist, nearest.value)
    ensures nearest.Some? ==> forall i :: 0 <= i < |dists| && dists[i] > 0.0 ==> dists[nearest.value] <= dists[i]
    ensures nearest.Some? ==> forall i :: 0 <= i < nearest.value && dists[i] > 0.0 ==> dists[nearest.value] < dists[i]
  {
    if |dists| == 0 {
      return None;
    }
    nearest := None;
    var minDist := maxDist * 5.0;
    var i := 0;
    while i < |dists|
      invariant 0 <= i <= |dists|
      invariant nearest.None? ==> minDist == 5.0 * maxDist
      invariant nearest.None? <==> forall j :: 0 <= j < i ==> !Candidate(dists, maxDist, j)
      invariant nearest.Some? ==> nearest.value < i && minDist == dists[nearest.value]
      invariant nearest.Some? ==> Candidate(dists, maxDist, nearest.value)
      invariant forall j :: 0 <= j < i && dists[j] > 0.0 ==> minDist <= dists[j]
      invariant nearest.Some? ==> forall j :: 0 <= j < nearest.value && dists[j] > 0.0 ==> minDist < dists[j]
    {
      var d := dists[i];
      if 0.0 < d < minDist {
        nearest := Some(i);
        minDist := d;
      }
      if nearest.Some? {
        var k := nearest.value;
        assert 0 <= k < i + 1 && Candidate(dists, maxDist, k);
      }
      i := i + 1;
    }
  }

  /** The environment: the tunables the training window sets, the reward
      weights, the agent states and the two team rosters. */
  class Environment {
    var lifetime: int
    var hitpoints: int
    var epsilon: real
    var speedup: Option<real>
    var weights: map<string, real>
    var states: map<int, AgentState>
    var teams: map<int, set<int>>

    /** Every roster is a team's, every state is filed under its agent's
        id, and the rosters are exactly the registered agents of each
        team. */
    ghost predicate Valid()
      reads this
    {
      teams.Keys == Teams
      && (forall id :: id in states ==> states[id].id == id)
      && (forall t, id :: t in teams && id in teams[t] ==> id in states && states[id].team == t)
      && (forall id :: id in states && states[id].team in teams ==> id in teams[states[id].team])
    }

    /** A fresh environment: the default tunables, a zero weight per fitness
        dimension, no agent state and two empty rosters. */
    constructor (defaultLifetime: int, defaultHitpoints: int, defaultEE: int, dimensions: set<string>)
      ensures Valid()
      ensures lifetime == defaultLifetime && hitpoints == defaultHitpoints
      ensures epsilon == defaultEE as real / 100.0 && speedup == None
      ensures weights.Keys == dimensions && forall f :: f in weights ==> weights[f] == 0.0
      ensures states == map[] && teams == map[Team0 := {}, Team1 := {}]
    {
      lifetime := defaultLifetime;
      hitpoints := defaultHitpoints;
      epsilon := defaultEE as real / 100.0;
      speedup := None;
      weights := map f | f in dimensions :: 0.0;
      states := map[];
      teams := map[Team0 := {}, Team1 := {}];
    }

    /** set_weight: the reward weight of one fitness dimension. The weight
        is also handed to each team's rtNEAT object, which lies outside
        this model. */
    method SetWeight(key: string, value: real)
      modifies this
      ensures weights == old(weights)[key := value]
      ensures states == old(states) && teams == old(teams)
      ensures lifetime == old(lifetime) && hitpoints == old(hitpoints) && epsilon == old(epsilon) && speedup == old(speedup)
    {
      weights := weights[key := value];
    }

    /** get_state: the agent's state, created on first use and then added
        to its team's roster. An agent of an unknown team gets its state
        but the roster lookup fails with KeyError (ok is false). */
    method GetState(agent: Agent) returns (s: AgentState, ok: bool)
      requires Valid()
      requires agent.id in states ==> states[agent.id].team == agent.team
      modifies this
      ensures Valid()
      ensures s.id == agent.id && s.team == agent.team
      ensures agent.id in old(states) ==> ok && s == old(states)[agent.id] && states == old(states) && teams == old(teams)
      ensures agent.id !in old(states) ==>
        fresh(s) && states == old(states)[agent.id := s] && s.totalDamage == 0 && s.currDamage == 0 && s.pose == Pose(0.0, 0.0, 0.0)
      ensures agent.id !in old(states) ==> (ok <==> agent.team in Teams)
      ensures agent.id !in old(states) && ok ==> teams == old(teams)[agent.team := old(teams)[agent.team] + {agent.id}]
      ensures agent.id !in old(states) && !ok ==> teams == old(teams)
      ensures lifetime == old(lifetime) && hitpoints == old(hitpoints) && weights == old(weights)
      ensures epsilon == old(epsilon) && speedup == old(speedup)
    {
      if agent.id in states {
        return states[agent.id], true;
      }
      s := new AgentState(agent.id, agent.team);
      states := states[agent.id := s];
      if agent.team !in teams {
        return s, false;
      }
      teams := teams[agent.team := teams[agent.team] + {agent.id}];
      ok := true;
    }

    /** getFriendFoe: the agent's own roster and the other team's; an
        agent of an unknown team fails with KeyError. */
    function FriendFoe(agent: Agent): (r: Result<(set<int>, set<int>), string>)
      reads this
      requires Valid()
      ensures r.Ok? <==> agent.team in Teams
      ensures r.Err? ==> r.error == "KeyError"
    {
      var other := OtherTeam(agent.team);
      if agent.team in teams && other in teams then Ok((teams[agent.team], teams[other]))
      else Err("KeyError")
    }

    /** is_episode_over. A turret's episode never ends. Otherwise the
        agent is dead when hit points are on and its total damage reached
        them, and old when lifetimes are on and its step count is a
        positive multiple of the lifetime. A q-learning agent never ends
        its episode: when dead or old it respawns at `spawn` with its
        total damage cleared. Any other agent's episode is over when it is
        orphaned by rtNEAT, dead or old. */
    method IsEpisodeOver(agent: Agent, orphaned: bool, spawn: (real, real)) returns (over: Result<bool, string>)
      requires Valid()
      requires agent.id in states ==> states[agent.id].team == agent.team
      modifies this, states.Values
      ensures Valid()
      ensures agent.group == "Turret" ==> over == Ok(false) && states == old(states) && teams == old(teams)
      ensures agent.group != "Turret" ==> states.Keys == old(states).Keys + {agent.id}
      ensures forall id :: id in old(states) ==> states[id] == old(states)[id]
      ensures forall id :: id in old(states) && id != agent.id ==> unchanged(old(states)[id])
      ensures agent.id in old(states) &&
        (agent.group == "Turret" || agent.ai != "qlearning" || !(Dead(hitpoints, old(states[agent.id].totalDamage)) || Old(lifetime, agent.step)))
        ==> unchanged(old(states)[agent.id])
      ensures agent.group != "Turret" ==> (over.Err? <==> agent.id !in old(states) && agent.team !in Teams)
      ensures over.Err? ==> over.error == "KeyError"
      ensures agent.group != "Turret" && agent.team in Teams ==> agent.id in teams[agent.team]
      ensures agent.group != "Turret" && over.Ok? && agent.ai == "qlearning" ==> over == Ok(false)
      ensures agent.group != "Turret" && over.Ok? && agent.ai != "qlearning" ==>
        var s := states[agent.id];
        over == Ok(orphaned || Dead(hitpoints, old(if agent.id in states then states[agent.id].totalDamage else 0)) || Old(lifetime, agent.step))
      ensures agent.group != "Turret" && over.Ok? && agent.ai == "qlearning" ==>
        var s := states[agent.id];
        var total := old(if agent.id in states then states[agent.id].totalDamage else 0);
        if Dead(hitpoints, total) || Old(lifetime, agent.step)
        then s.totalDamage == 0 && s.pose == Pose(spawn.0, spawn.1, 0.0) && s.prevPose == s.pose
          && s.currDamage == old(if agent.id in states then states[agent.id].currDamage else 0)
        else s.totalDamage == total
      ensures lifetime == old(lifetime) && hitpoints == old(hitpoints) && weights == old(weights)
    {
      if agent.group == "Turret" {
        return Ok(false);
      }
      var s, ok := GetState(agent);
      if !ok {
        return Err("KeyError");
      }
      var dead := Dead(hitpoints, s.totalDamage);
      var old_ := Old(lifetime, agent.step);
      if agent.ai == "qlearning" {
        if dead || old_ {
          s.totalDamage := 0;
          s.Respawn(spawn.0, spawn.1);
        }
        return Ok(false);
      }
      return Ok(orphaned || dead || old_);
    }
  }

  /** Hit points are on and the total damage reached them. */
  predicate Dead(hitpoints: int, totalDamage: int)
  {
    hitpoints > 0 && totalDamage >= hitpoints
  }

  /** Lifetimes are on and the step count is a positive multiple of the
      lifetime (Python's % agrees with Dafny's for a positive divisor). */
  predicate Old(lifetime: int, step: int)
  {
    lifetime > 0 && step > 0 && step % lifetime == 0
  }

  /** A registered agent of either team is among its friends and not among
      its foes, and no agent is both a friend and a foe. */
  lemma FriendsHoldTheAgent(env: Environment, agent: Agent)
    requires env.Valid()
    requires agent.id in env.states && env.states[agent.id].team == agent.team && agent.team in Teams
    ensures env.FriendFoe(agent).Ok?
    ensures var (friends, foes) := env.FriendFoe(agent).value;
      agent.id in friends && agent.id !in foes && friends !! foes
  {
    var (friends, foes) := env.FriendFoe(agent).value;
    assert friends == env.teams[agent.team] && foes == env.teams[OtherTeam(agent.team)];
    forall id | id in friends
      ensures id !in foes
    {
      assert env.states[id].team == agent.team;
    }
  }

  /** Damage taken during a step is collected into the total exactly once. */
  method DamageCollectedOnce() returns (first: int, second: int, total: int)
    ensures first == 2 && second == 0 && total == 2
  {
    var s := new AgentState(7, Team0);
    s.Hit();
    s.Hit();
    first := s.UpdateDamage();
    second := s.UpdateDamage();
    total := s.totalDamage;
  }

  /** Once its total damage reaches the hit points, a q-learning agent's
      episode goes on: it respawns with its total damage cleared. */
  method QLearningRespawns() returns (over: Result<bool, string>, total: int)
    ensures over == Ok(false) && total == 0
  {
    var env := new Environment(0, 2, 0, {});
    var q := Agent(7, Team0, "Agent", "qlearning", 1);
    var s, ok := env.GetState(q);
    s.totalDamage := 2;
    over := env.IsEpisodeOver(q, false, (5.0, 5.0));
    total := s.totalDamage;
  }

  /** Once its total damage reaches the hit points, an rtNEAT agent's
      episode is over. */
  method RtneatAgentDies() returns (over: Result<bool, string>)
    ensures over == Ok(true)
  {
    var env := new Environment(0, 2, 0, {});
    var n := Agent(8, Team1, "Agent", "rtneat", 1);
    var s, ok := env.GetState(n);
    s.totalDamage := 2;
    over := env.IsEpisodeOver(n, false, (5.0, 5.0));
  }
}
