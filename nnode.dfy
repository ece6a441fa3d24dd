/** An rtNEAT network node (branches/merge/source/rtneat/nnode.cpp): its
    kind, its activation with two steps of history, its back-propagated
    gradient, a forced output, and the nodes its links join it to. A link is
    represented by the node at its other end; a link's own weights are not
    part of this model. */
module NNodes {
  import opened Genomes

  /** The activation state flushback resets. */
  datatype Activity = Activity(activation: real, last: real, last2: real, count: nat,
                               gradient: real, gradientCount: nat)

  const Cleared := Activity(0.0, 0.0, 0.0, 0, 0.0, 0)

  /** Every incoming link of every node in the set comes from the set. */
  ghost predicate Closed(all: set<NNode>)
    reads all
  {
    forall m :: m in all ==> forall i :: 0 <= i < |m.incoming| ==> m.incoming[i] in all
  }

  /** The nodes of the set that have been activated. */
  ghost function ActiveIn(all: set<NNode>): set<NNode>
    reads all
  {
    set m | m in all && m.activationCount > 0
  }

  class NNode {
    var kind: NodeKind
    const id: int
    const place: Placement
    var activation: real
    var lastActivation: real
    var lastActivation2: real
    var activationCount: nat
    var gradient: real
    var gradientCount: nat
    var overrideOn: bool
    var overrideValue: real
    /** The feeding node of each incoming link, in order. */
    var incoming: seq<NNode>
    /** The fed node of each outgoing link, in order. */
    var outgoing: seq<NNode>

    /** NNode(ntype, nodeid, placement): inactive, no links, not overridden. */
    constructor (kind: NodeKind, id: int, place: Placement)
      ensures this.kind == kind && this.id == id && this.place == place
      ensures State() == Cleared && !overrideOn && overrideValue == 0.0
      ensures incoming == [] && outgoing == []
    {
      this.kind, this.id, this.place := kind, id, place;
      activation, lastActivation, lastActivation2, activationCount := 0.0, 0.0, 0.0, 0;
      gradient, gradientCount := 0.0, 0;
      overrideOn, overrideValue := false, 0.0;
      incoming, outgoing := [], [];
    }

    function State(): Activity
      reads this
    {
      Activity(activation, lastActivation, lastActivation2, activationCount, gradient, gradientCount)
    }

    /** set_type: stores the kind and answers it. */
    method SetType(newType: NodeKind) returns (r: NodeKind)
      modifies this
      ensures r == newType && kind == newType
      ensures State() == old(State()) && incoming == old(incoming) && outgoing == old(outgoing)
      ensures overrideOn == old(overrideOn) && overrideValue == old(overrideValue)
    {
      kind := newType;
      r := newType;
    }

    /** sensor_load: a sensor shifts its history back one step and takes
        the value; any other node refuses it and is left as it was. */
    method SensorLoad(value: real) returns (ok: bool)
      modifies this
      ensures ok <==> kind == Sensor
      ensures ok ==> State() == old(State().(activation := value, last := activation,
                                                   last2 := lastActivation, count := activationCount + 1))
      ensures !ok ==> State() == old(State())
      ensures kind == old(kind) && incoming == old(incoming) && outgoing == old(outgoing)
      ensures overrideOn == old(overrideOn) && overrideValue == old(overrideValue)
    {
      if kind == Sensor {
        lastActivation2 := lastActivation;
        lastActivation := activation;
        activationCount := activationCount + 1;
        activation := value;
        ok := true;
      } else {
        ok := false;
      }
    }

    /** error_load: the local gradient, the error times the sigmoid slope
        activation * (1 - activation). */
    method ErrorLoad(value: real)
      modifies this
      ensures gradient == value * (activation * (1.0 - activation))
      ensures gradientCount == old(gradientCount) + 1
      ensures activation == old(activation) && lastActivation == old(lastActivation)
      ensures lastActivation2 == old(lastActivation2) && activationCount == old(activationCount)
      ensures kind == old(kind) && incoming == old(incoming) && outgoing == old(outgoing)
      ensures overrideOn == old(overrideOn) && overrideValue == old(overrideValue)
    {
      var derivative := activation * (1.0 - activation);
      gradient := value * derivative;
      gradientCount := gradientCount + 1;
    }

    /** add_incoming: a link from feed into this node, recorded at both
        ends. */
    method AddIncoming(feed: NNode)
      modifies this, feed
      ensures incoming == old(incoming) + [feed]
      ensures feed.outgoing == old(feed.outgoing) + [this]
      ensures feed != this ==> outgoing == old(outgoing) && feed.incoming == old(feed.incoming)
      ensures State() == old(State()) && feed.State() == old(feed.State())
      ensures kind == old(kind) && feed.kind == old(feed.kind)
      ensures overrideOn == old(overrideOn) && overrideValue == old(overrideValue)
      ensures feed.overrideOn == old(feed.overrideOn) && feed.overrideValue == old(feed.overrideValue)
    {
      incoming := incoming + [feed];
      feed.outgoing := feed.outgoing + [this];
    }

    /** get_active_out: the activation once the node has been activated. */
    function ActiveOut(): real
      reads this
    {
      if activationCount > 0 then activation else 0.0
    }

    /** get_active_out_td: the previous step's activation once there is
        one. */
    function ActiveOutTd(): real
      reads this
    {
      if activationCount > 1 then lastActivation else 0.0
    }

    /** get_gradient_out: the gradient once one has been loaded. */
    function GradientOut(): real
      reads this
    {
      if gradientCount > 0 then gradient else 0.0
    }

    /** override_output: remember a forced output. */
    method OverrideOutput(newOutput: real)
      modifies this
      ensures overrideOn && overrideValue == newOutput
      ensures State() == old(State()) && kind == old(kind)
      ensures incoming == old(incoming) && outgoing == old(outgoing)
    {
      overrideValue := newOutput;
      overrideOn := true;
    }

    /** activate_override: the forced output becomes the activation, and
        the override is off. The activation count is not touched. */
    method ActivateOverride()
      modifies this
      ensures !overrideOn && overrideValue == old(overrideValue)
      ensures State() == old(State()).(activation := old(overrideValue))
      ensures kind == old(kind) && incoming == old(incoming) && outgoing == old(outgoing)
    {
      activation := overrideValue;
      overrideOn := false;
    }

    /** flushback: a sensor is reset; any other node is reset if it was
        active, and then flushes every active node feeding it, recursively.
        Each node of the network ends as it was or reset, the links are
        untouched, fewer nodes are active, this node is inactive and so is
        every node feeding a non-sensor. */
    method Flushback(ghost all: set<NNode>)
      requires this in all && Closed(all)
      modifies all
      decreases ActiveIn(all), if activationCount == 0 then 1 else 0
      ensures forall m :: m in all ==> m.State() == old(m.State()) || m.State() == Cleared
      ensures forall m :: m in all ==>
        m.kind == old(m.kind) && m.incoming == old(m.incoming) && m.outgoing == old(m.outgoing)
      ensures forall m :: m in all ==> m.overrideOn == old(m.overrideOn) && m.overrideValue == old(m.overrideValue)
      ensures Closed(all) && ActiveIn(all) <= old(ActiveIn(all))
      ensures activationCount == 0
      ensures (kind == Sensor || old(activationCount) > 0) ==> State() == Cleared
      ensures kind != Sensor ==> forall i :: 0 <= i < |incoming| ==> incoming[i].activationCount == 0
    {
      if kind != Sensor {
        if activationCount > 0 {
          Reset();
        }
        for i := 0 to |incoming|
          invariant forall m :: m in all ==> m.State() == old(m.State()) || m.State() == Cleared
          invariant forall m :: m in all ==>
            m.kind == old(m.kind) && m.incoming == old(m.incoming) && m.outgoing == old(m.outgoing)
          invariant forall m :: m in all ==> m.overrideOn == old(m.overrideOn) && m.overrideValue == old(m.overrideValue)
          invariant Closed(all) && ActiveIn(all) <= old(ActiveIn(all))
          invariant activationCount == 0
          invariant old(activationCount) > 0 ==> State() == Cleared
          invariant forall j :: 0 <= j < i ==> incoming[j].activationCount == 0
        {
          var feed := incoming[i];
          if feed.activationCount > 0 {
            assert this !in ActiveIn(all);
            assert old(activationCount) > 0 ==> this in old(ActiveIn(all));
            feed.Flushback(all);
          }
          assert feed.activationCount == 0;
        }
      } else {
        Reset();
      }
    }

    /** The reset shared by both branches of flushback. */
    method Reset()
      modifies this
      ensures State() == Cleared
      ensures kind == old(kind) && incoming == old(incoming) && outgoing == old(outgoing)
      ensures overrideOn == old(overrideOn) && overrideValue == old(overrideValue)
    {
      activationCount, activation, lastActivation, lastActivation2 := 0, 0.0, 0.0, 0.0;
      gradientCount, gradient := 0, 0.0;
    }
  }

  /** A fresh sensor answers 0 until it is loaded; after one load it answers
      that value and still no previous value; after a second load it answers
      the second value, and the first as the previous one. A neuron refuses
      loads and keeps answering 0. */
  method SensorHistory(v1: real, v2: real) returns (out0: real, out1: real, td1: real,
                                                      out2: real, td2: real, refused: bool)
    ensures out0 == 0.0 && out1 == v1 && td1 == 0.0 && out2 == v2 && td2 == v1
    ensures refused
  {
    var s := new NNode(Sensor, 1, Input);
    out0 := s.ActiveOut();
    var ok := s.SensorLoad(v1);
    out1, td1 := s.ActiveOut(), s.ActiveOutTd();
    ok := s.SensorLoad(v2);
    out2, td2 := s.ActiveOut(), s.ActiveOutTd();
    var n := new NNode(Neuron, 2, Hidden);
    ok := n.SensorLoad(v1);
    refused := !ok && n.ActiveOut() == 0.0;
  }

  /** Forcing an output and activating it sets the activation and clears
      the override; a node never activated still answers 0 from
      get_active_out, a sensor loaded once answers the forced value. */
  method OverrideCycle(v: real, load: real) returns (forced: bool, cleared: bool, neuronOut: real, sensorOut: real)
    ensures forced && cleared && neuronOut == 0.0 && sensorOut == v
  {
    var n := new NNode(Neuron, 1, Output);
    n.OverrideOutput(v);
    forced := n.overrideOn;
    n.ActivateOverride();
    cleared := !n.overrideOn && n.activation == v;
    neuronOut := n.ActiveOut();
    var s := new NNode(Sensor, 2, Input);
    var ok := s.SensorLoad(load);
    s.OverrideOutput(v);
    s.ActivateOverride();
    sensorOut := s.ActiveOut();
  }

  /** Flushing the output of an activated two-node chain resets both
      nodes. */
  method FlushChain(v: real) returns (sensorCount: nat, sensorOut: real, neuronCount: nat)
    ensures sensorCount == 0 && sensorOut == 0.0 && neuronCount == 0
  {
    var s := new NNode(Sensor, 1, Input);
    var o := new NNode(Neuron, 2, Output);
    o.AddIncoming(s);
    var ok := s.SensorLoad(v);
    o.OverrideOutput(v);
    o.ActivateOverride();
    o.activationCount := 1;  // one step of network activation
    assert o.incoming == [s] && s.incoming == [];
    assert Closed({s, o});
    o.Flushback({s, o});
    assert o.kind == Neuron && o.incoming[0] == s;
    sensorCount, sensorOut, neuronCount := s.activationCount, s.ActiveOut(), o.activationCount;
  }
}
