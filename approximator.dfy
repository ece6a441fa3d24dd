/** The table approximator of reinforcement learning
    (tags/tourney2011/source/ai/rl/Approximator.cpp): observations and
    actions are quantized into bins, and a map from (state, action) pairs
    of bins to values answers predict and is written by update. */
module Approximators {
  import opened FeatureVectors

  /** The bounds of one feature vector, as the approximator's agent
      description gives them. */
  datatype Limits = Limits(lower: seq<real>, upper: seq<real>, discreteness: seq<bool>)

  /** What quantize needs to be defined on vectors of length n: bounds for
      every position and, when binning at all, at least two bins and a
      positive span at every continuous position (the source divides by
      bins - 1 and by the span). */
  predicate Quantizable(info: Limits, bins: int, n: nat)
  {
    n <= |info.lower| && n <= |info.upper| && n <= |info.discreteness| &&
    (bins != 0 ==> forall i :: 0 <= i < n && !info.discreteness[i] ==>
      bins != 1 && info.lower[i] < info.upper[i])
  }

  /** The bin number of a continuous value: the interval around each bin
      centre maps to that centre's number. */
  function BinOf(c: real, lo: real, hi: real, bins: int): int
    requires bins != 1 && lo < hi
  {
    var span := hi - lo;
    var inc := span / (bins - 1) as real;
    var interp := (c - (lo - inc / 2.0)) / span;
    Trunc((bins - 1) as real * interp)
  }

  /** One position of quantize: discrete values are truncated, continuous
      ones moved to their bin's centre. */
  function QuantizedValue(c: real, lo: real, hi: real, discrete: bool, bins: int): real
    requires discrete || (bins != 1 && lo < hi)
  {
    if discrete then Trunc(c) as real
    else lo + (hi - lo) / (bins - 1) as real * BinOf(c, lo, hi, bins) as real
  }

  function Quantized(v: seq<real>, info: Limits, bins: int): seq<real>
    requires Quantizable(info, bins, |v|)
  {
    if bins == 0 then v
    else
      seq(|v|, i requires 0 <= i < |v| =>
        QuantizedValue(v[i], info.lower[i], info.upper[i], info.discreteness[i], bins))
  }

  /** quantize: a copy of the vector, each position replaced by its
      quantized value unless no bins are asked for. */
  method Quantize(continuous: seq<real>, info: Limits, bins: int) returns (r: seq<real>)
    requires Quantizable(info, bins, |continuous|)
    ensures r == Quantized(continuous, info, bins)
  {
    if bins == 0 {
      return continuous;
    }
    r := continuous;
    var i := 0;
    while i < |continuous|
      invariant i <= |continuous| && |r| == |continuous|
      invariant forall j :: 0 <= j < i ==>
        r[j] == QuantizedValue(continuous[j], info.lower[j], info.upper[j], info.discreteness[j], bins)
    {
      var q := QuantizeOne(continuous[i], info.lower[i], info.upper[i], info.discreteness[i], bins);
      r := r[i := q];
      i := i + 1;
    }
  }

  /** One position of quantize, computed as the source does. */
  method QuantizeOne(c: real, lo: real, hi: real, discrete: bool, bins: int) returns (q: real)
    requires discrete || (bins != 1 && lo < hi)
    ensures q == QuantizedValue(c, lo, hi, discrete, bins)
  {
    if discrete {
      q := Trunc(c) as real;
    } else {
      var span := hi - lo;
      var inc := span / (bins - 1) as real;
      var interp := (c - (lo - inc / 2.0)) / span;
      var bin := Trunc((bins - 1) as real * interp);
      assert bin == BinOf(c, lo, hi, bins);
      q := lo + inc * bin as real;
    }
  }

  /** With no bins quantize is the identity; otherwise it keeps the length
      and truncates the discrete positions to whole numbers. */
  lemma QuantizedShape(v: seq<real>, info: Limits, bins: int)
    requires Quantizable(info, bins, |v|)
    ensures bins == 0 ==> Quantized(v, info, bins) == v
    ensures |Quantized(v, info, bins)| == |v|
    ensures forall i :: 0 <= i < |v| && bins != 0 && info.discreteness[i] ==>
      Quantized(v, info, bins)[i] == Trunc(v[i]) as real && IsIntegral(Quantized(v, info, bins)[i])
  {
  }

  // ---------------------------------------------------------------------
  // Real arithmetic used by the bin lemmas

  lemma MulCancel(a: real, u: real, v: real)
    requires a != 0.0 && a * u == a * v
    ensures u == v
  {
    assert a * (u - v) == 0.0;
  }

  lemma MulStrict(a: real, u: real, v: real)
    requires 0.0 < a && u < v
    ensures a * u < a * v
  {
    assert a * (v - u) > 0.0;
  }

  lemma MulMono(a: real, u: real, v: real)
    requires 0.0 <= a && u <= v
    ensures a * u <= a * v
  {
    assert a * (v - u) >= 0.0;
  }

  lemma DivCancel(a: real, z: real)
    requires a != 0.0
    ensures (a * z) / a == z
  {
    var w := (a * z) / a;
    assert w * a == a * z;
    MulCancel(a, w, z);
  }

  lemma Rescale(b: real, z: real, inc: real, x: real, span: real, y: real)
    requires inc != 0.0 && inc * b == span && z * span == y && y == (x + 0.5) * inc
    ensures b * z == x + 0.5
  {
    assert inc * b * z == span * z;
    assert inc * (b * z) == y;
    assert y == inc * (x + 0.5);
    MulCancel(inc, b * z, x + 0.5);
  }

  // ---------------------------------------------------------------------
  // Bins

  /** The width of one bin: the span over bins - 1. */
  function Width(lo: real, hi: real, bins: int): real
    requires bins >= 2
  {
    (hi - lo) / (bins - 1) as real
  }

  /** The source's bin position, (c - (lo - inc / 2)) / span * b with
      inc = span / b, is the distance from lo in bin widths plus one half. */
  lemma Scaled(c: real, lo: real, span: real, b: real)
    requires span > 0.0 && b > 0.0
    ensures b * ((c - (lo - span / b / 2.0)) / span) == (c - lo) / (span / b) + 0.5
  {
    var inc := span / b;
    var x := (c - lo) / inc;
    var y := c - (lo - inc / 2.0);
    var z := y / span;
    assert inc * b == span;
    assert x * inc == c - lo;
    assert z * span == y;
    assert y == (x + 0.5) * inc;
    Rescale(b, z, inc, x, span, y);
  }

  /** A value's bin is the truncation of its position, and its quantized
      value that bin's centre. */
  lemma BinPosition(c: real, lo: real, hi: real, bins: int)
    requires bins >= 2 && lo < hi
    ensures Width(lo, hi, bins) > 0.0
    ensures BinOf(c, lo, hi, bins) == Trunc((c - lo) / Width(lo, hi, bins) + 0.5)
    ensures QuantizedValue(c, lo, hi, false, bins) == lo + Width(lo, hi, bins) * BinOf(c, lo, hi, bins) as real
  {
    Scaled(c, lo, hi - lo, (bins - 1) as real);
  }

  lemma TruncNonNeg(x: real)
    requires x >= 0.0
    ensures Trunc(x) as real <= x < Trunc(x) as real + 1.0 && Trunc(x) >= 0
  {
  }

  /** With c = lo + inc * x, bin k = trunc(x + 1/2) has its centre within
      half a bin width of c. */
  lemma CentreWithinHalf(lo: real, c: real, inc: real, x: real, k: int)
    requires inc > 0.0 && x * inc == c - lo && k as real <= x + 0.5 < k as real + 1.0
    ensures c - inc / 2.0 <= lo + inc * k as real <= c + inc / 2.0
  {
    var kr := k as real;
    MulMono(inc, kr, x + 0.5);
    assert inc * (x + 0.5) == x * inc + inc / 2.0;
    assert inc * kr <= c - lo + inc / 2.0;
    MulMono(inc, x - 0.5, kr);
    assert inc * (x - 0.5) == x * inc - inc / 2.0;
    assert c - lo - inc / 2.0 <= inc * kr;
  }

  lemma CentreInRange(lo: real, hi: real, inc: real, b: real, k: int)
    requires inc > 0.0 && b * inc == hi - lo && 0.0 <= k as real <= b
    ensures lo <= lo + inc * k as real <= hi
  {
    MulMono(inc, 0.0, k as real);
    MulMono(inc, k as real, b);
  }

  lemma PositionBounds(lo: real, hi: real, c: real, inc: real, b: real, x: real)
    requires inc > 0.0 && b * inc == hi - lo && lo <= c <= hi && x * inc == c - lo
    ensures 0.0 <= x <= b
  {
    if x > b {
      MulStrict(inc, b, x);
    }
    if x < 0.0 {
      MulStrict(inc, x, 0.0);
    }
  }

  lemma CentreCore(lo: real, hi: real, c: real, inc: real, bins: int, x: real, k: int)
    requires inc > 0.0 && bins >= 2 && (bins - 1) as real * inc == hi - lo && lo <= c <= hi
    requires x * inc == c - lo && k as real <= x + 0.5 < k as real + 1.0
    ensures 0 <= k <= bins - 1
    ensures lo <= lo + inc * k as real <= hi
    ensures c - inc / 2.0 <= lo + inc * k as real <= c + inc / 2.0
  {
    var b := (bins - 1) as real;
    PositionBounds(lo, hi, c, inc, b, x);
    assert k <= bins - 1;
    CentreWithinHalf(lo, c, inc, x, k);
    CentreInRange(lo, hi, inc, b, k);
  }

  /** A continuous value within its bounds falls into one of the bins
      0 .. bins - 1, and its bin centre, within the bounds too, lies within
      half a bin width of it. */
  lemma NearestCentre(c: real, lo: real, hi: real, bins: int)
    requires bins >= 2 && lo <= c <= hi && lo < hi
    ensures 0 <= BinOf(c, lo, hi, bins) <= bins - 1
    ensures var q := QuantizedValue(c, lo, hi, false, bins);
      var half := Width(lo, hi, bins) / 2.0;
      lo <= q <= hi && c - half <= q <= c + half
  {
    BinInRange(c, lo, hi, bins);
    CentreNear(c, lo, hi, bins);
  }

  lemma CentreNear(c: real, lo: real, hi: real, bins: int)
    requires bins >= 2 && lo <= c <= hi && lo < hi
    ensures var q := QuantizedValue(c, lo, hi, false, bins);
      var half := Width(lo, hi, bins) / 2.0;
      lo <= q <= hi && c - half <= q <= c + half
  {
    var inc := Width(lo, hi, bins);
    BinPosition(c, lo, hi, bins);
    var x := (c - lo) / inc;
    Quotient(c - lo, inc);
    TruncNonNeg(x + 0.5);
    Quotient(hi - lo, (bins - 1) as real);
    CentreCore(lo, hi, c, inc, bins, x, BinOf(c, lo, hi, bins));
  }

  /** A value within its bounds falls into one of the bins 0 .. bins - 1. */
  lemma BinInRange(c: real, lo: real, hi: real, bins: int)
    requires bins >= 2 && lo <= c <= hi && lo < hi
    ensures 0 <= BinOf(c, lo, hi, bins) <= bins - 1
  {
    var inc := Width(lo, hi, bins);
    BinPosition(c, lo, hi, bins);
    var x := (c - lo) / inc;
    Quotient(c - lo, inc);
    TruncNonNeg(x + 0.5);
    PositionBounds(lo, hi, c, inc, (bins - 1) as real, x);
  }

  lemma Quotient(a: real, b: real)
    requires a >= 0.0 && b > 0.0
    ensures a / b >= 0.0 && a / b * b == a
  {
  }

  lemma PositionOfCentre(lo: real, inc: real, k: int, q: real)
    requires inc > 0.0 && q == lo + inc * k as real
    ensures (q - lo) / inc + 0.5 == k as real + 0.5
  {
    DivCancel(inc, k as real);
  }

  /** A bin centre is quantized to itself. */
  lemma CentreIsFixed(lo: real, hi: real, bins: int, k: int)
    requires bins >= 2 && lo < hi && 0 <= k <= bins - 1
    ensures var q := lo + Width(lo, hi, bins) * k as real;
      QuantizedValue(q, lo, hi, false, bins) == q
  {
    var inc := Width(lo, hi, bins);
    var q := lo + inc * k as real;
    BinPosition(q, lo, hi, bins);
    PositionOfCentre(lo, inc, k, q);
    TruncHalf(k);
    assert BinOf(q, lo, hi, bins) == k;
    assert QuantizedValue(q, lo, hi, false, bins) == lo + inc * k as real;
    assert q == lo + Width(lo, hi, bins) * k as real;
    assert QuantizedValue(q, lo, hi, false, bins) == q;
  }

  lemma TruncHalf(k: int)
    requires k >= 0
    ensures Trunc(k as real + 0.5) == k
  {
    TruncNonNeg(k as real + 0.5);
  }

  /** Quantizing twice is quantizing once, for vectors within their
      bounds. */
  lemma QuantizeIdempotent(v: seq<real>, info: Limits, bins: int)
    requires bins >= 0 && Quantizable(info, bins, |v|)
    requires forall i :: 0 <= i < |v| ==> info.lower[i] <= v[i] <= info.upper[i]
    ensures Quantizable(info, bins, |Quantized(v, info, bins)|)
    ensures Quantized(Quantized(v, info, bins), info, bins) == Quantized(v, info, bins)
  {
    var q := Quantized(v, info, bins);
    if bins != 0 {
      forall i | 0 <= i < |v|
        ensures Quantized(q, info, bins)[i] == q[i]
      {
        ValueIdempotent(v[i], info.lower[i], info.upper[i], info.discreteness[i], bins);
      }
    }
  }

  /** Quantizing one position twice is quantizing it once. */
  lemma ValueIdempotent(c: real, lo: real, hi: real, discrete: bool, bins: int)
    requires bins >= 2 || discrete
    requires !discrete ==> lo <= c <= hi && lo < hi
    ensures var q := QuantizedValue(c, lo, hi, discrete, bins);
      QuantizedValue(q, lo, hi, discrete, bins) == q
  {
    if !discrete {
      var k := BinOf(c, lo, hi, bins);
      BinInRange(c, lo, hi, bins);
      CentreIsFixed(lo, hi, bins, k);
      assert QuantizedValue(c, lo, hi, false, bins) == lo + Width(lo, hi, bins) * k as real;
    }
  }

  /** StateActionPair: the table's key. */
  datatype StateActionPair = StateActionPair(state: seq<real>, action: seq<real>)

  /** The value stored for a key, 0 when there is none. */
  function Lookup(table: map<StateActionPair, real>, key: StateActionPair): real
  {
    if key in table then table[key] else 0.0
  }

  class TableApproximator {
    const sensors: Limits
    const actions: Limits
    const actionBins: int
    const stateBins: int
    var table: map<StateActionPair, real>

    /** What predict and update need of an observation and an action. */
    predicate Accepts(observation: seq<real>, action: seq<real>)
    {
      Quantizable(sensors, stateBins, |observation|) && Quantizable(actions, actionBins, |action|)
    }

    /** The key an observation and an action are filed under. */
    function Key(observation: seq<real>, action: seq<real>): StateActionPair
      requires Accepts(observation, action)
    {
      StateActionPair(Quantized(observation, sensors, stateBins), Quantized(action, actions, actionBins))
    }

    /** TableApproximator(info, actions, states): an empty table. */
    constructor (sensors: Limits, actions: Limits, actionBins: int, stateBins: int)
      ensures this.sensors == sensors && this.actions == actions
      ensures this.actionBins == actionBins && this.stateBins == stateBins
      ensures table == map[]
    {
      this.sensors, this.actions := sensors, actions;
      this.actionBins, this.stateBins := actionBins, stateBins;
      table := map[];
    }

    /** The copy constructor: the same description, bins and table. */
    constructor Copy(a: TableApproximator)
      ensures sensors == a.sensors && actions == a.actions
      ensures actionBins == a.actionBins && stateBins == a.stateBins
      ensures table == a.table
    {
      sensors, actions := a.sensors, a.actions;
      actionBins, stateBins := a.actionBins, a.stateBins;
      table := a.table;
    }

    method Predict(observation: seq<real>, action: seq<real>) returns (r: real)
      requires Accepts(observation, action)
      ensures r == Lookup(table, Key(observation, action))
    {
      var s := Quantize(observation, sensors, stateBins);
      var a := Quantize(action, actions, actionBins);
      var key := StateActionPair(s, a);
      if key in table {
        r := table[key];
      } else {
        r := 0.0;
      }
    }

    method Update(observation: seq<real>, action: seq<real>, target: real)
      requires Accepts(observation, action)
      modifies this
      ensures table == old(table)[Key(observation, action) := target]
    {
      var s := Quantize(observation, sensors, stateBins);
      var a := Quantize(action, actions, actionBins);
      table := table[StateActionPair(s, a) := target];
    }
  }

  /** A fresh table predicts 0; after update(s, a, t), predict(s, a) is t,
      and so is the prediction for any pair that quantizes alike; a pair
      filed under another key keeps its prediction. A copy taken before
      the update still predicts 0. */
  method UpdateThenPredict(sensors: Limits, actions: Limits, actionBins: int, stateBins: int,
                           s: seq<real>, a: seq<real>, t: real, s2: seq<real>, a2: seq<real>)
    returns (fresh0: real, same: real, other: real, copied: real)
    requires Quantizable(sensors, stateBins, |s|) && Quantizable(actions, actionBins, |a|)
    requires Quantizable(sensors, stateBins, |s2|) && Quantizable(actions, actionBins, |a2|)
    ensures fresh0 == 0.0 && same == t && copied == 0.0
    ensures (Quantized(s2, sensors, stateBins) == Quantized(s, sensors, stateBins) &&
             Quantized(a2, actions, actionBins) == Quantized(a, actions, actionBins)) ==> other == t
    ensures Quantized(s2, sensors, stateBins) != Quantized(s, sensors, stateBins) ==> other == 0.0
  {
    var approx := new TableApproximator(sensors, actions, actionBins, stateBins);
    fresh0 := approx.Predict(s, a);
    var copy := new TableApproximator.Copy(approx);
    approx.Update(s, a, t);
    same := approx.Predict(s, a);
    other := approx.Predict(s2, a2);
    copied := copy.Predict(s, a);
  }
}
