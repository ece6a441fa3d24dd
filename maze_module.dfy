/* The neural-network coding of feature vectors used by the maze mod: a
   discrete position becomes a one-of-N section of neurons, one per value
   between its bounds; a continuous position was meant to become a single
   scaled neuron, but both conversions name a variable that does not exist
   there, so they fail with a NameError. Bounds come from a feature vector
   info, one Bound per position. */
module MazeModule {
  import opened Wrappers
  import FeatureVectors

  type Bound = FeatureVectors.Bound

  /** int(max - min + 1): the neurons of a discrete position. */
  function SectionSize(b: Bound): int {
    FeatureVectors.Trunc(b.max - b.min + 1.0)
  }

  /** The neurons a position takes: its section when discrete, else one. */
  function Width(b: Bound): int {
    if b.discrete then SectionSize(b) else 1
  }

  /** The neurons of the first positions, summed. */
  function NeuronCount(cs: seq<Bound>): int {
    if cs == [] then 0 else NeuronCount(cs[..|cs| - 1]) + Width(cs[|cs| - 1])
  }

  /** A discrete position with whole-number bounds, lower below upper. */
  predicate DiscreteBound(b: Bound) {
    b.discrete && FeatureVectors.IsIntegral(b.min) && FeatureVectors.IsIntegral(b.max) && b.min <= b.max
  }

  /** Such a position has max - min + 1 neurons, at least one. */
  lemma SectionSizeOfDiscrete(b: Bound)
    requires DiscreteBound(b)
    ensures SectionSize(b) as real == b.max - b.min + 1.0 && SectionSize(b) >= 1
  {
    var lo, hi := b.min.Floor, b.max.Floor;
    assert b.max - b.min + 1.0 == (hi - lo + 1) as real;
  }

  /** Every position takes at least one neuron, so there are at least as
      many neurons as positions. */
  lemma {:induction false} NeuronCountAtLeast(cs: seq<Bound>)
    requires forall i :: 0 <= i < |cs| ==> DiscreteBound(cs[i])
    ensures NeuronCount(cs) >= |cs|
  {
    if cs != [] {
      NeuronCountAtLeast(cs[..|cs| - 1]);
      SectionSizeOfDiscrete(cs[|cs| - 1]);
    }
  }

  /** count_neurons */
  method CountNeurons(cs: seq<Bound>) returns (n: int)
    ensures n == NeuronCount(cs)
  {
    n := 0;
    var i := 0;
    while i < |cs|
      invariant 0 <= i <= |cs|
      invariant n == NeuronCount(cs[..i])
    {
      assert cs[..i + 1][..i] == cs[..i];
      if cs[i].discrete {
        n := n + SectionSize(cs[i]);
      } else {
        n := n + 1;
      }
      i := i + 1;
    }
    assert cs[..|cs|] == cs;
  }

  /** A section of size zeros with section[index] = 1, index counting from
      the end when negative; an IndexError when it lies outside. */
  function OneHot(size: int, index: int): (r: Result<seq<real>, string>)
    ensures r.Ok? <==> -size <= index < size
    ensures r.Err? ==> r.error == "IndexError"
    ensures r.Ok? ==> |r.value| == size
  {
    if -size <= index < size then
      var at := if index >= 0 then index else size + index;
      Ok(Zeros(at) + [1.0] + Zeros(size - at - 1))
    else Err("IndexError")
  }

  /** n zero neurons. */
  function Zeros(n: nat): (r: seq<real>)
    ensures |r| == n
  {
    if n == 0 then [] else Zeros(n - 1) + [0.0]
  }

  lemma {:induction false} ZerosAreZero(n: nat)
    ensures forall j :: 0 <= j < n ==> Zeros(n)[j] == 0.0
  {
    if n > 0 {
      ZerosAreZero(n - 1);
    }
  }

  /** The section holds a one at the index and zeros everywhere else. */
  lemma OneHotContents(size: int, index: int)
    requires -size <= index < size
    ensures var at := if index >= 0 then index else size + index;
      OneHot(size, index).value[at] == 1.0 &&
      forall j :: 0 <= j < size && j != at ==> OneHot(size, index).value[j] == 0.0
  {
    var at := if index >= 0 then index else size + index;
    ZerosAreZero(at);
    ZerosAreZero(size - at - 1);
  }

  /** One position's neurons: its one-hot section at int(input - min); a
      NameError at a continuous position, an IndexError past the input. */
  function EncodeStep(b: Bound, input: seq<real>, i: nat): (r: Result<seq<real>, string>)
    ensures r.Err? ==> r.error == "NameError" || r.error == "IndexError"
    ensures r.Ok? ==> b.discrete && |r.value| == SectionSize(b)
  {
    if !b.discrete then Err("NameError")
    else if i >= |input| then Err("IndexError")
    else OneHot(SectionSize(b), FeatureVectors.Trunc(input[i] - b.min))
  }

  /** The neurons of the first k positions, in order; the first failing
      position's error. */
  function Encoding(cs: seq<Bound>, input: seq<real>, k: nat): Result<seq<real>, string>
    requires k <= |cs|
  {
    if k == 0 then Ok([])
    else
      var prev := Encoding(cs, input, k - 1);
      if prev.Err? then prev
      else
        var s := EncodeStep(cs[k - 1], input, k - 1);
        if s.Err? then Err(s.error) else Ok(prev.value + s.value)
  }

  /** An encoding that succeeds has one neuron per the count, and only
      discrete positions can be encoded; one that fails names a missing
      variable or index. */
  lemma {:induction false} EncodingLength(cs: seq<Bound>, input: seq<real>, k: nat)
    requires k <= |cs|
    ensures Encoding(cs, input, k).Ok? ==>
      |Encoding(cs, input, k).value| == NeuronCount(cs[..k]) &&
      forall i :: 0 <= i < k ==> cs[i].discrete
    ensures Encoding(cs, input, k).Err? ==>
      (Encoding(cs, input, k).error == "NameError" || Encoding(cs, input, k).error == "IndexError")
  {
    if k > 0 {
      EncodingLength(cs, input, k - 1);
      var prefix := cs[..k];
      assert prefix[..k - 1] == cs[..k - 1] && prefix[k - 1] == cs[k - 1];
      assert NeuronCount(prefix) == NeuronCount(cs[..k - 1]) + Width(cs[k - 1]);
    }
  }

  /** Once the encoding fails, it fails the same way for every longer
      prefix. */
  lemma {:induction false} EncodingStaysFailed(cs: seq<Bound>, input: seq<real>, k: nat, n: nat)
    requires k <= n <= |cs| && Encoding(cs, input, k).Err?
    ensures Encoding(cs, input, n) == Encoding(cs, input, k)
    decreases n - k
  {
    if k < n {
      EncodingStaysFailed(cs, input, k + 1, n);
    }
  }

  /** input_to_neurons: the encoding of every position; the length check at
      the end never fails. */
  function Encoded(cs: seq<Bound>, input: seq<real>): (r: Result<seq<real>, string>)
    ensures r.Ok? ==> |r.value| == NeuronCount(cs)
    ensures r.Err? ==> r.error == "NameError" || r.error == "IndexError"
  {
    EncodingLength(cs, input, |cs|);
    assert cs[..|cs|] == cs;
    var e := Encoding(cs, input, |cs|);
    if e.Ok? && |e.value| != NeuronCount(cs) then Err("AssertionError") else e
  }

  /** The body of input_to_neurons' loop for a discrete position. */
  method EncodePosition(b: Bound, input: seq<real>, i: nat) returns (r: Result<seq<real>, string>)
    ensures r == EncodeStep(b, input, i)
  {
    if !b.discrete {
      return Err("NameError");
    }
    if i >= |input| {
      return Err("IndexError");
    }
    r := OneHot(SectionSize(b), FeatureVectors.Trunc(input[i] - b.min));
  }

  /** input_to_neurons, building the neurons position by position. */
  method InputToNeurons(cs: seq<Bound>, input: seq<real>) returns (r: Result<seq<real>, string>)
    ensures r == Encoded(cs, input)
  {
    var neurons: seq<real> := [];
    var i := 0;
    while i < |cs|
      invariant 0 <= i <= |cs|
      invariant Encoding(cs, input, i) == Ok(neurons)
    {
      var section := EncodePosition(cs[i], input, i);
      if section.Err? {
        EncodingStaysFailed(cs, input, i + 1, |cs|);
        return Err(section.error);
      }
      neurons := neurons + section.value;
      i := i + 1;
    }
    var n := CountNeurons(cs);
    if |neurons| != n {
      return Err("AssertionError");
    }
    r := Ok(neurons);
  }

  /** Python's neurons[a:b] for 0 <= a: a negative end counts from the
      back of the sequence, the end is clipped to the sequence, and the
      slice is empty when the end falls at or before a. */
  function Slice(s: seq<real>, a: nat, b: int): (r: seq<real>)
    requires a <= |s|
    ensures a <= b <= |s| ==> r == s[a..b]
    ensures b > |s| ==> r == s[a..]
    ensures b < 0 && a <= |s| + b ==> r == s[a..|s| + b]
    ensures |r| > 0 ==> a < b || b < 0
  {
    var end := if b < 0 then (if |s| + b < 0 then 0 else |s| + b) else if b > |s| then |s| else b;
    if end <= a then [] else s[a..end]
  }

  /** Position i holds the maximum of s, and no earlier position does:
      what section.index(max(section)) returns. */
  predicate IsFirstMax(s: seq<real>, i: int) {
    0 <= i < |s| &&
    (forall j :: 0 <= j < |s| ==> s[j] <= s[i]) &&
    (forall j :: 0 <= j < i ==> s[j] < s[i])
  }

  /** Every non-empty sequence has a first maximum. */
  lemma {:induction false} FirstMaxExists(s: seq<real>)
    requires s != []
    ensures exists i :: IsFirstMax(s, i)
  {
    if |s| > 1 {
      var init := s[..|s| - 1];
      FirstMaxExists(init);
      var i :| IsFirstMax(init, i);
      if s[|s| - 1] > s[i] {
        assert IsFirstMax(s, |s| - 1);
      } else {
        assert IsFirstMax(s, i);
      }
    } else {
      assert IsFirstMax(s, 0);
    }
  }

  /** There is only one first maximum. */
  lemma FirstMaxUnique(s: seq<real>, i: int, k: int)
    requires IsFirstMax(s, i) && IsFirstMax(s, k)
    ensures i == k
  {
    assert s[k] <= s[i] && s[i] <= s[k];
  }

  /** The index of the first maximum, by scanning from the front. */
  function FirstMax(s: seq<real>): (i: nat)
    requires s != []
    ensures i < |s|
  {
    if |s| == 1 then 0
    else
      var i := FirstMax(s[..|s| - 1]);
      if s[|s| - 1] > s[i] then |s| - 1 else i
  }

  /** FirstMax finds the first maximum. */
  lemma {:induction false} FirstMaxIsFirstMax(s: seq<real>)
    requires s != []
    ensures IsFirstMax(s, FirstMax(s))
  {
    if |s| > 1 {
      FirstMaxIsFirstMax(s[..|s| - 1]);
    }
  }

  /** max(section) followed by section.index(of it): one pass for the
      maximum, one for its first position. */
  method IndexOfMax(s: seq<real>) returns (i: nat)
    requires s != []
    ensures i == FirstMax(s)
  {
    var m := s[0];
    var k := 1;
    while k < |s|
      invariant 1 <= k <= |s|
      invariant m in s[..k] && forall j :: 0 <= j < k ==> s[j] <= m
    {
      if s[k] > m {
        m := s[k];
      }
      k := k + 1;
    }
    assert s[..|s|] == s;
    i := 0;
    while s[i] != m
      invariant 0 <= i < |s| && m in s[i..]
      invariant forall j :: 0 <= j < i ==> s[j] < m
      decreases |s| - i
    {
      i := i + 1;
    }
    FirstMaxIsFirstMax(s);
    FirstMaxUnique(s, i, FirstMax(s));
  }

  /** The first maximum of a one-hot section is its hot position. */
  lemma OneHotFirstMax(size: int, t: int)
    requires 0 <= t < size
    ensures OneHot(size, t).Ok? && FirstMax(OneHot(size, t).value) == t
  {
    var s := OneHot(size, t).value;
    OneHotContents(size, t);
    assert IsFirstMax(s, t);
    FirstMaxIsFirstMax(s);
    FirstMaxUnique(s, t, FirstMax(s));
  }

  /** One position's value from the neurons starting at ni, with the index
      after its section: min plus the first maximum of the section. An
      AssertionError when the neurons have run out or fall behind the
      positions, a NameError at a continuous position, a ValueError on an
      empty section. */
  ghost function DecodeStep(b: Bound, neurons: seq<real>, ni: int, i: nat): (r: Result<(real, int), string>)
    ensures r.Ok? ==> b.discrete
  {
    if ni >= |neurons| || ni < i then Err("AssertionError")
    else if !b.discrete then Err("NameError")
    else
      var section := Slice(neurons, ni, ni + SectionSize(b));
      if |section| == 0 then Err("ValueError")
      else Ok((b.min + FirstMax(section) as real, ni + SectionSize(b)))
  }

  /** Bounds whose maximum is below the minimum give a negative section
      size, and the slice then ends that many neurons before the end: with
      min 5 and max 0 the section is the first two of six neurons and the
      value min plus the position of its maximum. */
  lemma NegativeSectionCountsFromBack()
    ensures DecodeStep(FeatureVectors.Bound(5.0, 0.0, true), [0.0, 1.0, 0.0, 0.0, 0.0, 0.0], 0, 0) == Ok((6.0, -4))
  {
    var neurons := [0.0, 1.0, 0.0, 0.0, 0.0, 0.0];
    assert SectionSize(FeatureVectors.Bound(5.0, 0.0, true)) == -4;
    var section := Slice(neurons, 0, -4);
    assert section == [0.0, 1.0];
    assert FirstMax(section) == 1 by {
      assert section[..1] == [0.0];
    }
  }

  /** The values of the first k positions and the index of the next neuron;
      the first failing position's error. */
  ghost function Decoding(cs: seq<Bound>, neurons: seq<real>, k: nat): (r: Result<(seq<real>, int), string>)
    requires k <= |cs|
    ensures r.Ok? ==> |r.value.0| == k
  {
    if k == 0 then Ok(([], 0))
    else
      var prev := Decoding(cs, neurons, k - 1);
      if prev.Err? then prev
      else
        var d := DecodeStep(cs[k - 1], neurons, prev.value.1, k - 1);
        if d.Err? then Err(d.error) else Ok((prev.value.0 + [d.value.0], d.value.1))
  }

  /** Once the decoding fails, it fails the same way for every longer
      prefix. */
  lemma {:induction false} DecodingStaysFailed(cs: seq<Bound>, neurons: seq<real>, k: nat, n: nat)
    requires k <= n <= |cs| && Decoding(cs, neurons, k).Err?
    ensures Decoding(cs, neurons, n).Err? && Decoding(cs, neurons, n).error == Decoding(cs, neurons, k).error
    decreases n - k
  {
    if k < n {
      DecodingStaysFailed(cs, neurons, k + 1, n);
    }
  }

  /** neurons_to_output: the value of every position. */
  ghost function Decoded(cs: seq<Bound>, neurons: seq<real>): (r: Result<seq<real>, string>)
    ensures r.Ok? ==> |r.value| == |cs|
  {
    var d := Decoding(cs, neurons, |cs|);
    if d.Err? then Err(d.error) else Ok(d.value.0)
  }

  /** The body of neurons_to_output's loop for one position. */
  method DecodePosition(b: Bound, neurons: seq<real>, ni: int, i: nat) returns (r: Result<(real, int), string>)
    ensures r == DecodeStep(b, neurons, ni, i)
  {
    if ni >= |neurons| || ni < i {
      return Err("AssertionError");
    }
    if !b.discrete {
      return Err("NameError");
    }
    var size := SectionSize(b);
    var section := Slice(neurons, ni, ni + size);
    if |section| == 0 {
      return Err("ValueError");
    }
    var maxIndex := IndexOfMax(section);
    r := Ok((b.min + maxIndex as real, ni + size));
  }

  /** neurons_to_output, position by position. */
  method NeuronsToOutput(cs: seq<Bound>, neurons: seq<real>) returns (r: Result<seq<real>, string>)
    ensures r == Decoded(cs, neurons)
  {
    var result: seq<real> := [];
    var ni := 0;
    var i := 0;
    while i < |cs|
      invariant 0 <= i <= |cs|
      invariant Decoding(cs, neurons, i) == Ok((result, ni))
    {
      var d := DecodePosition(cs[i], neurons, ni, i);
      if d.Err? {
        DecodingStaysFailed(cs, neurons, i + 1, |cs|);
        return Err(d.error);
      }
      result := result + [d.value.0];
      ni := d.value.1;
      i := i + 1;
    }
    r := Ok(result);
  }

  /** A decoding that succeeds succeeded on every shorter prefix. */
  lemma {:induction false} DecodingOkBefore(cs: seq<Bound>, neurons: seq<real>, j: nat, k: nat)
    requires j <= k <= |cs| && Decoding(cs, neurons, k).Ok?
    ensures Decoding(cs, neurons, j).Ok?
    decreases k
  {
    if j < k {
      assert Decoding(cs, neurons, k - 1).Ok?;
      DecodingOkBefore(cs, neurons, j, k - 1);
    }
  }

  /** Only discrete positions can be decoded. */
  lemma DecodingDiscrete(cs: seq<Bound>, neurons: seq<real>, k: nat)
    requires k <= |cs|
    ensures Decoding(cs, neurons, k).Ok? ==> forall i :: 0 <= i < k ==> cs[i].discrete
  {
    forall i | 0 <= i < k && Decoding(cs, neurons, k).Ok?
      ensures cs[i].discrete
    {
      DecodingOkBefore(cs, neurons, i + 1, k);
    }
  }

  /** A vector the bounds accept: one whole number per position, within its
      bounds, every position discrete. */
  predicate Encodable(cs: seq<Bound>, v: seq<real>) {
    |v| == |cs| && forall i {:trigger Accepts(cs[i], v[i])} :: 0 <= i < |cs| ==> Accepts(cs[i], v[i])
  }

  /** A whole number within the bounds of a discrete position. */
  predicate Accepts(b: Bound, x: real) {
    DiscreteBound(b) && FeatureVectors.IsIntegral(x) && b.min <= x <= b.max
  }

  /** The section of one accepted value is one-hot at value - min. */
  lemma SectionOf(b: Bound, input: seq<real>, i: nat)
    requires i < |input| && Accepts(b, input[i])
    ensures var t := FeatureVectors.Trunc(input[i] - b.min);
      t as real == input[i] - b.min && 0 <= t < SectionSize(b) &&
      EncodeStep(b, input, i) == OneHot(SectionSize(b), t) && EncodeStep(b, input, i).Ok?
  {
    SectionSizeOfDiscrete(b);
    var x := input[i];
    assert x - b.min == (x.Floor - b.min.Floor) as real;
  }

  /** Decoding a discrete position whose section lies within the neurons
      gives min plus the position of the section's first maximum. */
  lemma DecodeStepWithin(b: Bound, e: seq<real>, ni: nat, i: nat)
    requires b.discrete && i <= ni && SectionSize(b) > 0 && ni + SectionSize(b) <= |e|
    ensures DecodeStep(b, e, ni, i) ==
      Ok((b.min + FirstMax(e[ni..ni + SectionSize(b)]) as real, ni + SectionSize(b)))
  {
    assert Slice(e, ni, ni + SectionSize(b)) == e[ni..ni + SectionSize(b)];
  }

  /** Decoding a position whose neurons hold the section of an accepted
      value gives the value back, and moves past the section. */
  lemma DecodeStepOfSection(b: Bound, e: seq<real>, ni: nat, i: nat, input: seq<real>)
    requires i < |input| && Accepts(b, input[i])
    requires EncodeStep(b, input, i).Ok? && i <= ni
    requires ni + |EncodeStep(b, input, i).value| <= |e|
    requires e[ni..ni + |EncodeStep(b, input, i).value|] == EncodeStep(b, input, i).value
    ensures DecodeStep(b, e, ni, i) == Ok((input[i], ni + SectionSize(b)))
  {
    SectionOf(b, input, i);
    var t := FeatureVectors.Trunc(input[i] - b.min);
    OneHotFirstMax(SectionSize(b), t);
    DecodeStepWithin(b, e, ni, i);
  }

  /** Encoding accepted vectors succeeds, with at least one neuron per
      position. */
  lemma {:induction false} EncodingPrefix(cs: seq<Bound>, v: seq<real>, k: nat)
    requires Encodable(cs, v) && k <= |cs|
    ensures Encoding(cs, v, k).Ok?
    ensures |Encoding(cs, v, k).value| >= k
  {
    if k > 0 {
      EncodingPrefix(cs, v, k - 1);
      SectionOf(cs[k - 1], v, k - 1);
    }
  }

  /** When p + q begins e, p begins e and q follows it. */
  lemma PrefixParts(e: seq<real>, p: seq<real>, q: seq<real>)
    requires |p| + |q| <= |e| && e[..|p| + |q|] == p + q
    ensures e[..|p|] == p && e[|p|..|p| + |q|] == q
  {
    assert e[..|p|] == e[..|p| + |q|][..|p|];
    assert e[|p|..|p| + |q|] == e[..|p| + |q|][|p|..];
  }

  /** One more position decoded: the value appended, the index moved on. */
  lemma DecodingNext(cs: seq<Bound>, e: seq<real>, k: nat, vs: seq<real>, ni: nat, x: real, ni2: nat)
    requires 0 < k <= |cs|
    requires Decoding(cs, e, k - 1) == Ok((vs, ni))
    requires DecodeStep(cs[k - 1], e, ni, k - 1) == Ok((x, ni2))
    ensures Decoding(cs, e, k) == Ok((vs + [x], ni2))
  {
  }

  /** Neurons that begin with the encoding of the first k positions begin
      with that of the first k - 1, followed by the k-th section. */
  lemma EncodingSplit(cs: seq<Bound>, v: seq<real>, k: nat, e: seq<real>)
    requires Encodable(cs, v) && 0 < k <= |cs| && Encoding(cs, v, k).Ok?
    requires |Encoding(cs, v, k).value| <= |e| && e[..|Encoding(cs, v, k).value|] == Encoding(cs, v, k).value
    ensures Encoding(cs, v, k - 1).Ok? && EncodeStep(cs[k - 1], v, k - 1).Ok?
    ensures var m := |Encoding(cs, v, k - 1).value|;
      k - 1 <= m && |Encoding(cs, v, k).value| == m + SectionSize(cs[k - 1]) <= |e| &&
      e[..m] == Encoding(cs, v, k - 1).value &&
      e[m..m + SectionSize(cs[k - 1])] == EncodeStep(cs[k - 1], v, k - 1).value
  {
    EncodingPrefix(cs, v, k - 1);
    var prev := Encoding(cs, v, k - 1).value;
    var sec := EncodeStep(cs[k - 1], v, k - 1).value;
    assert Encoding(cs, v, k).value == prev + sec;
    PrefixParts(e, prev, sec);
  }

  /** The first k values are the first k - 1 and the k-th. */
  lemma TakeNext(v: seq<real>, k: nat)
    requires 0 < k <= |v|
    ensures v[..k] == v[..k - 1] + [v[k - 1]]
  {
  }

  /** The encoding of the first j positions begins that of the first n. */
  lemma {:induction false} EncodingTake(cs: seq<Bound>, v: seq<real>, j: nat, n: nat)
    requires j <= n <= |cs| && Encoding(cs, v, n).Ok?
    ensures Encoding(cs, v, j).Ok?
    ensures |Encoding(cs, v, j).value| <= |Encoding(cs, v, n).value|
    ensures Encoding(cs, v, n).value[..|Encoding(cs, v, j).value|] == Encoding(cs, v, j).value
    decreases n
  {
    if j < n {
      var step := EncodeStep(cs[n - 1], v, n - 1);
      assert Encoding(cs, v, n - 1).Ok? && step.Ok?;
      EncodingTake(cs, v, j, n - 1);
      TakeOfAppend(Encoding(cs, v, n - 1).value, step.value, |Encoding(cs, v, j).value|);
    } else {
      var e := Encoding(cs, v, n).value;
      assert e[..|e|] == e;
    }
  }

  /** Taking no more than the first part of a concatenation takes from
      the first part only. */
  lemma TakeOfAppend(p: seq<real>, q: seq<real>, m: nat)
    requires m <= |p|
    ensures (p + q)[..m] == p[..m]
  {
  }

  /** Within the whole encoding of an accepted vector, the section of
      position i decodes to its value and ends where position i + 1's
      begins. */
  lemma SectionDecodes(cs: seq<Bound>, v: seq<real>, i: nat)
    requires Encodable(cs, v) && i < |cs|
    ensures Encoding(cs, v, |cs|).Ok? && Encoding(cs, v, i).Ok? && Encoding(cs, v, i + 1).Ok?
    ensures DecodeStep(cs[i], Encoding(cs, v, |cs|).value, |Encoding(cs, v, i).value|, i)
      == Ok((v[i], |Encoding(cs, v, i + 1).value|))
  {
    EncodingPrefix(cs, v, |cs|);
    EncodingTake(cs, v, i + 1, |cs|);
    var e := Encoding(cs, v, |cs|).value;
    EncodingSplit(cs, v, i + 1, e);
    DecodeStepOfSection(cs[i], e, |Encoding(cs, v, i).value|, i, v);
  }

  /** Decoding goes position by position: when every position's step gives
      its value and the next section's start, the first k decode to those
      values. */
  lemma {:induction false} DecodingOfSteps(cs: seq<Bound>, e: seq<real>, k: nat, vs: seq<real>, offs: seq<nat>)
    requires k <= |cs| && |vs| == k && |offs| == k + 1 && offs[0] == 0
    requires forall i :: 0 <= i < k ==> DecodeStep(cs[i], e, offs[i], i) == Ok((vs[i], offs[i + 1]))
    ensures Decoding(cs, e, k) == Ok((vs, offs[k]))
  {
    if k > 0 {
      DecodingOfSteps(cs, e, k - 1, vs[..k - 1], offs[..k]);
      assert offs[..k][k - 1] == offs[k - 1];
      DecodingNext(cs, e, k, vs[..k - 1], offs[k - 1], vs[k - 1], offs[k]);
      TakeNext(vs, k);
      assert vs[..k] == vs;
    }
  }

  /** Decoding the neurons an accepted vector is encoded into gives the
      vector back. */
  lemma RoundTrip(cs: seq<Bound>, v: seq<real>)
    requires Encodable(cs, v)
    ensures Encoded(cs, v).Ok?
    ensures Decoded(cs, Encoded(cs, v).value) == Ok(v)
  {
    EncodingPrefix(cs, v, |cs|);
    EncodingLength(cs, v, |cs|);
    assert cs[..|cs|] == cs;
    var e := Encoding(cs, v, |cs|).value;
    forall i | 0 <= i <= |cs|
      ensures Encoding(cs, v, i).Ok?
    {
      EncodingPrefix(cs, v, i);
    }
    var offs := seq(|cs| + 1, i requires 0 <= i <= |cs| => |Encoding(cs, v, i).value|);
    SectionsDecode(cs, v, offs);
    DecodingOfSteps(cs, e, |cs|, v, offs);
  }

  /** Every section of the whole encoding of an accepted vector decodes to
      its value, given where each section starts. */
  lemma SectionsDecode(cs: seq<Bound>, v: seq<real>, offs: seq<nat>)
    requires Encodable(cs, v) && |offs| == |cs| + 1
    requires forall i :: 0 <= i <= |cs| ==> Encoding(cs, v, i).Ok? && offs[i] == |Encoding(cs, v, i).value|
    ensures Encoding(cs, v, |cs|).Ok?
    ensures forall i :: 0 <= i < |cs| ==>
      DecodeStep(cs[i], Encoding(cs, v, |cs|).value, offs[i], i) == Ok((v[i], offs[i + 1]))
  {
    EncodingPrefix(cs, v, |cs|);
    forall i | 0 <= i < |cs|
      ensures DecodeStep(cs[i], Encoding(cs, v, |cs|).value, offs[i], i) == Ok((v[i], offs[i + 1]))
    {
      SectionDecodes(cs, v, i);
    }
  }
}
