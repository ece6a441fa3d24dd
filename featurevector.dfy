/** Bounded feature vectors (source/ai/AI.cpp): a FeatureVectorInfo keeps,
    per position, a lower and an upper bound and whether the position is
    discrete. It validates, normalizes and denormalizes vectors of doubles
    (modelled as reals), enumerates all vectors of an all-discrete info,
    and is read from a whitespace-separated text of (discrete, min, max)
    triples. Random vectors (getRandom) need the random generator and are
    not modelled. */
module FeatureVectors {
  import opened Wrappers

  /** Bound: one position's limits. */
  datatype Bound = Bound(min: real, max: real, discrete: bool)

  predicate IsIntegral(x: real)
  {
    x == x.Floor as real
  }

  /** static_cast<int> of a double: truncation toward zero. */
  function Trunc(x: real): (r: int)
    ensures IsIntegral(x) ==> r as real == x
  {
    if x >= 0.0 then x.Floor
    else
      var m := -((-x).Floor);
      assert IsIntegral(x) ==> m as real == x by {
        if IsIntegral(x) {
          var n := x.Floor;
          assert -x == (-n) as real;
          var f := (-x).Floor;
          assert f as real <= (-n) as real < f as real + 1.0;
          assert f == -n;
        }
      }
      m
  }

  /** What the three parallel vectors keep: equal lengths, each lower bound
      at most its upper bound, and whole-number bounds at discrete
      positions. */
  ghost predicate WellFormed(lo: seq<real>, hi: seq<real>, disc: seq<bool>)
  {
    |lo| == |hi| == |disc| &&
    forall i :: 0 <= i < |lo| ==>
      lo[i] <= hi[i] && (disc[i] ==> IsIntegral(lo[i]) && IsIntegral(hi[i]))
  }

  /** validate: the vector has one value per position and each lies within
      its bounds. */
  predicate Validates(lo: seq<real>, hi: seq<real>, a: seq<real>)
    requires |lo| == |hi|
  {
    |a| == |lo| && forall i :: 0 <= i < |a| ==> lo[i] <= a[i] <= hi[i]
  }

  function Constant(n: nat, x: real): (r: seq<real>)
    ensures |r| == n && forall i :: 0 <= i < n ==> r[i] == x
  {
    seq(n, _ => x)
  }

  // ---------------------------------------------------------------------
  // normalize / denormalize

  /** normalize as written: a position is rescaled only when its span is
      positive and different from 1. */
  function NormalizedAsWritten(lo: seq<real>, hi: seq<real>, a: seq<real>): seq<real>
    requires |lo| == |hi| == |a|
  {
    seq(|a|, i requires 0 <= i < |a| =>
      var d := hi[i] - lo[i];
      if d > 0.0 && d != 1.0 then (a[i] - lo[i]) / d else a[i])
  }

  /** normalize with every positive span rescaled: the value's place between
      its bounds, 0 at the lower and 1 at the upper bound. */
  function Normalized(lo: seq<real>, hi: seq<real>, a: seq<real>): seq<real>
    requires |lo| == |hi| == |a|
  {
    seq(|a|, i requires 0 <= i < |a| =>
      var d := hi[i] - lo[i];
      if d > 0.0 then (a[i] - lo[i]) / d else a[i])
  }

  /** denormalize: position i becomes a[i] * span + lower; entries beyond
      the info's size are copied. */
  function Denormalized(lo: seq<real>, hi: seq<real>, a: seq<real>): seq<real>
    requires |lo| == |hi| <= |a|
  {
    seq(|a|, i requires 0 <= i < |a| =>
      if i < |lo| then a[i] * (hi[i] - lo[i]) + lo[i] else a[i])
  }

  /** A valid vector normalizes into the unit cube. */
  lemma NormalizedInUnitRange(lo: seq<real>, hi: seq<real>, a: seq<real>)
    requires |lo| == |hi| && Validates(lo, hi, a)
    ensures forall i :: 0 <= i < |a| ==> 0.0 <= Normalized(lo, hi, a)[i] <= 1.0 || hi[i] == lo[i]
  {
    forall i | 0 <= i < |a| && hi[i] != lo[i]
      ensures 0.0 <= Normalized(lo, hi, a)[i] <= 1.0
    {
      var d := hi[i] - lo[i];
      assert d > 0.0;
      assert 0.0 <= a[i] - lo[i] <= d;
      assert (a[i] - lo[i]) / d <= d / d;
    }
  }

  /** denormalize undoes normalize on every valid vector. */
  lemma DenormalizeNormalized(lo: seq<real>, hi: seq<real>, a: seq<real>)
    requires |lo| == |hi| && Validates(lo, hi, a)
    ensures Denormalized(lo, hi, Normalized(lo, hi, a)) == a
  {
    var n := Normalized(lo, hi, a);
    var r := Denormalized(lo, hi, n);
    forall i | 0 <= i < |a|
      ensures r[i] == a[i]
    {
      var d := hi[i] - lo[i];
      if d > 0.0 {
        assert n[i] == (a[i] - lo[i]) / d;
        assert n[i] * d == a[i] - lo[i];
      } else {
        assert a[i] == lo[i];
      }
    }
  }

  /** 0 becomes the lower and 1 the upper bound. */
  lemma DenormalizedEnds(lo: seq<real>, hi: seq<real>)
    requires |lo| == |hi|
    ensures Denormalized(lo, hi, Constant(|lo|, 0.0)) == lo
    ensures Denormalized(lo, hi, Constant(|lo|, 1.0)) == hi
  {
    var z := Denormalized(lo, hi, Constant(|lo|, 0.0));
    var o := Denormalized(lo, hi, Constant(|lo|, 1.0));
    assert forall i :: 0 <= i < |lo| ==> z[i] == lo[i];
    assert forall i :: 0 <= i < |lo| ==> o[i] == hi[i];
  }

  /** Every vector of the unit cube denormalizes to a valid vector. */
  lemma DenormalizedValidates(lo: seq<real>, hi: seq<real>, a: seq<real>)
    requires |lo| == |hi| == |a|
    requires forall i :: 0 <= i < |lo| ==> lo[i] <= hi[i]
    requires forall i :: 0 <= i < |a| ==> 0.0 <= a[i] <= 1.0
    ensures Validates(lo, hi, Denormalized(lo, hi, a))
  {
    var r := Denormalized(lo, hi, a);
    forall i | 0 <= i < |a|
      ensures lo[i] <= r[i] <= hi[i]
    {
      ScaledWithin(a[i], hi[i] - lo[i]);
    }
  }

  lemma ScaledWithin(x: real, d: real)
    requires 0.0 <= x <= 1.0 && 0.0 <= d
    ensures 0.0 <= x * d <= d
  {
    assert x * d <= 1.0 * d;
  }

  /** As written, a position of span 1 is left as it is: with bounds
      [3, 4] the value 3 normalizes to 3, outside the unit range, and
      denormalizes to 6. */
  lemma AsWrittenSkipsUnitSpans()
    ensures Validates([3.0], [4.0], [3.0])
    ensures NormalizedAsWritten([3.0], [4.0], [3.0]) == [3.0]
    ensures Denormalized([3.0], [4.0], NormalizedAsWritten([3.0], [4.0], [3.0])) == [6.0]
    ensures Normalized([3.0], [4.0], [3.0]) == [0.0]
  {
    assert NormalizedAsWritten([3.0], [4.0], [3.0])[0] == 3.0;
    assert Normalized([3.0], [4.0], [3.0])[0] == 0.0;
  }

  /** The two agree whenever every span-1 position starts at 0, the case
      of the [0, 1] bounds AgentInitInfo gives its positions. */
  lemma AsWrittenAgreesFromZero(lo: seq<real>, hi: seq<real>, a: seq<real>)
    requires |lo| == |hi| == |a|
    requires forall i :: 0 <= i < |lo| && hi[i] - lo[i] == 1.0 ==> lo[i] == 0.0
    ensures NormalizedAsWritten(lo, hi, a) == Normalized(lo, hi, a)
  {
  }

  // ---------------------------------------------------------------------
  // enumerate

  /** The number of whole values from a to b. */
  function Count(a: int, b: int): nat
  {
    if b < a then 0 else b - a + 1
  }

  /** v with position i set to the whole value c. */
  function SetAt(v: seq<real>, i: nat, c: int): seq<real>
  {
    if i < |v| then v[i := c as real] else v
  }

  /** Copies of v with position i set to a, a+1, ..., b in turn. */
  function Range(v: seq<real>, i: nat, a: int, b: int): seq<seq<real>>
    decreases b - a
  {
    if b < a then [] else Range(v, i, a, b - 1) + [SetAt(v, i, b)]
  }

  /** One step of enumerate: every vector expanded, in order, by the values
      of position i. */
  function Expand(vs: seq<seq<real>>, i: nat, a: int, b: int): seq<seq<real>>
  {
    if vs == [] then [] else Expand(vs[..|vs| - 1], i, a, b) + Range(vs[|vs| - 1], i, a, b)
  }

  /** The list after the first k steps of enumerate, from [getInstance()]. */
  function Steps(lo: seq<real>, hi: seq<real>, k: nat): seq<seq<real>>
    requires k <= |lo| == |hi|
  {
    if k == 0 then [lo]
    else Expand(Steps(lo, hi, k - 1), k - 1, Trunc(lo[k - 1]), Trunc(hi[k - 1]))
  }

  /** The number of vectors in the first k steps: the product of the
      positions' value counts. */
  function Product(lo: seq<real>, hi: seq<real>, k: nat): nat
    requires k <= |lo| == |hi|
  {
    if k == 0 then 1 else Product(lo, hi, k - 1) * Count(Trunc(lo[k - 1]), Trunc(hi[k - 1]))
  }

  lemma {:induction false} RangeAt(v: seq<real>, i: nat, a: int, b: int)
    requires i < |v|
    ensures |Range(v, i, a, b)| == Count(a, b)
    ensures forall j :: 0 <= j < Count(a, b) ==> Range(v, i, a, b)[j] == v[i := (a + j) as real]
    decreases b - a
  {
    if b >= a {
      RangeAt(v, i, a, b - 1);
    }
  }

  lemma MulSucc(n: nat, c: nat)
    ensures (n + 1) * c == n * c + c
  {
  }

  lemma {:induction false} ExpandLength(vs: seq<seq<real>>, i: nat, a: int, b: int)
    requires forall v :: v in vs ==> i < |v|
    ensures |Expand(vs, i, a, b)| == |vs| * Count(a, b)
  {
    if vs != [] {
      var init := vs[..|vs| - 1];
      assert forall v :: v in init ==> v in vs;
      ExpandLength(init, i, a, b);
      RangeAt(vs[|vs| - 1], i, a, b);
      assert Expand(vs, i, a, b) == Expand(init, i, a, b) + Range(vs[|vs| - 1], i, a, b);
      MulSucc(|init|, Count(a, b));
    }
  }

  lemma {:induction false} ExpandMembers(vs: seq<seq<real>>, i: nat, a: int, b: int, w: seq<real>)
    requires forall v :: v in vs ==> i < |v|
    requires w in Expand(vs, i, a, b)
    ensures exists v, c :: v in vs && a <= c <= b && w == SetAt(v, i, c)
  {
    var init := vs[..|vs| - 1];
    var last := vs[|vs| - 1];
    if w in Expand(init, i, a, b) {
      assert forall v :: v in init ==> v in vs;
      ExpandMembers(init, i, a, b, w);
    } else {
      RangeAt(last, i, a, b);
      var j :| 0 <= j < |Range(last, i, a, b)| && Range(last, i, a, b)[j] == w;
      assert w == SetAt(last, i, a + j);
    }
  }

  /** The vectors after k steps: whole values within bounds at the first k
      positions, the lower bound at the others. */
  ghost predicate EnumeratedUpTo(lo: seq<real>, hi: seq<real>, k: nat, v: seq<real>)
  {
    |v| == |lo| && |hi| == |lo| &&
    forall j :: 0 <= j < |v| ==>
      if j < k then lo[j] <= v[j] <= hi[j] && IsIntegral(v[j]) else v[j] == lo[j]
  }

  /** Setting position k of a vector enumerated up to k to a whole value
      within its bounds gives a vector enumerated up to k + 1. */
  lemma SetKeepsShape(lo: seq<real>, hi: seq<real>, k: nat, v: seq<real>, c: int)
    requires k < |lo| && EnumeratedUpTo(lo, hi, k, v)
    requires lo[k] <= c as real <= hi[k]
    ensures EnumeratedUpTo(lo, hi, k + 1, v[k := c as real])
  {
    var w := v[k := c as real];
    forall j | 0 <= j < |w|
      ensures if j < k + 1 then lo[j] <= w[j] <= hi[j] && IsIntegral(w[j]) else w[j] == lo[j]
    {
      if j != k {
        assert w[j] == v[j];
      }
    }
  }

  lemma ExpandKeepsShape(lo: seq<real>, hi: seq<real>, k: nat, vs: seq<seq<real>>, a: int, b: int)
    requires k < |lo| == |hi| && forall v :: v in vs ==> EnumeratedUpTo(lo, hi, k, v)
    requires a as real == lo[k] && b as real == hi[k]
    ensures forall v :: v in vs ==> k < |v|
    ensures forall w :: w in Expand(vs, k, a, b) ==> EnumeratedUpTo(lo, hi, k + 1, w)
  {
    assert forall v :: v in vs ==> k < |v|;
    forall w | w in Expand(vs, k, a, b)
      ensures EnumeratedUpTo(lo, hi, k + 1, w)
    {
      ExpandMembers(vs, k, a, b, w);
      var v, c :| v in vs && a <= c <= b && w == SetAt(v, k, c);
      SetKeepsShape(lo, hi, k, v, c);
    }
  }

  /** Every listed vector is long enough for each step to set its
      position. */
  lemma {:induction false} StepsLength(lo: seq<real>, hi: seq<real>, k: nat)
    requires k <= |lo| == |hi|
    ensures |Steps(lo, hi, k)| == Product(lo, hi, k)
    ensures forall v :: v in Steps(lo, hi, k) ==> |v| == |lo|
  {
    if k > 0 {
      var prev := Steps(lo, hi, k - 1);
      StepsLength(lo, hi, k - 1);
      var a, b := Trunc(lo[k - 1]), Trunc(hi[k - 1]);
      ExpandLength(prev, k - 1, a, b);
      forall w | w in Steps(lo, hi, k)
        ensures |w| == |lo|
      {
        ExpandMembers(prev, k - 1, a, b, w);
      }
    }
  }

  lemma {:induction false} StepsShape(lo: seq<real>, hi: seq<real>, disc: seq<bool>, k: nat)
    requires WellFormed(lo, hi, disc) && k <= |lo|
    requires forall j :: 0 <= j < |disc| ==> disc[j]
    ensures forall v :: v in Steps(lo, hi, k) ==> EnumeratedUpTo(lo, hi, k, v)
  {
    if k == 0 {
      assert EnumeratedUpTo(lo, hi, 0, lo);
    } else {
      StepsShape(lo, hi, disc, k - 1);
      var a, b := Trunc(lo[k - 1]), Trunc(hi[k - 1]);
      assert disc[k - 1];
      ExpandKeepsShape(lo, hi, k - 1, Steps(lo, hi, k - 1), a, b);
    }
  }

  /** enumerate on an all-discrete info yields the product of the value
      counts, and every vector it yields validates with whole values. */
  lemma EnumerationShape(lo: seq<real>, hi: seq<real>, disc: seq<bool>)
    requires WellFormed(lo, hi, disc)
    requires forall j :: 0 <= j < |disc| ==> disc[j]
    ensures |Steps(lo, hi, |lo|)| == Product(lo, hi, |lo|)
    ensures forall v :: v in Steps(lo, hi, |lo|) ==>
      Validates(lo, hi, v) && forall j :: 0 <= j < |v| ==> IsIntegral(v[j])
  {
    StepsLength(lo, hi, |lo|);
    StepsShape(lo, hi, disc, |lo|);
    forall v | v in Steps(lo, hi, |lo|)
      ensures Validates(lo, hi, v) && forall j :: 0 <= j < |v| ==> IsIntegral(v[j])
    {
      assert EnumeratedUpTo(lo, hi, |lo|, v);
    }
  }

  /** One position of enumerate's inner loops: the values of position i
      for each listed vector. */
  method ExpandList(vs: seq<seq<real>>, i: nat, a: int, b: int) returns (r: seq<seq<real>>)
    requires forall v :: v in vs ==> i < |v|
    ensures r == Expand(vs, i, a, b)
  {
    r := [];
    var k := 0;
    while k < |vs|
      invariant k <= |vs| && r == Expand(vs[..k], i, a, b)
    {
      assert vs[k] in vs;
      var c := a;
      var batch := [];
      while c <= b
        invariant a <= c <= if b < a then a else b + 1
        invariant batch == Range(vs[k], i, a, c - 1)
      {
        var v := vs[k];
        v := v[i := c as real];
        batch := batch + [v];
        c := c + 1;
      }
      assert batch == Range(vs[k], i, a, b);
      assert vs[..k + 1][..k] == vs[..k] && vs[..k + 1][k] == vs[k];
      r := r + batch;
      k := k + 1;
    }
    assert vs[..k] == vs;
  }

  // ---------------------------------------------------------------------
  // The text form read by Converter

  /** What `>>` sees in the text: a number, or anything else. */
  datatype Token = Number(value: real) | Word(text: string)

  /** `>> bool`: the numbers 0 and 1. */
  function ReadFlag(t: Token): (r: Option<bool>)
    ensures r.Some? <==> t.Number? && (t.value == 0.0 || t.value == 1.0)
    ensures r.Some? ==> r.value == (t.value == 1.0)
  {
    if t.Number? && t.value == 1.0 then Some(true)
    else if t.Number? && t.value == 0.0 then Some(false)
    else None
  }

  /** `>> int` and `>> double`: a whole number, any number. */
  function ReadValue(t: Token, whole: bool): (r: Option<real>)
    ensures r.Some? <==> t.Number? && (whole ==> IsIntegral(t.value))
    ensures r.Some? ==> r.value == t.value
  {
    if t.Number? && (!whole || IsIntegral(t.value)) then Some(t.value) else None
  }

  /** The triple at the head of the text, its flag read: None when its
      min or max is missing or unreadable. */
  function ReadTriple(us: seq<Token>): (r: Option<Bound>)
    requires us != [] && ReadFlag(us[0]).Some?
    ensures r.Some? ==> r.value.discrete == ReadFlag(us[0]).value
  {
    var d := ReadFlag(us[0]).value;
    if |us| < 3 then None
    else match (ReadValue(us[1], d), ReadValue(us[2], d))
      case (Some(lo), Some(hi)) => Some(Bound(lo, hi, d))
      case _ => None
  }

  /** The bounds read from a token sequence, and whether reading ended
      well: it stops, successfully, at the end or at a token that is not a
      flag, and fails on a triple whose min or max is missing or
      unreadable. */
  function ParseBounds(ts: seq<Token>): (seq<Bound>, bool)
  {
    if ts == [] || ReadFlag(ts[0]).None? then ([], true)
    else if ReadTriple(ts).None? then ([], false)
    else
      var rest := ParseBounds(ts[3..]);
      ([ReadTriple(ts).value] + rest.0, rest.1)
  }

  /** The text form of one bound. */
  function TokensOf(b: Bound): seq<Token>
  {
    [Number(if b.discrete then 1.0 else 0.0), Number(b.min), Number(b.max)]
  }

  function Text(bs: seq<Bound>): seq<Token>
  {
    if bs == [] then [] else TokensOf(bs[0]) + Text(bs[1..])
  }

  predicate Readable(b: Bound)
  {
    b.discrete ==> IsIntegral(b.min) && IsIntegral(b.max)
  }

  /** Reading the text of some bounds followed by anything gives those
      bounds, then whatever the rest gives. */
  lemma {:induction false} ParseText(bs: seq<Bound>, rest: seq<Token>)
    requires forall b :: b in bs ==> Readable(b)
    ensures ParseBounds(Text(bs) + rest) == (bs + ParseBounds(rest).0, ParseBounds(rest).1)
  {
    if bs == [] {
      assert Text(bs) + rest == rest;
      assert bs + ParseBounds(rest).0 == ParseBounds(rest).0;
    } else {
      var b, tail := bs[0], Text(bs[1..]) + rest;
      assert Text(bs) + rest == TokensOf(b) + tail;
      assert b in bs && forall c :: c in bs[1..] ==> c in bs;
      ParseOne(b, tail);
      ParseText(bs[1..], rest);
      assert [b] + (bs[1..] + ParseBounds(rest).0) == bs + ParseBounds(rest).0;
    }
  }

  /** The text of one readable bound reads back as that bound, followed by
      whatever comes after. */
  lemma ParseOne(b: Bound, tail: seq<Token>)
    requires Readable(b)
    ensures ParseBounds(TokensOf(b) + tail) == ([b] + ParseBounds(tail).0, ParseBounds(tail).1)
  {
    var ts := TokensOf(b) + tail;
    assert ts[3..] == tail;
    assert ts[0] == Number(if b.discrete then 1.0 else 0.0);
    assert ReadFlag(ts[0]) == Some(b.discrete);
    assert ts[1] == Number(b.min) && ts[2] == Number(b.max);
    assert ReadValue(ts[1], b.discrete) == Some(b.min);
    assert ReadValue(ts[2], b.discrete) == Some(b.max);
  }

  /** The text of readable bounds reads back as those bounds; a triple cut
      short after its flag or its min makes the reading fail with the
      earlier bounds read; a word where a flag is due ends it well. */
  lemma TextRoundTrip(bs: seq<Bound>, x: real, w: string, more: seq<Token>)
    requires forall b :: b in bs ==> Readable(b)
    ensures ParseBounds(Text(bs)) == (bs, true)
    ensures ParseBounds(Text(bs) + [Number(1.0)]) == (bs, false)
    ensures ParseBounds(Text(bs) + [Number(0.0), Number(x)]) == (bs, false)
    ensures ParseBounds(Text(bs) + [Word(w)] + more) == (bs, true)
  {
    assert bs + [] == bs;
    ParseText(bs, []);
    assert Text(bs) + [] == Text(bs);
    ParseText(bs, [Number(1.0)]);
    assert ParseBounds([Number(1.0)]) == ([], false);
    ParseText(bs, [Number(0.0), Number(x)]);
    assert ParseBounds([Number(0.0), Number(x)]) == ([], false);
    ParseText(bs, [Word(w)] + more);
    assert ParseBounds([Word(w)] + more) == ([], true);
    assert Text(bs) + [Word(w)] + more == Text(bs) + ([Word(w)] + more);
  }

  function Mins(bs: seq<Bound>): seq<real>
  {
    if bs == [] then [] else Mins(bs[..|bs| - 1]) + [bs[|bs| - 1].min]
  }

  function Maxs(bs: seq<Bound>): seq<real>
  {
    if bs == [] then [] else Maxs(bs[..|bs| - 1]) + [bs[|bs| - 1].max]
  }

  function Kinds(bs: seq<Bound>): seq<bool>
  {
    if bs == [] then [] else Kinds(bs[..|bs| - 1]) + [bs[|bs| - 1].discrete]
  }

  /** Every bound read is readable back from its own text. */
  lemma {:induction false} ParsedAreReadable(ts: seq<Token>)
    ensures forall b :: b in ParseBounds(ts).0 ==> Readable(b)
  {
    if ts != [] && ReadFlag(ts[0]).Some? && |ts| >= 3 {
      ParsedAreReadable(ts[3..]);
    }
  }

  /** One triple read at position k: its bound joins the ones read
      before. */
  lemma ParseStep(ts: seq<Token>, k: nat, read: seq<Bound>)
    requires k < |ts| && ReadFlag(ts[k]).Some? && ReadTriple(ts[k..]).Some?
    requires ParseBounds(ts) == (read + ParseBounds(ts[k..]).0, ParseBounds(ts[k..]).1)
    ensures k + 3 <= |ts| && ReadTriple(ts[k..]).value in ParseBounds(ts).0
    ensures ParseBounds(ts) == (read + [ReadTriple(ts[k..]).value] + ParseBounds(ts[k + 3..]).0, ParseBounds(ts[k + 3..]).1)
  {
    var us := ts[k..];
    var b := ReadTriple(us).value;
    var tail := ParseBounds(us[3..]).0;
    assert us[3..] == ts[k + 3..];
    assert read + ([b] + tail) == (read + [b]) + tail;
    assert (read + [b] + tail)[|read|] == b;
  }

  lemma SnocColumns(bs: seq<Bound>, b: Bound)
    ensures Mins(bs + [b]) == Mins(bs) + [b.min]
    ensures Maxs(bs + [b]) == Maxs(bs) + [b.max]
    ensures Kinds(bs + [b]) == Kinds(bs) + [b.discrete]
  {
    assert (bs + [b])[..|bs|] == bs;
  }

  /** The columns after one more bound, each behind a prefix. */
  lemma ColumnsGrow(lo: seq<real>, hi: seq<real>, disc: seq<bool>, bs: seq<Bound>, b: Bound)
    ensures lo + Mins(bs) + [b.min] == lo + Mins(bs + [b])
    ensures hi + Maxs(bs) + [b.max] == hi + Maxs(bs + [b])
    ensures disc + Kinds(bs) + [b.discrete] == disc + Kinds(bs + [b])
  {
    SnocColumns(bs, b);
  }

  // ---------------------------------------------------------------------
  // FeatureVectorInfo

  class FeatureVectorInfo {
    var lower: seq<real>
    var upper: seq<real>
    var discreteness: seq<bool>

    ghost predicate Valid()
      reads this
    {
      WellFormed(lower, upper, discreteness)
    }

    function Size(): nat
      reads this
    {
      |lower|
    }

    /** The empty info. */
    constructor ()
      ensures Valid() && lower == [] && upper == [] && discreteness == []
    {
      lower, upper, discreteness := [], [], [];
    }

    /** FeatureVectorInfo(size): `size` continuous positions bounded by
        [0, 0]. */
    constructor Sized(size: nat)
      ensures Valid()
      ensures lower == Constant(size, 0.0) && upper == Constant(size, 0.0)
      ensures discreteness == seq(size, _ => false)
    {
      lower, upper, discreteness := Constant(size, 0.0), Constant(size, 0.0), seq(size, _ => false);
    }

    /** getBound. */
    function GetBound(i: nat): Bound
      reads this
      requires i < |lower| && i < |upper| && i < |discreteness|
    {
      Bound(lower[i], upper[i], discreteness[i])
    }

    method SetContinuous(i: nat, min: real, max: real)
      requires Valid() && i < Size() && min < max
      modifies this
      ensures Valid()
      ensures lower == old(lower)[i := min] && upper == old(upper)[i := max]
      ensures discreteness == old(discreteness)[i := false]
    {
      lower, upper, discreteness := lower[i := min], upper[i := max], discreteness[i := false];
    }

    method SetDiscrete(i: nat, min: int, max: int)
      requires Valid() && i < Size() && min < max
      modifies this
      ensures Valid()
      ensures lower == old(lower)[i := min as real] && upper == old(upper)[i := max as real]
      ensures discreteness == old(discreteness)[i := true]
    {
      lower, upper, discreteness := lower[i := min as real], upper[i := max as real], discreteness[i := true];
    }

    method AddContinuous(min: real, max: real) returns (index: nat)
      requires Valid() && min < max
      modifies this
      ensures Valid()
      ensures lower == old(lower) + [min] && upper == old(upper) + [max]
      ensures discreteness == old(discreteness) + [false]
      ensures index == |old(lower)| && GetBound(index) == Bound(min, max, false)
    {
      lower, upper, discreteness := lower + [min], upper + [max], discreteness + [false];
      index := |lower| - 1;
    }

    method AddDiscrete(min: int, max: int) returns (index: nat)
      requires Valid() && min < max
      modifies this
      ensures Valid()
      ensures lower == old(lower) + [min as real] && upper == old(upper) + [max as real]
      ensures discreteness == old(discreteness) + [true]
      ensures index == |old(lower)| && GetBound(index) == Bound(min as real, max as real, true)
    {
      lower, upper, discreteness := lower + [min as real], upper + [max as real], discreteness + [true];
      index := |lower| - 1;
    }

    /** add: a discrete bound's limits are truncated to whole numbers; a
        bound with whole limits is stored as given. */
    method Add(b: Bound) returns (index: nat)
      requires Valid()
      requires if b.discrete then Trunc(b.min) < Trunc(b.max) else b.min < b.max
      modifies this
      ensures Valid() && index == |old(lower)| && index < Size()
      ensures discreteness == old(discreteness) + [b.discrete]
      ensures lower == old(lower) + [if b.discrete then Trunc(b.min) as real else b.min]
      ensures upper == old(upper) + [if b.discrete then Trunc(b.max) as real else b.max]
      ensures Readable(b) ==> GetBound(index) == b
    {
      if b.discrete {
        index := AddDiscrete(Trunc(b.min), Trunc(b.max));
      } else {
        index := AddContinuous(b.min, b.max);
      }
    }

    /** One triple of Convert: addDiscrete for a discrete one, whose
        limits were read as whole numbers, addContinuous otherwise. */
    method AddRead(b: Bound)
      requires Valid() && b.min < b.max
      requires b.discrete ==> IsIntegral(b.min) && IsIntegral(b.max)
      modifies this
      ensures Valid()
      ensures lower == old(lower) + [b.min] && upper == old(upper) + [b.max]
      ensures discreteness == old(discreteness) + [b.discrete]
    {
      if b.discrete {
        var _ := AddDiscrete(b.min.Floor, b.max.Floor);
      } else {
        var _ := AddContinuous(b.min, b.max);
      }
    }

    method Validate(a: seq<real>) returns (ok: bool)
      requires Valid()
      ensures ok == Validates(lower, upper, a)
    {
      if |a| != |lower| {
        return false;
      }
      var i := 0;
      while i < |lower|
        invariant i <= |lower| && forall j :: 0 <= j < i ==> lower[j] <= a[j] <= upper[j]
      {
        if a[i] < lower[i] || a[i] > upper[i] {
          return false;
        }
        i := i + 1;
      }
      return true;
    }

    /** getInstance: the lower bounds, a valid vector. */
    method GetInstance() returns (r: seq<real>)
      requires Valid()
      ensures r == lower && Validates(lower, upper, r)
    {
      r := [];
      var i := 0;
      while i < |lower|
        invariant i <= |lower| && r == lower[..i]
      {
        r := r + [lower[i]];
        i := i + 1;
      }
    }

    method Normalize(a: seq<real>) returns (r: seq<real>)
      requires Valid() && Validates(lower, upper, a)
      ensures r == NormalizedAsWritten(lower, upper, a)
    {
      r := a;
      var i := 0;
      while i < |lower|
        invariant i <= |lower| && |r| == |a|
        invariant forall j :: 0 <= j < i ==> r[j] == NormalizedAsWritten(lower, upper, a)[j]
        invariant forall j :: i <= j < |a| ==> r[j] == a[j]
      {
        var d := upper[i] - lower[i];
        if d > 0.0 && d != 1.0 {
          r := r[i := (a[i] - lower[i]) / d];
        }
        i := i + 1;
      }
    }

    method Denormalize(a: seq<real>) returns (r: seq<real>)
      requires Valid() && |a| >= Size()
      ensures r == Denormalized(lower, upper, a)
    {
      r := a;
      var i := 0;
      while i < |lower|
        invariant i <= |lower| && |r| == |a|
        invariant forall j :: 0 <= j < i ==> r[j] == Denormalized(lower, upper, a)[j]
        invariant forall j :: i <= j < |a| ==> r[j] == a[j]
      {
        var d := upper[i] - lower[i];
        r := r[i := a[i] * d + lower[i]];
        i := i + 1;
      }
    }

    /** enumerate: all vectors of an all-discrete info, the last position
        varying fastest. */
    method Enumerate() returns (r: seq<seq<real>>)
      requires Valid() && forall j :: 0 <= j < |discreteness| ==> discreteness[j]
      ensures r == Steps(lower, upper, |lower|)
      ensures |r| == Product(lower, upper, |lower|)
      ensures forall v :: v in r ==> Validates(lower, upper, v)
    {
      var instance := GetInstance();
      r := [instance];
      var i := 0;
      while i < |lower|
        invariant i <= |lower| && r == Steps(lower, upper, i)
      {
        StepsShape(lower, upper, discreteness, i);
        assert forall v :: v in r ==> EnumeratedUpTo(lower, upper, i, v);
        r := ExpandList(r, i, Trunc(lower[i]), Trunc(upper[i]));
        i := i + 1;
      }
      EnumerationShape(lower, upper, discreteness);
    }

    /** Converter: reads (discrete, min, max) triples and adds one position
        per triple, until the text ends or a flag cannot be read (true) or
        a min or max cannot be read (false). Positions added before a
        failure stay added. */
    method Convert(ts: seq<Token>) returns (ok: bool)
      requires Valid()
      requires forall b :: b in ParseBounds(ts).0 ==> b.min < b.max
      modifies this
      ensures Valid() && ok == ParseBounds(ts).1
      ensures lower == old(lower) + Mins(ParseBounds(ts).0)
      ensures upper == old(upper) + Maxs(ParseBounds(ts).0)
      ensures discreteness == old(discreteness) + Kinds(ParseBounds(ts).0)
    {
      var k := 0;
      ghost var read: seq<Bound> := [];
      assert ts[k..] == ts;
      assert read + ParseBounds(ts).0 == ParseBounds(ts).0;
      while k < |ts| && ReadFlag(ts[k]).Some?
        invariant k <= |ts| && Valid()
        invariant ParseBounds(ts) == (read + ParseBounds(ts[k..]).0, ParseBounds(ts[k..]).1)
        invariant lower == old(lower) + Mins(read) && upper == old(upper) + Maxs(read)
        invariant discreteness == old(discreteness) + Kinds(read)
        decreases |ts| - k
      {
        var triple := ReadTriple(ts[k..]);
        if triple.None? {
          assert read + [] == read;
          return false;
        }
        var b := triple.value;
        ParseStep(ts, k, read);
        ColumnsGrow(old(lower), old(upper), old(discreteness), read, b);
        AddRead(b);
        read := read + [b];
        k := k + 3;
      }
      assert ParseBounds(ts[k..]) == ([], true);
      assert read + [] == read;
      return true;
    }
  }

  /** AgentInitInfo: sensors, actions and rewards, each position bounded
      by [0, 1]. */
  method UnitBounds(n: nat) returns (f: FeatureVectorInfo)
    ensures fresh(f) && f.Valid()
    ensures f.lower == Constant(n, 0.0) && f.upper == Constant(n, 1.0)
    ensures f.discreteness == seq(n, _ => false)
  {
    f := new FeatureVectorInfo.Sized(n);
    var i := 0;
    while i < n
      invariant i <= n && f.Valid() && f.lower == Constant(n, 0.0)
      invariant f.discreteness == seq(n, _ => false) && |f.upper| == n
      invariant forall j :: 0 <= j < n ==> f.upper[j] == if j < i then 1.0 else 0.0
    {
      f.SetContinuous(i, 0.0, 1.0);
      i := i + 1;
    }
  }

  class AgentInitInfo {
    const sensors: FeatureVectorInfo
    const actions: FeatureVectorInfo
    const reward: FeatureVectorInfo

    constructor (nSensors: nat, nActions: nat, nRewards: nat)
      ensures sensors.Valid() && sensors.Size() == nSensors
      ensures actions.Valid() && actions.Size() == nActions
      ensures reward.Valid() && reward.Size() == nRewards
      ensures sensors.upper == Constant(nSensors, 1.0) && actions.upper == Constant(nActions, 1.0)
      ensures reward.upper == Constant(nRewards, 1.0)
      ensures sensors.lower == Constant(nSensors, 0.0) && actions.lower == Constant(nActions, 0.0)
      ensures reward.lower == Constant(nRewards, 0.0)
      ensures sensors.discreteness == seq(nSensors, _ => false)
      ensures actions.discreteness == seq(nActions, _ => false)
      ensures reward.discreteness == seq(nRewards, _ => false)
    {
      var s := UnitBounds(nSensors);
      var a := UnitBounds(nActions);
      var r := UnitBounds(nRewards);
      sensors, actions, reward := s, a, r;
    }
  }
}
