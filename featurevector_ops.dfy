/** The teaching branch's additions to feature vectors
    (branches/cs394n-f11/source/ai/AI.cpp): an instance that prefers 0
    within the bounds, and componentwise arithmetic on vectors of doubles
    (reals here). The operators returning a new vector take and give
    sequences; the compound assignments update the left operand in place,
    an array here. */
module FeatureVectorArithmetic {
  import opened FeatureVectors

  // ---------------------------------------------------------------------
  // getInstance

  /** The instance value of one position: 0 when it lies within the
      bounds, else the lower bound. */
  function InstanceValue(lo: real, hi: real): real
  {
    if lo <= 0.0 && 0.0 <= hi then 0.0 else lo
  }

  /** getInstance: a valid vector, 0 wherever 0 is allowed and the lower
      bound elsewhere. */
  method GetInstance(info: FeatureVectorInfo) returns (r: seq<real>)
    requires info.Valid()
    ensures Validates(info.lower, info.upper, r)
    ensures forall i :: 0 <= i < |r| ==>
      (r[i] == 0.0 <==> info.lower[i] <= 0.0 <= info.upper[i])
    ensures forall i :: 0 <= i < |r| ==> r[i] == 0.0 || r[i] == info.lower[i]
  {
    r := [];
    var i := 0;
    while i < |info.lower|
      invariant i <= |info.lower| && |r| == i
      invariant forall j :: 0 <= j < i ==> r[j] == InstanceValue(info.lower[j], info.upper[j])
    {
      if info.lower[i] <= 0.0 && 0.0 <= info.upper[i] {
        r := r + [0.0];
      } else {
        r := r + [info.lower[i]];
      }
      i := i + 1;
    }
  }

  /** Where the bounds do not lie wholly below 0, the instance value is the
      allowed value nearest to 0. */
  lemma InstanceNearestZero(lo: real, hi: real, x: real)
    requires lo <= x <= hi && 0.0 <= hi
    ensures Abs(InstanceValue(lo, hi)) <= Abs(x)
  {
  }

  /** Below 0 the lower bound is taken, the allowed value farthest from
      0. */
  lemma InstanceBelowZero(lo: real, hi: real, x: real)
    requires lo <= x <= hi < 0.0
    ensures InstanceValue(lo, hi) == lo && Abs(x) <= Abs(InstanceValue(lo, hi))
  {
  }

  function Abs(x: real): real
  {
    if x < 0.0 then -x else x
  }

  /** AgentInitInfo's [0, 1] positions give the all-zero instance. */
  method AgentInstanceIsZero(n: nat) returns (r: seq<real>)
    ensures r == Constant(n, 0.0)
  {
    var info := UnitBounds(n);
    r := GetInstance(info);
  }

  // ---------------------------------------------------------------------
  // Componentwise arithmetic

  function Sum(a: seq<real>, b: seq<real>): (r: seq<real>)
    requires |a| == |b|
  {
    seq(|a|, i requires 0 <= i < |a| => a[i] + b[i])
  }

  function Difference(a: seq<real>, b: seq<real>): (r: seq<real>)
    requires |a| == |b|
  {
    seq(|a|, i requires 0 <= i < |a| => a[i] - b[i])
  }

  function Scaled(a: seq<real>, c: real): (r: seq<real>)
  {
    seq(|a|, i requires 0 <= i < |a| => a[i] * c)
  }

  function Divided(a: seq<real>, c: real): (r: seq<real>)
    requires c != 0.0
  {
    seq(|a|, i requires 0 <= i < |a| => a[i] / c)
  }

  /** Subtracting undoes adding, and adding the difference reaches the
      other vector. */
  lemma SumDifferenceInverse(a: seq<real>, b: seq<real>)
    requires |a| == |b|
    ensures Difference(Sum(a, b), b) == a
    ensures Sum(b, Difference(a, b)) == a
    ensures Sum(a, b) == Sum(b, a)
  {
  }

  /** Dividing undoes scaling by a non-zero factor, and scaling
      distributes over the sum. */
  lemma ScaleDivideInverse(a: seq<real>, b: seq<real>, c: real)
    requires |a| == |b| && c != 0.0
    ensures Divided(Scaled(a, c), c) == a
    ensures Scaled(Sum(a, b), c) == Sum(Scaled(a, c), Scaled(b, c))
  {
    var s := Divided(Scaled(a, c), c);
    forall i | 0 <= i < |a|
      ensures s[i] == a[i]
    {
      assert a[i] * c / c == a[i];
    }
    var t := Scaled(Sum(a, b), c);
    var u := Sum(Scaled(a, c), Scaled(b, c));
    forall i | 0 <= i < |a|
      ensures t[i] == u[i]
    {
      assert (a[i] + b[i]) * c == a[i] * c + b[i] * c;
    }
  }

  /** operator+ */
  method Plus(left: seq<real>, right: seq<real>) returns (r: seq<real>)
    requires |left| == |right|
    ensures |r| == |left| && r == Sum(left, right)
  {
    r := left;
    var i := 0;
    while i < |left|
      invariant i <= |left| && |r| == |left|
      invariant forall j :: 0 <= j < i ==> r[j] == left[j] + right[j]
    {
      r := r[i := left[i] + right[i]];
      i := i + 1;
    }
  }

  /** operator- */
  method Minus(left: seq<real>, right: seq<real>) returns (r: seq<real>)
    requires |left| == |right|
    ensures |r| == |left| && r == Difference(left, right)
  {
    r := left;
    var i := 0;
    while i < |left|
      invariant i <= |left| && |r| == |left|
      invariant forall j :: 0 <= j < i ==> r[j] == left[j] - right[j]
    {
      r := r[i := left[i] - right[i]];
      i := i + 1;
    }
  }

  /** operator* with a scalar. */
  method Times(left: seq<real>, right: real) returns (r: seq<real>)
    ensures |r| == |left| && r == Scaled(left, right)
  {
    r := left;
    var i := 0;
    while i < |left|
      invariant i <= |left| && |r| == |left|
      invariant forall j :: 0 <= j < i ==> r[j] == left[j] * right
    {
      r := r[i := left[i] * right];
      i := i + 1;
    }
    assert forall j :: 0 <= j < |r| ==> r[j] == Scaled(left, right)[j];
  }

  /** operator/ with a scalar. */
  method Over(left: seq<real>, right: real) returns (r: seq<real>)
    requires right != 0.0
    ensures |r| == |left| && r == Divided(left, right)
  {
    r := left;
    var i := 0;
    while i < |left|
      invariant i <= |left| && |r| == |left|
      invariant forall j :: 0 <= j < i ==> r[j] == left[j] / right
    {
      r := r[i := left[i] / right];
      i := i + 1;
    }
  }

  /** operator+= */
  method PlusAssign(left: array<real>, right: seq<real>)
    requires left.Length == |right|
    modifies left
    ensures left[..] == Sum(old(left[..]), right)
  {
    var i := 0;
    while i < left.Length
      invariant i <= left.Length
      invariant forall j :: 0 <= j < i ==> left[j] == old(left[j]) + right[j]
      invariant forall j :: i <= j < left.Length ==> left[j] == old(left[j])
    {
      left[i] := left[i] + right[i];
      i := i + 1;
    }
  }

  /** operator-= */
  method MinusAssign(left: array<real>, right: seq<real>)
    requires left.Length == |right|
    modifies left
    ensures left[..] == Difference(old(left[..]), right)
  {
    var i := 0;
    while i < left.Length
      invariant i <= left.Length
      invariant forall j :: 0 <= j < i ==> left[j] == old(left[j]) - right[j]
      invariant forall j :: i <= j < left.Length ==> left[j] == old(left[j])
    {
      left[i] := left[i] - right[i];
      i := i + 1;
    }
  }

  /** operator*= */
  method TimesAssign(left: array<real>, right: real)
    modifies left
    ensures left[..] == Scaled(old(left[..]), right)
  {
    var i := 0;
    while i < left.Length
      invariant i <= left.Length
      invariant forall j :: 0 <= j < i ==> left[j] == old(left[j]) * right
      invariant forall j :: i <= j < left.Length ==> left[j] == old(left[j])
    {
      left[i] := left[i] * right;
      i := i + 1;
    }
    assert forall j :: 0 <= j < left.Length ==> left[..][j] == Scaled(old(left[..]), right)[j];
  }

  /** operator/= */
  method OverAssign(left: array<real>, right: real)
    requires right != 0.0
    modifies left
    ensures left[..] == Divided(old(left[..]), right)
  {
    var i := 0;
    while i < left.Length
      invariant i <= left.Length
      invariant forall j :: 0 <= j < i ==> left[j] == old(left[j]) / right
      invariant forall j :: i <= j < left.Length ==> left[j] == old(left[j])
    {
      left[i] := left[i] / right;
      i := i + 1;
    }
  }

  /** `v += d; v -= d` leaves v as it was. */
  method AddThenSubtract(v: array<real>, d: seq<real>)
    requires v.Length == |d|
    modifies v
    ensures v[..] == old(v[..])
  {
    PlusAssign(v, d);
    MinusAssign(v, d);
    SumDifferenceInverse(old(v[..]), d);
  }
}
