/** Grid-style tile coding after the UNH CMAC code
    (trunk/source/ai/rl/tiles2.cpp): a modulus that is never negative, the
    UNH hash of a list of integers into a table of a given size, the tile
    numbers of one point in every tiling, and the collision table that
    detects and resolves hash collisions by open addressing.

    tiles2.h is not part of this model: MaxLONGINT is taken as 2147483647,
    its value in the published tile-coding code, and `long` as 64 bits wide
    (no sum of hashed numbers overflows). The 2048 random numbers hash_UNH
    draws from rand() on its first call are a parameter. */
module Tiles {
  import opened Wrappers

  const MaxLongInt := 2147483647
  const RandomCount := 2048

  /** The remainder of C's `%`, whose sign follows the dividend. */
  function CRem(a: int, b: int): int
    requires b > 0
  {
    if a >= 0 then a % b else -((-a) % b)
  }

  /** mod(n, k) */
  function Mod(n: int, k: int): int
    requires k > 0
  {
    if n >= 0 then CRem(n, k) else k - 1 - CRem(-n - 1, k)
  }

  /** The remainder of a division is the only one in [0, k). */
  lemma RemainderUnique(n: int, k: int, q: int, r: int)
    requires k > 0 && n == q * k + r && 0 <= r < k
    ensures n % k == r && n / k == q
  {
    var q', r' := n / k, n % k;
    assert n == q' * k + r';
    var d := q - q';
    assert d * k == q * k - q' * k;
    assert d * k == r' - r;
    if d >= 1 {
      MulAtLeast(d, k);
    } else if d <= -1 {
      MulAtLeast(-d, k);
    }
  }

  lemma MulAtLeast(d: int, k: int)
    requires d >= 1 && k > 0
    ensures d * k >= k
  {
    assert d * k == (d - 1) * k + k;
  }

  /** mod(n, k) is the mathematical remainder: it lies in [0, k) and differs
      from n by a multiple of k, for negative n too. */
  lemma {:induction false} ModIsRemainder(n: int, k: int)
    requires k > 0
    ensures Mod(n, k) == n % k
    ensures 0 <= Mod(n, k) < k
  {
    if n < 0 {
      var q, r := (-n - 1) / k, (-n - 1) % k;
      assert -n - 1 == q * k + r;
      assert n == (-q - 1) * k + (k - 1 - r);
      RemainderUnique(n, k, -q - 1, k - 1 - r);
    }
  }

  // ---------------------------------------------------------------------
  // hash_UNH

  /** The random numbers hash_UNH draws once: 2048 unsigned 32-bit words. */
  predicate RandomTable(rnd: seq<int>)
  {
    |rnd| == RandomCount && forall k :: 0 <= k < |rnd| ==> 0 <= rnd[k] < 0x1_0000_0000
  }

  /** The sum of the random numbers the first n integers select, each
      offset by increment times its position and wrapped into the table. */
  function HashSum(ints: seq<int>, increment: int, rnd: seq<int>, n: nat): int
    requires RandomTable(rnd) && n <= |ints|
  {
    if n == 0 then 0
    else HashSum(ints, increment, rnd, n - 1) + rnd[(ints[n - 1] + increment * (n - 1)) % RandomCount]
  }

  lemma {:induction false} HashSumNonNegative(ints: seq<int>, increment: int, rnd: seq<int>, n: nat)
    requires RandomTable(rnd) && n <= |ints|
    ensures HashSum(ints, increment, rnd, n) >= 0
  {
    if n > 0 {
      HashSumNonNegative(ints, increment, rnd, n - 1);
    }
  }

  /** The hash of a list of integers into [0, m). */
  function HashValue(ints: seq<int>, m: int, increment: int, rnd: seq<int>): int
    requires RandomTable(rnd) && m > 0
  {
    HashSum(ints, increment, rnd, |ints|) % m
  }

  /** C's remainder is the mathematical one, or that less n for a negative
      dividend. */
  lemma CRemWrap(x: int, n: int)
    requires n > 0
    ensures CRem(x, n) >= 0 ==> CRem(x, n) == x % n
    ensures CRem(x, n) < 0 ==> CRem(x, n) + n == x % n
    ensures -n < CRem(x, n) < n
  {
    if x < 0 {
      var q, r := (-x) / n, (-x) % n;
      assert -x == q * n + r;
      if r == 0 {
        RemainderUnique(x, n, -q, 0);
      } else {
        RemainderUnique(x, n, -q - 1, n - r);
      }
    }
  }

  /** `x %= n` in C followed by adding n while negative: the mathematical
      remainder. */
  method Wrap(x: int, n: int) returns (index: int)
    requires n > 0
    ensures index == x % n && 0 <= index < n
  {
    CRemWrap(x, n);
    index := CRem(x, n);
    while index < 0
      invariant index == CRem(x, n) || index == x % n
      decreases -index
    {
      index := index + n;
    }
  }

  /** hash_UNH: the sum of the selected random numbers, reduced into
      [0, m). */
  method HashUNH(ints: seq<int>, m: int, increment: int, rnd: seq<int>) returns (r: int)
    requires RandomTable(rnd) && m > 0
    ensures r == HashValue(ints, m, increment, rnd) && 0 <= r < m
  {
    var sum := 0;
    var i := 0;
    while i < |ints|
      invariant i <= |ints| && sum == HashSum(ints, increment, rnd, i)
    {
      var index := Wrap(ints[i] + increment * i, RandomCount);
      sum := sum + rnd[index];
      i := i + 1;
    }
    r := Wrap(sum, m);
  }

  // ---------------------------------------------------------------------
  // GetTiles

  /** The grid coordinate of a quantized value in the tiling whose grid is
      displaced by base. */
  function TileCoordinate(q: int, base: int, numTilings: int): int
    requires numTilings > 0
  {
    q - Mod(q - base, numTilings)
  }

  /** The activated tile is the one of width numTilings on the displaced
      grid that contains q: its corner is at most q, within one width below
      it, and on the grid. */
  lemma TileContainsPoint(q: int, base: int, numTilings: int)
    requires numTilings > 0
    ensures var c := TileCoordinate(q, base, numTilings);
      q - numTilings < c <= q && (c - base) % numTilings == 0
  {
    ModIsRemainder(q - base, numTilings);
    var c := TileCoordinate(q, base, numTilings);
    var d := (q - base) / numTilings;
    assert c - base == d * numTilings;
    RemainderUnique(c - base, numTilings, d, 0);
  }

  /** The integers hashed for tiling j: a tile coordinate per float, whose
      grid in dimension i is displaced by j * (1 + 2i), then j, then the
      integer variables. */
  function Coordinates(qstate: seq<int>, ints: seq<int>, j: int, numTilings: int): seq<int>
    requires numTilings > 0
  {
    seq(|qstate|, i requires 0 <= i < |qstate| => TileCoordinate(qstate[i], j * (1 + 2 * i), numTilings))
      + [j] + ints
  }

  /** The floats quantized to integers, tile widths becoming numTilings. */
  function Quantized(floats: seq<real>, numTilings: int): seq<int>
  {
    seq(|floats|, i requires 0 <= i < |floats| => (floats[i] * numTilings as real).Floor)
  }

  /** One tiling's coordinates, computed as the source's inner loop does;
      base holds the displacements and moves on to the next tiling's. */
  method TilingCoordinates(qstate: seq<int>, base: seq<int>, ints: seq<int>, j: int, numTilings: int)
    returns (coordinates: seq<int>, next: seq<int>)
    requires numTilings > 0 && |base| == |qstate|
    requires forall i :: 0 <= i < |base| ==> base[i] == j * (1 + 2 * i)
    ensures coordinates == Coordinates(qstate, ints, j, numTilings)
    ensures |next| == |base| && forall i :: 0 <= i < |next| ==> next[i] == (j + 1) * (1 + 2 * i)
  {
    var c := [];
    next := base;
    var i := 0;
    while i < |qstate|
      invariant i <= |qstate| && |c| == i && |next| == |base|
      invariant forall k :: 0 <= k < i ==> c[k] == TileCoordinate(qstate[k], j * (1 + 2 * k), numTilings)
      invariant forall k :: 0 <= k < i ==> next[k] == (j + 1) * (1 + 2 * k)
      invariant forall k :: i <= k < |next| ==> next[k] == base[k]
    {
      c := c + [qstate[i] - Mod(qstate[i] - next[i], numTilings)];
      NextDisplacement(j, i);
      next := next[i := next[i] + 1 + 2 * i];
      i := i + 1;
    }
    assert c == Coordinates(qstate, ints, j, numTilings)[..|qstate|];
    coordinates := c + [j] + ints;
  }

  lemma NextDisplacement(j: int, i: int)
    ensures (j + 1) * (1 + 2 * i) == j * (1 + 2 * i) + 1 + 2 * i
  {
  }

  /** GetTiles with a memory size: one tile per tiling, the hash of that
      tiling's coordinates, each a valid index into the memory. */
  method GetTiles(numTilings: int, memorySize: int, floats: seq<real>, ints: seq<int>, rnd: seq<int>)
    returns (tiles: seq<int>)
    requires RandomTable(rnd) && numTilings >= 0 && (numTilings > 0 ==> memorySize > 0)
    ensures |tiles| == numTilings
    ensures forall j :: 0 <= j < numTilings ==>
      tiles[j] == HashValue(Coordinates(Quantized(floats, numTilings), ints, j, numTilings), memorySize, 449, rnd)
    ensures forall j :: 0 <= j < numTilings ==> 0 <= tiles[j] < memorySize
  {
    var qstate := [];
    var base := [];
    var i := 0;
    while i < |floats|
      invariant i <= |floats| && |qstate| == i && |base| == i
      invariant forall k :: 0 <= k < i ==> qstate[k] == (floats[k] * numTilings as real).Floor
      invariant forall k :: 0 <= k < i ==> base[k] == 0
    {
      qstate := qstate + [(floats[i] * numTilings as real).Floor];
      base := base + [0];
      i := i + 1;
    }
    assert forall k :: 0 <= k < |qstate| ==> qstate[k] == Quantized(floats, numTilings)[k];
    assert qstate == Quantized(floats, numTilings);
    tiles := [];
    var j := 0;
    while j < numTilings
      invariant j <= numTilings && |tiles| == j && |base| == |qstate|
      invariant forall k :: 0 <= k < |base| ==> base[k] == j * (1 + 2 * k)
      invariant forall k :: 0 <= k < j ==>
        tiles[k] == HashValue(Coordinates(qstate, ints, k, numTilings), memorySize, 449, rnd)
      invariant forall k :: 0 <= k < j ==> 0 <= tiles[k] < memorySize
    {
      var coordinates;
      coordinates, base := TilingCoordinates(qstate, base, ints, j, numTilings);
      var tile := HashUNH(coordinates, memorySize, 449, rnd);
      tiles := tiles + [tile];
      j := j + 1;
    }
  }

  // ---------------------------------------------------------------------
  // The collision table

  /** The table sizes the constructor accepts. */
  function Pow2(k: nat): nat
  {
    if k == 0 then 1 else 2 * Pow2(k - 1)
  }

  ghost predicate IsPowerOfTwo(n: int)
  {
    exists k: nat :: Pow2(k) == n
  }

  ghost predicate SizeAccepted(size: int)
  {
    size <= 2 || IsPowerOfTwo(size)
  }

  /** An odd number above 2 is no power of two. */
  lemma OddNotPowerOfTwo(n: int)
    requires n > 2 && n % 2 != 0
    ensures !IsPowerOfTwo(n)
  {
    forall k: nat
      ensures Pow2(k) != n
    {
      if k > 0 {
        assert Pow2(k) == 2 * Pow2(k - 1);
      }
    }
  }

  /** An even number is a power of two exactly when its half is. */
  lemma HalfPowerOfTwo(n: int)
    requires n >= 2 && n % 2 == 0
    ensures IsPowerOfTwo(n) <==> IsPowerOfTwo(n / 2)
  {
    if k: nat :| Pow2(k) == n {
      assert k != 0 && Pow2(k - 1) == n / 2;
    }
    if k: nat :| Pow2(k) == n / 2 {
      assert Pow2(k + 1) == n;
    }
  }

  /** The constructor's check: halve while above 2, failing at an odd
      number. Only sizes up to 2 and powers of two pass. */
  method CheckSize(size: int) returns (ok: bool)
    ensures ok <==> SizeAccepted(size)
  {
    var tmp := size;
    while tmp > 2
      invariant tmp <= size && (size > 2 ==> tmp >= 2)
      invariant size > 2 ==> (IsPowerOfTwo(size) <==> IsPowerOfTwo(tmp))
    {
      if tmp % 2 != 0 {
        OddNotPowerOfTwo(tmp);
        return false;
      }
      HalfPowerOfTwo(tmp);
      tmp := tmp / 2;
    }
    if size > 2 {
      assert tmp == 2 && Pow2(1) == 2;
    }
    return true;
  }

  /** The number of slots in use, those not -1. */
  function Used(s: seq<int>): (r: nat)
    ensures r <= |s|
  {
    if s == [] then 0 else Used(s[..|s| - 1]) + (if s[|s| - 1] != -1 then 1 else 0)
  }

  lemma {:induction false} UsedNone(s: seq<int>)
    requires forall i :: 0 <= i < |s| ==> s[i] == -1
    ensures Used(s) == 0
  {
    if s != [] {
      UsedNone(s[..|s| - 1]);
    }
  }

  /** Filling a free slot uses one slot more. */
  lemma {:induction false} UsedFill(s: seq<int>, j: int, c: int)
    requires 0 <= j < |s| && s[j] == -1 && c != -1
    ensures Used(s[j := c]) == Used(s) + 1
  {
    var t := s[j := c];
    if j < |s| - 1 {
      assert t[..|t| - 1] == s[..|s| - 1][j := c];
      UsedFill(s[..|s| - 1], j, c);
    } else {
      assert t[..|t| - 1] == s[..|s| - 1];
    }
  }

  /** The probe of the safe mode: after i steps at slot j, step by h2 until
      a slot holding the check value or a free one; none when more steps
      than slots are needed. */
  function Probe(s: seq<int>, j: int, h2: int, c: int, i: nat): (r: Option<int>)
    requires 0 <= j < |s| && h2 >= 0 && i <= |s|
    ensures r.Some? ==> 0 <= r.value < |s| && (s[r.value] == c || s[r.value] == -1)
    decreases |s| - i
  {
    if i + 1 > |s| then None
    else
      var next := (j + h2) % |s|;
      if s[next] == c || s[next] == -1 then Some(next) else Probe(s, next, h2, c, i + 1)
  }

  /** The slot hashfunction answers for integers hashing to j0 with check
      value c: j0 itself on a hit, a free slot or an unsafe collision, else
      the probe's result. */
  function Slot(s: seq<int>, j0: int, c: int, safe: int, h2: int): (r: Option<int>)
    requires 0 <= j0 < |s| && h2 >= 0
  {
    if s[j0] == c || s[j0] == -1 || safe == 0 then Some(j0) else Probe(s, j0, h2, c, 0)
  }

  /** The slots after storing c at the answered slot, when it was free. */
  function Filled(s: seq<int>, r: Option<int>, c: int): seq<int>
  {
    if r.Some? && 0 <= r.value < |s| && s[r.value] == -1 then s[r.value := c] else s
  }

  /** The probe finds what it found before once the slot it found holds
      the check value. */
  lemma {:induction false} ProbeStable(s: seq<int>, j: int, h2: int, c: int, i: nat)
    requires 0 <= j < |s| && h2 >= 0 && i <= |s| && Probe(s, j, h2, c, i).Some?
    ensures Probe(Filled(s, Probe(s, j, h2, c, i), c), j, h2, c, i) == Probe(s, j, h2, c, i)
    decreases |s| - i
  {
    var k := Probe(s, j, h2, c, i).value;
    var t := Filled(s, Probe(s, j, h2, c, i), c);
    var next := (j + h2) % |s|;
    if !(s[next] == c || s[next] == -1) {
      assert next != k && t[next] == s[next];
      ProbeStable(s, next, h2, c, i + 1);
    }
  }

  /** Asking again for the same integers, with nothing else stored in
      between, answers the same slot: the collision table is a consistent
      map from integer lists to slots. */
  lemma SlotStable(s: seq<int>, j0: int, c: int, safe: int, h2: int)
    requires 0 <= j0 < |s| && h2 >= 0 && Slot(s, j0, c, safe, h2).Some?
    ensures Slot(Filled(s, Slot(s, j0, c, safe, h2), c), j0, c, safe, h2) == Slot(s, j0, c, safe, h2)
  {
    if !(s[j0] == c || s[j0] == -1 || safe == 0) {
      ProbeStable(s, j0, h2, c, 0);
      var k := Slot(s, j0, c, safe, h2).value;
      assert k != j0;
    }
  }

  /** The check value of a list of integers is never -1, so a slot that
      stores one counts as used. */
  lemma CheckValueStored(s: seq<int>, r: Option<int>, ints: seq<int>, rnd: seq<int>)
    requires RandomTable(rnd)
    ensures var c := HashValue(ints, MaxLongInt, 457, rnd);
      Used(Filled(s, r, c)) <= Used(s) + 1 &&
      (r.Some? && 0 <= r.value < |s| && s[r.value] == -1 ==> Used(Filled(s, r, c)) == Used(s) + 1)
  {
    var c := HashValue(ints, MaxLongInt, 457, rnd);
    if r.Some? && 0 <= r.value < |s| && s[r.value] == -1 {
      UsedFill(s, r.value, c);
    }
  }

  class CollisionTable {
    const data: array<int>
    const m: int
    const safe: int
    var calls: int
    var clearhits: int
    var collisions: int

    /** collision_table(size, safety) once the size has passed its check:
        every slot free and the counters zero. */
    constructor (size: nat, safety: int)
      ensures m == size && safe == safety && data.Length == size && fresh(data)
      ensures forall i :: 0 <= i < data.Length ==> data[i] == -1
      ensures calls == 0 && clearhits == 0 && collisions == 0
    {
      data := new int[size];
      m := size;
      safe := safety;
      new;
      Reset();
    }

    /** reset: every slot free, the counters zero. */
    method Reset()
      requires data.Length == m
      modifies this, data
      ensures forall i :: 0 <= i < data.Length ==> data[i] == -1
      ensures calls == 0 && clearhits == 0 && collisions == 0
    {
      var i := 0;
      while i < m
        invariant 0 <= i <= m
        invariant forall k :: 0 <= k < i ==> data[k] == -1
      {
        data[i] := -1;
        i := i + 1;
      }
      calls, clearhits, collisions := 0, 0, 0;
    }

    /** usage: the number of slots in use. */
    method Usage() returns (count: int)
      requires data.Length == m
      ensures count == Used(data[..])
    {
      count := 0;
      var i := 0;
      while i < m
        invariant 0 <= i <= m && count == Used(data[..i])
      {
        assert data[..i + 1][..i] == data[..i];
        if data[i] != -1 {
          count := count + 1;
        }
        i := i + 1;
      }
      assert data[..m] == data[..];
    }

    /** hashfunction: the slot of a list of integers, or none when the
        safe probe runs out of slots (the source exits there). calls grows
        by one; a hit or a free slot is a clear hit, anything else at
        least one collision; only a free slot is written, with the check
        value. */
    method HashFunction(ints: seq<int>, rnd: seq<int>) returns (r: Option<int>)
      requires RandomTable(rnd) && data.Length == m && m > 0
      modifies this, data
      ensures var j0 := HashValue(ints, m, 449, rnd);
        var h2 := 1 + 2 * HashValue(ints, MaxLongInt / 4, 449, rnd);
        r == Slot(old(data[..]), j0, HashValue(ints, MaxLongInt, 457, rnd), safe, h2)
      ensures r.Some? ==> data[..] == Filled(old(data[..]), r, HashValue(ints, MaxLongInt, 457, rnd))
      ensures r.Some? ==> 0 <= r.value < m
      ensures calls == old(calls) + 1
      ensures (clearhits == old(clearhits) + 1 && collisions == old(collisions)) ||
              (clearhits == old(clearhits) && collisions > old(collisions))
    {
      calls := calls + 1;
      var j := HashUNH(ints, m, 449, rnd);
      var ccheck := HashUNH(ints, MaxLongInt, 457, rnd);
      if ccheck == data[j] {
        clearhits := clearhits + 1;
        r := Some(j);
      } else if data[j] == -1 {
        clearhits := clearhits + 1;
        data[j] := ccheck;
        r := Some(j);
      } else if safe == 0 {
        collisions := collisions + 1;
        r := Some(j);
      } else {
        var h := HashUNH(ints, MaxLongInt / 4, 449, rnd);
        var h2 := 1 + 2 * h;
        var probes;
        r, probes := ProbeSlots(data[..], j, h2, ccheck);
        collisions := collisions + probes;
        if r.Some? && data[r.value] == -1 {
          data[r.value] := ccheck;
        }
      }
    }
  }

  /** The safe probe loop: step by h2 from j, counting one collision per
      step, until a slot holding the check value or a free one; none once
      there have been more steps than slots. */
  method ProbeSlots(s: seq<int>, j0: int, h2: int, ccheck: int) returns (r: Option<int>, probes: int)
    requires 0 <= j0 < |s| && h2 >= 0
    ensures r == Probe(s, j0, h2, ccheck, 0) && probes >= 1
  {
    var m := |s|;
    var j := j0;
    var i := 0;
    probes := 0;
    while true
      invariant 0 <= i <= m && 0 <= j < m && probes == i
      invariant Probe(s, j, h2, ccheck, i) == Probe(s, j0, h2, ccheck, 0)
      decreases m - i
    {
      i := i + 1;
      probes := probes + 1;
      j := (j + h2) % m;
      if i > m {
        return None, probes;
      }
      if ccheck == s[j] {
        return Some(j), probes;
      }
      if s[j] == -1 {
        return Some(j), probes;
      }
    }
  }

  /** The constructor with its size check: none (the source exits) unless
      the size is at most 2 or a power of two; else a fresh table with every
      slot free. */
  method NewCollisionTable(size: nat, safety: int) returns (r: Option<CollisionTable>)
    ensures r.Some? <==> SizeAccepted(size)
    ensures r.Some? ==> (fresh(r.value) && fresh(r.value.data) && r.value.m == size &&
                         r.value.data.Length == size && Used(r.value.data[..]) == 0)
  {
    var ok := CheckSize(size);
    if !ok {
      return None;
    }
    var t := new CollisionTable(size, safety);
    UsedNone(t.data[..]);
    return Some(t);
  }

  /** hashfunction asked twice for the same integers answers the same slot
      and the second time is a clear hit; the table uses at most one slot
      more than before. */
  method HashTwice(t: CollisionTable, ints: seq<int>, rnd: seq<int>) returns (first: Option<int>, second: Option<int>)
    requires RandomTable(rnd) && t.data.Length == t.m && t.m > 0
    modifies t, t.data
    ensures first.Some? ==> second == first
    ensures first.Some? ==> Used(t.data[..]) <= Used(old(t.data[..])) + 1
  {
    var s := t.data[..];
    first := t.HashFunction(ints, rnd);
    if first.Some? {
      var c := HashValue(ints, MaxLongInt, 457, rnd);
      var h2 := 1 + 2 * HashValue(ints, MaxLongInt / 4, 449, rnd);
      SlotStable(s, HashValue(ints, t.m, 449, rnd), c, t.safe, h2);
      CheckValueStored(s, first, ints, rnd);
      second := t.HashFunction(ints, rnd);
    } else {
      second := None;
    }
  }
}
