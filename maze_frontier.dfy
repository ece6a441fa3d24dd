/* The frontier of the maze's A* agent: a list kept in the order Python's
   heapq module keeps it, each cell carrying the Manhattan distance to the
   far corner of a rows x cols maze and compared on that alone, so that
   cells of equal distance come out in the order the heap's sifting leaves
   them, not the order they went in. heappush appends and sifts the new
   cell up towards the root; heappop takes the root, moves the last cell
   there, walks it down to a leaf along the smaller children (the right one
   on a tie) and sifts it back up. */
module MazeFrontier {
  import MazeEnvironment

  type Cell = MazeEnvironment.Cell

  /** manhattan_heuristic */
  function Manhattan(rows: int, cols: int, cell: Cell): int {
    (rows - cell.0) + (cols - cell.1)
  }

  /** The position of a heap cell's parent. */
  function Parent(i: nat): nat
    requires i > 0
  {
    (i - 1) / 2
  }

  /** The cell at position a is no farther from the corner than the one at b. */
  predicate Le(q: seq<Cell>, a: nat, b: nat, rows: int, cols: int)
    requires a < |q| && b < |q|
  {
    Manhattan(rows, cols, q[a]) <= Manhattan(rows, cols, q[b])
  }

  /** Positions i and j exchanged. */
  function Swap(q: seq<Cell>, i: nat, j: nat): (r: seq<Cell>)
    requires i < |q| && j < |q|
    ensures |r| == |q| && multiset(r) == multiset(q)
    ensures r[i] == q[j] && r[j] == q[i]
    ensures forall k :: 0 <= k < |q| && k != i && k != j ==> r[k] == q[k]
  {
    q[i := q[j]][j := q[i]]
  }

  /** _siftdown(heap, 0, pos): the cell at pos moves towards the root while
      it is strictly nearer the corner than its parent. */
  function SiftDown(q: seq<Cell>, pos: nat, rows: int, cols: int): (r: seq<Cell>)
    requires pos < |q|
    ensures |r| == |q| && multiset(r) == multiset(q)
    decreases pos
  {
    if pos == 0 then q
    else
      var parent := Parent(pos);
      if Manhattan(rows, cols, q[pos]) < Manhattan(rows, cols, q[parent]) then
        SiftDown(Swap(q, pos, parent), parent, rows, cols)
      else q
  }

  /** _siftup(heap, pos) for a heap popped at the root: the cell at pos
      moves down to a leaf, each time into the place of its nearer child
      (the right child unless the left one is strictly nearer), then
      _siftdown moves it back towards the root. */
  function SiftUp(q: seq<Cell>, pos: nat, rows: int, cols: int): (r: seq<Cell>)
    requires pos < |q|
    ensures |r| == |q| && multiset(r) == multiset(q)
    decreases |q| - pos
  {
    if 2 * pos + 1 >= |q| then SiftDown(q, pos, rows, cols)
    else
      var c := NearerChild(q, pos, rows, cols);
      SiftUp(Swap(q, pos, c), c, rows, cols)
  }

  /** The child _siftup moves into the hole at pos: the right child unless
      the left one is strictly nearer the corner, so no child of pos is
      nearer than it. */
  function NearerChild(q: seq<Cell>, pos: nat, rows: int, cols: int): (c: nat)
    requires 2 * pos + 1 < |q|
    ensures pos < c < |q| && Parent(c) == pos
    ensures forall i :: 0 < i < |q| && Parent(i) == pos ==> Le(q, c, i, rows, cols)
  {
    var child := 2 * pos + 1;
    if child + 1 < |q| && !(Manhattan(rows, cols, q[child]) < Manhattan(rows, cols, q[child + 1]))
    then child + 1 else child
  }

  /** heappush */
  function HeapPush(q: seq<Cell>, x: Cell, rows: int, cols: int): (r: seq<Cell>)
    ensures |r| == |q| + 1 && multiset(r) == multiset(q) + multiset{x}
  {
    SiftDown(q + [x], |q|, rows, cols)
  }

  /** heappop: the root, and the heap the last cell leaves when moved to
      the root and sifted. */
  function HeapPop(q: seq<Cell>, rows: int, cols: int): (r: (Cell, seq<Cell>))
    requires q != []
    ensures r.0 == q[0]
    ensures |r.1| == |q| - 1 && multiset(r.1) + multiset{r.0} == multiset(q)
  {
    var last := q[|q| - 1];
    var rest := q[..|q| - 1];
    if rest == [] then (last, [])
    else
      assert q == rest + [last] && rest[0] == q[0];
      (q[0], SiftUp(rest[0 := last], 0, rows, cols))
  }

  /** The cells in the order repeated heappops hand them out. */
  function PopAll(q: seq<Cell>, rows: int, cols: int): (r: seq<Cell>)
    ensures |r| == |q|
    decreases |q|
  {
    if q == [] then []
    else
      var (top, rest) := HeapPop(q, rows, cols);
      [top] + PopAll(rest, rows, cols)
  }

  /** heappush of each cell in turn. */
  function PushAll(q: seq<Cell>, added: seq<Cell>, rows: int, cols: int): (r: seq<Cell>)
    ensures |r| == |q| + |added|
    decreases |added|
  {
    if added == [] then q
    else PushAll(HeapPush(q, added[0], rows, cols), added[1..], rows, cols)
  }

  /** Pushing cells adds exactly them to the frontier. */
  lemma {:induction false} PushAllAdds(q: seq<Cell>, added: seq<Cell>, rows: int, cols: int)
    ensures multiset(PushAll(q, added, rows, cols)) == multiset(q) + multiset(added)
    decreases |added|
  {
    if added != [] {
      PushAllAdds(HeapPush(q, added[0], rows, cols), added[1..], rows, cols);
      assert added == [added[0]] + added[1..];
    }
  }

  // ---------------------------------------------------------------------
  // The heap invariant

  /** heapq's invariant: no cell is farther from the corner than either of
      its children. */
  predicate IsHeap(q: seq<Cell>, rows: int, cols: int)
  {
    forall i :: 0 < i < |q| ==> Le(q, Parent(i), i, rows, cols)
  }

  /** The invariant while a cell at pos is sifted towards the root: every
      edge holds except the one from pos's parent to pos, pos's parent is
      no farther than pos's children, and pos no farther than its own
      children. */
  predicate RisingAt(q: seq<Cell>, pos: nat, rows: int, cols: int)
    requires pos < |q|
  {
    (forall i :: 0 < i < |q| && i != pos ==> Le(q, Parent(i), i, rows, cols)) &&
    (forall i :: 0 < i < |q| && Parent(i) == pos ==> Le(q, pos, i, rows, cols)) &&
    (pos > 0 ==> forall i :: 0 < i < |q| && Parent(i) == pos ==> Le(q, Parent(pos), i, rows, cols))
  }

  /** The invariant while a cell at pos is walked down to a leaf: every
      edge not touching pos holds, and pos's parent is no farther than pos's
      children. */
  predicate SinkingAt(q: seq<Cell>, pos: nat, rows: int, cols: int)
    requires pos < |q|
  {
    (forall i :: 0 < i < |q| && i != pos && Parent(i) != pos ==> Le(q, Parent(i), i, rows, cols)) &&
    (pos > 0 ==> forall i :: 0 < i < |q| && Parent(i) == pos ==> Le(q, Parent(pos), i, rows, cols))
  }

  /** Sifting a rising cell towards the root restores the heap. */
  lemma {:induction false} SiftDownHeap(q: seq<Cell>, pos: nat, rows: int, cols: int)
    requires pos < |q| && RisingAt(q, pos, rows, cols)
    ensures IsHeap(SiftDown(q, pos, rows, cols), rows, cols)
    decreases pos
  {
    if pos > 0 {
      var parent := Parent(pos);
      if Manhattan(rows, cols, q[pos]) < Manhattan(rows, cols, q[parent]) {
        var q' := Swap(q, pos, parent);
        SwapRises(q, pos, rows, cols);
        SiftDownHeap(q', parent, rows, cols);
      }
    }
  }

  /** One step of _siftdown: the cell and its farther parent exchanged. */
  lemma SwapRises(q: seq<Cell>, pos: nat, rows: int, cols: int)
    requires 0 < pos < |q| && RisingAt(q, pos, rows, cols)
    requires Manhattan(rows, cols, q[pos]) < Manhattan(rows, cols, q[Parent(pos)])
    ensures RisingAt(Swap(q, pos, Parent(pos)), Parent(pos), rows, cols)
  {
    var parent := Parent(pos);
    var q' := Swap(q, pos, parent);
    forall i | 0 < i < |q'| && i != parent
      ensures Le(q', Parent(i), i, rows, cols)
    {
      if i == pos {
      } else if Parent(i) == pos {
        assert Le(q, parent, i, rows, cols);
      } else if Parent(i) == parent {
        assert Le(q, parent, i, rows, cols);
      } else {
        assert Le(q, Parent(i), i, rows, cols);
        assert Parent(i) != pos;
      }
    }
    forall i | 0 < i < |q'| && Parent(i) == parent
      ensures Le(q', parent, i, rows, cols)
    {
      if i != pos {
        assert Le(q, parent, i, rows, cols);
      }
    }
    if parent > 0 {
      var grand := Parent(parent);
      forall i | 0 < i < |q'| && Parent(i) == parent
        ensures Le(q', grand, i, rows, cols)
      {
        assert Le(q, grand, parent, rows, cols);
        if i != pos {
          assert Le(q, parent, i, rows, cols);
        }
      }
    }
  }

  /** Walking a sinking cell down to a leaf and sifting it back up restores
      the heap. */
  lemma {:induction false} SiftUpHeap(q: seq<Cell>, pos: nat, rows: int, cols: int)
    requires pos < |q| && SinkingAt(q, pos, rows, cols)
    ensures IsHeap(SiftUp(q, pos, rows, cols), rows, cols)
    decreases |q| - pos
  {
    if 2 * pos + 1 >= |q| {
      forall i | 0 < i < |q|
        ensures Parent(i) != pos
      {
      }
      SiftDownHeap(q, pos, rows, cols);
    } else {
      var c := NearerChild(q, pos, rows, cols);
      SwapSinks(q, pos, c, rows, cols);
      SiftUpHeap(Swap(q, pos, c), c, rows, cols);
    }
  }

  /** One step of the walk to a leaf: the cell and its nearer child
      exchanged. */
  lemma SwapSinks(q: seq<Cell>, pos: nat, c: nat, rows: int, cols: int)
    requires pos < c < |q| && Parent(c) == pos && SinkingAt(q, pos, rows, cols)
    requires forall i :: 0 < i < |q| && Parent(i) == pos ==> Le(q, c, i, rows, cols)
    ensures SinkingAt(Swap(q, pos, c), c, rows, cols)
  {
    var q' := Swap(q, pos, c);
    forall i | 0 < i < |q'| && i != c && Parent(i) != c
      ensures Le(q', Parent(i), i, rows, cols)
    {
      if i == pos {
        assert Le(q, Parent(pos), c, rows, cols);
      } else if Parent(i) == pos {
        assert Le(q, c, i, rows, cols);
      } else {
        assert Le(q, Parent(i), i, rows, cols);
      }
    }
    forall i | 0 < i < |q'| && Parent(i) == c
      ensures Le(q', pos, i, rows, cols)
    {
      assert Le(q, c, i, rows, cols);
    }
  }

  /** heappush keeps the heap. */
  lemma PushKeepsHeap(q: seq<Cell>, x: Cell, rows: int, cols: int)
    requires IsHeap(q, rows, cols)
    ensures IsHeap(HeapPush(q, x, rows, cols), rows, cols)
  {
    var q' := q + [x];
    forall i | 0 < i < |q'| && i != |q|
      ensures Le(q', Parent(i), i, rows, cols)
    {
      assert Le(q, Parent(i), i, rows, cols);
    }
    SiftDownHeap(q', |q|, rows, cols);
  }

  /** Pushing several cells keeps the heap. */
  lemma {:induction false} PushAllKeepsHeap(q: seq<Cell>, added: seq<Cell>, rows: int, cols: int)
    requires IsHeap(q, rows, cols)
    ensures IsHeap(PushAll(q, added, rows, cols), rows, cols)
    decreases |added|
  {
    if added != [] {
      PushKeepsHeap(q, added[0], rows, cols);
      PushAllKeepsHeap(HeapPush(q, added[0], rows, cols), added[1..], rows, cols);
    }
  }

  /** The root of a heap is no farther from the corner than any cell. */
  lemma {:induction false} RootIsNearest(q: seq<Cell>, j: nat, rows: int, cols: int)
    requires IsHeap(q, rows, cols) && j < |q|
    ensures Le(q, 0, j, rows, cols)
    decreases j
  {
    if j > 0 {
      RootIsNearest(q, Parent(j), rows, cols);
      assert Le(q, Parent(j), j, rows, cols);
    }
  }

  /** heappop on a heap hands out a cell nearest the corner, and leaves a
      heap of the other cells. */
  lemma PopNearest(q: seq<Cell>, rows: int, cols: int)
    requires IsHeap(q, rows, cols) && q != []
    ensures var (top, rest) := HeapPop(q, rows, cols);
      IsHeap(rest, rows, cols) &&
      forall x :: x in q ==> Manhattan(rows, cols, top) <= Manhattan(rows, cols, x)
  {
    forall x | x in q
      ensures Manhattan(rows, cols, q[0]) <= Manhattan(rows, cols, x)
    {
      var j :| 0 <= j < |q| && q[j] == x;
      RootIsNearest(q, j, rows, cols);
    }
    var rest := q[..|q| - 1];
    if rest != [] {
      var q' := rest[0 := q[|q| - 1]];
      forall i | 0 < i < |q'| && i != 0 && Parent(i) != 0
        ensures Le(q', Parent(i), i, rows, cols)
      {
        assert Le(q, Parent(i), i, rows, cols);
      }
      SiftUpHeap(q', 0, rows, cols);
    }
  }

  /** A cell no nearer the corner than any queued cell stays at the end. */
  lemma PushNoNearer(q: seq<Cell>, x: Cell, rows: int, cols: int)
    requires forall y :: y in q ==> Manhattan(rows, cols, y) <= Manhattan(rows, cols, x)
    ensures HeapPush(q, x, rows, cols) == q + [x]
  {
    if q != [] {
      assert (q + [x])[Parent(|q|)] in q;
    }
  }

  /** Cells all at one distance from the corner, pushed in turn onto a
      queue of cells at that distance, stay in the order they came. */
  lemma {:induction false} PushAllTied(q: seq<Cell>, added: seq<Cell>, d: int, rows: int, cols: int)
    requires forall y :: y in q ==> Manhattan(rows, cols, y) == d
    requires forall y :: y in added ==> Manhattan(rows, cols, y) == d
    ensures PushAll(q, added, rows, cols) == q + added
    decreases |added|
  {
    if added == [] {
      assert q + added == q;
    } else {
      PushNoNearer(q, added[0], rows, cols);
      var q' := q + [added[0]];
      forall y | y in added[1..] ensures Manhattan(rows, cols, y) == d {
        assert y in added;
      }
      PushAllTied(q', added[1..], d, rows, cols);
      AppendFirst(q, added);
    }
  }

  lemma AppendFirst(q: seq<Cell>, added: seq<Cell>)
    requires added != []
    ensures (q + [added[0]]) + added[1..] == q + added
  {
    assert added == [added[0]] + added[1..];
  }

  /** Popping five tied cells: the last one is walked down to the right
      child's place. */
  lemma PopFiveTied(c0: Cell, c1: Cell, c2: Cell, c3: Cell, c4: Cell, rows: int, cols: int)
    requires Manhattan(rows, cols, c1) == Manhattan(rows, cols, c2) == Manhattan(rows, cols, c4)
    ensures HeapPop([c0, c1, c2, c3, c4], rows, cols) == (c0, [c2, c1, c4, c3])
  {
    var q := [c4, c1, c2, c3];
    var r := [c2, c1, c4, c3];
    assert [c0, c1, c2, c3, c4][..4][0 := c4] == q;
    assert NearerChild(q, 0, rows, cols) == 2;
    assert Swap(q, 0, 2) == r;
    assert Parent(2) == 0;
    assert SiftDown(r, 2, rows, cols) == r;
    assert SiftUp(r, 2, rows, cols) == r;
    assert SiftUp(q, 0, rows, cols) == r;
  }

  lemma PopFourTied(c1: Cell, c2: Cell, c3: Cell, c4: Cell, rows: int, cols: int)
    requires Manhattan(rows, cols, c1) == Manhattan(rows, cols, c4) == Manhattan(rows, cols, c3)
    ensures HeapPop([c2, c1, c4, c3], rows, cols) == (c2, [c4, c1, c3])
  {
    var q := [c3, c1, c4];
    var r := [c4, c1, c3];
    assert [c2, c1, c4, c3][..3][0 := c3] == q;
    assert NearerChild(q, 0, rows, cols) == 2;
    assert Swap(q, 0, 2) == r;
    assert Parent(2) == 0;
    assert SiftDown(r, 2, rows, cols) == r;
    assert SiftUp(r, 2, rows, cols) == r;
    assert SiftUp(q, 0, rows, cols) == r;
  }

  lemma PopThreeTied(c1: Cell, c3: Cell, c4: Cell, rows: int, cols: int)
    requires Manhattan(rows, cols, c1) == Manhattan(rows, cols, c3)
    ensures HeapPop([c4, c1, c3], rows, cols) == (c4, [c1, c3])
  {
    var q := [c3, c1];
    var r := [c1, c3];
    assert [c4, c1, c3][..2][0 := c3] == q;
    assert NearerChild(q, 0, rows, cols) == 1;
    assert Swap(q, 0, 1) == r;
    assert Parent(1) == 0;
    assert SiftDown(r, 1, rows, cols) == r;
    assert SiftUp(r, 1, rows, cols) == r;
    assert SiftUp(q, 0, rows, cols) == r;
  }

  lemma PopTwoTied(c1: Cell, c3: Cell, rows: int, cols: int)
    ensures HeapPop([c1, c3], rows, cols) == (c1, [c3])
  {
    assert [c1, c3][..1][0 := c3] == [c3];
    assert SiftUp([c3], 0, rows, cols) == [c3];
  }

  lemma PopAllStep(q: seq<Cell>, top: Cell, rest: seq<Cell>, rows: int, cols: int)
    requires q != [] && HeapPop(q, rows, cols) == (top, rest)
    ensures PopAll(q, rows, cols) == [top] + PopAll(rest, rows, cols)
  {
  }

  /** Popping until empty hands out every queued cell exactly once. */
  lemma {:induction false} PopAllPermutes(q: seq<Cell>, rows: int, cols: int)
    ensures multiset(PopAll(q, rows, cols)) == multiset(q)
    decreases |q|
  {
    if q != [] {
      var (top, rest) := HeapPop(q, rows, cols);
      PopAllPermutes(rest, rows, cols);
      PopAllStep(q, top, rest, rows, cols);
    }
  }

  /** Cells ordered by nondecreasing distance from the corner. */
  predicate NearestFirst(r: seq<Cell>, rows: int, cols: int)
  {
    forall i, j :: 0 <= i < j < |r| ==> Manhattan(rows, cols, r[i]) <= Manhattan(rows, cols, r[j])
  }

  lemma ConsNearestFirst(top: Cell, tail: seq<Cell>, rows: int, cols: int)
    requires NearestFirst(tail, rows, cols)
    requires forall x :: x in tail ==> Manhattan(rows, cols, top) <= Manhattan(rows, cols, x)
    ensures NearestFirst([top] + tail, rows, cols)
  {
    var r := [top] + tail;
    forall i, j | 0 <= i < j < |r|
      ensures Manhattan(rows, cols, r[i]) <= Manhattan(rows, cols, r[j])
    {
      assert r[j] == tail[j - 1];
      if i > 0 {
        assert r[i] == tail[i - 1];
      }
    }
  }

  /** Popping a heap until empty hands out the cells nearest first. */
  lemma {:induction false} PopAllNearestFirst(q: seq<Cell>, rows: int, cols: int)
    requires IsHeap(q, rows, cols)
    ensures NearestFirst(PopAll(q, rows, cols), rows, cols)
    decreases |q|
  {
    if q != [] {
      var (top, rest) := HeapPop(q, rows, cols);
      PopNearest(q, rows, cols);
      PopAllNearestFirst(rest, rows, cols);
      PopAllPermutes(rest, rows, cols);
      PopAllStep(q, top, rest, rows, cols);
      var tail := PopAll(rest, rows, cols);
      forall x | x in tail
        ensures Manhattan(rows, cols, top) <= Manhattan(rows, cols, x)
      {
        assert x in multiset(rest);
        assert x in multiset(q);
      }
      ConsNearestFirst(top, tail, rows, cols);
    }
  }

  lemma ConsFive(a: Cell, b: Cell, c: Cell, d: Cell, e: Cell, z: seq<Cell>)
    requires z == []
    ensures [a] + ([b] + ([c] + ([d] + ([e] + z)))) == [a, b, c, d, e]
  {
  }

  /** Cells of equal distance leave in heap order: five of them pushed in
      the order c0 .. c4 are popped as c0, c2, c4, c1, c3. */
  lemma TiesLeaveInHeapOrder(c0: Cell, c1: Cell, c2: Cell, c3: Cell, c4: Cell, rows: int, cols: int)
    requires Manhattan(rows, cols, c0) == Manhattan(rows, cols, c1) == Manhattan(rows, cols, c2)
          == Manhattan(rows, cols, c3) == Manhattan(rows, cols, c4)
    ensures PopAll(PushAll([], [c0, c1, c2, c3, c4], rows, cols), rows, cols) == [c0, c2, c4, c1, c3]
  {
    var all := [c0, c1, c2, c3, c4];
    PushAllTied([], all, Manhattan(rows, cols, c0), rows, cols);
    assert [] + all == all;
    var q := PushAll([], all, rows, cols);
    assert q == all;
    PopFiveTied(c0, c1, c2, c3, c4, rows, cols);
    PopFourTied(c1, c2, c3, c4, rows, cols);
    PopThreeTied(c1, c3, c4, rows, cols);
    PopTwoTied(c1, c3, rows, cols);
    PopAllStep([c1, c3], c1, [c3], rows, cols);
    PopAllStep([c3], c3, [], rows, cols);
    PopAllStep([c4, c1, c3], c4, [c1, c3], rows, cols);
    PopAllStep([c2, c1, c4, c3], c2, [c4, c1, c3], rows, cols);
    PopAllStep(all, c0, [c2, c1, c4, c3], rows, cols);
    ConsFive(c0, c2, c4, c1, c3, PopAll([], rows, cols));
  }
}
