/* The maze search agents: the move table lookup, the breadth-first and A*
   frontier bookkeeping of the generic search agent, the walk back along the
   search tree, and the depth-first agent's step. Cells are (row, column);
   an observation carries the cell and one wall flag per move, as the maze
   environment senses them. */
module MazeAgent {
  import opened Wrappers
  import MazeEnvironment
  import opened MazeFrontier

  /** get_action_index: the action that makes the move, None when the move
      is not one step along an axis. */
  function ActionIndex(move: Cell): (r: Option<nat>)
    ensures r.Some? ==> r.value < 4 && MazeEnvironment.MOVES[r.value] == move
    ensures r.None? <==> move !in MazeEnvironment.MOVES
  {
    if move == (1, 0) then Some(0)
    else if move == (-1, 0) then Some(1)
    else if move == (0, 1) then Some(2)
    else if move == (0, -1) then Some(3)
    else None
  }

  /** The cell reached by a move's action is the move's target. */
  lemma ActionReachesNeighbour(cell: Cell, other: Cell)
    ensures var a := ActionIndex((other.0 - cell.0, other.1 - cell.1));
      a.Some? ==> MazeEnvironment.Target(cell, a.value) == other
  {
  }

  /** The observation of a cell: its coordinates and, per move, whether a wall
      blocks it (observations 2..5). */
  datatype Observation = Observation(row: int, col: int, walls: seq<int>)

  /** The neighbours among the first i moves that are open and not yet seen,
      in move order. */
  function Open(cell: Cell, walls: seq<int>, seen: set<Cell>, i: nat): seq<Cell>
    requires |walls| == 4 && i <= 4
  {
    if i == 0 then []
    else
      Open(cell, walls, seen, i - 1) +
      (if walls[i - 1] == 0 && MazeEnvironment.Target(cell, i - 1) !in seen then [MazeEnvironment.Target(cell, i - 1)] else [])
  }

  /** A cell is among the open, unseen neighbours exactly when one of the
      first i moves reaches it through no wall and it was not seen; each
      appears once. */
  lemma {:induction false} OpenMembers(cell: Cell, walls: seq<int>, seen: set<Cell>, i: nat)
    requires |walls| == 4 && i <= 4
    ensures forall x :: x in Open(cell, walls, seen, i) <==>
      exists j :: 0 <= j < i && walls[j] == 0 && MazeEnvironment.Target(cell, j) == x && x !in seen
    ensures forall p, q :: 0 <= p < q < |Open(cell, walls, seen, i)| ==>
      Open(cell, walls, seen, i)[p] != Open(cell, walls, seen, i)[q]
    ensures |Open(cell, walls, seen, i)| <= i
  {
    if i > 0 {
      OpenMembers(cell, walls, seen, i - 1);
      var n := MazeEnvironment.Target(cell, i - 1);
      forall j | 0 <= j < i - 1
        ensures MazeEnvironment.Target(cell, j) != n
      {
      }
    }
  }

  /** Backpointers for the given cells, all leading to `from`. */
  function BackTo(cells: seq<Cell>, from: Cell): (m: map<Cell, Cell>)
    ensures forall x :: x in m <==> x in cells
    ensures forall x :: x in m ==> m[x] == from
  {
    map x | x in cells :: from
  }

  /** How the frontier is ordered: first in, first out (breadth-first), or by
      the Manhattan distance to the far corner of a rows x cols maze (A*). */
  datatype Strategy = Bfs | AStar(rows: int, cols: int)

  /** deque: the cell handed out and the queue left behind. Breadth-first
      search takes the oldest cell (list.pop(0)); A* takes the heap's root
      (heappop). */
  function Popped(s: Strategy, q: seq<Cell>): (r: (Cell, seq<Cell>))
    requires q != []
    ensures r.0 == q[0]
    ensures |r.1| == |q| - 1 && multiset(r.1) + multiset{r.0} == multiset(q)
  {
    match s
    case Bfs =>
      assert q == [q[0]] + q[1..];
      (q[0], q[1..])
    case AStar(rows, cols) => HeapPop(q, rows, cols)
  }

  /** enque of each cell in turn: appended for breadth-first search,
      heappush for A*. */
  function Pushed(s: Strategy, q: seq<Cell>, added: seq<Cell>): (r: seq<Cell>)
    ensures multiset(r) == multiset(q) + multiset(added)
  {
    match s
    case Bfs => q + added
    case AStar(rows, cols) =>
      PushAllAdds(q, added, rows, cols);
      PushAll(q, added, rows, cols)
  }

  /** The queue of a strategy: any list for breadth-first search, a heap on
      the Manhattan distance for A*. */
  predicate Ordered(s: Strategy, q: seq<Cell>) {
    s.AStar? ==> IsHeap(q, s.rows, s.cols)
  }

  /** Breadth-first search hands cells out in the order they were queued:
      after any later enqueues, the oldest cell still comes first, and the
      rest stay in order. */
  lemma FirstInFirstOut(q: seq<Cell>, later: seq<Cell>)
    requires q != []
    ensures Pushed(Bfs, q, later) == q + later
    ensures Popped(Bfs, Pushed(Bfs, q, later)) == (q[0], q[1..] + later)
  {
    assert (q + later)[1..] == q[1..] + later;
  }

  /** A* hands out a queued cell nearest the far corner, and both of its
      queue operations keep the heap. */
  lemma AStarNearestFirst(s: Strategy, q: seq<Cell>, added: seq<Cell>)
    requires s.AStar? && Ordered(s, q)
    ensures Ordered(s, Pushed(s, q, added))
    ensures q != [] ==> Ordered(s, Popped(s, q).1)
    ensures q != [] ==>
      forall x :: x in q ==> Manhattan(s.rows, s.cols, Popped(s, q).0) <= Manhattan(s.rows, s.cols, x)
  {
    PushAllKeepsHeap(q, added, s.rows, s.cols);
    if q != [] {
      PopNearest(q, s.rows, s.cols);
    }
  }

  /** The backpointers lead from a cell to one ranked strictly lower, so
      following them always stops. */
  ghost predicate Acyclic(bp: map<Cell, Cell>, rank: map<Cell, nat>) {
    forall x :: x in bp ==> x in rank && bp[x] in rank && rank[bp[x]] < rank[x]
  }

  ghost function Height(bp: map<Cell, Cell>, rank: map<Cell, nat>, x: Cell): nat
    requires Acyclic(bp, rank)
  {
    if x in bp then rank[x] + 1 else 0
  }

  /** The cells met when following the backpointers from x, x excluded. */
  ghost function Chain(bp: map<Cell, Cell>, rank: map<Cell, nat>, x: Cell): (ch: seq<Cell>)
    requires Acyclic(bp, rank)
    ensures x in bp <==> ch != []
    decreases Height(bp, rank, x)
  {
    if x in bp then [bp[x]] + Chain(bp, rank, bp[x]) else []
  }

  /** Position i of the walk is the backpointer of position i - 1. */
  predicate LinkAt(bp: map<Cell, Cell>, ch: seq<Cell>, i: int)
    requires 0 < i < |ch|
  {
    ch[i - 1] in bp && ch[i] == bp[ch[i - 1]]
  }

  /** Each cell of the chain is the backpointer of the one before it. */
  lemma {:induction false} ChainLinks(bp: map<Cell, Cell>, rank: map<Cell, nat>, x: Cell)
    requires Acyclic(bp, rank)
    ensures var ch := Chain(bp, rank, x);
      (ch != [] ==> ch[0] == bp[x]) &&
      forall i :: 0 < i < |ch| ==> LinkAt(bp, ch, i)
    decreases Height(bp, rank, x)
  {
    if x in bp {
      ChainLinks(bp, rank, bp[x]);
      var ch := Chain(bp, rank, x);
      var tail := Chain(bp, rank, bp[x]);
      assert ch == [bp[x]] + tail;
      forall i | 0 < i < |ch|
        ensures LinkAt(bp, ch, i)
      {
        if i == 1 {
          assert tail != [];
        } else {
          assert LinkAt(bp, tail, i - 1);
          assert ch[i - 1] == tail[i - 2] && ch[i] == tail[i - 1];
        }
      }
    }
  }

  function FirstIndex(s: seq<Cell>, x: Cell): (j: nat)
    requires x in s
    ensures j < |s| && s[j] == x && x !in s[..j]
  {
    if s[0] == x then 0
    else
      var j := FirstIndex(s[1..], x);
      assert s[..j + 1] == [s[0]] + s[1..][..j];
      j + 1
  }

  lemma FirstIndexUnique(s: seq<Cell>, x: Cell, j: nat)
    requires j < |s| && s[j] == x && x !in s[..j]
    ensures FirstIndex(s, x) == j
  {
  }

  /** get_next_step: walking back from the target, the cell met just before
      the current one (an IndexError when the target's own backpointer is
      the current cell); when the walk never meets the current cell, the
      current cell's backpointer (a KeyError when it has none). */
  ghost function NextStep(bp: map<Cell, Cell>, rank: map<Cell, nat>, start: Cell, target: Cell): (r: Result<Cell, string>)
    requires Acyclic(bp, rank)
    ensures start in Chain(bp, rank, target) && r.Ok? ==> r.value in Chain(bp, rank, target)
    ensures start !in Chain(bp, rank, target) ==> (r.Ok? <==> start in bp) && (r.Ok? ==> r.value == bp[start])
  {
    var ch := Chain(bp, rank, target);
    if start in ch then
      var j := FirstIndex(ch, start);
      if j == 0 then Err("IndexError") else Ok(ch[j - 1])
    else if start in bp then Ok(bp[start])
    else Err("KeyError")
  }

  /** Where the walk meets the current cell, the step is the cell met just
      before it. */
  lemma NextStepFound(bp: map<Cell, Cell>, rank: map<Cell, nat>, start: Cell, target: Cell,
                      back2: seq<Cell>, rest: seq<Cell>)
    requires Acyclic(bp, rank)
    requires Chain(bp, rank, target) == back2 + [start] + rest && start !in back2
    ensures NextStep(bp, rank, start, target) ==
      if back2 == [] then Err("IndexError") else Ok(back2[|back2| - 1])
  {
    var ch := Chain(bp, rank, target);
    assert ch[|back2|] == start;
    assert ch[..|back2|] == back2;
    FirstIndexUnique(ch, start, |back2|);
  }

  /** The next step always follows one edge of the search tree from the
      current cell: forward to a cell whose backpointer is the current cell,
      or back along the current cell's own backpointer. */
  lemma NextStepIsTreeEdge(bp: map<Cell, Cell>, rank: map<Cell, nat>, start: Cell, target: Cell)
    requires Acyclic(bp, rank)
    ensures var r := NextStep(bp, rank, start, target);
      r.Ok? ==> (r.value in bp && bp[r.value] == start) || (start in bp && r.value == bp[start])
    ensures NextStep(bp, rank, start, target) == Err("KeyError") ==> start !in bp
  {
    var ch := Chain(bp, rank, target);
    ChainLinks(bp, rank, target);
    if start in ch {
      var j := FirstIndex(ch, start);
      if j > 0 {
        assert LinkAt(bp, ch, j);
      }
    }
  }

  /** One rank for all the cells enqueued by a visit. */
  ghost function Ranks(added: seq<Cell>, r: nat): (m: map<Cell, nat>)
    ensures forall x :: x in m <==> x in added
    ensures forall x :: x in m ==> m[x] == r
  {
    map x | x in added :: r
  }

  /** Visited cells were enqueued, queued cells were enqueued, and every
      backpointer leads between enqueued cells, to an earlier one. */
  ghost predicate Bookkeeping(visited: set<Cell>, enqueued: set<Cell>, queue: seq<Cell>,
                              bp: map<Cell, Cell>, rank: map<Cell, nat>, nextRank: nat) {
    visited <= enqueued &&
    (forall x :: x in queue ==> x in enqueued) &&
    (forall x :: x in enqueued ==> x in rank && rank[x] < nextRank) &&
    (forall x :: x in bp ==> x in enqueued && bp[x] in enqueued) &&
    Acyclic(bp, rank)
  }

  /** Marking a cell visited (and enqueued, ranked if new) keeps the
      bookkeeping. */
  lemma VisitCellKeeps(visited: set<Cell>, enqueued: set<Cell>, queue: seq<Cell>,
                       bp: map<Cell, Cell>, rank: map<Cell, nat>, nextRank: nat, cell: Cell,
                       rank1: map<Cell, nat>, nextRank1: nat)
    requires Bookkeeping(visited, enqueued, queue, bp, rank, nextRank)
    requires cell in enqueued ==> rank1 == rank && nextRank1 == nextRank
    requires cell !in enqueued ==> rank1 == rank[cell := nextRank] && nextRank1 == nextRank + 1
    ensures Bookkeeping(visited + {cell}, enqueued + {cell}, queue, bp, rank1, nextRank1)
  {
    if cell !in enqueued {
      forall x | x in bp
        ensures x in rank1 && bp[x] in rank1 && rank1[bp[x]] < rank1[x]
      {
        assert x != cell && bp[x] != cell;
      }
    }
  }

  /** Queueing new cells with backpointers to an enqueued cell, ranked after
      every earlier one, keeps the bookkeeping, whatever order the new queue
      keeps the old and the new cells in. */
  lemma EnqueueKeeps(visited: set<Cell>, enqueued: set<Cell>, queue: seq<Cell>,
                     bp: map<Cell, Cell>, rank: map<Cell, nat>, nextRank: nat, cell: Cell, added: seq<Cell>,
                     queue1: seq<Cell>)
    requires Bookkeeping(visited, enqueued, queue, bp, rank, nextRank)
    requires cell in enqueued && forall x :: x in added ==> x !in enqueued
    requires multiset(queue1) == multiset(queue) + multiset(added)
    ensures Bookkeeping(visited, enqueued + (set x | x in added), queue1, bp + BackTo(added, cell),
                        rank + Ranks(added, nextRank), nextRank + 1)
  {
    var e := enqueued + (set x | x in added);
    var bp' := bp + BackTo(added, cell);
    var rank' := rank + Ranks(added, nextRank);
    forall x | x in queue1
      ensures x in e
    {
      assert x in multiset(queue1);
      if x !in queue {
        assert x in multiset(added);
      }
    }
    forall x | x in bp'
      ensures x in rank' && bp'[x] in rank' && rank'[bp'[x]] < rank'[x]
    {
      if x in added {
        assert bp'[x] == cell && cell !in added;
      } else {
        assert bp'[x] == bp[x] && bp[x] !in added;
      }
    }
  }

  /** The state of the generic search agent (breadth-first or A*). */
  class SearchAgent {
    var strategy: Strategy
    var queue: seq<Cell>
    var visited: set<Cell>
    var enqueued: set<Cell>
    var backpointers: map<Cell, Cell>
    var goal: Option<Cell>
    /** the order in which cells were first enqueued */
    ghost var rank: map<Cell, nat>
    ghost var nextRank: nat

    ghost predicate Valid()
      reads this
    {
      Bookkeeping(visited, enqueued, queue, backpointers, rank, nextRank) &&
      Ordered(strategy, queue)
    }

    /** reset: nothing queued, visited or enqueued, no backpointers, no goal. */
    constructor(strategy: Strategy)
      ensures Valid() && this.strategy == strategy
      ensures queue == [] && visited == {} && enqueued == {} && backpointers == map[] && goal == None
    {
      this.strategy := strategy;
      queue, visited, enqueued, backpointers, goal := [], {}, {}, map[], None;
      rank, nextRank := map[], 0;
    }

    method Reset()
      modifies this
      ensures Valid() && strategy == old(strategy)
      ensures queue == [] && visited == {} && enqueued == {} && backpointers == map[] && goal == None
    {
      queue, visited, enqueued, backpointers, goal := [], {}, {}, map[], None;
      rank, nextRank := map[], 0;
    }

    /** deque: the cell the strategy hands out, removed from the queue; an
        IndexError on an empty queue. */
    method Deque() returns (r: Result<Cell, string>)
      requires Valid()
      modifies this`queue
      ensures Valid()
      ensures old(queue) == [] ==> r == Err("IndexError") && queue == old(queue)
      ensures old(queue) != [] ==> (r, queue) == (Ok(Popped(strategy, old(queue)).0), Popped(strategy, old(queue)).1)
    {
      if queue == [] {
        return Err("IndexError");
      }
      var (top, rest) := Popped(strategy, queue);
      if strategy.AStar? {
        AStarNearestFirst(strategy, queue, []);
      }
      forall x | x in rest
        ensures x in enqueued
      {
        assert x in multiset(rest);
        assert x in multiset(queue);
      }
      r := Ok(top);
      queue := rest;
    }

  /** visit: the cell becomes visited and enqueued, a goal reached there is
        dropped, and every open neighbour not enqueued before is queued, in
        move order, with a backpointer to the cell. */
    method Visit(row: int, col: int, obs: Observation)
      requires Valid() && |obs.walls| == 4
      modifies this
      ensures Valid() && strategy == old(strategy)
      ensures visited == old(visited) + {(row, col)}
      ensures goal == if old(goal) == Some((row, col)) then None else old(goal)
      ensures var added := Open((row, col), obs.walls, old(enqueued) + {(row, col)}, 4);
        queue == Pushed(strategy, old(queue), added) &&
        enqueued == old(enqueued) + {(row, col)} + set x | x in added &&
        backpointers == old(backpointers) + BackTo(added, (row, col))
    {
      MarkVisited((row, col));
      var added := NewNeighbours((row, col), obs.walls, enqueued, backpointers);
      Enqueue((row, col), added);
    }

    /** The first half of visit: the cell is visited and enqueued, and a goal
        reached there is dropped. */
    method MarkVisited(cell: Cell)
      requires Valid()
      modifies this
      ensures Valid() && strategy == old(strategy)
      ensures visited == old(visited) + {cell} && enqueued == old(enqueued) + {cell}
      ensures queue == old(queue) && backpointers == old(backpointers)
      ensures goal == if old(goal) == Some(cell) then None else old(goal)
    {
      ghost var rk, nr := rank, nextRank;
      if cell !in enqueued {
        rk, nr := rank[cell := nextRank], nextRank + 1;
      }
      VisitCellKeeps(visited, enqueued, queue, backpointers, rank, nextRank, cell, rk, nr);
      visited := visited + {cell};
      enqueued := enqueued + {cell};
      rank, nextRank := rk, nr;
      if goal == Some(cell) {
        goal := None;
      }
    }

    /** The second half of visit: the new neighbours, none of them enqueued
        yet, are queued in order, each with a backpointer to the cell. */
    method Enqueue(cell: Cell, added: seq<Cell>)
      requires Valid() && cell in enqueued && forall x :: x in added ==> x !in enqueued
      modifies this
      ensures Valid() && strategy == old(strategy)
      ensures visited == old(visited) && goal == old(goal)
      ensures queue == Pushed(strategy, old(queue), added)
      ensures enqueued == old(enqueued) + set x | x in added
      ensures backpointers == old(backpointers) + BackTo(added, cell)
    {
      var queue1 := Pushed(strategy, queue, added);
      EnqueueKeeps(visited, enqueued, queue, backpointers, rank, nextRank, cell, added, queue1);
      if strategy.AStar? {
        AStarNearestFirst(strategy, queue, added);
      }
      enqueued, queue, backpointers := enqueued + (set x | x in added), queue1, backpointers + BackTo(added, cell);
      rank, nextRank := rank + Ranks(added, nextRank), nextRank + 1;
    }

    /** get_next_step, walking the backpointers from the target. */
    method GetNextStep(start: Cell, target: Cell) returns (r: Result<Cell, string>)
      requires Valid()
      ensures r == NextStep(backpointers, rank, start, target)
    {
      var bp := backpointers;
      ghost var rk := rank;
      var back2: seq<Cell> := [];
      var cur := target;
      while cur in bp
        invariant Acyclic(bp, rk)
        invariant back2 + Chain(bp, rk, cur) == Chain(bp, rk, target)
        invariant start !in back2
        invariant back2 != [] ==> cur == back2[|back2| - 1]
        decreases Height(bp, rk, cur)
      {
        ghost var rest := Chain(bp, rk, bp[cur]);
        assert Chain(bp, rk, cur) == [bp[cur]] + rest;
        cur := bp[cur];
        if cur == start {
          NextStepFound(bp, rk, start, target, back2, rest);
          if back2 == [] {
            return Err("IndexError");
          }
          return Ok(back2[|back2| - 1]);
        }
        back2 := back2 + [cur];
      }
      assert back2 == Chain(bp, rk, target);
      if start in bp {
        r := Ok(bp[start]);
      } else {
        r := Err("KeyError");
      }
    }

    /** get_action: without a goal, the next queued cell becomes the goal
        (an IndexError when none is queued); a goal one open move away is
        moved to directly, otherwise the next step towards it is taken. The
        action is None when that step is not a single move. */
    method GetAction(row: int, col: int, obs: Observation) returns (r: Result<Option<nat>, string>)
      requires Valid() && |obs.walls| == 4
      modifies this`queue, this`goal
      ensures Valid()
      ensures old(goal).None? && old(queue) == [] ==> r == Err("IndexError") && goal == None
      ensures old(goal).None? && old(queue) != [] ==>
        (goal, queue) == (Some(Popped(strategy, old(queue)).0), Popped(strategy, old(queue)).1)
      ensures old(goal).Some? ==> goal == old(goal) && queue == old(queue)
      ensures goal.Some? ==>
        var g := goal.value;
        var a := ActionIndex((g.0 - row, g.1 - col));
        if a.Some? && obs.walls[a.value] == 0 then r == Ok(a)
        else
          var s := NextStep(backpointers, rank, (row, col), g);
          (s.Err? ==> r == Err(s.error)) &&
          (s.Ok? ==> r == Ok(ActionIndex((s.value.0 - row, s.value.1 - col))))
    {
      if goal.None? {
        var d := Deque();
        if d.Err? {
          return Err(d.error);
        }
        goal := Some(d.value);
      }
      var g := goal.value;
      var a := ActionIndex((g.0 - row, g.1 - col));
      if a.Some? && obs.walls[a.value] == 0 {
        return Ok(a);
      }
      var s := GetNextStep((row, col), g);
      if s.Err? {
        return Err(s.error);
      }
      r := Ok(ActionIndex((s.value.0 - row, s.value.1 - col)));
    }
  }

  /** The first unvisited cell of an adjacency list, |adj| when all are
      visited. */
  function FirstUnvisited(adj: seq<Cell>, visited: set<Cell>): (k: nat)
    ensures k <= |adj|
    ensures k < |adj| ==> adj[k] !in visited
    ensures forall j :: 0 <= j < k ==> adj[j] in visited
  {
    if adj == [] || adj[0] !in visited then 0
    else
      var k := FirstUnvisited(adj[1..], visited);
      assert forall j :: 1 <= j < |adj| ==> adj[j] == adj[1..][j - 1];
      k + 1
  }

  /** The state of the depth-first search agent. */
  class DfsAgent {
    var visited: set<Cell>
    var adjlist: map<Cell, seq<Cell>>
    var parents: map<Cell, Cell>
    var backpointers: map<Cell, Cell>

    /** Every visited cell has its adjacency list. */
    predicate Valid()
      reads this
    {
      forall x :: x in visited ==> x in adjlist
    }

    constructor()
      ensures Valid()
      ensures visited == {} && adjlist == map[] && parents == map[] && backpointers == map[]
    {
      visited, adjlist, parents, backpointers := {}, map[], map[], map[];
    }

    /** reset forgets the visits, parents and backpointers but keeps the
        adjacency lists. */
    method Reset()
      modifies this
      ensures Valid()
      ensures visited == {} && parents == map[] && backpointers == map[] && adjlist == old(adjlist)
    {
      visited, parents, backpointers := {}, map[], map[];
    }

    /** dfs_action: on the first visit to a cell, its open unvisited
        neighbours become its adjacency list, each with the cell as parent;
        then the agent heads for the first unvisited one of them, or back to
        the cell's parent (a KeyError when it has none). */
    method DfsAction(obs: Observation) returns (r: Result<Option<nat>, string>)
      requires Valid() && |obs.walls| == 4
      modifies this
      ensures Valid() && (obs.row, obs.col) in adjlist
      ensures var cell := (obs.row, obs.col);
        var tovisit := Open(cell, obs.walls, old(visited), 4);
        (cell !in old(visited) ==> adjlist == old(adjlist)[cell := tovisit] &&
                                   parents == old(parents) + BackTo(tovisit, cell)) &&
        (cell in old(visited) ==> adjlist == old(adjlist) && parents == old(parents))
      ensures var cell := (obs.row, obs.col);
        match DfsTarget(adjlist[cell], old(visited), parents, cell)
        case None => r == Err("KeyError") && visited == old(visited) && backpointers == old(backpointers)
        case Some(current) =>
          r == Ok(ActionIndex((current.0 - cell.0, current.1 - cell.1))) &&
          visited == old(visited) + {cell} &&
          backpointers == if current in old(backpointers) then old(backpointers)
                          else old(backpointers)[current := cell]
    {
      var cell := (obs.row, obs.col);
      if cell !in visited {
        var tovisit := OpenNeighbours(cell, obs.walls, visited);
        parents := parents + BackTo(tovisit, cell);
        adjlist := adjlist[cell := tovisit];
      }
      var adj := adjlist[cell];
      var k := 0;
      while k < |adj| && adj[k] in visited
        invariant 0 <= k <= |adj|
        invariant forall j :: 0 <= j < k ==> adj[j] in visited
      {
        k := k + 1;
      }
      FirstUnvisitedUnique(adj, visited, k);
      var current: Cell;
      if k == |adj| {
        if cell !in parents {
          return Err("KeyError");
        }
        current := parents[cell];
      } else {
        current := adj[k];
      }
      visited := visited + {cell};
      r := Ok(ActionIndex((current.0 - cell.0, current.1 - cell.1)));
      if current !in backpointers {
        backpointers := backpointers[current := cell];
      }
    }
  }

  /** visit's loop: the open neighbours of a cell not yet enqueued, in move
      order, each checked against the ones already taken. The source's
      assertion holds: the cell's own backpointer is never among them. */
  method NewNeighbours(cell: Cell, walls: seq<int>, e0: set<Cell>, bp: map<Cell, Cell>)
    returns (added: seq<Cell>)
    requires |walls| == 4 && cell in e0 && (cell in bp ==> bp[cell] in e0)
    ensures added == Open(cell, walls, e0, 4)
    ensures forall x :: x in added ==> x !in e0
  {
    var enq := e0;
    added := [];
    var i := 0;
    while i < 4
      invariant 0 <= i <= 4
      invariant added == Open(cell, walls, e0, i)
      invariant enq == e0 + set x | x in added
    {
      OpenMembers(cell, walls, e0, i);
      var n := MazeEnvironment.Target(cell, i);
      assert n !in added by {
        forall j | 0 <= j < i
          ensures MazeEnvironment.Target(cell, j) != n
        {
        }
      }
      if walls[i] == 0 && n !in enq {
        assert cell in bp ==> bp[cell] != n;
        enq := enq + {n};
        added := added + [n];
      }
      i := i + 1;
    }
    OpenMembers(cell, walls, e0, 4);
  }

  /** The open neighbours of a cell not yet seen, in move order. */
  method OpenNeighbours(cell: Cell, walls: seq<int>, seen: set<Cell>) returns (tovisit: seq<Cell>)
    requires |walls| == 4
    ensures tovisit == Open(cell, walls, seen, 4)
  {
    tovisit := [];
    var m := 0;
    while m < 4
      invariant 0 <= m <= 4
      invariant tovisit == Open(cell, walls, seen, m)
    {
      var n := MazeEnvironment.Target(cell, m);
      if walls[m] == 0 && n !in seen {
        tovisit := tovisit + [n];
      }
      m := m + 1;
    }
  }

  /** Where the depth-first agent heads from a cell: the first unvisited
      cell of its adjacency list, else its parent, else nowhere. */
  function DfsTarget(adj: seq<Cell>, visited: set<Cell>, parents: map<Cell, Cell>, cell: Cell): (t: Option<Cell>)
    ensures t.None? <==> (forall j :: 0 <= j < |adj| ==> adj[j] in visited) && cell !in parents
    ensures t.Some? && (exists j :: 0 <= j < |adj| && adj[j] !in visited) ==>
      t.value in adj && t.value !in visited
  {
    var k := FirstUnvisited(adj, visited);
    if k < |adj| then Some(adj[k])
    else if cell in parents then Some(parents[cell])
    else None
  }

  /** Only one position is the first unvisited one. */
  lemma FirstUnvisitedUnique(adj: seq<Cell>, visited: set<Cell>, k: nat)
    requires k <= |adj| && (k < |adj| ==> adj[k] !in visited)
    requires forall j :: 0 <= j < k ==> adj[j] in visited
    ensures k == FirstUnvisited(adj, visited)
  {
  }
}
