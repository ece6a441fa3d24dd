/** rtNEAT genomes (branches/rtneat/source/rtneat/genome.cpp): a list of
    nodes and a list of genes, each gene a link between two of the nodes
    with an innovation number. Modelled here: the ordered insertion of genes
    and nodes, the count of enabled genes, re-enabling a gene, the
    consistency check, the compatibility count of two genomes and the
    constructors of the fixed starting topologies.

    gene.cpp is not part of this model: a new gene is taken to be enabled.
    Here a node is its id, its kind and its place (its activation state is
    in module NNodes). A gene names its end nodes by value, where the
    source holds pointers. */
module Genomes {
  import opened Wrappers

  datatype NodeKind = Neuron | Sensor
  datatype Placement = Hidden | Input | Output | Bias

  datatype Node = Node(id: int, kind: NodeKind, place: Placement)

  datatype Gene = Gene(weight: real, inNode: Node, outNode: Node, recurrent: bool,
                       innovation: real, mutation: real, enabled: bool)

  /** Gene(trait, 0, in, out, recurrent, count, 0): weight 0, mutation
      number 0. */
  function NewGene(inNode: Node, outNode: Node, recurrent: bool, count: int): Gene
  {
    Gene(0.0, inNode, outNode, recurrent, count as real, 0.0, true)
  }

  // ---------------------------------------------------------------------
  // add_gene and node_insert

  predicate SortedByInnovation(genes: seq<Gene>)
  {
    forall i, j :: 0 <= i < j < |genes| ==> genes[i].innovation <= genes[j].innovation
  }

  predicate SortedById(nodes: seq<Node>)
  {
    forall i, j :: 0 <= i < j < |nodes| ==> nodes[i].id <= nodes[j].id
  }

  /** Where add_gene puts a gene of innovation number inum: before the first
      gene whose number is not below it. */
  function GenePosition(genes: seq<Gene>, inum: real): (k: nat)
    ensures k <= |genes|
    ensures forall i :: 0 <= i < k ==> genes[i].innovation < inum
    ensures k < |genes| ==> genes[k].innovation >= inum
  {
    if genes == [] || genes[0].innovation >= inum then 0
    else 1 + GenePosition(genes[1..], inum)
  }

  /** add_gene: the list with g inserted at its position. */
  method AddGene(glist: seq<Gene>, g: Gene) returns (r: seq<Gene>)
    ensures var k := GenePosition(glist, g.innovation);
      r == glist[..k] + [g] + glist[k..]
  {
    var k := 0;
    while k < |glist| && glist[k].innovation < g.innovation
      invariant k <= |glist| && forall i :: 0 <= i < k ==> glist[i].innovation < g.innovation
    {
      k := k + 1;
    }
    GenePositionUnique(glist, g.innovation, k);
    r := glist[..k] + [g] + glist[k..];
  }

  /** The position is the one index before which every number is below
      inum and at which none is. */
  lemma {:induction false} GenePositionUnique(genes: seq<Gene>, inum: real, k: nat)
    requires k <= |genes| && forall i :: 0 <= i < k ==> genes[i].innovation < inum
    requires k < |genes| ==> genes[k].innovation >= inum
    ensures GenePosition(genes, inum) == k
  {
    if k > 0 {
      GenePositionUnique(genes[1..], inum, k - 1);
    }
  }

  /** add_gene keeps a sorted list sorted, adds exactly g and grows the
      list by one. */
  lemma AddGeneKeepsOrder(glist: seq<Gene>, g: Gene)
    requires SortedByInnovation(glist)
    ensures var k := GenePosition(glist, g.innovation);
      var r := glist[..k] + [g] + glist[k..];
      SortedByInnovation(r) && |r| == |glist| + 1 && multiset(r) == multiset(glist) + multiset{g}
  {
    var k := GenePosition(glist, g.innovation);
    InsertSortedGene(glist, g, k);
    assert glist == glist[..k] + glist[k..];
  }

  /** Inserting at a position with only smaller keys before it keeps the
      order. */
  lemma InsertSortedGene(glist: seq<Gene>, g: Gene, k: nat)
    requires SortedByInnovation(glist) && k <= |glist|
    requires forall i :: 0 <= i < k ==> glist[i].innovation < g.innovation
    requires k < |glist| ==> glist[k].innovation >= g.innovation
    ensures SortedByInnovation(glist[..k] + [g] + glist[k..])
  {
    var r := glist[..k] + [g] + glist[k..];
    forall i, j | 0 <= i < j < |r|
      ensures r[i].innovation <= r[j].innovation
    {
      if j < k || i > k {
      } else if i == k {
        assert r[j] == glist[j - 1];
      } else if j == k {
        assert r[i] == glist[i];
      } else {
        assert r[i] == glist[i] && r[j] == glist[j - 1];
      }
    }
  }

  /** Where node_insert puts a node of id n: before the first node whose id
      is not below it. */
  function NodePosition(nodes: seq<Node>, id: int): (k: nat)
    ensures k <= |nodes|
    ensures forall i :: 0 <= i < k ==> nodes[i].id < id
    ensures k < |nodes| ==> nodes[k].id >= id
  {
    if nodes == [] || nodes[0].id >= id then 0
    else 1 + NodePosition(nodes[1..], id)
  }

  lemma {:induction false} NodePositionUnique(nodes: seq<Node>, id: int, k: nat)
    requires k <= |nodes| && forall i :: 0 <= i < k ==> nodes[i].id < id
    requires k < |nodes| ==> nodes[k].id >= id
    ensures NodePosition(nodes, id) == k
  {
    if k > 0 {
      NodePositionUnique(nodes[1..], id, k - 1);
    }
  }

  /** node_insert: the list with n inserted at its position. */
  method NodeInsert(nlist: seq<Node>, n: Node) returns (r: seq<Node>)
    ensures var k := NodePosition(nlist, n.id);
      r == nlist[..k] + [n] + nlist[k..]
  {
    var k := 0;
    while k < |nlist| && nlist[k].id < n.id
      invariant k <= |nlist| && forall i :: 0 <= i < k ==> nlist[i].id < n.id
    {
      k := k + 1;
    }
    NodePositionUnique(nlist, n.id, k);
    r := nlist[..k] + [n] + nlist[k..];
  }

  /** node_insert keeps a list sorted by id sorted, adds exactly n and
      grows the list by one. */
  lemma NodeInsertKeepsOrder(nlist: seq<Node>, n: Node)
    requires SortedById(nlist)
    ensures var k := NodePosition(nlist, n.id);
      var r := nlist[..k] + [n] + nlist[k..];
      SortedById(r) && |r| == |nlist| + 1 && multiset(r) == multiset(nlist) + multiset{n}
  {
    var k := NodePosition(nlist, n.id);
    InsertSortedNode(nlist, n, k);
    assert nlist == nlist[..k] + nlist[k..];
  }

  /** Inserting at a position with only smaller keys before it keeps the
      order. */
  lemma InsertSortedNode(nlist: seq<Node>, n: Node, k: nat)
    requires SortedById(nlist) && k <= |nlist|
    requires forall i :: 0 <= i < k ==> nlist[i].id < n.id
    requires k < |nlist| ==> nlist[k].id >= n.id
    ensures SortedById(nlist[..k] + [n] + nlist[k..])
  {
    var r := nlist[..k] + [n] + nlist[k..];
    forall i, j | 0 <= i < j < |r|
      ensures r[i].id <= r[j].id
    {
      if j < k || i > k {
      } else if i == k {
        assert r[j] == nlist[j - 1];
      } else if j == k {
        assert r[i] == nlist[i];
      } else {
        assert r[i] == nlist[i] && r[j] == nlist[j - 1];
      }
    }
  }

  // ---------------------------------------------------------------------
  // extrons and mutate_gene_reenable

  /** The number of enabled genes. */
  function Enabled(genes: seq<Gene>): (r: nat)
    ensures r <= |genes|
  {
    if genes == [] then 0
    else Enabled(genes[..|genes| - 1]) + (if genes[|genes| - 1].enabled then 1 else 0)
  }

  /** extrons: counts the enabled genes. */
  method CountEnabled(genes: seq<Gene>) returns (total: int)
    ensures total == Enabled(genes) && 0 <= total <= |genes|
  {
    total := 0;
    var i := 0;
    while i < |genes|
      invariant i <= |genes| && total == Enabled(genes[..i])
    {
      assert genes[..i + 1][..i] == genes[..i];
      if genes[i].enabled {
        total := total + 1;
      }
      i := i + 1;
    }
    assert genes[..i] == genes;
  }

  /** The index of the first disabled gene, |genes| when there is none. */
  function FirstDisabled(genes: seq<Gene>): (k: nat)
    ensures k <= |genes|
    ensures forall i :: 0 <= i < k ==> genes[i].enabled
    ensures k < |genes| ==> !genes[k].enabled
  {
    if genes == [] || !genes[0].enabled then 0 else 1 + FirstDisabled(genes[1..])
  }

  function Enable(g: Gene): Gene
  {
    g.(enabled := true)
  }

  /** mutate_gene_reenable: the first disabled gene enabled, when there is
      one. */
  method ReenableFirst(genes: seq<Gene>) returns (r: seq<Gene>)
    ensures var k := FirstDisabled(genes);
      r == if k < |genes| then genes[k := Enable(genes[k])] else genes
  {
    var k := 0;
    while k < |genes| && genes[k].enabled
      invariant k <= |genes| && forall i :: 0 <= i < k ==> genes[i].enabled
    {
      k := k + 1;
    }
    FirstDisabledUnique(genes, k);
    r := genes;
    if k < |genes| {
      if !genes[k].enabled {
        r := genes[k := Enable(genes[k])];
      }
    }
  }

  lemma {:induction false} FirstDisabledUnique(genes: seq<Gene>, k: nat)
    requires k <= |genes| && forall i :: 0 <= i < k ==> genes[i].enabled
    requires k < |genes| ==> !genes[k].enabled
    ensures FirstDisabled(genes) == k
  {
    if k > 0 {
      FirstDisabledUnique(genes[1..], k - 1);
    }
  }

  /** Enabling a disabled gene adds one enabled gene. */
  lemma {:induction false} EnabledAfterEnable(genes: seq<Gene>, k: nat)
    requires k < |genes| && !genes[k].enabled
    ensures Enabled(genes[k := Enable(genes[k])]) == Enabled(genes) + 1
  {
    var t := genes[k := Enable(genes[k])];
    if k < |genes| - 1 {
      assert t[..|t| - 1] == genes[..|genes| - 1][k := Enable(genes[k])];
      EnabledAfterEnable(genes[..|genes| - 1], k);
    } else {
      assert t[..|t| - 1] == genes[..|genes| - 1];
    }
  }

  /** Re-enabling changes at most one gene, the first disabled one, and
      adds one enabled gene exactly when some gene was disabled. */
  lemma ReenableEffect(genes: seq<Gene>)
    ensures var k := FirstDisabled(genes);
      var r := if k < |genes| then genes[k := Enable(genes[k])] else genes;
      |r| == |genes| &&
      (forall i :: 0 <= i < |genes| && i != k ==> r[i] == genes[i]) &&
      (Enabled(r) == Enabled(genes) + 1 <==> exists i :: 0 <= i < |genes| && !genes[i].enabled) &&
      (Enabled(r) == Enabled(genes) <==> forall i :: 0 <= i < |genes| ==> genes[i].enabled)
  {
    var k := FirstDisabled(genes);
    if k < |genes| {
      EnabledAfterEnable(genes, k);
    }
  }

  // ---------------------------------------------------------------------
  // verify

  /** Every gene's end nodes are among the nodes, and the node ids never
      fall, starting from 0. */
  predicate Verified(genes: seq<Gene>, nodes: seq<Node>)
  {
    (forall k :: 0 <= k < |genes| ==> genes[k].inNode in nodes && genes[k].outNode in nodes) &&
    (|nodes| > 0 ==> nodes[0].id >= 0) &&
    (forall k :: 0 < k < |nodes| ==> nodes[k - 1].id <= nodes[k].id)
  }

  /** Whether n is among the nodes, searched as the source does. */
  method Contains(nodes: seq<Node>, n: Node) returns (found: bool)
    ensures found <==> n in nodes
  {
    var i := 0;
    while i < |nodes| && nodes[i] != n
      invariant i <= |nodes| && forall j :: 0 <= j < i ==> nodes[j] != n
    {
      i := i + 1;
    }
    found := i < |nodes|;
  }

  /** verify: false when a gene's node is missing or the node ids fall.
      The duplicate-gene and double-disable scans only report, so they do
      not change the answer. */
  method CheckLists(genes: seq<Gene>, nodes: seq<Node>) returns (ok: bool)
    ensures ok <==> Verified(genes, nodes)
  {
    var g := 0;
    while g < |genes|
      invariant g <= |genes|
      invariant forall k :: 0 <= k < g ==> genes[k].inNode in nodes && genes[k].outNode in nodes
    {
      var hasIn := Contains(nodes, genes[g].inNode);
      if !hasIn {
        return false;
      }
      var hasOut := Contains(nodes, genes[g].outNode);
      if !hasOut {
        return false;
      }
      g := g + 1;
    }
    var lastId := 0;
    var n := 0;
    while n < |nodes|
      invariant n <= |nodes|
      invariant n > 0 ==> lastId == nodes[n - 1].id && nodes[0].id >= 0
      invariant n == 0 ==> lastId == 0
      invariant forall k :: 0 < k < n ==> nodes[k - 1].id <= nodes[k].id
    {
      if nodes[n].id < lastId {
        return false;
      }
      lastId := nodes[n].id;
      n := n + 1;
    }
    return true;
  }

  /** A list sorted by id, starting from a non-negative id, passes the id
      check; node_insert keeps it that way. */
  lemma SortedPassesIdCheck(nodes: seq<Node>)
    requires SortedById(nodes) && (|nodes| > 0 ==> nodes[0].id >= 0)
    ensures forall k :: 0 < k < |nodes| ==> nodes[k - 1].id <= nodes[k].id
  {
  }

  // ---------------------------------------------------------------------
  // compatibility

  /** The counts compatibility gathers: genes unmatched within the other
      genome's range (disjoint), genes left over once the other genome has
      run out (excess), genes matched by innovation number, and the total
      difference of the matched genes' mutation numbers. */
  datatype Tally = Tally(disjoint: nat, excess: nat, matching: nat, mutDiff: real)

  function Abs(x: real): real
  {
    if x < 0.0 then 0.0 - x else x
  }

  function PlusExcess(t: Tally): Tally
  {
    t.(excess := t.excess + 1)
  }

  function PlusDisjoint(t: Tally): Tally
  {
    t.(disjoint := t.disjoint + 1)
  }

  function PlusMatch(t: Tally, g: Gene, h: Gene): Tally
  {
    t.(matching := t.matching + 1, mutDiff := t.mutDiff + Abs(g.mutation - h.mutation))
  }

  /** The tally of two gene lists, walked together from the front. */
  function Compare(a: seq<Gene>, b: seq<Gene>): Tally
    decreases |a| + |b|
  {
    if a == [] && b == [] then Tally(0, 0, 0, 0.0)
    else if a == [] then PlusExcess(Compare(a, b[1..]))
    else if b == [] then PlusExcess(Compare(a[1..], b))
    else if a[0].innovation == b[0].innovation then PlusMatch(Compare(a[1..], b[1..]), a[0], b[0])
    else if a[0].innovation < b[0].innovation then PlusDisjoint(Compare(a[1..], b))
    else PlusDisjoint(Compare(a, b[1..]))
  }

  function Add(t: Tally, u: Tally): Tally
  {
    Tally(t.disjoint + u.disjoint, t.excess + u.excess, t.matching + u.matching, t.mutDiff + u.mutDiff)
  }

  /** Every gene of both genomes is counted once: as disjoint, as excess, or
      as one of a matched pair. */
  lemma {:induction false} CompareCountsEveryGene(a: seq<Gene>, b: seq<Gene>)
    ensures var t := Compare(a, b);
      t.disjoint + t.excess + 2 * t.matching == |a| + |b|
    decreases |a| + |b|
  {
    if a == [] && b == [] {
    } else if a == [] {
      CompareCountsEveryGene(a, b[1..]);
    } else if b == [] {
      CompareCountsEveryGene(a[1..], b);
    } else if a[0].innovation == b[0].innovation {
      CompareCountsEveryGene(a[1..], b[1..]);
    } else if a[0].innovation < b[0].innovation {
      CompareCountsEveryGene(a[1..], b);
    } else {
      CompareCountsEveryGene(a, b[1..]);
    }
  }

  /** Compatibility counts do not depend on which genome asks. */
  lemma {:induction false} CompareSymmetric(a: seq<Gene>, b: seq<Gene>)
    ensures Compare(a, b) == Compare(b, a)
    decreases |a| + |b|
  {
    if a == [] && b == [] {
    } else if a == [] {
      CompareSymmetric(a, b[1..]);
    } else if b == [] {
      CompareSymmetric(a[1..], b);
    } else if a[0].innovation == b[0].innovation {
      CompareSymmetric(a[1..], b[1..]);
      assert Abs(a[0].mutation - b[0].mutation) == Abs(b[0].mutation - a[0].mutation);
    } else if a[0].innovation < b[0].innovation {
      CompareSymmetric(a[1..], b);
    } else {
      CompareSymmetric(a, b[1..]);
    }
  }

  /** A genome matches itself gene for gene. */
  lemma {:induction false} CompareSelf(a: seq<Gene>)
    ensures Compare(a, a) == Tally(0, 0, |a|, 0.0)
  {
    if a != [] {
      CompareSelf(a[1..]);
    }
  }

  /** The compatibility loop: the tally of both gene lists. */
  method Tallied(a: seq<Gene>, b: seq<Gene>) returns (t: Tally)
    ensures t == Compare(a, b)
  {
    t := Tally(0, 0, 0, 0.0);
    var i, j := 0, 0;
    while !(i == |a| && j == |b|)
      invariant i <= |a| && j <= |b|
      invariant Add(t, Compare(a[i..], b[j..])) == Compare(a, b)
      decreases |a| - i + |b| - j
    {
      CompareStep(a, b, i, j);
      if i == |a| {
        j := j + 1;
        t := PlusExcess(t);
      } else if j == |b| {
        i := i + 1;
        t := PlusExcess(t);
      } else if a[i].innovation == b[j].innovation {
        t := PlusMatch(t, a[i], b[j]);
        i, j := i + 1, j + 1;
      } else if a[i].innovation < b[j].innovation {
        i := i + 1;
        t := PlusDisjoint(t);
      } else {
        j := j + 1;
        t := PlusDisjoint(t);
      }
    }
    assert a[i..] == [] && b[j..] == [];
  }

  /** One step of the walk, stated on the suffixes. */
  lemma CompareStep(a: seq<Gene>, b: seq<Gene>, i: nat, j: nat)
    requires i <= |a| && j <= |b| && !(i == |a| && j == |b|)
    ensures i == |a| ==> Compare(a[i..], b[j..]) == PlusExcess(Compare(a[i..], b[j + 1..]))
    ensures i < |a| && j == |b| ==> Compare(a[i..], b[j..]) == PlusExcess(Compare(a[i + 1..], b[j..]))
    ensures i < |a| && j < |b| && a[i].innovation == b[j].innovation ==>
      Compare(a[i..], b[j..]) == PlusMatch(Compare(a[i + 1..], b[j + 1..]), a[i], b[j])
    ensures i < |a| && j < |b| && a[i].innovation < b[j].innovation ==>
      Compare(a[i..], b[j..]) == PlusDisjoint(Compare(a[i + 1..], b[j..]))
    ensures i < |a| && j < |b| && a[i].innovation > b[j].innovation ==>
      Compare(a[i..], b[j..]) == PlusDisjoint(Compare(a[i..], b[j + 1..]))
  {
    assert i < |a| ==> a[i..][1..] == a[i + 1..];
    assert j < |b| ==> b[j..][1..] == b[j + 1..];
  }

  /** The compatibility formula on a tally; none where the source divides
      by zero matched genes (a NaN or an infinity in floating point). */
  function CompatibilityOf(t: Tally, disjointCoeff: real, excessCoeff: real, mutdiffCoeff: real): Option<real>
  {
    if t.matching == 0 then None
    else Some(disjointCoeff * t.disjoint as real + excessCoeff * t.excess as real
              + mutdiffCoeff * (t.mutDiff / t.matching as real))
  }

  /** A non-empty genome is at compatibility distance 0 from itself. */
  lemma SelfCompatibility(a: seq<Gene>, disjointCoeff: real, excessCoeff: real, mutdiffCoeff: real)
    requires a != []
    ensures CompatibilityOf(Compare(a, a), disjointCoeff, excessCoeff, mutdiffCoeff) == Some(0.0)
  {
    CompareSelf(a);
  }

  // ---------------------------------------------------------------------
  // The starting genomes: Genome(num_in, num_out, num_hidden, type)

  /** Inputs 1 .. numIn, sensors, the last of them the bias. */
  function InputNodes(numIn: nat): seq<Node>
  {
    seq(numIn, k requires 0 <= k < numIn => Node(k + 1, Sensor, if k + 1 < numIn then Input else Bias))
  }

  /** count neurons of one place, numbered from first on. */
  function NeuronNodes(first: int, count: nat, place: Placement): seq<Node>
  {
    seq(count, k requires 0 <= k < count => Node(first + k, Neuron, place))
  }

  /** k rows of m nodes each, counted row by row. */
  function Rows(k: nat, m: nat): nat
  {
    if k == 0 then 0 else Rows(k - 1, m) + m
  }

  lemma {:induction false} RowsProduct(k: nat, m: nat)
    ensures Rows(k, m) == k * m
  {
    if k > 0 {
      RowsProduct(k - 1, m);
    }
  }

  lemma {:induction false} RowsMonotone(a: nat, n: nat, m: nat)
    requires a <= n
    ensures Rows(a, m) <= Rows(n, m)
    decreases n
  {
    if a < n {
      RowsMonotone(a, n - 1, m);
    }
  }

  /** The hidden count the constructor uses: none for type 0, one per
      input-output pair for type 1, as given otherwise. */
  function HiddenCount(numIn: nat, numOut: nat, numHidden: nat, kind: int): nat
  {
    if kind == 0 then 0 else if kind == 1 then Rows(numOut, numIn) else numHidden
  }

  /** The node lists in the order they are built: inputs, hidden, outputs,
      ids 1 .. numIn + numHidden + numOut. */
  function StartNodes(numIn: nat, numHidden: nat, numOut: nat): seq<Node>
  {
    InputNodes(numIn) + NeuronNodes(numIn + 1, numHidden, Hidden)
      + NeuronNodes(numIn + numHidden + 1, numOut, Output)
  }

  /** The node loops of the constructor. */
  method BuildNodes(numIn: nat, numHidden: nat, numOut: nat)
    returns (inputs: seq<Node>, hidden: seq<Node>, outputs: seq<Node>)
    ensures inputs == InputNodes(numIn)
    ensures hidden == NeuronNodes(numIn + 1, numHidden, Hidden)
    ensures outputs == NeuronNodes(numIn + numHidden + 1, numOut, Output)
  {
    inputs := [];
    var ncount := 1;
    while ncount <= numIn
      invariant 1 <= ncount <= numIn + 1 && inputs == InputNodes(numIn)[..ncount - 1]
    {
      if ncount < numIn {
        inputs := inputs + [Node(ncount, Sensor, Input)];
      } else {
        inputs := inputs + [Node(ncount, Sensor, Bias)];
      }
      ncount := ncount + 1;
    }
    hidden := [];
    ncount := numIn + 1;
    while ncount <= numIn + numHidden
      invariant numIn + 1 <= ncount <= numIn + numHidden + 1
      invariant hidden == NeuronNodes(numIn + 1, numHidden, Hidden)[..ncount - numIn - 1]
    {
      hidden := hidden + [Node(ncount, Neuron, Hidden)];
      ncount := ncount + 1;
    }
    outputs := [];
    ncount := numIn + numHidden + 1;
    while ncount <= numIn + numHidden + numOut
      invariant numIn + numHidden + 1 <= ncount <= numIn + numHidden + numOut + 1
      invariant outputs == NeuronNodes(numIn + numHidden + 1, numOut, Output)[..ncount - numIn - numHidden - 1]
    {
      outputs := outputs + [Node(ncount, Neuron, Output)];
      ncount := ncount + 1;
    }
  }

  /** The genes from every source into one target, numbered from start. */
  function Row(sources: seq<Node>, target: Node, start: int, recurrent: bool): seq<Gene>
  {
    seq(|sources|, k requires 0 <= k < |sources| => NewGene(sources[k], target, recurrent, start + k))
  }

  /** Every source connected to every target, target by target, numbered
      on from start. */
  function Connect(sources: seq<Node>, targets: seq<Node>, start: int, recurrent: bool): seq<Gene>
  {
    if targets == [] then []
    else
      var init := Connect(sources, targets[..|targets| - 1], start, recurrent);
      init + Row(sources, targets[|targets| - 1], start + |init|, recurrent)
  }

  lemma {:induction false} ConnectLength(sources: seq<Node>, targets: seq<Node>, start: int, recurrent: bool)
    ensures |Connect(sources, targets, start, recurrent)| == |targets| * |sources|
  {
    if targets != [] {
      var n := |targets| - 1;
      ConnectLength(sources, targets[..n], start, recurrent);
      assert (n + 1) * |sources| == n * |sources| + |sources|;
    }
  }

  /** A gene runs from one of the sources to one of the targets. */
  predicate Between(g: Gene, sources: seq<Node>, targets: seq<Node>)
  {
    g.inNode in sources && g.outNode in targets
  }

  predicate GenesBetween(genes: seq<Gene>, sources: seq<Node>, targets: seq<Node>)
  {
    forall k :: 0 <= k < |genes| ==> Between(genes[k], sources, targets)
  }

  /** Some gene runs from s to t. */
  predicate Linked(genes: seq<Gene>, s: Node, t: Node)
  {
    exists k :: 0 <= k < |genes| && genes[k].inNode == s && genes[k].outNode == t
  }

  /** Genes numbered start, start + 1, ... in order, all enabled, with the
      given recurrence. */
  predicate NumberedFrom(genes: seq<Gene>, start: int, recurrent: bool)
  {
    forall k :: 0 <= k < |genes| ==>
      genes[k].innovation == (start + k) as real && genes[k].enabled && genes[k].recurrent == recurrent
  }

  /** Every source is linked to every target. */
  predicate Complete(genes: seq<Gene>, sources: seq<Node>, targets: seq<Node>)
  {
    forall a, b {:trigger Linked(genes, sources[b], targets[a])} ::
      0 <= a < |targets| && 0 <= b < |sources| ==> Linked(genes, sources[b], targets[a])
  }

  lemma CompleteConcat(a: seq<Gene>, b: seq<Gene>, sources: seq<Node>, targets: seq<Node>)
    ensures Complete(a, sources, targets) ==> Complete(a + b, sources, targets)
    ensures Complete(b, sources, targets) ==> Complete(a + b, sources, targets)
  {
    forall i, j | 0 <= i < |targets| && 0 <= j < |sources|
      ensures Linked(a, sources[j], targets[i]) ==> Linked(a + b, sources[j], targets[i])
      ensures Linked(b, sources[j], targets[i]) ==> Linked(a + b, sources[j], targets[i])
    {
      LinkedConcat(a, b, sources[j], targets[i]);
    }
  }

  lemma LinkedConcat(a: seq<Gene>, b: seq<Gene>, s: Node, t: Node)
    ensures Linked(a, s, t) ==> Linked(a + b, s, t)
    ensures Linked(b, s, t) ==> Linked(a + b, s, t)
  {
    if Linked(a, s, t) {
      var k :| 0 <= k < |a| && a[k].inNode == s && a[k].outNode == t;
      assert (a + b)[k] == a[k];
    }
    if Linked(b, s, t) {
      var k :| 0 <= k < |b| && b[k].inNode == s && b[k].outNode == t;
      assert (a + b)[|a| + k] == b[k];
    }
  }

  lemma InPrefix(s: seq<Node>, n: nat)
    requires n <= |s|
    ensures forall x :: x in s[..n] ==> x in s
    ensures forall x :: x in s[n..] ==> x in s
  {
    forall x | x in s[..n]
      ensures x in s
    {
      var i :| 0 <= i < n && s[..n][i] == x;
      assert s[i] == x;
    }
    forall x | x in s[n..]
      ensures x in s
    {
      var i :| 0 <= i < |s| - n && s[n..][i] == x;
      assert s[n + i] == x;
    }
  }

  lemma {:induction false} ConnectBetween(sources: seq<Node>, targets: seq<Node>, start: int, recurrent: bool)
    ensures GenesBetween(Connect(sources, targets, start, recurrent), sources, targets)
    decreases |targets|
  {
    if targets != [] {
      var n := |targets| - 1;
      var init := Connect(sources, targets[..n], start, recurrent);
      var row := Row(sources, targets[n], start + |init|, recurrent);
      ConnectBetween(sources, targets[..n], start, recurrent);
      InPrefix(targets, n);
      var c := init + row;
      forall k | 0 <= k < |c|
        ensures Between(c[k], sources, targets)
      {
        if k < |init| {
          assert c[k] == init[k] && Between(init[k], sources, targets[..n]);
        } else {
          assert c[k] == row[k - |init|];
        }
      }
    }
  }

  lemma {:induction false} ConnectNumbered(sources: seq<Node>, targets: seq<Node>, start: int, recurrent: bool)
    ensures NumberedFrom(Connect(sources, targets, start, recurrent), start, recurrent)
    decreases |targets|
  {
    if targets != [] {
      var n := |targets| - 1;
      var init := Connect(sources, targets[..n], start, recurrent);
      var row := Row(sources, targets[n], start + |init|, recurrent);
      ConnectNumbered(sources, targets[..n], start, recurrent);
      var c := init + row;
      forall k | 0 <= k < |c|
        ensures c[k].innovation == (start + k) as real && c[k].enabled && c[k].recurrent == recurrent
      {
        if k < |init| {
          assert c[k] == init[k];
        } else {
          assert c[k] == row[k - |init|];
        }
      }
    }
  }

  lemma CompleteJoin(a: seq<Gene>, b: seq<Gene>, sources: seq<Node>, ta: seq<Node>, tb: seq<Node>)
    requires Complete(a, sources, ta) && Complete(b, sources, tb)
    ensures Complete(a + b, sources, ta + tb)
  {
    var targets := ta + tb;
    forall i, j | 0 <= i < |targets| && 0 <= j < |sources|
      ensures Linked(a + b, sources[j], targets[i])
    {
      if i < |ta| {
        assert Linked(a, sources[j], ta[i]);
      } else {
        assert Linked(b, sources[j], tb[i - |ta|]);
      }
      LinkedConcat(a, b, sources[j], targets[i]);
    }
  }

  lemma RowCovers(sources: seq<Node>, target: Node, start: int, recurrent: bool)
    ensures Complete(Row(sources, target, start, recurrent), sources, [target])
  {
    var row := Row(sources, target, start, recurrent);
    forall i, j | 0 <= i < 1 && 0 <= j < |sources|
      ensures Linked(row, sources[j], [target][i])
    {
      assert row[j].inNode == sources[j] && row[j].outNode == [target][i];
    }
  }

  /** Every source is linked to every target. */
  lemma {:induction false} ConnectCovers(sources: seq<Node>, targets: seq<Node>, start: int, recurrent: bool)
    ensures Complete(Connect(sources, targets, start, recurrent), sources, targets)
    decreases |targets|
  {
    if targets != [] {
      var n := |targets| - 1;
      var init := Connect(sources, targets[..n], start, recurrent);
      var row := Row(sources, targets[n], start + |init|, recurrent);
      ConnectCovers(sources, targets[..n], start, recurrent);
      RowCovers(sources, targets[n], start + |init|, recurrent);
      CompleteJoin(init, row, sources, targets[..n], [targets[n]]);
      assert targets[..n] + [targets[n]] == targets;
    }
  }

  /** The genes of one source row, as the inner loop pushes them. */
  method AppendRow(genes: seq<Gene>, sources: seq<Node>, target: Node, count: int, recurrent: bool)
    returns (r: seq<Gene>, next: int)
    ensures r == genes + Row(sources, target, count, recurrent) && next == count + |sources|
  {
    r := genes;
    next := count;
    var b := 0;
    while b < |sources|
      invariant b <= |sources| && next == count + b
      invariant r == genes + Row(sources, target, count, recurrent)[..b]
    {
      r := r + [NewGene(sources[b], target, recurrent, next)];
      next := next + 1;
      b := b + 1;
    }
  }

  /** One doubly nested connection loop of the constructor: the genes
      appended and the gene counter moved past them. */
  method ConnectLoop(genes: seq<Gene>, sources: seq<Node>, targets: seq<Node>, count: int, recurrent: bool)
    returns (r: seq<Gene>, next: int)
    ensures r == genes + Connect(sources, targets, count, recurrent)
    ensures next == count + |Connect(sources, targets, count, recurrent)|
  {
    r := genes;
    next := count;
    var a := 0;
    while a < |targets|
      invariant a <= |targets|
      invariant r == genes + Connect(sources, targets[..a], count, recurrent)
      invariant next == count + |Connect(sources, targets[..a], count, recurrent)|
    {
      assert targets[..a + 1][..a] == targets[..a];
      r, next := AppendRow(r, sources, targets[a], next, recurrent);
      a := a + 1;
    }
    assert targets[..a] == targets;
  }

  /** Type 1 as evidently intended, the inner loop over the first b inputs
      for one output: each input into the hidden node under the cursor (hidden[off], hidden[off + 1],
      ...), that hidden node into the output, the counter moving on by two. */
  function SplitRow(inputs: seq<Node>, hidden: seq<Node>, off: nat, output: Node, start: int, b: nat): seq<Gene>
    requires b <= |inputs| && off + b <= |hidden|
  {
    if b == 0 then []
    else
      SplitRow(inputs, hidden, off, output, start, b - 1)
        + [NewGene(inputs[b - 1], hidden[off + b - 1], false, start + 2 * (b - 1)),
           NewGene(hidden[off + b - 1], output, false, start + 2 * (b - 1) + 1)]
  }

  /** The intended type-1 genes for the first a outputs: output k takes the next
      |inputs| hidden nodes, from hidden[Rows(k, |inputs|)] on, and the gene
      counter starts at 1. */
  function Split(inputs: seq<Node>, hidden: seq<Node>, outputs: seq<Node>, a: nat): seq<Gene>
    requires a <= |outputs| && Rows(a, |inputs|) <= |hidden|
  {
    if a == 0 then []
    else
      var off := Rows(a - 1, |inputs|);
      Split(inputs, hidden, outputs, a - 1) + SplitRow(inputs, hidden, off, outputs[a - 1], 1 + 2 * off, |inputs|)
  }

  /** Every gene runs from an input into a hidden node or from a hidden
      node into an output. */
  predicate Layered(genes: seq<Gene>, inputs: seq<Node>, hidden: seq<Node>, outputs: seq<Node>)
  {
    forall k :: 0 <= k < |genes| ==> Between(genes[k], inputs, hidden) || Between(genes[k], hidden, outputs)
  }

  /** Some gene runs from one of the inputs into x. */
  predicate FedBy(genes: seq<Gene>, inputs: seq<Node>, x: Node)
  {
    exists b :: 0 <= b < |inputs| && Linked(genes, inputs[b], x)
  }

  /** Some gene runs from x into one of the outputs. */
  predicate FeedsInto(genes: seq<Gene>, x: Node, outputs: seq<Node>)
  {
    exists a :: 0 <= a < |outputs| && Linked(genes, x, outputs[a])
  }

  /** Every hidden node is fed by some input. */
  predicate Fed(genes: seq<Gene>, inputs: seq<Node>, hidden: seq<Node>)
  {
    forall h :: 0 <= h < |hidden| ==> FedBy(genes, inputs, hidden[h])
  }

  /** Every hidden node feeds some output. */
  predicate Feeds(genes: seq<Gene>, hidden: seq<Node>, outputs: seq<Node>)
  {
    forall h :: 0 <= h < |hidden| ==> FeedsInto(genes, hidden[h], outputs)
  }

  /** The hidden nodes hidden[lo], ..., hidden[hi - 1] are each fed by an
      input and each feed an output. */
  predicate Relayed(genes: seq<Gene>, inputs: seq<Node>, hidden: seq<Node>, outputs: seq<Node>, lo: nat, hi: nat)
    requires hi <= |hidden|
  {
    forall h :: lo <= h < hi ==> FedBy(genes, inputs, hidden[h]) && FeedsInto(genes, hidden[h], outputs)
  }

  /** Every gene ends in one of the targets. */
  predicate EndsIn(genes: seq<Gene>, targets: seq<Node>)
  {
    forall k :: 0 <= k < |genes| ==> genes[k].outNode in targets
  }

  lemma {:induction false} SplitRowLength(inputs: seq<Node>, hidden: seq<Node>, off: nat, output: Node, start: int, b: nat)
    requires b <= |inputs| && off + b <= |hidden|
    ensures |SplitRow(inputs, hidden, off, output, start, b)| == 2 * b
  {
    if b > 0 {
      SplitRowLength(inputs, hidden, off, output, start, b - 1);
    }
  }

  /** Genes that are layered, followed by genes from inputs into hidden
      nodes or from hidden nodes into one more of the outputs. */
  lemma LayeredAppend(a: seq<Gene>, b: seq<Gene>, inputs: seq<Node>, hidden: seq<Node>, outputs: seq<Node>, o: Node)
    requires Layered(a, inputs, hidden, outputs) && Layered(b, inputs, hidden, [o]) && o in outputs
    ensures Layered(a + b, inputs, hidden, outputs)
  {
    var s := a + b;
    forall k | 0 <= k < |s|
      ensures Between(s[k], inputs, hidden) || Between(s[k], hidden, outputs)
    {
      if k < |a| {
        assert s[k] == a[k];
        assert Between(a[k], inputs, hidden) || Between(a[k], hidden, outputs);
      } else {
        assert s[k] == b[k - |a|];
        assert Between(b[k - |a|], inputs, hidden) || Between(b[k - |a|], hidden, [o]);
      }
    }
  }

  lemma {:induction false} SplitRowLayered(inputs: seq<Node>, hidden: seq<Node>, off: nat, output: Node, start: int, b: nat)
    requires b <= |inputs| && off + b <= |hidden|
    ensures Layered(SplitRow(inputs, hidden, off, output, start, b), inputs, hidden, [output])
  {
    if b > 0 {
      var init := SplitRow(inputs, hidden, off, output, start, b - 1);
      var h := hidden[off + b - 1];
      var tail := [NewGene(inputs[b - 1], h, false, start + 2 * (b - 1)), NewGene(h, output, false, start + 2 * (b - 1) + 1)];
      SplitRowLayered(inputs, hidden, off, output, start, b - 1);
      assert Between(tail[0], inputs, hidden) && Between(tail[1], hidden, [output]);
      assert Layered(tail, inputs, hidden, [output]);
      LayeredAppend(init, tail, inputs, hidden, [output], output);
    }
  }

  lemma {:induction false} SplitRowRelays(inputs: seq<Node>, hidden: seq<Node>, off: nat, output: Node, start: int, b: nat)
    requires b <= |inputs| && off + b <= |hidden|
    ensures Relayed(SplitRow(inputs, hidden, off, output, start, b), inputs, hidden, [output], off, off + b)
  {
    if b > 0 {
      var init := SplitRow(inputs, hidden, off, output, start, b - 1);
      var h := hidden[off + b - 1];
      var tail := [NewGene(inputs[b - 1], h, false, start + 2 * (b - 1)), NewGene(h, output, false, start + 2 * (b - 1) + 1)];
      SplitRowRelays(inputs, hidden, off, output, start, b - 1);
      forall j | off <= j < off + b
        ensures FedBy(init + tail, inputs, hidden[j]) && FeedsInto(init + tail, hidden[j], [output])
      {
        if j < off + b - 1 {
          assert FedBy(init, inputs, hidden[j]) && FeedsInto(init, hidden[j], [output]);
          var i :| 0 <= i < |inputs| && Linked(init, inputs[i], hidden[j]);
          LinkedConcat(init, tail, inputs[i], hidden[j]);
          LinkedConcat(init, tail, hidden[j], output);
          assert Linked(init + tail, hidden[j], [output][0]);
        } else {
          assert tail[0].inNode == inputs[b - 1] && tail[0].outNode == hidden[j];
          assert tail[1].inNode == hidden[j] && tail[1].outNode == output;
          LinkedConcat(init, tail, inputs[b - 1], hidden[j]);
          LinkedConcat(init, tail, hidden[j], output);
          assert Linked(init + tail, hidden[j], [output][0]);
        }
      }
    }
  }

  /** A type-1 genome has two genes per hidden node. */
  lemma {:induction false} SplitLength(inputs: seq<Node>, hidden: seq<Node>, outputs: seq<Node>, a: nat)
    requires a <= |outputs| && Rows(a, |inputs|) <= |hidden|
    ensures |Split(inputs, hidden, outputs, a)| == 2 * Rows(a, |inputs|)
  {
    if a > 0 {
      var off := Rows(a - 1, |inputs|);
      SplitLength(inputs, hidden, outputs, a - 1);
      SplitRowLength(inputs, hidden, off, outputs[a - 1], 1 + 2 * off, |inputs|);
    }
  }

  /** Every type-1 gene runs from an input into a hidden node or from a
      hidden node into an output. */
  lemma {:induction false} SplitLayered(inputs: seq<Node>, hidden: seq<Node>, outputs: seq<Node>, a: nat)
    requires a <= |outputs| && Rows(a, |inputs|) <= |hidden|
    ensures Layered(Split(inputs, hidden, outputs, a), inputs, hidden, outputs)
  {
    if a > 0 {
      var off := Rows(a - 1, |inputs|);
      SplitLayered(inputs, hidden, outputs, a - 1);
      SplitRowLayered(inputs, hidden, off, outputs[a - 1], 1 + 2 * off, |inputs|);
      LayeredAppend(Split(inputs, hidden, outputs, a - 1), SplitRow(inputs, hidden, off, outputs[a - 1], 1 + 2 * off, |inputs|),
        inputs, hidden, outputs, outputs[a - 1]);
    }
  }

  /** In the type-1 genes for the first a outputs every hidden node used so
      far is fed by an input and feeds an output. */
  lemma {:induction false} SplitRelays(inputs: seq<Node>, hidden: seq<Node>, outputs: seq<Node>, a: nat)
    requires a <= |outputs| && Rows(a, |inputs|) <= |hidden|
    ensures Relayed(Split(inputs, hidden, outputs, a), inputs, hidden, outputs, 0, Rows(a, |inputs|))
  {
    if a > 0 {
      var off := Rows(a - 1, |inputs|);
      SplitRelays(inputs, hidden, outputs, a - 1);
      SplitRowRelays(inputs, hidden, off, outputs[a - 1], 1 + 2 * off, |inputs|);
      SplitRelaysStep(inputs, hidden, outputs, a, off);
    }
  }

  lemma SplitRelaysStep(inputs: seq<Node>, hidden: seq<Node>, outputs: seq<Node>, a: nat, off: nat)
    requires 0 < a <= |outputs| && Rows(a, |inputs|) <= |hidden| && off == Rows(a - 1, |inputs|)
    requires Relayed(Split(inputs, hidden, outputs, a - 1), inputs, hidden, outputs, 0, off)
    requires Relayed(SplitRow(inputs, hidden, off, outputs[a - 1], 1 + 2 * off, |inputs|), inputs, hidden, [outputs[a - 1]], off, off + |inputs|)
    ensures Relayed(Split(inputs, hidden, outputs, a), inputs, hidden, outputs, 0, Rows(a, |inputs|))
  {
    assert off + |inputs| == Rows(a, |inputs|) <= |hidden|;
    var init := Split(inputs, hidden, outputs, a - 1);
    var row := SplitRow(inputs, hidden, off, outputs[a - 1], 1 + 2 * off, |inputs|);
    assert Split(inputs, hidden, outputs, a) == init + row;
    RelayedAppend(init, row, inputs, hidden, outputs, a - 1, off);
  }

  /** Relayed genes for the hidden nodes before off, followed by a row
      relaying the next |inputs| hidden nodes into output n. */
  lemma RelayedAppend(init: seq<Gene>, row: seq<Gene>, inputs: seq<Node>, hidden: seq<Node>, outputs: seq<Node>, n: nat, off: nat)
    requires n < |outputs| && off + |inputs| <= |hidden|
    requires Relayed(init, inputs, hidden, outputs, 0, off)
    requires Relayed(row, inputs, hidden, [outputs[n]], off, off + |inputs|)
    ensures Relayed(init + row, inputs, hidden, outputs, 0, off + |inputs|)
  {
    forall j | 0 <= j < off + |inputs|
      ensures FedBy(init + row, inputs, hidden[j]) && FeedsInto(init + row, hidden[j], outputs)
    {
      RelayAppend(init, row, inputs, hidden, outputs, outputs[n], n, off, j);
    }
  }

  /** One step of RelayedAppend, for the hidden node j. */
  lemma RelayAppend(init: seq<Gene>, row: seq<Gene>, inputs: seq<Node>, hidden: seq<Node>, outputs: seq<Node>, o: Node, n: nat, off: nat, j: nat)
    requires n < |outputs| && o == outputs[n] && j < off + |inputs| <= |hidden|
    requires Relayed(init, inputs, hidden, outputs, 0, off)
    requires Relayed(row, inputs, hidden, [o], off, off + |inputs|)
    ensures FedBy(init + row, inputs, hidden[j]) && FeedsInto(init + row, hidden[j], outputs)
  {
    if j < off {
      assert FedBy(init, inputs, hidden[j]) && FeedsInto(init, hidden[j], outputs);
      var i :| 0 <= i < |inputs| && Linked(init, inputs[i], hidden[j]);
      var k :| 0 <= k < |outputs| && Linked(init, hidden[j], outputs[k]);
      LinkedConcat(init, row, inputs[i], hidden[j]);
      LinkedConcat(init, row, hidden[j], outputs[k]);
    } else {
      assert FedBy(row, inputs, hidden[j]) && FeedsInto(row, hidden[j], [o]);
      var i :| 0 <= i < |inputs| && Linked(row, inputs[i], hidden[j]);
      var k :| 0 <= k < 1 && Linked(row, hidden[j], [o][k]);
      LinkedConcat(init, row, inputs[i], hidden[j]);
      LinkedConcat(init, row, hidden[j], outputs[n]);
    }
  }

  /** The type-1 row as the source writes it: the first gene of each pair
      runs from the input straight into the output. */
  function SplitRowAsWritten(inputs: seq<Node>, hidden: seq<Node>, off: nat, output: Node, start: int, b: nat): seq<Gene>
    requires b <= |inputs| && off + b <= |hidden|
  {
    if b == 0 then []
    else
      SplitRowAsWritten(inputs, hidden, off, output, start, b - 1)
        + [NewGene(inputs[b - 1], output, false, start + 2 * (b - 1)),
           NewGene(hidden[off + b - 1], output, false, start + 2 * (b - 1) + 1)]
  }

  /** The type-1 genes the constructor builds for the first a outputs. */
  function SplitAsWritten(inputs: seq<Node>, hidden: seq<Node>, outputs: seq<Node>, a: nat): seq<Gene>
    requires a <= |outputs| && Rows(a, |inputs|) <= |hidden|
  {
    if a == 0 then []
    else
      var off := Rows(a - 1, |inputs|);
      SplitAsWritten(inputs, hidden, outputs, a - 1) + SplitRowAsWritten(inputs, hidden, off, outputs[a - 1], 1 + 2 * off, |inputs|)
  }

  lemma EndsInAppend(a: seq<Gene>, b: seq<Gene>, outputs: seq<Node>, o: Node)
    requires EndsIn(a, outputs) && EndsIn(b, [o]) && o in outputs
    ensures EndsIn(a + b, outputs)
  {
    var s := a + b;
    forall k | 0 <= k < |s|
      ensures s[k].outNode in outputs
    {
      if k < |a| {
        assert s[k] == a[k];
      } else {
        assert s[k] == b[k - |a|] && b[k - |a|].outNode in [o];
      }
    }
  }

  lemma {:induction false} AsWrittenRowEndsIn(inputs: seq<Node>, hidden: seq<Node>, off: nat, output: Node, start: int, b: nat)
    requires b <= |inputs| && off + b <= |hidden|
    ensures EndsIn(SplitRowAsWritten(inputs, hidden, off, output, start, b), [output])
  {
    if b > 0 {
      var init := SplitRowAsWritten(inputs, hidden, off, output, start, b - 1);
      AsWrittenRowEndsIn(inputs, hidden, off, output, start, b - 1);
      var tail := [NewGene(inputs[b - 1], output, false, start + 2 * (b - 1)),
                   NewGene(hidden[off + b - 1], output, false, start + 2 * (b - 1) + 1)];
      assert EndsIn(tail, [output]);
      EndsInAppend(init, tail, [output], output);
    }
  }

  /** As written, every type-1 gene ends in an output, so no gene feeds a
      hidden node. */
  lemma {:induction false} AsWrittenEndsInOutputs(inputs: seq<Node>, hidden: seq<Node>, outputs: seq<Node>, a: nat)
    requires a <= |outputs| && Rows(a, |inputs|) <= |hidden|
    ensures EndsIn(SplitAsWritten(inputs, hidden, outputs, a), outputs)
  {
    if a > 0 {
      var off := Rows(a - 1, |inputs|);
      AsWrittenEndsInOutputs(inputs, hidden, outputs, a - 1);
      AsWrittenRowEndsIn(inputs, hidden, off, outputs[a - 1], 1 + 2 * off, |inputs|);
      EndsInAppend(SplitAsWritten(inputs, hidden, outputs, a - 1),
        SplitRowAsWritten(inputs, hidden, off, outputs[a - 1], 1 + 2 * off, |inputs|), outputs, outputs[a - 1]);
    }
  }

  /** As written, no hidden node is fed by an input, where the corrected
      genes feed every hidden node. */
  lemma AsWrittenStarvesHidden(inputs: seq<Node>, hidden: seq<Node>, outputs: seq<Node>)
    requires |hidden| == Rows(|outputs|, |inputs|) && |hidden| > 0
    requires forall h :: 0 <= h < |hidden| ==> hidden[h] !in outputs
    ensures !Fed(SplitAsWritten(inputs, hidden, outputs, |outputs|), inputs, hidden)
    ensures Fed(Split(inputs, hidden, outputs, |outputs|), inputs, hidden)
  {
    var s := SplitAsWritten(inputs, hidden, outputs, |outputs|);
    AsWrittenEndsInOutputs(inputs, hidden, outputs, |outputs|);
    Unfed(s, inputs, outputs, hidden[0]);
    SplitRelays(inputs, hidden, outputs, |outputs|);
    RelayedAll(Split(inputs, hidden, outputs, |outputs|), inputs, hidden, outputs);
  }

  /** Genes that all end in the outputs feed no node outside them. */
  lemma Unfed(genes: seq<Gene>, inputs: seq<Node>, outputs: seq<Node>, x: Node)
    requires EndsIn(genes, outputs) && x !in outputs
    ensures !FedBy(genes, inputs, x)
  {
    forall i | 0 <= i < |inputs|
      ensures !Linked(genes, inputs[i], x)
    {
      forall k | 0 <= k < |genes|
        ensures !(genes[k].inNode == inputs[i] && genes[k].outNode == x)
      {
        assert genes[k].outNode in outputs;
      }
    }
  }

  /** Genes from the sources into the targets, followed by genes from the
      sources into one more of the targets. */
  lemma BetweenAppend(a: seq<Gene>, b: seq<Gene>, sources: seq<Node>, targets: seq<Node>, o: Node)
    requires GenesBetween(a, sources, targets) && GenesBetween(b, sources, [o]) && o in targets
    ensures GenesBetween(a + b, sources, targets)
  {
    var s := a + b;
    forall k | 0 <= k < |s|
      ensures Between(s[k], sources, targets)
    {
      if k < |a| {
        assert s[k] == a[k];
      } else {
        assert s[k] == b[k - |a|] && Between(b[k - |a|], sources, [o]);
      }
    }
  }

  /** As written, a type-1 row has two genes per input, each from an input
      or a hidden node into the row's output. */
  lemma {:induction false} AsWrittenRowShape(inputs: seq<Node>, hidden: seq<Node>, off: nat, output: Node, start: int, b: nat)
    requires b <= |inputs| && off + b <= |hidden|
    ensures var row := SplitRowAsWritten(inputs, hidden, off, output, start, b);
      |row| == 2 * b && GenesBetween(row, inputs + hidden, [output])
  {
    if b > 0 {
      var init := SplitRowAsWritten(inputs, hidden, off, output, start, b - 1);
      AsWrittenRowShape(inputs, hidden, off, output, start, b - 1);
      var tail := [NewGene(inputs[b - 1], output, false, start + 2 * (b - 1)),
                   NewGene(hidden[off + b - 1], output, false, start + 2 * (b - 1) + 1)];
      assert inputs[b - 1] in inputs + hidden && hidden[off + b - 1] in inputs + hidden;
      assert GenesBetween(tail, inputs + hidden, [output]);
      BetweenAppend(init, tail, inputs + hidden, [output], output);
    }
  }

  /** As written, the type-1 genes are two per hidden node. */
  lemma {:induction false} AsWrittenLength(inputs: seq<Node>, hidden: seq<Node>, outputs: seq<Node>, a: nat)
    requires a <= |outputs| && Rows(a, |inputs|) <= |hidden|
    ensures |SplitAsWritten(inputs, hidden, outputs, a)| == 2 * Rows(a, |inputs|)
  {
    if a > 0 {
      var off := Rows(a - 1, |inputs|);
      AsWrittenLength(inputs, hidden, outputs, a - 1);
      AsWrittenRowShape(inputs, hidden, off, outputs[a - 1], 1 + 2 * off, |inputs|);
    }
  }

  /** As written, every type-1 gene runs from an input or a hidden node
      into an output. */
  lemma {:induction false} AsWrittenBetween(inputs: seq<Node>, hidden: seq<Node>, outputs: seq<Node>, a: nat)
    requires a <= |outputs| && Rows(a, |inputs|) <= |hidden|
    ensures GenesBetween(SplitAsWritten(inputs, hidden, outputs, a), inputs + hidden, outputs)
  {
    if a > 0 {
      var off := Rows(a - 1, |inputs|);
      var row := SplitRowAsWritten(inputs, hidden, off, outputs[a - 1], 1 + 2 * off, |inputs|);
      AsWrittenBetween(inputs, hidden, outputs, a - 1);
      AsWrittenRowShape(inputs, hidden, off, outputs[a - 1], 1 + 2 * off, |inputs|);
      BetweenAppend(SplitAsWritten(inputs, hidden, outputs, a - 1), row, inputs + hidden, outputs, outputs[a - 1]);
    }
  }

  /** The type-1 inner loop as the source writes it: for each input, a
      gene from it into the output and one from the hidden node under the
      cursor into the output. */
  method AppendSplitRow(genes: seq<Gene>, inputs: seq<Node>, hidden: seq<Node>, off: nat, output: Node, count: int)
    returns (r: seq<Gene>, next: int)
    requires off + |inputs| <= |hidden|
    ensures r == genes + SplitRowAsWritten(inputs, hidden, off, output, count, |inputs|) && next == count + 2 * |inputs|
  {
    r := genes;
    next := count;
    var b := 0;
    while b < |inputs|
      invariant b <= |inputs| && next == count + 2 * b
      invariant r == genes + SplitRowAsWritten(inputs, hidden, off, output, count, b)
    {
      r := r + [NewGene(inputs[b], output, false, next)];
      next := next + 1;
      r := r + [NewGene(hidden[off + b], output, false, next)];
      next := next + 1;
      b := b + 1;
    }
  }

  /** The type-1 outer loop, the hidden node cursor moving on by one per
      input. */
  method SplitLoop(inputs: seq<Node>, hidden: seq<Node>, outputs: seq<Node>)
    returns (r: seq<Gene>)
    requires |hidden| == Rows(|outputs|, |inputs|)
    ensures r == SplitAsWritten(inputs, hidden, outputs, |outputs|)
  {
    r := [];
    var count := 1;
    var a := 0;
    var used := 0;
    while a < |outputs|
      invariant a <= |outputs| && used == Rows(a, |inputs|) && count == 1 + 2 * used && used <= |hidden|
      invariant r == SplitAsWritten(inputs, hidden, outputs, a)
    {
      RowsMonotone(a + 1, |outputs|, |inputs|);
      r, count := AppendSplitRow(r, inputs, hidden, used, outputs[a], count);
      a := a + 1;
      used := used + |inputs|;
    }
  }

  /** The genes of the fully connected type 2, in the order they are made:
      inputs into all hidden nodes, hidden into all outputs, the bias into
      every output, and every hidden node recurrently into every hidden
      node. */
  function FullGenes(inputs: seq<Node>, bias: seq<Node>, hidden: seq<Node>, outputs: seq<Node>): seq<Gene>
  {
    var c1 := Connect(inputs, hidden, 1, false);
    var c2 := Connect(hidden, outputs, 1 + |c1|, false);
    var c3 := Connect(bias, outputs, 1 + |c1| + |c2|, false);
    c1 + c2 + c3 + Connect(hidden, hidden, 1 + |c1| + |c2| + |c3|, true)
  }

  /** The bias node type 2 connects: the last input (the source dereferences
      a null pointer when there is none and an output to connect). */
  function BiasOf(inputs: seq<Node>): seq<Node>
  {
    if |inputs| > 0 then [inputs[|inputs| - 1]] else []
  }

  /** The genes of each starting topology. */
  function StartGenes(numIn: nat, numOut: nat, numHidden: nat, kind: int): seq<Gene>
  {
    var h := HiddenCount(numIn, numOut, numHidden, kind);
    var inputs := InputNodes(numIn);
    var hidden := NeuronNodes(numIn + 1, h, Hidden);
    var outputs := NeuronNodes(numIn + h + 1, numOut, Output);
    KindGenes(inputs, hidden, outputs, kind)
  }

  /** The genes a starting genome of the given type links over its node
      lists: none for an unknown type. */
  function KindGenes(inputs: seq<Node>, hidden: seq<Node>, outputs: seq<Node>, kind: int): seq<Gene>
    requires kind == 1 ==> Rows(|outputs|, |inputs|) <= |hidden|
  {
    if kind == 0 then Connect(inputs, outputs, 1, false)
    else if kind == 1 then SplitAsWritten(inputs, hidden, outputs, |outputs|)
    else if kind == 2 then FullGenes(inputs, BiasOf(inputs), hidden, outputs)
    else []
  }

  /** The gene loops of the constructor. */
  method BuildGenes(inputs: seq<Node>, hidden: seq<Node>, outputs: seq<Node>, kind: int)
    returns (genes: seq<Gene>)
    requires kind == 1 ==> |hidden| == Rows(|outputs|, |inputs|)
    ensures genes == KindGenes(inputs, hidden, outputs, kind)
  {
    genes := [];
    if kind == 0 {
      var next;
      genes, next := ConnectLoop([], inputs, outputs, 1, false);
    } else if kind == 1 {
      genes := SplitLoop(inputs, hidden, outputs);
    } else if kind == 2 {
      var next;
      genes, next := ConnectLoop([], inputs, hidden, 1, false);
      genes, next := ConnectLoop(genes, hidden, outputs, next, false);
      genes, next := ConnectLoop(genes, BiasOf(inputs), outputs, next, false);
      genes, next := ConnectLoop(genes, hidden, hidden, next, true);
    }
  }

  /** The starting nodes carry ids 1, 2, ... in order, the last input
      being the bias. */
  lemma StartNodesAscend(numIn: nat, numHidden: nat, numOut: nat)
    ensures var nodes := StartNodes(numIn, numHidden, numOut);
      |nodes| == numIn + numHidden + numOut &&
      (forall k :: 0 <= k < |nodes| ==> nodes[k].id == k + 1) &&
      (numIn > 0 ==> nodes[numIn - 1].place == Bias) &&
      Verified([], nodes)
  {
  }

  /** The shape of a type-0 genome: numIn * numOut genes numbered 1 .. n in
      order, each from an input to an output, every input linked to every
      output, and the genome passes verify. */
  lemma Type0Shape(numIn: nat, numOut: nat, numHidden: nat)
    ensures var genes := StartGenes(numIn, numOut, numHidden, 0);
      var inputs, outputs := InputNodes(numIn), NeuronNodes(numIn + 1, numOut, Output);
      |genes| == numIn * numOut && NumberedFrom(genes, 1, false) && GenesBetween(genes, inputs, outputs) &&
      Complete(genes, inputs, outputs) && Verified(genes, StartNodes(numIn, 0, numOut))
  {
    var inputs, outputs := InputNodes(numIn), NeuronNodes(numIn + 1, numOut, Output);
    var nodes := StartNodes(numIn, 0, numOut);
    var genes := Connect(inputs, outputs, 1, false);
    assert nodes == inputs + outputs;
    ConnectLength(inputs, outputs, 1, false);
    ConnectBetween(inputs, outputs, 1, false);
    ConnectNumbered(inputs, outputs, 1, false);
    ConnectCovers(inputs, outputs, 1, false);
    StartNodesAscend(numIn, 0, numOut);
    forall k | 0 <= k < |genes|
      ensures genes[k].inNode in nodes && genes[k].outNode in nodes
    {
      assert Between(genes[k], inputs, outputs);
    }
  }

  /** The type-1 start genes connect only start nodes. */
  lemma Type1Verified(numIn: nat, numOut: nat)
    ensures var hc := numIn * numOut;
      var inputs, hidden := InputNodes(numIn), NeuronNodes(numIn + 1, hc, Hidden);
      var outputs := NeuronNodes(numIn + hc + 1, numOut, Output);
      |hidden| == Rows(|outputs|, |inputs|) &&
      Verified(SplitAsWritten(inputs, hidden, outputs, numOut), StartNodes(numIn, hc, numOut))
  {
    var hc := numIn * numOut;
    var inputs := InputNodes(numIn);
    var hidden := NeuronNodes(numIn + 1, hc, Hidden);
    var outputs := NeuronNodes(numIn + hc + 1, numOut, Output);
    var nodes := StartNodes(numIn, hc, numOut);
    RowsProduct(numOut, numIn);
    var genes := SplitAsWritten(inputs, hidden, outputs, numOut);
    assert nodes == inputs + hidden + outputs;
    AsWrittenBetween(inputs, hidden, outputs, numOut);
    StartNodesAscend(numIn, hc, numOut);
    BetweenWithin(genes, inputs + hidden, outputs, nodes);
  }

  /** No type-1 start gene feeds a hidden node. */
  lemma Type1Starves(numIn: nat, numOut: nat)
    ensures var hc := numIn * numOut;
      var inputs, hidden := InputNodes(numIn), NeuronNodes(numIn + 1, hc, Hidden);
      var outputs := NeuronNodes(numIn + hc + 1, numOut, Output);
      |hidden| == Rows(|outputs|, |inputs|) &&
      (hc > 0 ==> !Fed(SplitAsWritten(inputs, hidden, outputs, numOut), inputs, hidden))
  {
    var hc := numIn * numOut;
    var inputs := InputNodes(numIn);
    var hidden := NeuronNodes(numIn + 1, hc, Hidden);
    var outputs := NeuronNodes(numIn + hc + 1, numOut, Output);
    RowsProduct(numOut, numIn);
    if hc > 0 {
      forall h | 0 <= h < |hidden|
        ensures hidden[h] !in outputs
      {
        assert hidden[h].place == Hidden;
      }
      AsWrittenStarvesHidden(inputs, hidden, outputs);
    }
  }

  /** A type-1 genome, as the source builds it, has two genes per hidden
      node, each from an input or a hidden node into an output, so that no
      hidden node is fed by an input; it passes verify. */
  lemma Type1Shape(numIn: nat, numOut: nat, numHidden: nat)
    ensures var hc := numIn * numOut;
      var genes := StartGenes(numIn, numOut, numHidden, 1);
      var inputs, hidden := InputNodes(numIn), NeuronNodes(numIn + 1, hc, Hidden);
      var outputs := NeuronNodes(numIn + hc + 1, numOut, Output);
      |genes| == 2 * hc && GenesBetween(genes, inputs + hidden, outputs) &&
      (hc > 0 ==> !Fed(genes, inputs, hidden)) &&
      Verified(genes, StartNodes(numIn, hc, numOut))
  {
    var hc := numIn * numOut;
    var inputs := InputNodes(numIn);
    var hidden := NeuronNodes(numIn + 1, hc, Hidden);
    var outputs := NeuronNodes(numIn + hc + 1, numOut, Output);
    RowsProduct(numOut, numIn);
    assert |outputs| == numOut && |hidden| == Rows(numOut, numIn);
    assert StartGenes(numIn, numOut, numHidden, 1) == SplitAsWritten(inputs, hidden, outputs, numOut);
    AsWrittenLength(inputs, hidden, outputs, numOut);
    AsWrittenBetween(inputs, hidden, outputs, numOut);
    Type1Verified(numIn, numOut);
    Type1Starves(numIn, numOut);
  }

  /** The corrected type-1 genes have two genes per hidden node, each from
      an input into a hidden node or from a hidden node into an output;
      every hidden node is fed by an input and feeds an output; the genome
      passes verify. */
  lemma CorrectedType1Shape(numIn: nat, numOut: nat)
    ensures var hc := numIn * numOut;
      var inputs, hidden := InputNodes(numIn), NeuronNodes(numIn + 1, hc, Hidden);
      var outputs := NeuronNodes(numIn + hc + 1, numOut, Output);
      |hidden| == Rows(|outputs|, |inputs|) &&
      var genes := Split(inputs, hidden, outputs, numOut);
      |genes| == 2 * hc && Layered(genes, inputs, hidden, outputs) &&
      Fed(genes, inputs, hidden) && Feeds(genes, hidden, outputs) &&
      Verified(genes, StartNodes(numIn, hc, numOut))
  {
    var hc := numIn * numOut;
    var inputs := InputNodes(numIn);
    var hidden := NeuronNodes(numIn + 1, hc, Hidden);
    var outputs := NeuronNodes(numIn + hc + 1, numOut, Output);
    var nodes := StartNodes(numIn, hc, numOut);
    RowsProduct(numOut, numIn);
    assert |outputs| == numOut && |hidden| == Rows(numOut, numIn);
    var genes := Split(inputs, hidden, outputs, numOut);
    assert nodes == inputs + hidden + outputs;
    SplitLayered(inputs, hidden, outputs, numOut);
    SplitLength(inputs, hidden, outputs, numOut);
    SplitRelays(inputs, hidden, outputs, numOut);
    RelayedAll(genes, inputs, hidden, outputs);
    StartNodesAscend(numIn, hc, numOut);
    LayeredWithin(genes, inputs, hidden, outputs);
  }

  lemma RelayedAll(genes: seq<Gene>, inputs: seq<Node>, hidden: seq<Node>, outputs: seq<Node>)
    requires Relayed(genes, inputs, hidden, outputs, 0, |hidden|)
    ensures Fed(genes, inputs, hidden) && Feeds(genes, hidden, outputs)
  {
    forall h | 0 <= h < |hidden|
      ensures FedBy(genes, inputs, hidden[h]) && FeedsInto(genes, hidden[h], outputs)
    {
    }
  }

  lemma LayeredWithin(genes: seq<Gene>, inputs: seq<Node>, hidden: seq<Node>, outputs: seq<Node>)
    requires Layered(genes, inputs, hidden, outputs)
    ensures Within(genes, inputs + hidden + outputs)
  {
    var nodes := inputs + hidden + outputs;
    forall k | 0 <= k < |genes|
      ensures genes[k].inNode in nodes && genes[k].outNode in nodes
    {
      assert Between(genes[k], inputs, hidden) || Between(genes[k], hidden, outputs);
    }
  }

  /** Every gene's end nodes are among the nodes. */
  predicate Within(genes: seq<Gene>, nodes: seq<Node>)
  {
    forall k :: 0 <= k < |genes| ==> genes[k].inNode in nodes && genes[k].outNode in nodes
  }

  lemma BetweenWithin(genes: seq<Gene>, sources: seq<Node>, targets: seq<Node>, nodes: seq<Node>)
    requires GenesBetween(genes, sources, targets)
    requires forall x :: x in sources ==> x in nodes
    requires forall x :: x in targets ==> x in nodes
    ensures Within(genes, nodes)
  {
    forall k | 0 <= k < |genes|
      ensures genes[k].inNode in nodes && genes[k].outNode in nodes
    {
      assert Between(genes[k], sources, targets);
    }
  }

  lemma WithinConcat(a: seq<Gene>, b: seq<Gene>, nodes: seq<Node>)
    requires Within(a, nodes) && Within(b, nodes)
    ensures Within(a + b, nodes)
  {
    forall k | 0 <= k < |a + b|
      ensures (a + b)[k].inNode in nodes && (a + b)[k].outNode in nodes
    {
      if k >= |a| {
        assert (a + b)[k] == b[k - |a|];
      }
    }
  }

  /** Enabled genes numbered start, start + 1, ... in order. */
  predicate Counted(genes: seq<Gene>, start: int)
  {
    forall k :: 0 <= k < |genes| ==> genes[k].innovation == (start + k) as real && genes[k].enabled
  }

  lemma CountedConcat(a: seq<Gene>, b: seq<Gene>, start: int)
    requires Counted(a, start) && Counted(b, start + |a|)
    ensures Counted(a + b, start)
  {
    forall k | 0 <= k < |a + b|
      ensures (a + b)[k].innovation == (start + k) as real && (a + b)[k].enabled
    {
      if k >= |a| {
        assert (a + b)[k] == b[k - |a|];
      }
    }
  }

  lemma ConnectCounted(sources: seq<Node>, targets: seq<Node>, start: int, recurrent: bool)
    ensures Counted(Connect(sources, targets, start, recurrent), start)
  {
    ConnectNumbered(sources, targets, start, recurrent);
  }

  /** The fully connected genes are numbered 1, 2, ... in order, all
      enabled. */
  lemma FullCounted(inputs: seq<Node>, bias: seq<Node>, hidden: seq<Node>, outputs: seq<Node>)
    ensures Counted(FullGenes(inputs, bias, hidden, outputs), 1)
  {
    var c1 := Connect(inputs, hidden, 1, false);
    var c2 := Connect(hidden, outputs, 1 + |c1|, false);
    var c3 := Connect(bias, outputs, 1 + |c1| + |c2|, false);
    var c4 := Connect(hidden, hidden, 1 + |c1| + |c2| + |c3|, true);
    ConnectCounted(inputs, hidden, 1, false);
    ConnectCounted(hidden, outputs, 1 + |c1|, false);
    ConnectCounted(bias, outputs, 1 + |c1| + |c2|, false);
    ConnectCounted(hidden, hidden, 1 + |c1| + |c2| + |c3|, true);
    CountedConcat(c1, c2, 1);
    CountedConcat(c1 + c2, c3, 1);
    CountedConcat(c1 + c2 + c3, c4, 1);
  }

  /** The fully connected genes link every input to every hidden node, every
      hidden node to every output, the bias to every output and every hidden
      node to every hidden node. */
  lemma CompleteInFour(c1: seq<Gene>, c2: seq<Gene>, c3: seq<Gene>, c4: seq<Gene>, sources: seq<Node>, targets: seq<Node>)
    requires Complete(c1, sources, targets) || Complete(c2, sources, targets) ||
      Complete(c3, sources, targets) || Complete(c4, sources, targets)
    ensures Complete(c1 + c2 + c3 + c4, sources, targets)
  {
    CompleteConcat(c1, c2, sources, targets);
    CompleteConcat(c1 + c2, c3, sources, targets);
    CompleteConcat(c1 + c2 + c3, c4, sources, targets);
  }

  lemma FullCovers(inputs: seq<Node>, bias: seq<Node>, hidden: seq<Node>, outputs: seq<Node>)
    ensures var genes := FullGenes(inputs, bias, hidden, outputs);
      Complete(genes, inputs, hidden) && Complete(genes, hidden, outputs) &&
      Complete(genes, bias, outputs) && Complete(genes, hidden, hidden)
  {
    var c1 := Connect(inputs, hidden, 1, false);
    var c2 := Connect(hidden, outputs, 1 + |c1|, false);
    var c3 := Connect(bias, outputs, 1 + |c1| + |c2|, false);
    var c4 := Connect(hidden, hidden, 1 + |c1| + |c2| + |c3|, true);
    var genes := c1 + c2 + c3 + c4;
    assert FullGenes(inputs, bias, hidden, outputs) == genes;
    assert Complete(genes, inputs, hidden) by {
      ConnectCovers(inputs, hidden, 1, false);
      CompleteInFour(c1, c2, c3, c4, inputs, hidden);
    }
    assert Complete(genes, hidden, outputs) by {
      ConnectCovers(hidden, outputs, 1 + |c1|, false);
      CompleteInFour(c1, c2, c3, c4, hidden, outputs);
    }
    assert Complete(genes, bias, outputs) by {
      ConnectCovers(bias, outputs, 1 + |c1| + |c2|, false);
      CompleteInFour(c1, c2, c3, c4, bias, outputs);
    }
    assert Complete(genes, hidden, hidden) by {
      ConnectCovers(hidden, hidden, 1 + |c1| + |c2| + |c3|, true);
      CompleteInFour(c1, c2, c3, c4, hidden, hidden);
    }
  }

  /** The fully connected genes only use the given nodes, the bias being one
      of the inputs. */
  lemma FullWithin(inputs: seq<Node>, bias: seq<Node>, hidden: seq<Node>, outputs: seq<Node>, nodes: seq<Node>)
    requires nodes == inputs + hidden + outputs
    requires forall x :: x in bias ==> x in inputs
    ensures Within(FullGenes(inputs, bias, hidden, outputs), nodes)
  {
    var c1 := Connect(inputs, hidden, 1, false);
    var c2 := Connect(hidden, outputs, 1 + |c1|, false);
    var c3 := Connect(bias, outputs, 1 + |c1| + |c2|, false);
    var c4 := Connect(hidden, hidden, 1 + |c1| + |c2| + |c3|, true);
    ConnectBetween(inputs, hidden, 1, false);
    ConnectBetween(hidden, outputs, 1 + |c1|, false);
    ConnectBetween(bias, outputs, 1 + |c1| + |c2|, false);
    ConnectBetween(hidden, hidden, 1 + |c1| + |c2| + |c3|, true);
    BetweenWithin(c1, inputs, hidden, nodes);
    BetweenWithin(c2, hidden, outputs, nodes);
    BetweenWithin(c3, bias, outputs, nodes);
    BetweenWithin(c4, hidden, hidden, nodes);
    WithinConcat(c1, c2, nodes);
    WithinConcat(c1 + c2, c3, nodes);
    WithinConcat(c1 + c2 + c3, c4, nodes);
  }

  /** A type-2 genome numbers its genes 1, 2, ... in order, all enabled,
      links every input to every hidden node, every hidden node to every
      output and to every hidden node, the bias to every output, and passes
      verify. */
  lemma Type2Shape(numIn: nat, numOut: nat, numHidden: nat)
    ensures var genes := StartGenes(numIn, numOut, numHidden, 2);
      var inputs, hidden := InputNodes(numIn), NeuronNodes(numIn + 1, numHidden, Hidden);
      var outputs := NeuronNodes(numIn + numHidden + 1, numOut, Output);
      Counted(genes, 1) && Complete(genes, inputs, hidden) && Complete(genes, hidden, outputs) &&
      Complete(genes, hidden, hidden) && Complete(genes, BiasOf(inputs), outputs) &&
      Verified(genes, StartNodes(numIn, numHidden, numOut))
  {
    var inputs, bias := InputNodes(numIn), BiasOf(InputNodes(numIn));
    var hidden := NeuronNodes(numIn + 1, numHidden, Hidden);
    var outputs := NeuronNodes(numIn + numHidden + 1, numOut, Output);
    var nodes := StartNodes(numIn, numHidden, numOut);
    assert StartGenes(numIn, numOut, numHidden, 2) == FullGenes(inputs, bias, hidden, outputs);
    FullCounted(inputs, bias, hidden, outputs);
    FullCovers(inputs, bias, hidden, outputs);
    FullWithin(inputs, bias, hidden, outputs, nodes);
    StartNodesAscend(numIn, numHidden, numOut);
  }

  /** The id one past the last node's, a fresh id when the nodes are sorted
      by id. */
  function NextNodeId(nodes: seq<Node>): (r: int)
    requires |nodes| > 0
    ensures SortedById(nodes) ==> forall k :: 0 <= k < |nodes| ==> nodes[k].id < r
  {
    nodes[|nodes| - 1].id + 1
  }

  /** The node and gene lists of a starting genome. */
  method BuildStart(numIn: nat, numOut: nat, numHidden: nat, kind: int) returns (nodes: seq<Node>, genes: seq<Gene>)
    ensures nodes == StartNodes(numIn, HiddenCount(numIn, numOut, numHidden, kind), numOut)
    ensures genes == StartGenes(numIn, numOut, numHidden, kind)
  {
    var h := HiddenCount(numIn, numOut, numHidden, kind);
    var inputs, hidden, outputs := BuildNodes(numIn, h, numOut);
    assert |outputs| == numOut && (kind == 1 ==> |hidden| == Rows(numOut, numIn));
    genes := BuildGenes(inputs, hidden, outputs, kind);
    nodes := inputs + hidden + outputs;
  }

  class Genome {
    var id: int
    var traits: nat
    var nodes: seq<Node>
    var genes: seq<Gene>

    /** Genome(num_in, num_out, num_hidden, type): one dummy trait, the
        starting nodes and the genes of the topology. */
    constructor Initial(numIn: nat, numOut: nat, numHidden: nat, kind: int)
      requires kind == 2 && numOut > 0 ==> numIn > 0
      ensures id == 0 && traits == 1
      ensures nodes == StartNodes(numIn, HiddenCount(numIn, numOut, numHidden, kind), numOut)
      ensures genes == StartGenes(numIn, numOut, numHidden, kind)
    {
      var ns, gs := BuildStart(numIn, numOut, numHidden, kind);
      id := 0;
      traits := 1;
      nodes := ns;
      genes := gs;
    }

    /** verify */
    method Verify() returns (ok: bool)
      ensures ok <==> Verified(genes, nodes)
    {
      ok := CheckLists(genes, nodes);
    }

    /** extrons */
    method Extrons() returns (total: int)
      ensures total == Enabled(genes) && total <= |genes|
    {
      total := CountEnabled(genes);
    }

    /** mutate_gene_reenable: only the first disabled gene changes. */
    method MutateGeneReenable()
      modifies this
      ensures var k := FirstDisabled(old(genes));
        genes == if k < |old(genes)| then old(genes)[k := Enable(old(genes)[k])] else old(genes)
      ensures nodes == old(nodes) && id == old(id) && traits == old(traits)
    {
      genes := ReenableFirst(genes);
    }

    /** compatibility against another genome, with the coefficients of the
        NEAT parameters. */
    method Compatibility(g: Genome, disjointCoeff: real, excessCoeff: real, mutdiffCoeff: real)
      returns (r: Option<real>)
      ensures r == CompatibilityOf(Compare(genes, g.genes), disjointCoeff, excessCoeff, mutdiffCoeff)
    {
      var t := Tallied(genes, g.genes);
      r := CompatibilityOf(t, disjointCoeff, excessCoeff, mutdiffCoeff);
    }

    /** get_last_node_id */
    function GetLastNodeId(): int
      reads this
      requires |nodes| > 0
    {
      NextNodeId(nodes)
    }
  }

  /** A starting genome passes verify, and its next node id is one past its
      node count. */
  method StartingGenomeChecks(numIn: nat, numOut: nat, numHidden: nat) returns (ok0: bool, ok1: bool, ok2: bool, last: int)
    requires numIn > 0
    ensures ok0 && ok1 && ok2 && last == numIn + numOut + 1
  {
    var g0 := new Genome.Initial(numIn, numOut, numHidden, 0);
    Type0Shape(numIn, numOut, numHidden);
    ok0 := g0.Verify();
    StartNodesAscend(numIn, 0, numOut);
    last := g0.GetLastNodeId();
    ok1 := FreshGenomeVerifies(numIn, numOut, numHidden, 1);
    ok2 := FreshGenomeVerifies(numIn, numOut, numHidden, 2);
  }

  /** A fresh type-1 or type-2 genome passes verify. */
  method FreshGenomeVerifies(numIn: nat, numOut: nat, numHidden: nat, kind: int) returns (ok: bool)
    requires kind == 1 || (kind == 2 && numIn > 0)
    ensures ok
  {
    var g := new Genome.Initial(numIn, numOut, numHidden, kind);
    if kind == 1 {
      RowsProduct(numOut, numIn);
      Type1Shape(numIn, numOut, numHidden);
    } else {
      Type2Shape(numIn, numOut, numHidden);
    }
    ok := g.Verify();
  }
}
