/** rtNEAT species (branches/collision/source/rtneat/species.cpp): a species
    keeps the organisms that are compatible with its first member, estimates
    their average fitness, finds its champion and shares fitness among its
    members before reproduction.

    organism.cpp is not part of this model: an organism is its fitness, its
    fitness before sharing, the time it has been alive, its smite, champion
    and elimination marks, its genome and the species it belongs to.
    order_orgs, the ordering rank uses, is taken to put higher fitness
    first. The NEAT parameters (time_alive_minimum, dropoff_age,
    age_significance, survival_thresh) are parameters here. */
module Speciation {
  import opened Wrappers
  import opened Genomes

  class Organism {
    var fitness: real
    var origFitness: real
    var timeAlive: int
    var smited: bool
    var champion: bool
    var eliminate: bool
    /** The species it belongs to (a weak pointer in the source). */
    var species: Option<Species>
    const gnome: Genome

    constructor (fitness: real, timeAlive: int, gnome: Genome)
      ensures this.fitness == fitness && origFitness == fitness && this.timeAlive == timeAlive
      ensures this.gnome == gnome && species == None
      ensures !smited && !champion && !eliminate
    {
      this.fitness, origFitness, this.timeAlive := fitness, fitness, timeAlive;
      this.gnome := gnome;
      smited, champion, eliminate := false, false, false;
      species := None;
    }
  }

  // ---------------------------------------------------------------------
  // estimate_average

  /** Whether an organism has lived long enough to count. */
  predicate Counts(o: Organism, minimum: int)
    reads o
  {
    o.timeAlive >= minimum
  }

  /** The number and fitness total of the organisms that count. */
  function EligibleCount(orgs: seq<Organism>, minimum: int): (n: nat)
    reads orgs
    ensures n <= |orgs|
  {
    if orgs == [] then 0
    else EligibleCount(orgs[..|orgs| - 1], minimum) + (if Counts(orgs[|orgs| - 1], minimum) then 1 else 0)
  }

  function EligibleTotal(orgs: seq<Organism>, minimum: int): real
    reads orgs
  {
    if orgs == [] then 0.0
    else
      var last := orgs[|orgs| - 1];
      EligibleTotal(orgs[..|orgs| - 1], minimum) + (if Counts(last, minimum) then last.fitness else 0.0)
  }

  /** The average fitness of the organisms that count, 0 when none does. */
  function Estimate(orgs: seq<Organism>, minimum: int): real
    reads orgs
  {
    var n := EligibleCount(orgs, minimum);
    if n > 0 then EligibleTotal(orgs, minimum) / n as real else 0.0
  }

  /** The counted fitnesses' total distance above a bound. */
  function Above(orgs: seq<Organism>, minimum: int, bound: real): real
    reads orgs
  {
    if orgs == [] then 0.0
    else
      var last := orgs[|orgs| - 1];
      Above(orgs[..|orgs| - 1], minimum, bound) + (if Counts(last, minimum) then last.fitness - bound else 0.0)
  }

  /** The counted total is the count times the bound plus the distance
      above it. */
  lemma {:induction false} TotalSplit(orgs: seq<Organism>, minimum: int, bound: real)
    ensures EligibleTotal(orgs, minimum) == bound * EligibleCount(orgs, minimum) as real + Above(orgs, minimum, bound)
  {
    if orgs != [] {
      var init := orgs[..|orgs| - 1];
      TotalSplit(init, minimum, bound);
      var n := EligibleCount(init, minimum) as real;
      assert bound * (n + 1.0) == bound * n + bound;
    }
  }

  /** The distance above a lower bound of the counted fitnesses is not
      negative, and the distance above an upper bound is not positive. */
  lemma {:induction false} AboveSign(orgs: seq<Organism>, minimum: int, lo: real, hi: real)
    requires forall i :: 0 <= i < |orgs| && Counts(orgs[i], minimum) ==> lo <= orgs[i].fitness <= hi
    ensures Above(orgs, minimum, lo) >= 0.0 && Above(orgs, minimum, hi) <= 0.0
  {
    if orgs != [] {
      var init := orgs[..|orgs| - 1];
      forall i | 0 <= i < |init| && Counts(init[i], minimum)
        ensures lo <= init[i].fitness <= hi
      {
        assert init[i] == orgs[i];
      }
      AboveSign(init, minimum, lo, hi);
    }
  }

  /** The total of the counted fitnesses lies between n times any lower
      bound and n times any upper bound of them. */
  lemma TotalWithin(orgs: seq<Organism>, minimum: int, lo: real, hi: real)
    requires forall i :: 0 <= i < |orgs| && Counts(orgs[i], minimum) ==> lo <= orgs[i].fitness <= hi
    ensures lo * EligibleCount(orgs, minimum) as real <= EligibleTotal(orgs, minimum)
    ensures EligibleTotal(orgs, minimum) <= hi * EligibleCount(orgs, minimum) as real
  {
    AboveSign(orgs, minimum, lo, hi);
    TotalSplit(orgs, minimum, lo);
    TotalSplit(orgs, minimum, hi);
  }

  lemma DivideWithin(total: real, n: real, lo: real, hi: real)
    requires n > 0.0 && lo * n <= total <= hi * n
    ensures lo <= total / n <= hi
  {
    var q := total / n;
    assert q * n == total;
    assert (q - lo) * n >= 0.0 && (hi - q) * n >= 0.0;
  }

  /** The estimate of a species where some organism counts lies within the
      range of the counted fitnesses. */
  lemma EstimateWithin(orgs: seq<Organism>, minimum: int, lo: real, hi: real)
    requires EligibleCount(orgs, minimum) > 0
    requires forall i :: 0 <= i < |orgs| && Counts(orgs[i], minimum) ==> lo <= orgs[i].fitness <= hi
    ensures lo <= Estimate(orgs, minimum) <= hi
  {
    TotalWithin(orgs, minimum, lo, hi);
    DivideWithin(EligibleTotal(orgs, minimum), EligibleCount(orgs, minimum) as real, lo, hi);
  }

  /** When no organism has lived long enough the estimate is 0. */
  lemma {:induction false} NoneCounts(orgs: seq<Organism>, minimum: int)
    requires forall i :: 0 <= i < |orgs| ==> !Counts(orgs[i], minimum)
    ensures EligibleCount(orgs, minimum) == 0 && Estimate(orgs, minimum) == 0.0
  {
    if orgs != [] {
      var init := orgs[..|orgs| - 1];
      assert forall i :: 0 <= i < |init| ==> init[i] == orgs[i];
      NoneCounts(init, minimum);
    }
  }

  /** The estimate of a single organism is its fitness once it counts. */
  lemma EstimateOne(o: Organism, minimum: int)
    ensures Estimate([o], minimum) == if Counts(o, minimum) then o.fitness else 0.0
  {
    assert [o][..0] == [];
    assert EligibleCount([o], minimum) == if Counts(o, minimum) then 1 else 0;
    assert EligibleTotal([o], minimum) == if Counts(o, minimum) then o.fitness else 0.0;
  }

  /** The loop of estimate_average. */
  method EstimateOf(orgs: seq<Organism>, minimum: int) returns (r: real)
    ensures r == Estimate(orgs, minimum)
  {
    var total, n := 0.0, 0;
    for i := 0 to |orgs|
      invariant total == EligibleTotal(orgs[..i], minimum) && n == EligibleCount(orgs[..i], minimum)
    {
      assert orgs[..i + 1][..i] == orgs[..i];
      if orgs[i].timeAlive >= minimum {
        total := total + orgs[i].fitness;
        n := n + 1;
      }
    }
    assert orgs[..|orgs|] == orgs;
    if n > 0 {
      r := total / n as real;
    } else {
      r := 0.0;
    }
  }

  // ---------------------------------------------------------------------
  // get_champ and compute_max_fitness

  /** orgs[k] is the first organism of the greatest fitness, and that
      fitness is above -1. */
  predicate FirstBest(orgs: seq<Organism>, k: int)
    reads orgs
  {
    0 <= k < |orgs| && orgs[k].fitness > -1.0 &&
    (forall j :: 0 <= j < |orgs| ==> orgs[j].fitness <= orgs[k].fitness) &&
    (forall j :: 0 <= j < k ==> orgs[j].fitness < orgs[k].fitness)
  }

  /** At most one organism is the first of the greatest fitness. */
  lemma FirstBestUnique(orgs: seq<Organism>, k: int, k': int)
    requires FirstBest(orgs, k) && FirstBest(orgs, k')
    ensures k == k'
  {
    assert orgs[k].fitness <= orgs[k'].fitness <= orgs[k].fitness;
  }

  /** get_champ: the first organism of strictly greatest fitness, starting
      from -1; none when no fitness exceeds -1. */
  method GetChamp(orgs: seq<Organism>) returns (champ: Option<Organism>)
    ensures champ.None? <==> forall i :: 0 <= i < |orgs| ==> orgs[i].fitness <= -1.0
    ensures champ.Some? ==> exists k :: FirstBest(orgs, k) && champ.value == orgs[k]
  {
    var best := -1.0;
    var k := -1;
    champ := None;
    for i := 0 to |orgs|
      invariant -1 <= k < i
      invariant k < 0 ==> champ == None && best == -1.0 && forall j :: 0 <= j < i ==> orgs[j].fitness <= -1.0
      invariant k >= 0 ==> champ == Some(orgs[k]) && best == orgs[k].fitness && best > -1.0
      invariant k >= 0 ==> forall j :: 0 <= j < i ==> orgs[j].fitness <= best
      invariant k >= 0 ==> forall j :: 0 <= j < k ==> orgs[j].fitness < best
    {
      if orgs[i].fitness > best {
        champ := Some(orgs[i]);
        best := orgs[i].fitness;
        k := i;
      }
    }
    if k >= 0 {
      assert FirstBest(orgs, k);
    }
  }

  /** The loop of compute_max_fitness: the greatest fitness, or 0 when
      every fitness is at most 0. */
  method MaxFitnessOf(orgs: seq<Organism>) returns (m: real)
    ensures m >= 0.0
    ensures forall i :: 0 <= i < |orgs| ==> orgs[i].fitness <= m
    ensures m == 0.0 || exists i :: 0 <= i < |orgs| && orgs[i].fitness == m
  {
    m := 0.0;
    for i := 0 to |orgs|
      invariant m >= 0.0 && forall j :: 0 <= j < i ==> orgs[j].fitness <= m
      invariant m == 0.0 || exists j :: 0 <= j < i && orgs[j].fitness == m
    {
      if orgs[i].fitness > m {
        m := orgs[i].fitness;
      }
    }
  }

  // ---------------------------------------------------------------------
  // remove_org

  /** The position of the first occurrence of x. */
  function IndexOf<T(==)>(s: seq<T>, x: T): (k: nat)
    requires x in s
    ensures k < |s| && s[k] == x && x !in s[..k]
  {
    if s[0] == x then 0 else 1 + IndexOf(s[1..], x)
  }

  /** Removing the first occurrence of x. */
  function Erase<T(==)>(s: seq<T>, x: T): seq<T>
    requires x in s
  {
    var k := IndexOf(s, x);
    s[..k] + s[k + 1..]
  }

  /** Erasing removes one occurrence: one element fewer, x once less, every
      other element as often as before. */
  lemma EraseOne<T>(s: seq<T>, x: T)
    requires x in s
    ensures |Erase(s, x)| == |s| - 1
    ensures multiset(Erase(s, x)) == multiset(s) - multiset{x}
  {
    var k := IndexOf(s, x);
    assert s == s[..k] + [x] + s[k + 1..];
  }

  /** Erasing the only element leaves nothing. */
  lemma EraseSingle<T>(x: T)
    ensures Erase([x], x) == []
  {
    assert IndexOf([x], x) == 0;
  }

  /** The search loop of remove_org. */
  method Find<T(==)>(s: seq<T>, x: T) returns (k: nat)
    ensures k <= |s|
    ensures x !in s[..k]
    ensures k < |s| ==> s[k] == x && k == IndexOf(s, x)
  {
    k := 0;
    while k < |s| && s[k] != x
      invariant k <= |s| && x !in s[..k]
    {
      k := k + 1;
    }
    if k < |s| {
      IndexOfFirst(s, x, k);
    }
  }

  lemma IndexOfFirst<T>(s: seq<T>, x: T, k: nat)
    requires k < |s| && s[k] == x && x !in s[..k]
    ensures IndexOf(s, x) == k
  {
    var j := IndexOf(s, x);
    assert forall i :: 0 <= i < k ==> s[..k][i] == s[i];
    assert forall i :: 0 <= i < j ==> s[..j][i] == s[i];
  }

  // ---------------------------------------------------------------------
  // adjust_fitness

  /** One organism's fitness after adjust_fitness: cut to a hundredth when
      the species stagnates or is obliterated, scaled by age_significance
      when the species is young, never negative, and shared among the
      members. */
  function Adjusted(f: real, penalised: bool, young: bool, ageSignificance: real, size: nat): real
    requires size > 0
  {
    var f1 := if penalised then f * 0.01 else f;
    var f2 := if young then f1 * ageSignificance else f1;
    var f3 := if f2 < 0.0 then 0.0001 else f2;
    f3 / size as real
  }

  /** Shared fitness is never negative, and for a species neither stale nor
      young it is the fitness divided by the number of members. */
  lemma AdjustedFacts(f: real, penalised: bool, young: bool, ageSignificance: real, size: nat)
    requires size > 0
    ensures Adjusted(f, penalised, young, ageSignificance, size) >= 0.0
    ensures !penalised && !young && f >= 0.0 ==> Adjusted(f, penalised, young, ageSignificance, size) == f / size as real
  {
  }

  /** The number of members allowed to reproduce. */
  function Parents(survivalThresh: real, size: nat): int
  {
    (survivalThresh * size as real + 1.0).Floor
  }

  /** The first member not allowed to reproduce. */
  function Cutoff(survivalThresh: real, size: nat): nat
  {
    var p := Parents(survivalThresh, size);
    if p <= 0 then 0 else if p < size then p else size
  }

  /** Adding 1 before the floor keeps at least one parent whenever
      survival_thresh is not negative, and never more than the members. */
  lemma CutoffBounds(survivalThresh: real, size: nat)
    ensures Cutoff(survivalThresh, size) <= size
    ensures 0.0 <= survivalThresh && size > 0 ==> Cutoff(survivalThresh, size) >= 1
  {
    if 0.0 <= survivalThresh && size > 0 {
      assert survivalThresh * size as real >= 0.0;
    }
  }

  /** Sorted with the higher fitness first. */
  predicate ByFitness(orgs: seq<Organism>)
    reads orgs
  {
    forall i, j :: 0 <= i < j < |orgs| ==> orgs[i].fitness >= orgs[j].fitness
  }

  predicate Distinct(orgs: seq<Organism>)
  {
    forall i, j :: 0 <= i < j < |orgs| ==> orgs[i] != orgs[j]
  }

  /** The insertion point of o: after every member at least as fit. */
  method InsertByFitness(sorted: seq<Organism>, o: Organism) returns (r: seq<Organism>)
    requires ByFitness(sorted)
    ensures ByFitness(r) && multiset(r) == multiset(sorted) + multiset{o}
  {
    var k := 0;
    while k < |sorted| && sorted[k].fitness >= o.fitness
      invariant k <= |sorted| && forall j :: 0 <= j < k ==> sorted[j].fitness >= o.fitness
    {
      k := k + 1;
    }
    r := sorted[..k] + [o] + sorted[k..];
    InsertKeepsOrder(sorted, o, k);
    assert sorted == sorted[..k] + sorted[k..];
  }

  /** Placing o after the members at least as fit and before the rest keeps
      the order. */
  lemma InsertKeepsOrder(sorted: seq<Organism>, o: Organism, k: nat)
    requires ByFitness(sorted) && k <= |sorted|
    requires forall j :: 0 <= j < k ==> sorted[j].fitness >= o.fitness
    requires k < |sorted| ==> sorted[k].fitness < o.fitness
    ensures ByFitness(sorted[..k] + [o] + sorted[k..])
  {
    var r := sorted[..k] + [o] + sorted[k..];
    assert forall i :: 0 <= i < |r| ==> r[i] == if i < k then sorted[i] else if i == k then o else sorted[i - 1];
  }

  /** Sequences that are permutations of each other hold the same
      elements. */
  lemma SameElements<T>(a: seq<T>, b: seq<T>)
    requires multiset(a) == multiset(b)
    ensures |a| == |b| && forall x :: x in a <==> x in b
  {
    assert |a| == |multiset(a)| == |multiset(b)| == |b|;
    forall x
      ensures x in a <==> x in b
    {
      assert x in a <==> x in multiset(a);
      assert x in b <==> x in multiset(b);
    }
  }

  /** rank: the members ordered by fitness, higher first. */
  method RankByFitness(orgs: seq<Organism>) returns (r: seq<Organism>)
    ensures ByFitness(r) && multiset(r) == multiset(orgs)
  {
    r := [];
    for i := 0 to |orgs|
      invariant ByFitness(r) && multiset(r) == multiset(orgs[..i])
    {
      assert orgs[..i + 1] == orgs[..i] + [orgs[i]];
      r := InsertByFitness(r, orgs[i]);
    }
    assert orgs[..|orgs|] == orgs;
  }

  /** The fitness loop of adjust_fitness: each member remembers its fitness
      and takes the adjusted one. */
  method ShareFitness(orgs: seq<Organism>, penalised: bool, young: bool, ageSignificance: real)
    requires |orgs| > 0 && Distinct(orgs)
    modifies set o | o in orgs
    ensures forall o :: o in orgs ==> o.origFitness == old(o.fitness) &&
                                      o.fitness == Adjusted(old(o.fitness), penalised, young, ageSignificance, |orgs|)
    ensures forall o :: o in orgs ==> (o.timeAlive == old(o.timeAlive) && o.smited == old(o.smited) &&
                                       o.champion == old(o.champion) && o.eliminate == old(o.eliminate) &&
                                       o.species == old(o.species))
  {
    for i := 0 to |orgs|
      invariant forall j :: 0 <= j < i ==> orgs[j].origFitness == old(orgs[j].fitness) &&
                                           orgs[j].fitness == Adjusted(old(orgs[j].fitness), penalised, young, ageSignificance, |orgs|)
      invariant forall j :: i <= j < |orgs| ==> orgs[j].fitness == old(orgs[j].fitness)
      invariant forall o :: o in orgs ==> (o.timeAlive == old(o.timeAlive) && o.smited == old(o.smited) &&
                                           o.champion == old(o.champion) && o.eliminate == old(o.eliminate) &&
                                           o.species == old(o.species))
    {
      var o := orgs[i];
      o.origFitness := o.fitness;
      o.fitness := Adjusted(o.fitness, penalised, young, ageSignificance, |orgs|);
    }
  }

  /** The marking of adjust_fitness: the first member is the champion and
      every member from the cutoff on is marked for elimination. */
  method MarkForDeath(orgs: seq<Organism>, cutoff: nat)
    requires |orgs| > 0 && cutoff <= |orgs|
    modifies set o | o in orgs
    ensures orgs[0].champion
    ensures forall i :: cutoff <= i < |orgs| ==> orgs[i].eliminate
    ensures forall o :: o in orgs ==> (o.fitness == old(o.fitness) && o.origFitness == old(o.origFitness) &&
                                       o.timeAlive == old(o.timeAlive) && o.smited == old(o.smited) &&
                                       o.species == old(o.species))
    ensures forall o :: o in orgs && o != orgs[0] ==> o.champion == old(o.champion)
    ensures forall o :: o in orgs && o !in orgs[cutoff..] ==> o.eliminate == old(o.eliminate)
    ensures old(ByFitness(orgs)) ==> ByFitness(orgs)
  {
    orgs[0].champion := true;
    for i := cutoff to |orgs|
      invariant orgs[0].champion
      invariant forall j :: cutoff <= j < i ==> orgs[j].eliminate
      invariant forall o :: o in orgs ==> (o.fitness == old(o.fitness) && o.origFitness == old(o.origFitness) &&
                                           o.timeAlive == old(o.timeAlive) && o.smited == old(o.smited) &&
                                           o.species == old(o.species))
      invariant forall o :: o in orgs && o != orgs[0] ==> o.champion == old(o.champion)
      invariant forall o :: o in orgs && o !in orgs[cutoff..i] ==> o.eliminate == old(o.eliminate)
    {
      assert orgs[cutoff..i + 1] == orgs[cutoff..i] + [orgs[i]];
      orgs[i].eliminate := true;
    }
    assert orgs[cutoff..|orgs|] == orgs[cutoff..];
  }

  /** The organism work of adjust_fitness: share every member's fitness,
      rank the members, make the best the champion and mark those past the
      reproduction cutoff for elimination. */
  method ShareRankMark(orgs: seq<Organism>, penalised: bool, young: bool, ageSignificance: real,
                       survivalThresh: real) returns (ranked: seq<Organism>)
    requires |orgs| > 0 && Distinct(orgs)
    modifies set o | o in orgs
    ensures |ranked| == |orgs| && multiset(ranked) == multiset(orgs) && ByFitness(ranked)
    ensures forall o :: o in orgs ==> o.origFitness == old(o.fitness) &&
                                      o.fitness == Adjusted(old(o.fitness), penalised, young, ageSignificance, |orgs|)
    ensures forall o :: o in ranked ==> o.fitness >= 0.0
    ensures ranked[0].champion
    ensures forall i :: Cutoff(survivalThresh, |ranked|) <= i < |ranked| ==> ranked[i].eliminate
    ensures forall o :: o in orgs ==> o.timeAlive == old(o.timeAlive) && o.smited == old(o.smited) && o.species == old(o.species)
    ensures forall o :: o in orgs && o != ranked[0] ==> o.champion == old(o.champion)
    ensures forall o :: o in orgs && o !in ranked[Cutoff(survivalThresh, |ranked|)..] ==> o.eliminate == old(o.eliminate)
  {
    ShareFitness(orgs, penalised, young, ageSignificance);
    forall o | o in orgs
      ensures o.fitness >= 0.0
    {
      AdjustedFacts(old(o.fitness), penalised, young, ageSignificance, |orgs|);
    }
    ranked := RankByFitness(orgs);
    SameElements(ranked, orgs);
    MarkForDeath(ranked, Cutoff(survivalThresh, |ranked|));
  }

  class Species {
    const id: int
    var age: int
    var aveFitness: real
    var maxFitness: real
    var maxFitnessEver: real
    var ageOfLastImprovement: int
    var novel: bool
    var obliterate: bool
    var averageEst: real
    var organisms: seq<Organism>

    /** Species(i, n): age 1, no members, every statistic 0. */
    constructor (id: int, novel: bool)
      ensures this.id == id && this.novel == novel && age == 1 && organisms == []
      ensures aveFitness == 0.0 && maxFitness == 0.0 && maxFitnessEver == 0.0 && averageEst == 0.0
      ensures ageOfLastImprovement == 0 && !obliterate
    {
      this.id, this.novel := id, novel;
      age, aveFitness, ageOfLastImprovement := 1, 0.0, 0;
      maxFitness, maxFitnessEver, obliterate, averageEst := 0.0, 0.0, false, 0.0;
      organisms := [];
    }

    /** estimate_average: stores and answers the estimate. */
    method EstimateAverage(minimum: int) returns (r: real)
      modifies this
      ensures r == averageEst == Estimate(organisms, minimum)
      ensures organisms == old(organisms) && age == old(age) && maxFitnessEver == old(maxFitnessEver)
      ensures maxFitness == old(maxFitness) && ageOfLastImprovement == old(ageOfLastImprovement)
    {
      r := EstimateOf(organisms, minimum);
      averageEst := r;
    }

    /** add_Organism: appends the organism. */
    method AddOrganism(o: Organism)
      modifies this
      ensures organisms == old(organisms) + [o] && novel == old(novel)
      ensures averageEst == old(averageEst) && age == old(age) && maxFitnessEver == old(maxFitnessEver)
      ensures maxFitness == old(maxFitness) && ageOfLastImprovement == old(ageOfLastImprovement)
    {
      organisms := organisms + [o];
    }

    /** remove_org: the organism must be a member; its first occurrence is
        erased. */
    method RemoveOrg(o: Organism)
      requires o in organisms
      modifies this
      ensures organisms == Erase(old(organisms), o)
      ensures averageEst == old(averageEst) && age == old(age) && maxFitnessEver == old(maxFitnessEver)
      ensures maxFitness == old(maxFitness) && ageOfLastImprovement == old(ageOfLastImprovement)
    {
      var k := Find(organisms, o);
      organisms := organisms[..k] + organisms[k + 1..];
    }

    /** first */
    function First(): (r: Organism)
      reads this
      requires |organisms| > 0
      ensures r in organisms
    {
      organisms[0]
    }

    /** compute_max_fitness: stores and answers the greatest fitness, 0 at
        least. */
    method ComputeMaxFitness() returns (m: real)
      modifies this
      ensures m == maxFitness && m >= 0.0
      ensures forall i :: 0 <= i < |organisms| ==> organisms[i].fitness <= m
      ensures m == 0.0 || exists i :: 0 <= i < |organisms| && organisms[i].fitness == m
      ensures organisms == old(organisms) && averageEst == old(averageEst)
    {
      m := MaxFitnessOf(organisms);
      maxFitness := m;
    }

    /** rank */
    method Rank()
      modifies this
      ensures ByFitness(organisms) && multiset(organisms) == multiset(old(organisms))
      ensures averageEst == old(averageEst) && maxFitness == old(maxFitness)
    {
      organisms := RankByFitness(organisms);
    }

    /** adjust_fitness: every member's fitness is shared (and never
        negative), the members are ranked, the best becomes the champion,
        those past the reproduction cutoff are marked for elimination, and
        an improvement on the best fitness ever is recorded. */
    method AdjustFitness(dropoffAge: int, ageSignificance: real, survivalThresh: real)
      requires |organisms| > 0 && Distinct(organisms)
      modifies this, set o | o in organisms
      ensures |organisms| == old(|organisms|) && multiset(organisms) == multiset(old(organisms))
      ensures ByFitness(organisms)
      ensures var debt := old(age - ageOfLastImprovement + 1 - dropoffAge);
        forall o :: o in old(organisms) ==>
          o.origFitness == old(o.fitness) &&
          o.fitness == Adjusted(old(o.fitness), debt == 0 || debt >= 1 || obliterate, age <= 10,
                                ageSignificance, |organisms|)
      ensures forall o :: o in organisms ==> o.fitness >= 0.0
      ensures organisms[0].champion
      ensures forall i :: Cutoff(survivalThresh, |organisms|) <= i < |organisms| ==> organisms[i].eliminate
      ensures forall o :: o in old(organisms) ==>
        o.timeAlive == old(o.timeAlive) && o.smited == old(o.smited) && o.species == old(o.species)
      ensures forall o :: o in old(organisms) && o != organisms[0] ==> o.champion == old(o.champion)
      ensures forall o :: o in old(organisms) && o !in organisms[Cutoff(survivalThresh, |organisms|)..] ==>
        o.eliminate == old(o.eliminate)
      ensures organisms[0].origFitness > old(maxFitnessEver) ==>
        maxFitnessEver == organisms[0].origFitness && ageOfLastImprovement == age
      ensures organisms[0].origFitness <= old(maxFitnessEver) ==>
        maxFitnessEver == old(maxFitnessEver) && ageOfLastImprovement == old(ageOfLastImprovement)
      ensures age == old(age) && obliterate == old(obliterate) && averageEst == old(averageEst)
    {
      var debt := age - ageOfLastImprovement + 1 - dropoffAge;
      if debt == 0 {
        debt := 1;
      }
      var ranked := ShareRankMark(organisms, debt >= 1 || obliterate, age <= 10, ageSignificance, survivalThresh);
      organisms := ranked;
      if ranked[0].origFitness > maxFitnessEver {
        ageOfLastImprovement := age;
        maxFitnessEver := ranked[0].origFitness;
      }
    }
  }

  /** A fresh species with one organism: the organism is its first member,
      its champion, and its estimate is that organism's fitness once it has
      lived long enough, 0 before. */
  method SpeciesOfOne(g: Genome, fitness: real, timeAlive: int, minimum: int)
    returns (first: Organism, est: real, champ: Option<Organism>)
    ensures est == (if timeAlive >= minimum then fitness else 0.0)
    ensures fitness > -1.0 ==> champ == Some(first)
    ensures fitness <= -1.0 ==> champ == None
  {
    var s := new Species(1, true);
    var o := new Organism(fitness, timeAlive, g);
    s.AddOrganism(o);
    first := s.First();
    est := s.EstimateAverage(minimum);
    EstimateOne(o, minimum);
    champ := GetChamp(s.organisms);
  }
}
