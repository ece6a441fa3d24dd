/** The real-time rtNEAT population (trunk/external/source/rtneat/population.cpp):
    the organisms alive and the species they are divided into. An organism
    joins the first species whose first member is compatible with it, the
    worst organism old enough to have been judged is removed, organisms move
    between species, and a species left empty is dropped.

    The NEAT parameters (time_alive_minimum, compat_threshold and the three
    compatibility coefficients) are parameters here. */
module Populations {
  import opened Wrappers
  import opened Genomes
  import opened Speciation

  // ---------------------------------------------------------------------
  // remove_worst, on values

  /** The next multiple of m at or above t. */
  function NextMultiple(t: nat, m: nat): nat
    requires m > 0
  {
    if t % m == 0 then t else m * (t / m + 1)
  }

  /** A multiple of m leaves no remainder. */
  lemma MulMod(a: nat, m: nat)
    requires m > 0
    ensures (m * a) % m == 0
  {
    var x := m * a;
    var d := a - x / m;
    assert m * d == x % m;
    assert d >= 1 ==> m * d >= m;
    assert d <= -1 ==> m * d <= -(m as int);
  }

  /** The raised time is the least multiple of m that is at least t. */
  lemma NextMultipleFacts(t: nat, m: nat)
    requires m > 0
    ensures t <= NextMultiple(t, m) < t + m
    ensures NextMultiple(t, m) % m == 0
    ensures t % m == 0 ==> NextMultiple(t, m) == t
  {
    var q := t / m;
    if t % m != 0 {
      assert m * (q + 1) == m * q + m;
      MulMod(q + 1, m);
    }
  }

  /** Raising is idempotent: a raised time is raised no further. */
  lemma NextMultipleIdempotent(t: nat, m: nat)
    requires m > 0
    ensures NextMultiple(NextMultiple(t, m), m) == NextMultiple(t, m)
  {
    NextMultipleFacts(t, m);
  }

  /** What remove_worst sees of one organism: its adjusted fitness (-9999
      when it is smited) and its time alive (raised to the next multiple of
      the minimum when it is smited). */
  datatype Entry = Entry(score: real, time: int)

  const Unjudged: real := 999999.0
  const SmiteScore: real := -9999.0

  function EntryOf(fitness: real, size: nat, smited: bool, time: nat, minimum: nat): (e: Entry)
    requires size > 0 && minimum > 0
    ensures smited ==> e.score == SmiteScore && e.time % minimum == 0 && time <= e.time < time + minimum
    ensures !smited ==> e.score == fitness / size as real && e.time == time
  {
    NextMultipleFacts(time, minimum);
    if smited then Entry(SmiteScore, NextMultiple(time, minimum))
    else Entry(fitness / size as real, time)
  }

  /** k is the position remove_worst chooses: old enough, below the
      starting minimum, no greater than any other old enough entry, and
      strictly below every earlier one. */
  predicate IsWorst(es: seq<Entry>, minimum: int, k: int)
  {
    0 <= k < |es| && es[k].time >= minimum && es[k].score < Unjudged &&
    (forall j :: 0 <= j < |es| && es[j].time >= minimum ==> es[k].score <= es[j].score) &&
    (forall j :: 0 <= j < k && es[j].time >= minimum ==> es[k].score < es[j].score)
  }

  /** Nothing is chosen when no entry old enough scores below the starting
      minimum. */
  predicate NoneWorst(es: seq<Entry>, minimum: int)
  {
    forall j :: 0 <= j < |es| && es[j].time >= minimum ==> es[j].score >= Unjudged
  }

  /** The choice is unique. */
  lemma IsWorstUnique(es: seq<Entry>, minimum: int, k: int, k': int)
    requires IsWorst(es, minimum, k) && IsWorst(es, minimum, k')
    ensures k == k'
  {
    assert es[k].score <= es[k'].score <= es[k].score;
  }

  /** A choice and an empty answer exclude each other. */
  lemma WorstOrNone(es: seq<Entry>, minimum: int, k: int)
    requires IsWorst(es, minimum, k)
    ensures !NoneWorst(es, minimum)
  {
    assert es[k].time >= minimum && es[k].score < Unjudged;
  }

  /** An organism that is smited and old enough (after raising) is chosen
      over every organism that is not smited and has a fitness of at least
      -9999 times its species size, so an old enough smited organism is
      always the one removed when no fitness is that low. */
  lemma SmitedFirst(es: seq<Entry>, minimum: int, k: int, j: int)
    requires IsWorst(es, minimum, k) && 0 <= j < |es| && es[j].time >= minimum && es[j].score == SmiteScore
    ensures es[k].score <= SmiteScore
  {
  }

  // ---------------------------------------------------------------------
  // The link between organisms and species

  /** The species objects the organisms point to. */
  ghost function SpeciesOf(orgs: seq<Organism>): set<Species>
    reads orgs
  {
    set o | o in orgs && o.species.Some? :: o.species.value
  }

  /** Every organism belongs to the species it points to, has a
      non-negative time alive, and no organism is listed twice. */
  ghost predicate Enrolled(orgs: seq<Organism>)
    reads orgs, SpeciesOf(orgs)
  {
    Distinct(orgs) &&
    forall o :: o in orgs ==> o.timeAlive >= 0 && o.species.Some? && o in o.species.value.organisms
  }

  /** What remove_worst sees of the organisms, in order. */
  ghost function Entries(orgs: seq<Organism>, minimum: nat): (es: seq<Entry>)
    requires minimum > 0 && Enrolled(orgs)
    reads orgs, SpeciesOf(orgs)
    ensures |es| == |orgs|
    ensures forall i :: 0 <= i < |orgs| ==>
      es[i] == EntryOf(orgs[i].fitness, |orgs[i].species.value.organisms|, orgs[i].smited, orgs[i].timeAlive, minimum)
  {
    seq(|orgs|, i requires 0 <= i < |orgs| && Enrolled(orgs) reads orgs, SpeciesOf(orgs) =>
      assert orgs[i] in orgs;
      EntryOf(orgs[i].fitness, |orgs[i].species.value.organisms|, orgs[i].smited, orgs[i].timeAlive, minimum))
  }

  /** The scan of remove_worst: every smited organism's time alive is
      raised, and the position of the organism to remove is chosen. */
  method ScanWorst(orgs: seq<Organism>, minimum: nat) returns (k: Option<nat>)
    requires minimum > 0 && Enrolled(orgs)
    modifies orgs`timeAlive
    ensures k.None? <==> NoneWorst(old(Entries(orgs, minimum)), minimum)
    ensures k.Some? ==> IsWorst(old(Entries(orgs, minimum)), minimum, k.value)
    ensures forall o :: o in orgs ==>
      (o.smited ==> o.timeAlive == NextMultiple(old(o.timeAlive), minimum)) && (!o.smited ==> o.timeAlive == old(o.timeAlive))
    ensures forall o :: o in orgs ==> (o.fitness == old(o.fitness) && o.smited == old(o.smited) &&
                                       o.species == old(o.species) && o.origFitness == old(o.origFitness) &&
                                       o.champion == old(o.champion) && o.eliminate == old(o.eliminate))
  {
    ghost var es := Entries(orgs, minimum);
    var least := Unjudged;
    k := None;
    for i := 0 to |orgs|
      invariant forall j :: 0 <= j < i ==> orgs[j].timeAlive == es[j].time
      invariant forall j :: i <= j < |orgs| ==> orgs[j].timeAlive == old(orgs[j].timeAlive)
      invariant k.None? ==> least == Unjudged && NoneWorst(es[..i], minimum)
      invariant k.Some? ==> k.value < i && least == es[k.value].score && IsWorst(es[..i], minimum, k.value)
    {
      var o := orgs[i];
      var size := |o.species.value.organisms|;
      var score := o.fitness / size as real;
      if o.smited {
        var t := o.timeAlive;
        score := SmiteScore;
        o.timeAlive := NextMultiple(t, minimum);
      }
      assert score == es[i].score && o.timeAlive == es[i].time;
      if score < least && o.timeAlive >= minimum {
        least := score;
        k := Some(i);
      }
      assert es[..i + 1] == es[..i] + [es[i]];
    }
    assert es[..|orgs|] == es;
  }

  // ---------------------------------------------------------------------
  // add_organism: choosing the species

  /** The test of add_organism: the organism's genome against the
      representative's is below the threshold. A distance that is not
      defined (no matching genes, a division by zero in the source) is not
      below it. */
  predicate Compatible(org: Organism, rep: Organism, threshold: real,
                       disjointCoeff: real, excessCoeff: real, mutdiffCoeff: real)
    reads org.gnome, rep.gnome
  {
    match CompatibilityOf(Compare(org.gnome.genes, rep.gnome.genes), disjointCoeff, excessCoeff, mutdiffCoeff)
    case Some(d) => d < threshold
    case None => false
  }

  /** Every species has a first member to compare against. */
  predicate Represented(sp: seq<Species>)
    reads sp
  {
    forall i :: 0 <= i < |sp| ==> |sp[i].organisms| > 0
  }

  /** The genomes add_organism compares the organism with. */
  function ComparedGenomes(org: Organism, sp: seq<Species>): set<Genome>
    reads sp
    requires Represented(sp)
  {
    {org.gnome} + set i | 0 <= i < |sp| :: sp[i].organisms[0].gnome
  }

  /** sp[k] is the first species whose first member is compatible. */
  predicate FirstCompatible(org: Organism, sp: seq<Species>, k: int, threshold: real,
                            disjointCoeff: real, excessCoeff: real, mutdiffCoeff: real)
    reads sp, ComparedGenomes(org, sp)
    requires Represented(sp)
  {
    0 <= k < |sp| &&
    Compatible(org, sp[k].organisms[0], threshold, disjointCoeff, excessCoeff, mutdiffCoeff) &&
    forall j :: 0 <= j < k ==> !Compatible(org, sp[j].organisms[0], threshold, disjointCoeff, excessCoeff, mutdiffCoeff)
  }

  /** No species' first member is compatible. */
  predicate NoneCompatible(org: Organism, sp: seq<Species>, threshold: real,
                           disjointCoeff: real, excessCoeff: real, mutdiffCoeff: real)
    reads sp, ComparedGenomes(org, sp)
    requires Represented(sp)
  {
    forall j :: 0 <= j < |sp| ==> !Compatible(org, sp[j].organisms[0], threshold, disjointCoeff, excessCoeff, mutdiffCoeff)
  }

  /** The search of add_organism: the first species compatible with the
      organism, or none. */
  method FindSpecies(org: Organism, sp: seq<Species>, threshold: real,
                     disjointCoeff: real, excessCoeff: real, mutdiffCoeff: real) returns (k: Option<nat>)
    requires Represented(sp)
    ensures k.Some? ==> FirstCompatible(org, sp, k.value, threshold, disjointCoeff, excessCoeff, mutdiffCoeff)
    ensures k.None? ==> NoneCompatible(org, sp, threshold, disjointCoeff, excessCoeff, mutdiffCoeff)
  {
    var i := 0;
    var found := false;
    while i < |sp| && !found
      invariant i <= |sp|
      decreases |sp| - i, if found then 0 else 1
      invariant forall j :: 0 <= j < i ==>
        !Compatible(org, sp[j].organisms[0], threshold, disjointCoeff, excessCoeff, mutdiffCoeff)
      invariant found ==> i < |sp| && Compatible(org, sp[i].organisms[0], threshold, disjointCoeff, excessCoeff, mutdiffCoeff)
    {
      var d := org.gnome.Compatibility(sp[i].organisms[0].gnome, disjointCoeff, excessCoeff, mutdiffCoeff);
      if d.Some? && d.value < threshold {
        found := true;
      } else {
        i := i + 1;
      }
    }
    k := if found then Some(i) else None;
  }

  class Population {
    var organisms: seq<Organism>
    var species: seq<Species>
    var lastSpecies: int

    /** An empty population whose species numbering continues after the
        given number. */
    constructor (lastSpecies: int)
      ensures organisms == [] && species == [] && this.lastSpecies == lastSpecies
    {
      organisms, species := [], [];
      this.lastSpecies := lastSpecies;
    }

    /** verify: every organism's genome passes verify. */
    method Verify() returns (ok: bool)
      ensures ok <==> forall i :: 0 <= i < |organisms| ==> Verified(organisms[i].gnome.genes, organisms[i].gnome.nodes)
    {
      ok := true;
      for i := 0 to |organisms|
        invariant ok <==> forall j :: 0 <= j < i ==> Verified(organisms[j].gnome.genes, organisms[j].gnome.nodes)
      {
        if ok {
          ok := organisms[i].gnome.Verify();
        }
      }
    }

    /** remove_species: false when the species is not listed, otherwise
        its first listing is erased. */
    method RemoveSpecies(spec: Species) returns (ok: bool)
      modifies this
      ensures ok <==> spec in old(species)
      ensures ok ==> species == Erase(old(species), spec)
      ensures !ok ==> species == old(species)
      ensures organisms == old(organisms) && lastSpecies == old(lastSpecies)
    {
      var k := Find(species, spec);
      if k == |species| {
        assert species[..k] == species;
        ok := false;
      } else {
        species := species[..k] + species[k + 1..];
        ok := true;
      }
    }

    /** What remove_worst and switch_species do with a species that lost a
        member: drop it from the species when it is empty, otherwise
        re-estimate its average. */
    method DropIfEmpty(s: Species, minimum: int)
      modifies this, s
      ensures s.organisms == old(s.organisms)
      ensures s.organisms == [] ==> species == (if s in old(species) then Erase(old(species), s) else old(species))
      ensures s.organisms != [] ==> species == old(species) && s.averageEst == Estimate(s.organisms, minimum)
      ensures organisms == old(organisms) && lastSpecies == old(lastSpecies)
    {
      if |s.organisms| == 0 {
        var removed := RemoveSpecies(s);
      } else {
        var est := s.EstimateAverage(minimum);
      }
    }

    /** remove_worst: among the organisms old enough, the first of least
        adjusted fitness (fitness over its species' size, -9999 when
        smited) below 999999 is removed from its species and from the
        population; every smited organism's time alive is raised to the
        next multiple of the minimum on the way. A species left empty is
        dropped, otherwise its average is re-estimated. */
    method RemoveWorst(minimum: nat) returns (killed: Option<Organism>)
      requires minimum > 0 && Enrolled(organisms)
      modifies this, organisms`timeAlive, SpeciesOf(organisms)
      ensures killed.None? <==> NoneWorst(old(Entries(organisms, minimum)), minimum)
      ensures killed.None? ==> organisms == old(organisms) && species == old(species)
      ensures killed.Some? ==> exists k :: IsWorst(old(Entries(organisms, minimum)), minimum, k) &&
                                          killed.value == old(organisms)[k] &&
                                          organisms == old(organisms)[..k] + old(organisms)[k + 1..]
      ensures killed.Some? ==>
        var s := old(killed.value.species).value;
        s.organisms == Erase(old(s.organisms), killed.value) &&
        (s.organisms == [] ==> species == (if s in old(species) then Erase(old(species), s) else old(species))) &&
        (s.organisms != [] ==> species == old(species) && s.averageEst == Estimate(s.organisms, minimum))
      ensures forall o :: o in old(organisms) ==>
        (o.smited ==> o.timeAlive == NextMultiple(old(o.timeAlive), minimum)) && (!o.smited ==> o.timeAlive == old(o.timeAlive))
      ensures lastSpecies == old(lastSpecies)
    {
      ghost var es := Entries(organisms, minimum);
      var k := ScanWorst(organisms, minimum);
      if k.Some? {
        var victim := organisms[k.value];
        var s := victim.species.value;
        s.RemoveOrg(victim);
        organisms := organisms[..k.value] + organisms[k.value + 1..];
        DropIfEmpty(s, minimum);
        killed := Some(victim);
      } else {
        killed := None;
      }
    }

    /** add_organism: the organism joins the first species whose first
        member is compatible with it, or else a new novel species numbered
        one past the last, appended to the species; it points to the
        species it joined and is appended to the organisms. */
    method AddOrganism(org: Organism, threshold: real,
                       disjointCoeff: real, excessCoeff: real, mutdiffCoeff: real) returns (joined: Species)
      requires Represented(species)
      modifies this, org`species, species
      ensures organisms == old(organisms) + [org]
      ensures org.species == Some(joined) && joined in species
      ensures joined in old(species) ==> joined.organisms == old(joined.organisms) + [org]
      ensures old(forall s :: s in species ==> org !in s.organisms) ==>
        forall s :: s in species ==> (org in s.organisms <==> s == joined)
      ensures forall s :: s in old(species) && s != joined ==> s.organisms == old(s.organisms)
      ensures (exists k :: old(FirstCompatible(org, species, k, threshold, disjointCoeff, excessCoeff, mutdiffCoeff)) &&
                          joined == old(species)[k]) ==>
        species == old(species) && lastSpecies == old(lastSpecies)
      ensures old(NoneCompatible(org, species, threshold, disjointCoeff, excessCoeff, mutdiffCoeff)) ==>
        fresh(joined) && species == old(species) + [joined] && lastSpecies == old(lastSpecies) + 1 &&
        joined.id == lastSpecies && joined.novel && joined.organisms == [org]
      ensures old(NoneCompatible(org, species, threshold, disjointCoeff, excessCoeff, mutdiffCoeff)) ||
        exists k :: old(FirstCompatible(org, species, k, threshold, disjointCoeff, excessCoeff, mutdiffCoeff)) &&
                    joined == old(species)[k]
    {
      var k := FindSpecies(org, species, threshold, disjointCoeff, excessCoeff, mutdiffCoeff);
      if k.Some? {
        joined := species[k.value];
      } else {
        lastSpecies := lastSpecies + 1;
        joined := new Species(lastSpecies, true);
        species := species + [joined];
      }
      joined.AddOrganism(org);
      org.species := Some(joined);
      organisms := organisms + [org];
    }

    /** switch_species: the organism leaves its original species, if any
        (which must hold it), joins the new one and points to it; an
        emptied original species is dropped, and the averages of the
        species involved are re-estimated. */
    method SwitchSpecies(org: Organism, origSpecies: Option<Species>, newSpecies: Species, minimum: int)
      requires origSpecies.Some? ==> org in origSpecies.value.organisms
      modifies this, org`species, newSpecies, if origSpecies.Some? then {origSpecies.value} else {}
      ensures org.species == Some(newSpecies)
      ensures origSpecies != Some(newSpecies) ==> newSpecies.organisms == old(newSpecies.organisms) + [org]
      ensures origSpecies == Some(newSpecies) ==> newSpecies.organisms == Erase(old(newSpecies.organisms), org) + [org]
      ensures origSpecies.Some? && origSpecies != Some(newSpecies) ==>
        origSpecies.value.organisms == Erase(old(origSpecies.value.organisms), org)
      ensures origSpecies.Some? && origSpecies.value.organisms == [] ==>
        species == (if origSpecies.value in old(species) then Erase(old(species), origSpecies.value) else old(species))
      ensures origSpecies.None? || origSpecies.value.organisms != [] ==> species == old(species)
      ensures origSpecies.Some? && origSpecies.value.organisms != [] ==>
        origSpecies.value.averageEst == Estimate(origSpecies.value.organisms, minimum)
      ensures newSpecies.averageEst == Estimate(newSpecies.organisms, minimum)
      ensures organisms == old(organisms) && lastSpecies == old(lastSpecies)
    {
      if origSpecies.Some? {
        origSpecies.value.RemoveOrg(org);
      }
      newSpecies.AddOrganism(org);
      org.species := Some(newSpecies);
      if origSpecies.Some? && |origSpecies.value.organisms| == 0 {
        var removed := RemoveSpecies(origSpecies.value);
        var est := newSpecies.EstimateAverage(minimum);
      } else {
        if origSpecies.Some? {
          var est := origSpecies.value.EstimateAverage(minimum);
        }
        var est := newSpecies.EstimateAverage(minimum);
      }
    }
  }

  /** The first organism of an empty population founds species number
      last_species + 1 alone, and the population holds just it. */
  method FoundSpecies(g: Genome, fitness: real, timeAlive: nat, lastSpecies: int)
    returns (speciesId: int, members: nat, speciesCount: nat, organismCount: nat, pointsToIt: bool)
    ensures speciesId == lastSpecies + 1 && members == 1
    ensures speciesCount == 1 && organismCount == 1 && pointsToIt
  {
    var p := new Population(lastSpecies);
    var o := new Organism(fitness, timeAlive, g);
    var s := p.AddOrganism(o, 3.0, 1.0, 1.0, 0.4);
    speciesId, members := s.id, |s.organisms|;
    speciesCount, organismCount := |p.species|, |p.organisms|;
    pointsToIt := o.species == Some(s);
  }
}
