/**
 * The population of the genetic algorithm and its generation-advancement
 * engine: an in-memory list of individuals, a generation counter, and the
 * population directory on disk, where each individual's controller is saved
 * under its index.
 */
module Genetic {
  import opened Wrappers
  import opened Individuals
  import opened Ranking
  import opened Storage
  import opened Breeding

  /** The s individuals the constructor creates, numbered 1 .. s, each with a fresh controller. */
  function Founders(s: nat): (r: seq<Individual>)
    ensures |r| == s && Indexed(r)
    ensures forall k :: 0 <= k < s ==> r[k].controller == Fresh(k + 1) && r[k].fitness == 0
  {
    seq(s, k requires 0 <= k < s => Individual(k + 1, Fresh(k + 1), 0))
  }

  /** The sum of the members' fitness. */
  function TotalFitness(s: seq<Individual>): int
    decreases |s|
  {
    if s == [] then 0 else TotalFitness(s[..|s| - 1]) + s[|s| - 1].fitness
  }

  /** The total fitness of members whose fitness lies in [lo, hi] lies between |s| * lo and |s| * hi. */
  lemma {:induction false} TotalFitnessBounds(s: seq<Individual>, lo: int, hi: int)
    requires forall k :: 0 <= k < |s| ==> lo <= s[k].fitness <= hi
    ensures |s| * lo <= TotalFitness(s) <= |s| * hi
    decreases |s|
  {
    if s != [] {
      TotalFitnessBounds(s[..|s| - 1], lo, hi);
    }
  }

  /**
   * The average `averageFitness` returns for a full population whose members'
   * fitness lies in [lo, hi] lies in [lo, hi] as well.
   */
  lemma AverageFitnessBounds(s: seq<Individual>, size: int, lo: int, hi: int)
    requires |s| == size > 0
    requires forall k :: 0 <= k < |s| ==> lo <= s[k].fitness <= hi
    ensures lo as real <= TotalFitness(s) as real / size as real <= hi as real
  {
    TotalFitnessBounds(s, lo, hi);
    var t, n := TotalFitness(s) as real, size as real;
    assert n * lo as real <= t <= n * hi as real;
    assert t / n * n == t;
  }

  /** Three members of fitness 0, 5 and 3, numbered 1 .. 3. */
  function Trio(): seq<Individual>
  {
    [Individual(1, Fresh(1), 0), Individual(2, Fresh(2), 5), Individual(3, Fresh(3), 3)]
  }

  /** Ranking `Trio` puts the members numbered 2 and 3 first. */
  lemma TrioRanked()
    ensures Ranked(Trio()) == [Trio()[1], Trio()[2], Trio()[0]]
  {
    var a, b, c := Trio()[0], Trio()[1], Trio()[2];
    assert Trio() == [a, b, c];
    assert [a, b, c][..2] == [a, b] && [a, b][..1] == [a] && [a][..0] == [];
    assert Sorted([a]) == [a];
    assert Sorted([a, b]) == Insert([a], b) == [a, b];
    assert Insert([a], c) == [a, c];
    assert Insert([a, b], c) == [a, c, b];
    assert Sorted([a, b, c]) == [a, c, b];
    assert [a, c, b][..2] == [a, c] && [a, c][..1] == [a];
    assert Reversed([a]) == [a];
    assert Reversed([a, c]) == [c, a];
    assert Reversed([a, c, b]) == [b, c, a];
  }

  /**
   * `saveBest` as written copies `Live(i)` rather than the record of the
   * member ranked i. With size 3, two survivors and the members of `Trio`,
   * the survivors are the members numbered 2 and 3 before the advance; yet
   * afterwards `Live(1)` holds the record of the discarded member 1, `Live(2)`
   * holds that of the survivor now numbered 1, and the record of the
   * survivor now numbered 2 is gone from the store.
   */
  lemma AsWrittenMisplacesSurvivorRecord(disk: Store)
    requires disk == map[Live(1) := [1], Live(2) := [2], Live(3) := [3]]
    ensures Indices(Ranked(Trio())[..2]) == [2, 3]
    ensures Get(Protocol(disk, Positions(2), 3), Live(1)) == Some(disk[Live(1)])
    ensures Get(Protocol(disk, Positions(2), 3), Live(2)) == Some(disk[Live(2)])
    ensures disk[Live(3)] !in Protocol(disk, Positions(2), 3).Values
  {
    TrioRanked();
    AsWrittenRestoresPositions(disk, 2, 3);
    var r := Protocol(disk, Positions(2), 3);
    forall k | k in r
      ensures r[k] != disk[Live(3)]
    {
      ProtocolAt(disk, Positions(2), 3, k);
    }
  }

  /**
   * On the same members, copying from the survivors' former indices (as
   * `SaveBest` below does) leaves each survivor's own record under its new
   * number.
   */
  lemma CorrectedKeepsSurvivorRecord(disk: Store)
    requires disk == map[Live(1) := [1], Live(2) := [2], Live(3) := [3]]
    ensures Get(Protocol(disk, Indices(Ranked(Trio())[..2]), 3), Live(1)) == Some(disk[Live(2)])
    ensures Get(Protocol(disk, Indices(Ranked(Trio())[..2]), 3), Live(2)) == Some(disk[Live(3)])
  {
    TrioRanked();
    assert Indices(Ranked(Trio())[..2]) == [2, 3];
    SurvivorRecordsFollowSurvivors(disk, [2, 3], 3);
  }

  class Population {
    /** The members, in list order. */
    var individuals: seq<Individual>
    /** The index of the current generation. */
    var generation: int
    /** The population directory. */
    var store: Store
    /** The number of individuals in the population. */
    const size: int
    /** The number of individuals kept from one generation to the next. */
    const nbSurvivors: int

    ghost predicate Valid()
      reads this
    {
      0 <= size && |individuals| == size && 1 <= generation
    }

    /**
     * Generation 1 with s fresh individuals numbered 1 .. s. Neither s nor
     * nbSurv is checked; a negative s makes the list's allocation throw. The
     * directories are assumed to exist; `disk` is their current contents.
     */
    constructor (s: int, nbSurv: int, disk: Store)
      requires 0 <= s
      ensures Valid()
      ensures size == s && nbSurvivors == nbSurv
      ensures generation == 1 && store == disk
      ensures individuals == Founders(s)
    {
      generation := 1;
      nbSurvivors := nbSurv;
      size := s;
      individuals := [];
      store := disk;
      new;
      var i := 1;
      while i <= size
        invariant 1 <= i <= size + 1
        invariant individuals == Founders(i - 1)
        invariant generation == 1 && store == disk
      {
        individuals := individuals + [Individual(i, Fresh(i), 0)];
        i := i + 1;
      }
    }

    /** Every member fights; `scores` are the fitness values the simulation gives them, in list order. */
    method MakeFight(scores: seq<int>)
      requires |scores| == |individuals|
      modifies this`individuals
      ensures old(Valid()) ==> Valid()
      ensures |individuals| == |scores|
      ensures forall k :: 0 <= k < |scores| ==> individuals[k] == old(individuals[k]).(fitness := scores[k])
    {
      var k := 0;
      while k < |scores|
        invariant 0 <= k <= |scores| && |individuals| == |scores|
        invariant forall j :: 0 <= j < k ==> individuals[j] == old(individuals[j]).(fitness := scores[j])
        invariant forall j :: k <= j < |scores| ==> individuals[j] == old(individuals[j])
      {
        individuals := individuals[k := individuals[k].(fitness := scores[k])];
        k := k + 1;
      }
    }

    /**
     * Ranks the members, keeps the best nbSurvivors of them renumbered
     * 1 .. nbSurvivors (moving their durable records along), and fills the
     * population with their children. `draws` are the uniform samples the
     * random parent choices consume, one `Draw` per child.
     */
    method NextGeneration(draws: seq<Draw>)
      requires Valid()
      requires 0 <= nbSurvivors <= size
      requires |draws| == size - nbSurvivors
      requires forall c :: 0 <= c < |draws| ==> Drawable(draws[c], nbSurvivors)
      modifies this`individuals, this`store, this`generation
      ensures Valid()
      ensures generation == old(generation) + 1
      ensures Indexed(individuals)
      ensures forall k :: 0 <= k < nbSurvivors ==> individuals[k] == Ranked(old(individuals))[k].(index := k + 1)
      ensures forall i, j :: 0 <= i < nbSurvivors <= j < size ==>
        individuals[i].fitness >= Ranked(old(individuals))[j].fitness
      ensures multiset(Ranked(old(individuals))[..nbSurvivors]) + multiset(Ranked(old(individuals))[nbSurvivors..])
        == multiset(old(individuals))
      ensures individuals[nbSurvivors..] == Brood(individuals[..nbSurvivors], nbSurvivors, draws, nbSurvivors + 1)
      ensures store == Protocol(old(store), Indices(Ranked(old(individuals))[..nbSurvivors]), size)
    {
      individuals := Ranked(individuals);
      SurvivorsDominate(old(individuals), nbSurvivors);

      SaveBest();
      ghost var survivors := individuals[..nbSurvivors];
      KillWeaklings();
      LoadBest();
      GenerateChildren(draws);

      generation := generation + 1;

      BroodWellFormed(survivors, nbSurvivors, draws, nbSurvivors + 1);
      assert individuals[..nbSurvivors] == survivors;
      assert individuals[nbSurvivors..] == Brood(survivors, nbSurvivors, draws, nbSurvivors + 1);
    }

    /**
     * Copies the durable record of each of the first nbSurvivors members to
     * the transient record of its new number, then renumbers it.
     */
    method SaveBest()
      requires 0 <= nbSurvivors <= |individuals|
      modifies this`individuals, this`store
      ensures |individuals| == |old(individuals)|
      ensures forall k :: 0 <= k < nbSurvivors ==> individuals[k] == old(individuals[k]).(index := k + 1)
      ensures forall k :: nbSurvivors <= k < |individuals| ==> individuals[k] == old(individuals[k])
      ensures store == Snapshot(old(store), Indices(old(individuals)[..nbSurvivors]))
    {
      var i := 1;
      while i <= nbSurvivors
        invariant 1 <= i <= nbSurvivors + 1
        invariant |individuals| == |old(individuals)|
        invariant forall k :: 0 <= k < i - 1 ==> individuals[k] == old(individuals[k]).(index := k + 1)
        invariant forall k :: i - 1 <= k < |individuals| ==> individuals[k] == old(individuals[k])
        invariant store == Snapshot(old(store), Indices(old(individuals)[..i - 1]))
      {
        var former := individuals[i - 1].index;
        store := Copy(store, Live(former), Temp(i));
        individuals := individuals[i - 1 := individuals[i - 1].(index := i)];
        assert Indices(old(individuals)[..i])[..i - 1] == Indices(old(individuals)[..i - 1]);
        i := i + 1;
      }
    }

    /** Deletes the live records 1 .. size and truncates the list to its first nbSurvivors members. */
    method KillWeaklings()
      requires 0 <= nbSurvivors <= size && |individuals| == size
      modifies this`individuals, this`store
      ensures store == Purge(old(store), size)
      ensures individuals == old(individuals)[..nbSurvivors]
    {
      var i := 1;
      while i <= size
        invariant 1 <= i <= size + 1
        invariant individuals == old(individuals)
        invariant store == Purge(old(store), i - 1)
      {
        store := Delete(store, Live(i));
        i := i + 1;
      }
      var j := size - 1;
      while j >= nbSurvivors
        invariant nbSurvivors - 1 <= j <= size - 1
        invariant individuals == old(individuals)[..j + 1]
        invariant store == Purge(old(store), size)
      {
        // ArrayList.remove(j)
        individuals := individuals[..j] + individuals[j + 1..];
        j := j - 1;
      }
    }

    /** Renames the transient records 1 .. nbSurvivors back to live records. */
    method LoadBest()
      requires 0 <= nbSurvivors
      modifies this`store
      ensures store == Restore(old(store), nbSurvivors)
    {
      var i := 1;
      while i <= nbSurvivors
        invariant 1 <= i <= nbSurvivors + 1
        invariant store == Restore(old(store), i - 1)
      {
        store := Rename(store, Temp(i), Live(i));
        i := i + 1;
      }
    }

    /**
     * Appends the children numbered nbSurvivors + 1 .. size, each bred from a
     * mother and a distinct father among the first nbSurvivors members.
     */
    method GenerateChildren(draws: seq<Draw>)
      requires 0 <= nbSurvivors <= |individuals| && nbSurvivors <= size
      requires |draws| == size - nbSurvivors
      requires forall c :: 0 <= c < |draws| ==> Drawable(draws[c], nbSurvivors)
      modifies this`individuals
      ensures individuals == old(individuals) + Brood(old(individuals), nbSurvivors, draws, nbSurvivors + 1)
    {
      var i := nbSurvivors + 1;
      while i <= size
        invariant nbSurvivors + 1 <= i <= size + 1
        invariant individuals ==
          old(individuals) + Brood(old(individuals), nbSurvivors, draws[..i - nbSurvivors - 1], nbSurvivors + 1)
      {
        var c := i - nbSurvivors - 1;
        var d := draws[c];
        var motherID := Random(0, nbSurvivors, d.mother);
        var j := 0;
        var fatherID := Random(0, nbSurvivors, d.fathers[0]);
        assert d.fathers[0..] == d.fathers;
        while motherID == fatherID
          invariant 0 <= j < |d.fathers|
          invariant Resamples(motherID, nbSurvivors, d.fathers[j..])
          invariant fatherID == Random(0, nbSurvivors, d.fathers[j])
          invariant FatherOf(motherID, nbSurvivors, d.fathers) == FatherOf(motherID, nbSurvivors, d.fathers[j..])
          decreases |d.fathers| - j
        {
          assert d.fathers[j..][1..] == d.fathers[j + 1..];
          j := j + 1;
          fatherID := Random(0, nbSurvivors, d.fathers[j]);
        }
        assert Parents(d, nbSurvivors) == (motherID, fatherID);
        individuals := individuals + [Individual(i, Crossed(individuals[motherID].controller, individuals[fatherID].controller), 0)];
        assert draws[..c + 1] == draws[..c] + [d];
        assert Brood(old(individuals), nbSurvivors, draws[..c + 1], nbSurvivors + 1)
          == Brood(old(individuals), nbSurvivors, draws[..c], nbSurvivors + 1)
             + [Offspring(old(individuals), nbSurvivors, d, nbSurvivors + 1 + c)];
        i := i + 1;
      }
      assert draws[..size - nbSurvivors] == draws;
    }

    /**
     * Ranks the members, exports the live record 1 as the active controller,
     * and returns the first member, the fittest.
     */
    method BestIndividual() returns (best: Individual)
      requires |individuals| > 0
      modifies this`individuals, this`store
      ensures old(Valid()) ==> Valid()
      ensures individuals == Ranked(old(individuals))
      ensures best == individuals[0] && best in old(individuals)
      ensures forall k :: 0 <= k < |individuals| ==> best.fitness >= individuals[k].fitness
      ensures store == Copy(old(store), Live(1), Active)
    {
      individuals := Ranked(individuals);
      RankedIsDescendingPermutation(old(individuals));
      store := Copy(store, Live(1), Active);
      best := individuals[0];
      RankedFirstIsFittest(old(individuals));
    }

    /**
     * The mean fitness of the members, divided by size rather than by the
     * length of the list; None stands for the NaN of dividing by a size of 0.
     */
    method AverageFitness() returns (avg: Option<real>)
      ensures size == 0 ==> avg == None
      ensures size != 0 ==> avg == Some(TotalFitness(individuals) as real / size as real)
    {
      var sum := 0;
      var k := 0;
      while k < |individuals|
        invariant 0 <= k <= |individuals|
        invariant sum == TotalFitness(individuals[..k])
      {
        assert individuals[..k + 1][..k] == individuals[..k];
        sum := sum + individuals[k].fitness;
        k := k + 1;
      }
      assert individuals[..k] == individuals;
      avg := if size == 0 then None else Some(sum as real / size as real);
    }
  }
}
