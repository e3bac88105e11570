/**
 * Ranking of the population: `Collections.sort` (a stable sort, ascending in
 * the individuals' natural order, which is their fitness) followed by
 * `Collections.reverse`, so that the fittest come first.
 */
module Ranking {
  import opened Individuals

  predicate Ascending(s: seq<Individual>)
  {
    forall i, j :: 0 <= i < j < |s| ==> s[i].fitness <= s[j].fitness
  }

  predicate NonIncreasing(s: seq<Individual>)
  {
    forall i, j :: 0 <= i < j < |s| ==> s[i].fitness >= s[j].fitness
  }

  /**
   * Inserts x after every element whose fitness is at most x's: one step of a
   * stable ascending sort (x came after all of s in the input).
   */
  function Insert(s: seq<Individual>, x: Individual): (r: seq<Individual>)
    ensures |r| == |s| + 1
    decreases |s|
  {
    if s == [] || s[|s| - 1].fitness <= x.fitness then s + [x]
    else Insert(s[..|s| - 1], x) + [s[|s| - 1]]
  }

  /** The stable ascending sort of `Collections.sort`. */
  function Sorted(s: seq<Individual>): (r: seq<Individual>)
    ensures |r| == |s|
    decreases |s|
  {
    if s == [] then [] else Insert(Sorted(s[..|s| - 1]), s[|s| - 1])
  }

  /** `Collections.reverse`. */
  function Reversed(s: seq<Individual>): (r: seq<Individual>)
    ensures |r| == |s|
    decreases |s|
  {
    if s == [] then [] else [s[|s| - 1]] + Reversed(s[..|s| - 1])
  }

  /** The list as `nextGeneration` and `bestIndividual` leave it: sorted, then reversed. */
  function Ranked(s: seq<Individual>): (r: seq<Individual>)
    ensures |r| == |s|
  {
    Reversed(Sorted(s))
  }

  lemma {:induction false} InsertPermutes(s: seq<Individual>, x: Individual)
    ensures multiset(Insert(s, x)) == multiset(s) + multiset{x}
    decreases |s|
  {
    if s == [] || s[|s| - 1].fitness <= x.fitness {
    } else {
      var init, last := s[..|s| - 1], s[|s| - 1];
      assert s == init + [last];
      InsertPermutes(init, x);
    }
  }

  lemma {:induction false} InsertKeepsAscending(s: seq<Individual>, x: Individual)
    requires Ascending(s)
    ensures Ascending(Insert(s, x))
    decreases |s|
  {
    if s == [] || s[|s| - 1].fitness <= x.fitness {
    } else {
      var init, last := s[..|s| - 1], s[|s| - 1];
      InsertKeepsAscending(init, x);
      InsertPermutes(init, x);
      var r := Insert(init, x);
      forall i | 0 <= i < |r|
        ensures r[i].fitness <= last.fitness
      {
        assert r[i] in multiset(r);
        if r[i] != x {
          assert r[i] in multiset(init);
          var k :| 0 <= k < |init| && init[k] == r[i];
          assert init[k] == s[k];
        }
      }
    }
  }

  /** `Collections.sort` leaves the same members, ascending by fitness. */
  lemma {:induction false} SortedIsAscendingPermutation(s: seq<Individual>)
    ensures multiset(Sorted(s)) == multiset(s)
    ensures Ascending(Sorted(s))
    decreases |s|
  {
    if s != [] {
      var init, last := s[..|s| - 1], s[|s| - 1];
      assert s == init + [last];
      SortedIsAscendingPermutation(init);
      InsertPermutes(Sorted(init), last);
      InsertKeepsAscending(Sorted(init), last);
    }
  }

  /** `Collections.reverse` puts element k at position |s| - 1 - k. */
  lemma {:induction false} ReversedAt(s: seq<Individual>)
    ensures forall k :: 0 <= k < |s| ==> Reversed(s)[k] == s[|s| - 1 - k]
    ensures multiset(Reversed(s)) == multiset(s)
    decreases |s|
  {
    if s != [] {
      var init := s[..|s| - 1];
      assert s == init + [s[|s| - 1]];
      ReversedAt(init);
    }
  }

  /**
   * Ranking keeps exactly the same members (a permutation) and puts them in
   * non-increasing order of fitness.
   */
  lemma RankedIsDescendingPermutation(s: seq<Individual>)
    ensures |Ranked(s)| == |s|
    ensures multiset(Ranked(s)) == multiset(s)
    ensures NonIncreasing(Ranked(s))
  {
    SortedIsAscendingPermutation(s);
    ReversedAt(Sorted(s));
  }

  /**
   * Splitting the ranked list after n members keeps the top n: every member
   * of the prefix is at least as fit as every member after it, and the two
   * parts together are the original members.
   */
  lemma SurvivorsDominate(s: seq<Individual>, n: int)
    requires 0 <= n <= |s|
    ensures multiset(Ranked(s)[..n]) + multiset(Ranked(s)[n..]) == multiset(s)
    ensures forall i, j :: 0 <= i < n <= j < |s| ==> Ranked(s)[i].fitness >= Ranked(s)[j].fitness
  {
    RankedIsDescendingPermutation(s);
    var r := Ranked(s);
    assert r == r[..n] + r[n..];
  }

  /** The first ranked member belongs to the list and is at least as fit as every member. */
  lemma RankedFirstIsFittest(s: seq<Individual>)
    requires |s| > 0
    ensures Ranked(s)[0] in s
    ensures forall k :: 0 <= k < |s| ==> Ranked(s)[0].fitness >= s[k].fitness
  {
    RankedIsDescendingPermutation(s);
    var r := Ranked(s);
    assert r[0] in multiset(r);
    forall k | 0 <= k < |s|
      ensures r[0].fitness >= s[k].fitness
    {
      assert s[k] in multiset(r);
      var j :| 0 <= j < |r| && r[j] == s[k];
    }
  }

  /** The members of fitness f, in list order. */
  function OfFitness(s: seq<Individual>, f: int): seq<Individual>
    decreases |s|
  {
    if s == [] then []
    else OfFitness(s[..|s| - 1], f) + (if s[|s| - 1].fitness == f then [s[|s| - 1]] else [])
  }

  lemma {:induction false} OfFitnessAppend(a: seq<Individual>, b: seq<Individual>, f: int)
    ensures OfFitness(a + b, f) == OfFitness(a, f) + OfFitness(b, f)
    decreases |b|
  {
    if b == [] {
      assert a + b == a;
    } else {
      var init := b[..|b| - 1];
      assert (a + b)[..|a + b| - 1] == a + init;
      OfFitnessAppend(a, init, f);
    }
  }

  /** Inserting x keeps the members of each fitness in order, x coming after those equal to it. */
  lemma {:induction false} InsertIsStable(s: seq<Individual>, x: Individual, f: int)
    ensures OfFitness(Insert(s, x), f) == OfFitness(s, f) + (if x.fitness == f then [x] else [])
    decreases |s|
  {
    if s == [] || s[|s| - 1].fitness <= x.fitness {
      OfFitnessAppend(s, [x], f);
      assert [x][..0] == [];
    } else {
      var init, last := s[..|s| - 1], s[|s| - 1];
      InsertIsStable(init, x, f);
      OfFitnessAppend(Insert(init, x), [last], f);
      assert [last][..0] == [];
    }
  }

  /** `Collections.sort` is stable: the members of each fitness keep their relative order. */
  lemma {:induction false} SortedIsStable(s: seq<Individual>, f: int)
    ensures OfFitness(Sorted(s), f) == OfFitness(s, f)
    decreases |s|
  {
    if s != [] {
      SortedIsStable(s[..|s| - 1], f);
      InsertIsStable(Sorted(s[..|s| - 1]), s[|s| - 1], f);
    }
  }

  lemma {:induction false} ReversedOfFitness(s: seq<Individual>, f: int)
    ensures OfFitness(Reversed(s), f) == Reversed(OfFitness(s, f))
    decreases |s|
  {
    if s != [] {
      var init, last := s[..|s| - 1], s[|s| - 1];
      ReversedOfFitness(init, f);
      OfFitnessAppend([last], Reversed(init), f);
      assert [last][..0] == [];
      var a := OfFitness(init, f);
      if last.fitness == f {
        assert (a + [last])[..|a|] == a;
      } else {
        assert a + [] == a;
      }
    }
  }

  /**
   * Sorting ascending and then reversing puts the members of each fitness in
   * the reverse of their prior order.
   */
  lemma RankedReversesTies(s: seq<Individual>, f: int)
    ensures OfFitness(Ranked(s), f) == Reversed(OfFitness(s, f))
  {
    SortedIsStable(s, f);
    ReversedOfFitness(Sorted(s), f);
  }
}
