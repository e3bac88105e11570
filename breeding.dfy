/**
 * Breeding of children from the survivors: the `random` range helper, the
 * choice of two distinct parents by resampling, and the children appended to
 * the population. `Math.random()` becomes a caller-supplied real in [0, 1).
 */
module Breeding {
  import opened Individuals

  /** Java's `(int)` cast of a floating-point value: truncation toward zero. */
  function Trunc(x: real): (r: int)
    ensures 0.0 <= x ==> r as real <= x < r as real + 1.0
    ensures x < 0.0 ==> r as real - 1.0 < x <= r as real
  {
    if x >= 0.0 then x.Floor else -((-x).Floor)
  }

  /** Scaling a sample in [0, 1) by a positive span stays in [0, span). */
  lemma ScaledSample(u: real, span: real)
    requires 0.0 <= u < 1.0 && 0.0 < span
    ensures 0.0 <= u * span < span
  {
  }

  /** `random(min, max)` for the uniform sample u: `(int) (u * (max - min)) + min`. */
  function Random(min: int, max: int, u: real): (r: int)
    requires 0.0 <= u < 1.0
    ensures min < max ==> min <= r < max
    ensures min == max ==> r == min
  {
    var span := (max - min) as real;
    if min < max then ScaledSample(u, span); Trunc(u * span) + min
    else Trunc(u * span) + min
  }

  predicate Uniform(u: real)
  {
    0.0 <= u < 1.0
  }

  /**
   * The resampling `do { fatherID = random(0, n); } while (motherID == fatherID)`
   * stops within the samples `fathers`: some sample gives a parent other than
   * the mother, and every sample it draws up to there is in [0, 1).
   */
  predicate Resamples(mother: int, n: int, fathers: seq<real>)
    decreases |fathers|
  {
    && |fathers| > 0
    && Uniform(fathers[0])
    && (Random(0, n, fathers[0]) != mother || Resamples(mother, n, fathers[1..]))
  }

  /** The father the resampling loop settles on: the first sample that differs from the mother. */
  function FatherOf(mother: int, n: int, fathers: seq<real>): (f: int)
    requires 0 <= n && Resamples(mother, n, fathers)
    ensures f != mother
    ensures 0 < n ==> 0 <= f < n
    ensures n == 0 ==> f == 0
    decreases |fathers|
  {
    var f := Random(0, n, fathers[0]);
    if f != mother then f else FatherOf(mother, n, fathers[1..])
  }

  /** The samples drawn for one child: one for its mother, then the father's resamples. */
  datatype Draw = Draw(mother: real, fathers: seq<real>)

  /** The draws let the child's loop terminate with two parents among the first n. */
  predicate Drawable(d: Draw, n: int)
  {
    0 <= n && Uniform(d.mother) && Resamples(Random(0, n, d.mother), n, d.fathers)
  }

  /** Positions of the mother and the father the draws choose among the first n members. */
  function Parents(d: Draw, n: int): (p: (int, int))
    requires Drawable(d, n)
    ensures 0 <= p.0 < n && 0 <= p.1 < n && p.0 != p.1
  {
    var mother := Random(0, n, d.mother);
    var father := FatherOf(mother, n, d.fathers);
    (mother, father)
  }

  /** The child with the given index bred from two of the first n members of `pool`. */
  function Offspring(pool: seq<Individual>, n: int, d: Draw, index: int): Individual
    requires Drawable(d, n) && n <= |pool|
  {
    var (m, f) := Parents(d, n);
    Individual(index, Crossed(pool[m].controller, pool[f].controller), 0)
  }

  /** The children `generateChildren` appends, the c-th with index first + c. */
  function Brood(pool: seq<Individual>, n: int, draws: seq<Draw>, first: int): (r: seq<Individual>)
    requires n <= |pool| && forall c :: 0 <= c < |draws| ==> Drawable(draws[c], n)
  {
    seq(|draws|, c requires 0 <= c < |draws| => Offspring(pool, n, draws[c], first + c))
  }

  /** x is the recombination of two distinct members among the first n of the pool. */
  ghost predicate BredFrom(x: Individual, pool: seq<Individual>, n: int)
  {
    exists m, f :: 0 <= m < n <= |pool| && 0 <= f < n && m != f &&
      x.controller == Crossed(pool[m].controller, pool[f].controller)
  }

  /**
   * Every child is numbered in order from `first`, and is the recombination of
   * two distinct members among the first n of the pool.
   */
  lemma BroodWellFormed(pool: seq<Individual>, n: int, draws: seq<Draw>, first: int)
    requires n <= |pool| && forall c :: 0 <= c < |draws| ==> Drawable(draws[c], n)
    ensures |Brood(pool, n, draws, first)| == |draws|
    ensures forall c :: 0 <= c < |draws| ==> Brood(pool, n, draws, first)[c].index == first + c
    ensures forall c :: 0 <= c < |draws| ==> BredFrom(Brood(pool, n, draws, first)[c], pool, n)
  {
  }

  /** With fewer than two members to choose from, every sample gives parent 0. */
  lemma {:induction false} NoDistinctSample(n: int, fathers: seq<real>)
    requires 0 <= n <= 1
    ensures !Resamples(0, n, fathers)
    decreases |fathers|
  {
    if |fathers| > 0 && Uniform(fathers[0]) {
      NoDistinctSample(n, fathers[1..]);
    }
  }

  /**
   * The resampling loop can only stop when there are at least two survivors
   * to choose from: with nbSurvivors below 2 it never terminates.
   */
  lemma DrawableNeedsTwoSurvivors(d: Draw, n: int)
    ensures Drawable(d, n) ==> 2 <= n
  {
    if 0 <= n < 2 && Uniform(d.mother) {
      NoDistinctSample(n, d.fathers);
    }
  }
}
