/**
 * The individuals of a population, reduced to what Population reads and
 * writes: the index that names the individual's durable record, its
 * controller and its fitness.
 */
module Individuals {

  /**
   * A controller (the perceptron an individual wraps), known only by how it
   * was made: randomly initialised for the individual first created with a
   * given index, or recombined from a mother's and a father's controllers.
   */
  datatype Controller =
    | Fresh(origin: int)
    | Crossed(mother: Controller, father: Controller)

  /** An individual; its natural order is the order of its fitness. */
  datatype Individual = Individual(index: int, controller: Controller, fitness: int)

  /** Position k of the list holds the individual with index k + 1. */
  predicate Indexed(s: seq<Individual>)
  {
    forall k :: 0 <= k < |s| ==> s[k].index == k + 1
  }

  /** The indices of the individuals of s, in list order. */
  function Indices(s: seq<Individual>): seq<int>
  {
    seq(|s|, k requires 0 <= k < |s| => s[k].index)
  }
}
