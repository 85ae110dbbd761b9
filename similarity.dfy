/**
 * The similarity calculator seen from the core: a named scoring function
 * that refuses two vectors of different dimensions. The arithmetic of the
 * concrete metrics (cosine, Euclidean, Manhattan) is not modelled: a
 * calculator carries its score as an arbitrary function of the two
 * coordinate sequences.
 */
module Similarity {
  import opened Wrappers
  import opened Entities

  datatype Calculator = Calculator(name: string, score: (seq<real>, seq<real>) -> real)

  const DimensionMismatch: string := "Vectors must have same dimension"

  /** `calculate(v1, v2)`: fails exactly when the dimensions differ. */
  function Calculate(c: Calculator, v1: Vector, v2: Vector): (r: Result<real>)
    ensures r.Err? <==> v1.Dimension() != v2.Dimension()
    ensures r.Err? ==> r.error == IllegalArgument(DimensionMismatch)
    ensures r.Ok? ==> r.value == c.score(v1.data.values, v2.data.values)
  {
    if |v1.data.values| != |v2.data.values| then Err(IllegalArgument(DimensionMismatch))
    else Ok(c.score(v1.data.values, v2.data.values))
  }

  /** Whether the calculator accepts this pair. */
  predicate Comparable(v1: Vector, v2: Vector)
  {
    v1.Dimension() == v2.Dimension()
  }
}
