/**
 * The fluent query builder over the similarity use case: `select()` opens a
 * query with no query vector, limit 10 and threshold 0.0; the setters
 * validate their argument and return the same builder; `execute()` runs one
 * threshold query with the current settings.
 *
 * As in the use case, `all` is the repository's `findAll()` listing at the
 * time the query runs.
 */
module QueryBuilding {
  import opened Wrappers
  import opened Entities
  import opened Similarity
  import opened Ranking
  import opened SimilarityService

  const NullUseCase: string := "Vector similarity use case cannot be null"
  const QueryNotSet: string := "Query vector must be specified using similarTo()"

  const DefaultLimit: int := 10
  const DefaultMinSimilarity: real := 0.0

  class VectorQueryBuilder<R> {
    const useCase: VectorSimilarityService<R>

    constructor (useCase: VectorSimilarityService<R>)
      ensures this.useCase == useCase
    {
      this.useCase := useCase;
    }

    /** `new VectorQueryBuilder(useCase)`: a missing use case is refused. */
    static method New(useCase: Option<VectorSimilarityService<R>>) returns (r: Result<VectorQueryBuilder<R>>)
      ensures useCase.None? <==> r.Err?
      ensures r.Err? ==> r.error == IllegalArgument(NullUseCase)
      ensures r.Ok? ==> fresh(r.value) && r.value.useCase == useCase.value
    {
      if useCase.None? {
        return Err(IllegalArgument(NullUseCase));
      }
      var builder := new VectorQueryBuilder(useCase.value);
      r := Ok(builder);
    }

    /** `select()`: a new query on the defaults, every call a different one. */
    method Select() returns (q: QueryBuilder<R>)
      ensures fresh(q)
      ensures q.useCase == useCase
      ensures q.queryVector == None && q.limit == DefaultLimit && q.minSimilarity == DefaultMinSimilarity
      ensures q.Valid()
    {
      q := new QueryBuilder(useCase);
    }
  }

  class QueryBuilder<R> {
    const useCase: VectorSimilarityService<R>
    var queryVector: Option<Vector>
    var limit: int
    var minSimilarity: real

    /** What the setters guarantee: a limit and a threshold the use case accepts. */
    ghost predicate Valid()
      reads this
    {
      limit >= 0 && 0.0 <= minSimilarity <= 1.0
    }

    constructor (useCase: VectorSimilarityService<R>)
      ensures this.useCase == useCase
      ensures queryVector == None && limit == DefaultLimit && minSimilarity == DefaultMinSimilarity
      ensures Valid()
    {
      this.useCase := useCase;
      queryVector := None;
      limit := DefaultLimit;
      minSimilarity := DefaultMinSimilarity;
    }

    /** `similarTo(vector)`: a missing vector is refused and nothing changes. */
    method SimilarTo(vector: Option<Vector>) returns (r: Result<QueryBuilder<R>>)
      modifies this
      ensures vector.None? ==> r == Err(IllegalArgument(NullQuery)) && queryVector == old(queryVector)
      ensures vector.Some? ==> r == Ok(this) && queryVector == vector
      ensures limit == old(limit) && minSimilarity == old(minSimilarity)
    {
      if vector.None? {
        return Err(IllegalArgument(NullQuery));
      }
      queryVector := vector;
      r := Ok(this);
    }

    /** `limit(n)`: a negative limit is refused and the stored one kept. */
    method Limit(n: int) returns (r: Result<QueryBuilder<R>>)
      modifies this
      ensures n < 0 ==> r == Err(IllegalArgument(NegativeLimit)) && limit == old(limit)
      ensures n >= 0 ==> r == Ok(this) && limit == n
      ensures queryVector == old(queryVector) && minSimilarity == old(minSimilarity)
      ensures old(Valid()) ==> Valid()
    {
      if n < 0 {
        return Err(IllegalArgument(NegativeLimit));
      }
      limit := n;
      r := Ok(this);
    }

    /** `minSimilarity(t)`: accepted exactly when `0.0 <= t <= 1.0`. */
    method MinSimilarity(t: real) returns (r: Result<QueryBuilder<R>>)
      modifies this
      ensures !(0.0 <= t <= 1.0) ==> r == Err(IllegalArgument(ThresholdRange)) && minSimilarity == old(minSimilarity)
      ensures 0.0 <= t <= 1.0 ==> r == Ok(this) && minSimilarity == t
      ensures queryVector == old(queryVector) && limit == old(limit)
      ensures old(Valid()) ==> Valid()
    {
      if t < 0.0 || t > 1.0 {
        return Err(IllegalArgument(ThresholdRange));
      }
      minSimilarity := t;
      r := Ok(this);
    }

    /**
     * `execute()`: refused while no query vector is set; otherwise exactly
     * one threshold query with the current settings, whose result is
     * returned as it is. On settings the setters produced, that query can
     * only fail on a stored vector of another dimension.
     */
    method Execute(all: seq<Vector>) returns (r: Result<seq<SimilarityResult>>)
      ensures queryVector.None? ==> r == Err(IllegalState(QueryNotSet))
      ensures queryVector.Some? ==> r == useCase.FindSimilarVectorsWithThreshold(all, queryVector, limit, minSimilarity)
      ensures queryVector.Some? && Valid() ==> (r.Ok? <==> forall v :: v in all ==> Comparable(queryVector.value, v))
    {
      if queryVector.None? {
        return Err(IllegalState(QueryNotSet));
      }
      r := useCase.FindSimilarVectorsWithThreshold(all, queryVector, limit, minSimilarity);
      if Valid() {
        ThresholdSpec(useCase, all, queryVector.value, limit, minSimilarity);
        WithScoresSpec(useCase, all, queryVector.value, IntMax);
      }
    }

    /** `executeVectors()`: the vectors of `execute()`, in the same order. */
    method ExecuteVectors(all: seq<Vector>) returns (r: Result<seq<Vector>>)
      ensures queryVector.None? ==> r == Err(IllegalState(QueryNotSet))
      ensures queryVector.Some? ==>
        var results := useCase.FindSimilarVectorsWithThreshold(all, queryVector, limit, minSimilarity);
        && (r.Ok? <==> results.Ok?)
        && (r.Ok? ==> r.value == VectorsOf(results.value))
        && (r.Err? ==> r.error == results.error)
    {
      if queryVector.None? {
        return Err(IllegalState(QueryNotSet));
      }
      var results := Execute(all);
      if results.Err? {
        return Err(results.error);
      }
      r := Ok(VectorsOf(results.value));
    }
  }
}
