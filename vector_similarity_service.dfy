/**
 * The similarity use case over the repository: every stored vector is
 * scored against the query, the results are ranked highest first and the
 * first `limit` are kept. Unlike the in-memory engine, a refused comparison
 * fails the whole query, and a limit of 0 keeps nothing.
 *
 * The repository enters through `all`, the vectors of `findAll()` in the
 * order the returned set is iterated; that order is not specified, so it
 * is a parameter.
 */
module SimilarityService {
  import opened Wrappers
  import opened Entities
  import opened Similarity
  import opened Ranking
  import MemoryQuery

  const NullRepository: string := "Vector repository cannot be null"
  const NullCalculator: string := "Similarity calculator cannot be null"
  const NullQuery: string := "Query vector cannot be null"
  const NegativeLimit: string := "Limit cannot be negative"
  const ThresholdRange: string := "Minimum similarity must be between 0.0 and 1.0"

  /** `Integer.MAX_VALUE`, the limit the threshold query ranks with. */
  const IntMax: nat := 0x7fff_ffff

  /** A listing of a set: each element once. */
  ghost predicate Enumerates(all: seq<Vector>, s: set<Vector>)
  {
    && (forall v :: v in all <==> v in s)
    && (forall i, j :: 0 <= i < j < |all| ==> all[i] != all[j])
  }

  /**
   * Every listed vector scored, in listing order; the first refusal fails
   * the whole pipeline.
   */
  function ScoreAll(c: Calculator, q: Vector, all: seq<Vector>): (r: Result<seq<SimilarityResult>>)
    ensures r.Ok? <==> forall v :: v in all ==> Comparable(q, v)
    ensures r.Err? ==> r.error == IllegalArgument(DimensionMismatch)
    ensures r.Ok? ==> VectorsOf(r.value) == all
    ensures r.Ok? ==> forall i :: 0 <= i < |all| ==> Calculate(c, q, all[i]) == Ok(r.value[i].similarity)
    decreases |all|
  {
    if all == [] then Ok([])
    else
      var init := all[..|all| - 1];
      var v := all[|all| - 1];
      assert forall u :: u in all <==> u in init || u == v;
      var scored :- ScoreAll(c, q, init);
      match Calculate(c, q, v)
      case Err(e) =>
        assert !Comparable(q, v);
        Err(e)
      case Ok(s) =>
        assert VectorsOf(scored + [SimilarityResult(v, s)]) == all;
        Ok(scored + [SimilarityResult(v, s)])
  }

  /** The service holds its repository and its calculator. */
  datatype VectorSimilarityService<Repository> = VectorSimilarityService(repository: Repository, calculator: Calculator)
  {
    /**
     * `findSimilarVectorsWithScores(queryVector, limit)`: score everything,
     * sort highest first, keep the first `limit`.
     */
    function FindSimilarVectorsWithScores(all: seq<Vector>, query: Option<Vector>, limit: int): (r: Result<seq<SimilarityResult>>)
      ensures query.None? ==> r == Err(IllegalArgument(NullQuery))
      ensures query.Some? && limit < 0 ==> r == Err(IllegalArgument(NegativeLimit))
      ensures query.Some? && limit >= 0 && !(forall v :: v in all ==> Comparable(query.value, v)) ==>
        r == Err(IllegalArgument(DimensionMismatch))
    {
      if query.None? then Err(IllegalArgument(NullQuery))
      else if limit < 0 then Err(IllegalArgument(NegativeLimit))
      else
        var scored :- ScoreAll(calculator, query.value, all);
        Ok(Take(SortDesc(scored), limit))
    }

    /** `findSimilarVectors(queryVector, limit)`: the vectors of the scored query, in the same order. */
    function FindSimilarVectors(all: seq<Vector>, query: Option<Vector>, limit: int): (r: Result<seq<Vector>>)
      ensures r.Err? <==> FindSimilarVectorsWithScores(all, query, limit).Err?
      ensures r.Err? ==> r.error == FindSimilarVectorsWithScores(all, query, limit).error
      ensures r.Ok? ==> r.value == VectorsOf(FindSimilarVectorsWithScores(all, query, limit).value)
    {
      if query.None? then Err(IllegalArgument(NullQuery))
      else if limit < 0 then Err(IllegalArgument(NegativeLimit))
      else
        var results :- FindSimilarVectorsWithScores(all, query, limit);
        Ok(VectorsOf(results))
    }

    /**
     * `findSimilarVectorsWithThreshold(queryVector, limit, minSimilarity)`:
     * the threshold must lie in [0, 1]; the ranking up to `Integer.MAX_VALUE`
     * results is filtered, then limited.
     */
    function FindSimilarVectorsWithThreshold(all: seq<Vector>, query: Option<Vector>, limit: int, minSimilarity: real)
      : (r: Result<seq<SimilarityResult>>)
      ensures query.None? ==> r == Err(IllegalArgument(NullQuery))
      ensures query.Some? && limit < 0 ==> r == Err(IllegalArgument(NegativeLimit))
      ensures query.Some? && limit >= 0 && (minSimilarity < 0.0 || minSimilarity > 1.0) ==>
        r == Err(IllegalArgument(ThresholdRange))
      ensures r.Ok? ==> forall x :: x in r.value ==> x.similarity >= minSimilarity
    {
      if query.None? then Err(IllegalArgument(NullQuery))
      else if limit < 0 then Err(IllegalArgument(NegativeLimit))
      else if minSimilarity < 0.0 || minSimilarity > 1.0 then Err(IllegalArgument(ThresholdRange))
      else
        var ranked :- FindSimilarVectorsWithScores(all, query, IntMax);
        Ok(Take(AtLeast(ranked, minSimilarity), limit))
    }
  }

  /** The constructor: a missing repository is refused first, then a missing calculator. */
  function NewService<Repository>(repository: Option<Repository>, calculator: Option<Calculator>)
    : (r: Result<VectorSimilarityService<Repository>>)
    ensures repository.None? ==> r == Err(IllegalArgument(NullRepository))
    ensures repository.Some? && calculator.None? ==> r == Err(IllegalArgument(NullCalculator))
    ensures r.Ok? <==> repository.Some? && calculator.Some?
    ensures r.Ok? ==> r.value.repository == repository.value && r.value.calculator == calculator.value
  {
    if repository.None? then Err(IllegalArgument(NullRepository))
    else if calculator.None? then Err(IllegalArgument(NullCalculator))
    else Ok(VectorSimilarityService(repository.value, calculator.value))
  }

  /**
   * A valid scored query succeeds exactly when every stored vector is
   * comparable with the query; it then returns the top `min(limit, n)`
   * results: a prefix of the sorted permutation of all scores, highest
   * first, each the calculator's score of a stored vector.
   */
  lemma WithScoresSpec<R>(svc: VectorSimilarityService<R>, all: seq<Vector>, q: Vector, limit: nat)
    ensures var r := svc.FindSimilarVectorsWithScores(all, Some(q), limit);
      r.Ok? <==> forall v :: v in all ==> Comparable(q, v)
    ensures var r := svc.FindSimilarVectorsWithScores(all, Some(q), limit);
      r.Ok? ==>
        var scored := ScoreAll(svc.calculator, q, all).value;
        && SortedDesc(r.value)
        && |r.value| == (if limit < |all| then limit else |all|)
        && r.value == SortDesc(scored)[..|r.value|]
        && multiset(SortDesc(scored)) == multiset(scored)
        && (forall x :: x in r.value ==> x.vector in all && Calculate(svc.calculator, q, x.vector) == Ok(x.similarity))
  {
    var r := svc.FindSimilarVectorsWithScores(all, Some(q), limit);
    if r.Ok? {
      var scored := ScoreAll(svc.calculator, q, all).value;
      var sorted := SortDesc(scored);
      SortDescSorted(scored);
      SortDescPermutes(scored);
      RankedMembers(svc.calculator, q, all, scored, r.value);
    }
  }

  /** Every result of a ranking of the scored list is one of the listed vectors with its computed score. */
  lemma RankedMembers(c: Calculator, q: Vector, all: seq<Vector>, scored: seq<SimilarityResult>, ranked: seq<SimilarityResult>)
    requires ScoreAll(c, q, all) == Ok(scored)
    requires |ranked| <= |scored| && ranked == SortDesc(scored)[..|ranked|]
    ensures forall x :: x in ranked ==> x.vector in all && Calculate(c, q, x.vector) == Ok(x.similarity)
  {
    var sorted := SortDesc(scored);
    SortDescPermutes(scored);
    forall x | x in ranked
      ensures x.vector in all && Calculate(c, q, x.vector) == Ok(x.similarity)
    {
      var k :| 0 <= k < |ranked| && ranked[k] == x;
      assert x == sorted[k];
      assert x in multiset(sorted);
      ScoredMember(c, q, all, scored, x);
    }
  }

  /** A result of the scoring is one of the listed vectors with its computed score. */
  lemma ScoredMember(c: Calculator, q: Vector, all: seq<Vector>, scored: seq<SimilarityResult>, x: SimilarityResult)
    requires ScoreAll(c, q, all) == Ok(scored)
    requires x in multiset(scored)
    ensures x.vector in all && Calculate(c, q, x.vector) == Ok(x.similarity)
  {
    var i :| 0 <= i < |scored| && scored[i] == x;
    assert VectorsOf(scored)[i] == x.vector;
  }

  /** Here a limit of 0 keeps nothing, while a single refused comparison still fails the query. */
  lemma LimitZero<R>(svc: VectorSimilarityService<R>, all: seq<Vector>, q: Vector)
    ensures var r := svc.FindSimilarVectorsWithScores(all, Some(q), 0);
      && ((forall v :: v in all ==> Comparable(q, v)) ==> r == Ok([]))
      && (!(forall v :: v in all ==> Comparable(q, v)) ==> r.Err?)
  {
  }

  /**
   * Over a listing of a set, every result's vector is one of the set and
   * no vector is returned twice. The listing `all` stands for the
   * repository's `findAll()`, which the service functions take as a
   * parameter; that it enumerates the stored vectors is this lemma's
   * precondition, not something the model derives from the repository.
   */
  lemma ResultsFromAll<R>(svc: VectorSimilarityService<R>, all: seq<Vector>, s: set<Vector>, q: Vector, limit: nat)
    requires Enumerates(all, s)
    ensures var r := svc.FindSimilarVectorsWithScores(all, Some(q), limit);
      r.Ok? ==> (forall x :: x in r.value ==> x.vector in s) && DistinctVectors(r.value)
  {
    var r := svc.FindSimilarVectorsWithScores(all, Some(q), limit);
    if r.Ok? {
      var scored := ScoreAll(svc.calculator, q, all).value;
      assert forall i :: 0 <= i < |scored| ==> scored[i].vector == all[i];
      SortDescDistinct(scored);
      WithScoresSpec(svc, all, q, limit);
      var sorted := SortDesc(scored);
      forall i, j | 0 <= i < j < |r.value| ensures r.value[i].vector != r.value[j].vector {
        assert r.value[i] == sorted[i] && r.value[j] == sorted[j];
      }
    }
  }

  /**
   * The threshold query keeps, in ranking order, the leading results that
   * reach the threshold, and at most `limit` of them.
   */
  lemma ThresholdSpec<R>(svc: VectorSimilarityService<R>, all: seq<Vector>, q: Vector, limit: nat, min: real)
    requires 0.0 <= min <= 1.0
    ensures var r := svc.FindSimilarVectorsWithThreshold(all, Some(q), limit, min);
      var ranked := svc.FindSimilarVectorsWithScores(all, Some(q), IntMax);
      && (r.Ok? <==> ranked.Ok?)
      && (r.Ok? ==> r.value == ranked.value[..|r.value|] && |r.value| <= limit)
      && (r.Ok? && |r.value| < limit ==> forall x :: x in ranked.value && x.similarity >= min ==> x in r.value)
  {
    var r := svc.FindSimilarVectorsWithThreshold(all, Some(q), limit, min);
    var ranked := svc.FindSimilarVectorsWithScores(all, Some(q), IntMax);
    if ranked.Ok? {
      var scored := ScoreAll(svc.calculator, q, all).value;
      assert ranked.value == Take(SortDesc(scored), IntMax);
      SortDescSorted(scored);
      var kept := AtLeast(ranked.value, min);
      AtLeastPrefix(ranked.value, min);
      assert r.value == Take(kept, limit);
      assert r.value == ranked.value[..|r.value|];
      if |r.value| < limit {
        assert r.value == kept;
      }
    }
  }

  /** When every listed vector is comparable, the in-memory engine scores the same results in the same order. */
  lemma {:induction false} ScoredAgrees(c: Calculator, q: Vector, all: seq<Vector>)
    requires forall v :: v in all ==> Comparable(q, v)
    ensures MemoryQuery.Scored(c, q, all) == ScoreAll(c, q, all).value
  {
    if all != [] {
      var init := all[..|all| - 1];
      ScoredAgrees(c, q, init);
    }
  }

  /**
   * The two engines agree on a positive limit when every candidate is
   * comparable, and disagree on a limit of 0 over a non-empty listing:
   * the in-memory engine then returns everything, the service nothing.
   */
  lemma EnginesCompared<R>(svc: VectorSimilarityService<R>, all: seq<Vector>, q: Vector, limit: nat)
    requires forall v :: v in all ==> Comparable(q, v)
    ensures limit > 0 ==>
      svc.FindSimilarVectorsWithScores(all, Some(q), limit) == Ok(MemoryQuery.Ranked(svc.calculator, q, all, limit))
    ensures limit == 0 && all != [] ==>
      svc.FindSimilarVectorsWithScores(all, Some(q), limit) == Ok([]) &&
      |MemoryQuery.Ranked(svc.calculator, q, all, limit)| == |all|
  {
    ScoredAgrees(svc.calculator, q, all);
  }
}
