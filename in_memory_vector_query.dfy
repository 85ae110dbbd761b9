/**
 * The in-memory query engine: it scores a private copy of a list of
 * vectors against a query, skipping the candidates the calculator refuses,
 * and ranks them highest first with a stable sort. A limit of 0 means "no
 * limit".
 */
module MemoryQuery {
  import opened Wrappers
  import opened Entities
  import opened Similarity
  import opened Ranking

  const NullIndex: string := "Vector index cannot be null"
  const NullCalculator: string := "Similarity calculator cannot be null"
  const NullQuery: string := "Query vector cannot be null"
  const NegativeLimit: string := "Limit cannot be negative"
  const IndexNotSet: string := "Vector index must be set"

  /** The candidates the calculator accepts, each with its score, in list order. */
  function Scored(c: Calculator, q: Vector, candidates: seq<Vector>): (rs: seq<SimilarityResult>)
    ensures |rs| <= |candidates|
    decreases |candidates|
  {
    if candidates == [] then []
    else
      var init := candidates[..|candidates| - 1];
      var v := candidates[|candidates| - 1];
      Scored(c, q, init) + (match Calculate(c, q, v) case Ok(s) => [SimilarityResult(v, s)] case Err(_) => [])
  }

  /** Every scored result is a candidate, with the score the calculator gives it. */
  lemma {:induction false} ScoredSound(c: Calculator, q: Vector, candidates: seq<Vector>)
    ensures forall r :: r in Scored(c, q, candidates) ==>
      r.vector in candidates && Calculate(c, q, r.vector) == Ok(r.similarity)
  {
    if candidates != [] {
      var init := candidates[..|candidates| - 1];
      ScoredSound(c, q, init);
      assert forall u :: u in init ==> u in candidates;
    }
  }

  /** Every candidate the calculator accepts is scored. */
  lemma {:induction false} ScoredComplete(c: Calculator, q: Vector, candidates: seq<Vector>)
    ensures forall v :: v in candidates && Comparable(q, v) ==>
      SimilarityResult(v, c.score(q.data.values, v.data.values)) in Scored(c, q, candidates)
  {
    if candidates != [] {
      var init := candidates[..|candidates| - 1];
      var v := candidates[|candidates| - 1];
      ScoredComplete(c, q, init);
      assert forall u :: u in candidates ==> u in init || u == v;
    }
  }

  lemma {:induction false} ScoredPointwise(c: Calculator, q: Vector, candidates: seq<Vector>)
    requires forall i :: 0 <= i < |candidates| ==> Comparable(q, candidates[i])
    ensures |Scored(c, q, candidates)| == |candidates|
    ensures forall i :: 0 <= i < |candidates| ==> Scored(c, q, candidates)[i].vector == candidates[i]
  {
    if candidates != [] {
      var init := candidates[..|candidates| - 1];
      var v := candidates[|candidates| - 1];
      assert forall i :: 0 <= i < |init| ==> init[i] == candidates[i];
      ScoredPointwise(c, q, init);
      var front := Scored(c, q, init);
      var s := Calculate(c, q, v).value;
      assert Scored(c, q, candidates) == front + [SimilarityResult(v, s)];
    }
  }

  /** When the calculator accepts every candidate, every candidate is scored, in order. */
  lemma ScoredAll(c: Calculator, q: Vector, candidates: seq<Vector>)
    requires forall v :: v in candidates ==> Comparable(q, v)
    ensures VectorsOf(Scored(c, q, candidates)) == candidates
  {
    assert forall i :: 0 <= i < |candidates| ==> candidates[i] in candidates;
    ScoredPointwise(c, q, candidates);
  }

  /** `limit == 0 ? results : results.subList(0, min(limit, size))` */
  function LimitOrAll(rs: seq<SimilarityResult>, limit: nat): seq<SimilarityResult>
  {
    if limit == 0 then rs else Take(rs, limit)
  }

  /** What `findSimilar(q, limit)` returns for a valid query and limit. */
  function Ranked(c: Calculator, q: Vector, candidates: seq<Vector>, limit: nat): seq<SimilarityResult>
  {
    LimitOrAll(SortDesc(Scored(c, q, candidates)), limit)
  }

  /**
   * The ranking is sorted highest first, holds every accepted candidate
   * when the limit is 0 and otherwise the first `min(limit, n)` of them.
   */
  lemma RankedSpec(c: Calculator, q: Vector, candidates: seq<Vector>, limit: nat)
    ensures SortedDesc(Ranked(c, q, candidates, limit))
    ensures var n := |Scored(c, q, candidates)|;
      |Ranked(c, q, candidates, limit)| == if limit == 0 || n < limit then n else limit
    ensures Ranked(c, q, candidates, limit) == SortDesc(Scored(c, q, candidates))[..|Ranked(c, q, candidates, limit)|]
    ensures limit == 0 ==> multiset(Ranked(c, q, candidates, limit)) == multiset(Scored(c, q, candidates))
  {
    var all := SortDesc(Scored(c, q, candidates));
    SortDescSorted(Scored(c, q, candidates));
    SortDescPermutes(Scored(c, q, candidates));
    assert all[..|all|] == all;
  }

  /**
   * The threshold query keeps the results that reach the threshold: they
   * are the leading results of the unlimited ranking, so order is kept, and
   * the limit applies after filtering.
   */
  lemma ThresholdSpec(c: Calculator, q: Vector, candidates: seq<Vector>, limit: nat, min: real)
    ensures var r := LimitOrAll(AtLeast(Ranked(c, q, candidates, 0), min), limit);
      && (forall x :: x in r ==> x.similarity >= min)
      && r == Ranked(c, q, candidates, 0)[..|r|]
      && (limit == 0 ==> forall x :: x in Ranked(c, q, candidates, 0) && x.similarity >= min ==> x in r)
  {
    var scored := Scored(c, q, candidates);
    var all := Ranked(c, q, candidates, 0);
    assert all == SortDesc(scored);
    SortDescSorted(scored);
    AtLeastPrefix(all, min);
    AtLeastMembers(all, min);
    var kept := AtLeast(all, min);
    var r := LimitOrAll(kept, limit);
    if limit == 0 {
      assert r == kept;
    } else {
      assert r == kept[..|r|];
    }
    assert r == all[..|r|];
  }

  /** Statistics: the size of the copied list and the calculator's name. */
  datatype QueryStats = QueryStats(indexSize: int, similarityAlgorithm: string)

  class InMemoryVectorQuery {
    /** The engine's own copy of the candidate list. */
    const vectorIndex: seq<Vector>
    const similarityCalculator: Calculator

    constructor (vectorIndex: seq<Vector>, similarityCalculator: Calculator)
      ensures this.vectorIndex == vectorIndex && this.similarityCalculator == similarityCalculator
    {
      this.vectorIndex := vectorIndex;
      this.similarityCalculator := similarityCalculator;
    }

    /**
     * `new InMemoryVectorQuery(vectorIndex, similarityCalculator)`: a missing
     * list is refused first, then a missing calculator; the list is copied.
     */
    static method New(vectorIndex: Option<seq<Vector>>, similarityCalculator: Option<Calculator>)
      returns (r: Result<InMemoryVectorQuery>)
      ensures vectorIndex.None? ==> r == Err(IllegalArgument(NullIndex))
      ensures vectorIndex.Some? && similarityCalculator.None? ==> r == Err(IllegalArgument(NullCalculator))
      ensures r.Ok? <==> vectorIndex.Some? && similarityCalculator.Some?
      ensures r.Ok? ==> fresh(r.value)
      ensures r.Ok? ==> r.value.vectorIndex == vectorIndex.value && r.value.similarityCalculator == similarityCalculator.value
    {
      if vectorIndex.None? {
        return Err(IllegalArgument(NullIndex));
      }
      if similarityCalculator.None? {
        return Err(IllegalArgument(NullCalculator));
      }
      var query := new InMemoryVectorQuery(vectorIndex.value, similarityCalculator.value);
      r := Ok(query);
    }

    /** `new InMemoryVectorQuery(vectorIndex)`: cosine similarity by default. */
    static method NewWithCosine(vectorIndex: Option<seq<Vector>>, cosine: Calculator)
      returns (r: Result<InMemoryVectorQuery>)
      ensures vectorIndex.None? ==> r == Err(IllegalArgument(NullIndex))
      ensures vectorIndex.Some? ==> r.Ok? && fresh(r.value)
      ensures r.Ok? ==> r.value.vectorIndex == vectorIndex.value && r.value.similarityCalculator == cosine
    {
      r := New(vectorIndex, Some(cosine));
    }

    /**
     * `findSimilar(queryVector, limit)`: every candidate is scored in list
     * order, those the calculator refuses are skipped, the results are
     * sorted in place highest first, and the limit is applied.
     */
    method FindSimilar(query: Option<Vector>, limit: int) returns (r: Result<seq<SimilarityResult>>)
      ensures query.None? ==> r == Err(IllegalArgument(NullQuery))
      ensures query.Some? && limit < 0 ==> r == Err(IllegalArgument(NegativeLimit))
      ensures query.Some? && limit >= 0 ==> r == Ok(Ranked(similarityCalculator, query.value, vectorIndex, limit))
    {
      if query.None? {
        return Err(IllegalArgument(NullQuery));
      }
      if limit < 0 {
        return Err(IllegalArgument(NegativeLimit));
      }
      var q := query.value;
      var results: seq<SimilarityResult> := [];
      var i := 0;
      while i < |vectorIndex|
        invariant 0 <= i <= |vectorIndex|
        invariant results == Scored(similarityCalculator, q, vectorIndex[..i])
      {
        var candidate := vectorIndex[i];
        assert vectorIndex[..i + 1][..i] == vectorIndex[..i];
        var similarity := Calculate(similarityCalculator, q, candidate);
        if similarity.Ok? {
          results := results + [SimilarityResult(candidate, similarity.value)];
        }
        i := i + 1;
      }
      assert vectorIndex[..i] == vectorIndex;
      var a := new SimilarityResult[|results|](j requires 0 <= j < |results| => results[j]);
      assert a[..] == results;
      SortInPlace(a);
      var sorted := a[..];
      if limit == 0 {
        r := Ok(sorted);
      } else {
        r := Ok(sorted[..if limit < |sorted| then limit else |sorted|]);
      }
    }

    /**
     * `findSimilarWithThreshold(queryVector, limit, minSimilarity)`: the
     * whole ranking, filtered by the threshold (no range check here), then
     * limited.
     */
    method FindSimilarWithThreshold(query: Option<Vector>, limit: int, minSimilarity: real)
      returns (r: Result<seq<SimilarityResult>>)
      ensures query.None? ==> r == Err(IllegalArgument(NullQuery))
      ensures query.Some? && limit < 0 ==> r == Err(IllegalArgument(NegativeLimit))
      ensures query.Some? && limit >= 0 ==>
        r == Ok(LimitOrAll(AtLeast(Ranked(similarityCalculator, query.value, vectorIndex, 0), minSimilarity), limit))
    {
      if query.None? {
        return Err(IllegalArgument(NullQuery));
      }
      if limit < 0 {
        return Err(IllegalArgument(NegativeLimit));
      }
      var all := FindSimilar(query, 0);
      var filtered := AtLeast(all.value, minSimilarity);
      r := Ok(LimitOrAll(filtered, limit));
    }

    /** `findSimilarVectors(queryVector, limit)`: the vectors of `findSimilar`, in the same order. */
    method FindSimilarVectors(query: Option<Vector>, limit: int) returns (r: Result<seq<Vector>>)
      ensures query.None? ==> r == Err(IllegalArgument(NullQuery))
      ensures query.Some? && limit < 0 ==> r == Err(IllegalArgument(NegativeLimit))
      ensures query.Some? && limit >= 0 ==> r == Ok(VectorsOf(Ranked(similarityCalculator, query.value, vectorIndex, limit)))
    {
      var results := FindSimilar(query, limit);
      if results.Err? {
        return Err(results.error);
      }
      r := Ok(VectorsOf(results.value));
    }

    /** `getStats()` */
    function GetStats(): (s: QueryStats)
      ensures s.indexSize == |vectorIndex| && s.similarityAlgorithm == similarityCalculator.name
    {
      QueryStats(|vectorIndex|, similarityCalculator.name)
    }
  }

  /** The fluent builder: no list yet and cosine similarity until set. */
  class Builder {
    var vectorIndex: Option<seq<Vector>>
    var similarityCalculator: Option<Calculator>

    constructor (cosine: Calculator)
      ensures vectorIndex == None && similarityCalculator == Some(cosine)
    {
      vectorIndex := None;
      similarityCalculator := Some(cosine);
    }

    /** `withVectors(vectors)` */
    method WithVectors(vectors: Option<seq<Vector>>) returns (b: Builder)
      modifies this
      ensures b == this
      ensures vectorIndex == vectors && similarityCalculator == old(similarityCalculator)
    {
      vectorIndex := vectors;
      b := this;
    }

    /** `withSimilarityCalculator(calculator)`: a missing calculator is only refused by `build()`. */
    method WithSimilarityCalculator(calculator: Option<Calculator>) returns (b: Builder)
      modifies this
      ensures b == this
      ensures similarityCalculator == calculator && vectorIndex == old(vectorIndex)
    {
      similarityCalculator := calculator;
      b := this;
    }

    /** `build()`: refused while no list was given, otherwise the engine's constructor. */
    method Build() returns (r: Result<InMemoryVectorQuery>)
      ensures vectorIndex.None? ==> r == Err(IllegalState(IndexNotSet))
      ensures vectorIndex.Some? && similarityCalculator.None? ==> r == Err(IllegalArgument(NullCalculator))
      ensures r.Ok? <==> vectorIndex.Some? && similarityCalculator.Some?
      ensures r.Ok? ==> fresh(r.value)
      ensures r.Ok? ==> r.value.vectorIndex == vectorIndex.value && r.value.similarityCalculator == similarityCalculator.value
    {
      if vectorIndex.None? {
        return Err(IllegalState(IndexNotSet));
      }
      r := InMemoryVectorQuery.New(vectorIndex, similarityCalculator);
    }
  }
}
