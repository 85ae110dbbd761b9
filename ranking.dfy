/**
 * Scored results and their ordering, shared by the two query engines: the
 * `SimilarityResult` record, the stable descending sort both engines apply,
 * the threshold filter and the two ways a limit is applied.
 */
module Ranking {
  import opened Wrappers
  import opened Entities

  const NullResultVector: string := "Vector cannot be null"

  /** A vector with its similarity to the query. Any similarity is accepted, negative ones included. */
  datatype SimilarityResult = SimilarityResult(vector: Vector, similarity: real)

  /** The record's compact constructor: only a missing vector is refused. */
  function NewSimilarityResult(vector: Option<Vector>, similarity: real): (r: Result<SimilarityResult>)
    ensures vector.None? <==> r.Err?
    ensures r.Err? ==> r.error == IllegalArgument(NullResultVector)
    ensures r.Ok? ==> r.value.vector == vector.value && r.value.similarity == similarity
  {
    match vector
    case None => Err(IllegalArgument(NullResultVector))
    case Some(v) => Ok(SimilarityResult(v, similarity))
  }

  /** Highest similarity first. */
  ghost predicate SortedDesc(rs: seq<SimilarityResult>)
  {
    forall i, j :: 0 <= i < j < |rs| ==> rs[i].similarity >= rs[j].similarity
  }

  /** The vectors of the results, in order. */
  function VectorsOf(rs: seq<SimilarityResult>): (vs: seq<Vector>)
    ensures |vs| == |rs|
    ensures forall i :: 0 <= i < |rs| ==> vs[i] == rs[i].vector
  {
    seq(|rs|, i requires 0 <= i < |rs| => rs[i].vector)
  }

  // ------------------------------------------------------------ the sort

  /** `x` placed before the first result that scores strictly less than it. */
  function Insert(rs: seq<SimilarityResult>, x: SimilarityResult): (r: seq<SimilarityResult>)
    ensures |r| == |rs| + 1
  {
    if rs == [] then [x]
    else if rs[0].similarity < x.similarity then [x] + rs
    else [rs[0]] + Insert(rs[1..], x)
  }

  lemma {:induction false} InsertPermutes(rs: seq<SimilarityResult>, x: SimilarityResult)
    ensures multiset(Insert(rs, x)) == multiset(rs) + multiset{x}
  {
    if rs != [] && rs[0].similarity >= x.similarity {
      InsertPermutes(rs[1..], x);
      assert rs == [rs[0]] + rs[1..];
    }
  }

  /**
   * `sort` with a descending comparator on the similarity: a stable sort,
   * written as insertion of each result, in list order, into the sorted
   * results before it.
   */
  function SortDesc(rs: seq<SimilarityResult>): (r: seq<SimilarityResult>)
    ensures |r| == |rs|
  {
    if rs == [] then []
    else Insert(SortDesc(rs[..|rs| - 1]), rs[|rs| - 1])
  }

  /** The sort is a permutation: the same results, each as often. */
  lemma {:induction false} SortDescPermutes(rs: seq<SimilarityResult>)
    ensures multiset(SortDesc(rs)) == multiset(rs)
  {
    if rs != [] {
      var init := rs[..|rs| - 1];
      SortDescPermutes(init);
      InsertPermutes(SortDesc(init), rs[|rs| - 1]);
      assert rs == init + [rs[|rs| - 1]];
    }
  }

  lemma {:induction false} InsertSorted(rs: seq<SimilarityResult>, x: SimilarityResult)
    requires SortedDesc(rs)
    ensures SortedDesc(Insert(rs, x))
  {
    if rs != [] && rs[0].similarity >= x.similarity {
      var rest := rs[1..];
      SortedTail(rs);
      InsertSorted(rest, x);
      assert forall i :: 0 <= i < |rest| ==> rest[i] == rs[i + 1];
      InsertBelow(rest, x, rs[0].similarity);
      assert Insert(rs, x) == [rs[0]] + Insert(rest, x);
    }
  }

  /** Inserting under a bound every result respects keeps every result under it. */
  lemma {:induction false} InsertBelow(rs: seq<SimilarityResult>, x: SimilarityResult, bound: real)
    requires forall i :: 0 <= i < |rs| ==> rs[i].similarity <= bound
    requires x.similarity <= bound
    ensures forall j :: 0 <= j < |Insert(rs, x)| ==> Insert(rs, x)[j].similarity <= bound
  {
    if rs != [] && rs[0].similarity >= x.similarity {
      var rest := rs[1..];
      assert forall i :: 0 <= i < |rest| ==> rest[i] == rs[i + 1];
      InsertBelow(rest, x, bound);
      assert Insert(rs, x) == [rs[0]] + Insert(rest, x);
    }
  }

  /** The sort puts the highest similarity first. */
  lemma {:induction false} SortDescSorted(rs: seq<SimilarityResult>)
    ensures SortedDesc(SortDesc(rs))
  {
    if rs != [] {
      SortDescSorted(rs[..|rs| - 1]);
      InsertSorted(SortDesc(rs[..|rs| - 1]), rs[|rs| - 1]);
    }
  }

  /** The results of one similarity, in order. */
  function WithScore(rs: seq<SimilarityResult>, c: real): (r: seq<SimilarityResult>)
    ensures forall i :: 0 <= i < |r| ==> r[i].similarity == c
    ensures |r| <= |rs|
  {
    if rs == [] then []
    else (if rs[0].similarity == c then [rs[0]] else []) + WithScore(rs[1..], c)
  }

  lemma {:induction false} WithScoreAppend(a: seq<SimilarityResult>, b: seq<SimilarityResult>, c: real)
    ensures WithScore(a + b, c) == WithScore(a, c) + WithScore(b, c)
  {
    if a != [] {
      assert (a + b)[1..] == a[1..] + b;
      WithScoreAppend(a[1..], b, c);
    } else {
      assert a + b == b;
    }
  }

  lemma {:induction false} WithScoreNone(rs: seq<SimilarityResult>, c: real)
    requires forall y :: y in rs ==> y.similarity != c
    ensures WithScore(rs, c) == []
  {
    if rs != [] {
      WithScoreNone(rs[1..], c);
    }
  }

  /** A result that outscores sorted results comes before all of them. */
  lemma InsertFrontWithScore(rs: seq<SimilarityResult>, x: SimilarityResult, c: real)
    requires SortedDesc(rs) && rs != [] && rs[0].similarity < x.similarity
    ensures WithScore([x] + rs, c) == WithScore(rs, c) + (if x.similarity == c then [x] else [])
  {
    if x.similarity == c {
      forall y | y in rs ensures y.similarity != c {
        var j :| 0 <= j < |rs| && rs[j] == y;
      }
      WithScoreNone(rs, c);
    }
    WithScoreAppend([x], rs, c);
  }

  /** Insertion puts `x` after every result of its own similarity. */
  lemma {:induction false} InsertWithScore(rs: seq<SimilarityResult>, x: SimilarityResult, c: real)
    requires SortedDesc(rs)
    ensures WithScore(Insert(rs, x), c) == WithScore(rs, c) + (if x.similarity == c then [x] else [])
  {
    if rs == [] {
    } else if rs[0].similarity < x.similarity {
      InsertFrontWithScore(rs, x, c);
    } else {
      var tail := rs[1..];
      var head := if rs[0].similarity == c then [rs[0]] else [];
      SortedTail(rs);
      InsertWithScore(tail, x, c);
      assert Insert(rs, x) == [rs[0]] + Insert(tail, x);
      assert WithScore([rs[0]] + Insert(tail, x), c) == head + WithScore(Insert(tail, x), c) by {
        assert ([rs[0]] + Insert(tail, x))[1..] == Insert(tail, x);
      }
      assert WithScore(rs, c) == head + WithScore(tail, c);
    }
  }

  /**
   * The sort is stable: for every similarity, the results of that
   * similarity keep their relative order.
   */
  lemma {:induction false} SortDescStable(rs: seq<SimilarityResult>, c: real)
    ensures WithScore(SortDesc(rs), c) == WithScore(rs, c)
  {
    if rs != [] {
      var init := rs[..|rs| - 1];
      var last := rs[|rs| - 1];
      var sorted := SortDesc(init);
      var own := if last.similarity == c then [last] else [];
      assert SortDesc(rs) == Insert(sorted, last);
      assert WithScore(sorted, c) == WithScore(init, c) by { SortDescStable(init, c); }
      assert WithScore(Insert(sorted, last), c) == WithScore(sorted, c) + own by {
        SortDescSorted(init);
        InsertWithScore(sorted, last, c);
      }
      assert WithScore(rs, c) == WithScore(init, c) + WithScore([last], c) by {
        assert rs == init + [last];
        WithScoreAppend(init, [last], c);
      }
      assert WithScore([last], c) == own by { assert [last][1..] == []; }
    }
  }

  /** Results that are already in order are left as they are. */
  lemma {:induction false} SortDescOfSorted(rs: seq<SimilarityResult>)
    requires SortedDesc(rs)
    ensures SortDesc(rs) == rs
  {
    if rs != [] {
      var init := rs[..|rs| - 1];
      var last := rs[|rs| - 1];
      SortDescOfSorted(init);
      InsertAt(init, last, |init|);
      assert init[..|init|] == init;
      assert rs == init + [last];
    }
  }

  /** On sorted results, insertion stops at the first position whose neighbour on the left scores at least as much. */
  lemma {:induction false} InsertAt(rs: seq<SimilarityResult>, x: SimilarityResult, j: nat)
    requires SortedDesc(rs)
    requires j <= |rs|
    requires j == 0 || rs[j - 1].similarity >= x.similarity
    requires forall k :: j <= k < |rs| ==> rs[k].similarity < x.similarity
    ensures Insert(rs, x) == rs[..j] + [x] + rs[j..]
  {
    if j > 0 {
      var tail := rs[1..];
      assert rs[0].similarity >= x.similarity;
      assert Insert(rs, x) == [rs[0]] + Insert(tail, x);
      InsertAt(tail, x, j - 1);
      assert tail[..j - 1] == rs[1..j];
      assert tail[j - 1..] == rs[j..];
      assert rs[..j] == [rs[0]] + rs[1..j];
    } else if rs != [] {
      assert rs[..0] == [] && rs[0..] == rs;
    }
  }

  /**
   * The in-place sort of a results list: insertion sort, which is stable,
   * proved to leave the array holding `SortDesc` of its old contents.
   */
  method SortInPlace(a: array<SimilarityResult>)
    modifies a
    ensures a[..] == SortDesc(old(a[..]))
  {
    ghost var s := a[..];
    var i := 0;
    while i < a.Length
      invariant 0 <= i <= a.Length
      invariant a[..i] == SortDesc(s[..i])
      invariant forall k :: i <= k < a.Length ==> a[k] == s[k]
    {
      SortDescSorted(s[..i]);
      InsertInPlace(a, i);
      assert s[..i + 1][..i] == s[..i];
      i := i + 1;
    }
    assert s[..a.Length] == s;
  }

  /** One pass of the insertion sort: `a[i]` moves left past the results that score less. */
  method InsertInPlace(a: array<SimilarityResult>, i: nat)
    requires i < a.Length
    requires SortedDesc(a[..i])
    modifies a
    ensures a[..i + 1] == Insert(old(a[..i]), old(a[i]))
    ensures forall k :: i < k < a.Length ==> a[k] == old(a[k])
  {
    var x := a[i];
    ghost var t := a[..i];
    var j := i;
    while j > 0 && a[j - 1].similarity < x.similarity
      invariant 0 <= j <= i
      invariant forall k :: 0 <= k < j ==> a[k] == t[k]
      invariant forall k :: j < k <= i ==> a[k] == t[k - 1]
      invariant forall k :: i < k < a.Length ==> a[k] == old(a[k])
      invariant forall k :: j <= k < i ==> t[k].similarity < x.similarity
    {
      a[j] := a[j - 1];
      j := j - 1;
    }
    a[j] := x;
    Shifted(t, x, j, a[..i + 1]);
  }

  /** The array after a pass: `t` with `x` placed at `j` and the results from `j` on moved one step right. */
  lemma Shifted(t: seq<SimilarityResult>, x: SimilarityResult, j: nat, b: seq<SimilarityResult>)
    requires SortedDesc(t)
    requires j <= |t| && |b| == |t| + 1
    requires j == 0 || t[j - 1].similarity >= x.similarity
    requires forall k :: j <= k < |t| ==> t[k].similarity < x.similarity
    requires forall k :: 0 <= k < j ==> b[k] == t[k]
    requires b[j] == x
    requires forall k :: j < k <= |t| ==> b[k] == t[k - 1]
    ensures b == Insert(t, x)
  {
    InsertAt(t, x, j);
    assert b == t[..j] + [x] + t[j..];
  }

  /** No vector appears in two results. */
  ghost predicate DistinctVectors(rs: seq<SimilarityResult>)
  {
    forall i, j :: 0 <= i < j < |rs| ==> rs[i].vector != rs[j].vector
  }

  lemma {:induction false} InsertDistinct(rs: seq<SimilarityResult>, x: SimilarityResult)
    requires DistinctVectors(rs)
    requires forall y :: y in rs ==> y.vector != x.vector
    ensures DistinctVectors(Insert(rs, x))
  {
    if rs != [] && rs[0].similarity >= x.similarity {
      var tail := rs[1..];
      assert forall i :: 0 <= i < |tail| ==> tail[i] == rs[i + 1];
      InsertDistinct(tail, x);
      InsertAvoids(tail, x, rs[0].vector);
      assert Insert(rs, x) == [rs[0]] + Insert(tail, x);
    }
  }

  /** Inserting a result of another vector into results that avoid a vector keeps avoiding it. */
  lemma {:induction false} InsertAvoids(rs: seq<SimilarityResult>, x: SimilarityResult, v: Vector)
    requires forall i :: 0 <= i < |rs| ==> rs[i].vector != v
    requires x.vector != v
    ensures forall j :: 0 <= j < |Insert(rs, x)| ==> Insert(rs, x)[j].vector != v
  {
    if rs != [] && rs[0].similarity >= x.similarity {
      var rest := rs[1..];
      assert forall i :: 0 <= i < |rest| ==> rest[i] == rs[i + 1];
      InsertAvoids(rest, x, v);
      assert Insert(rs, x) == [rs[0]] + Insert(rest, x);
    }
  }

  /** The sort never puts one vector in two places: distinct vectors stay distinct. */
  lemma {:induction false} SortDescDistinct(rs: seq<SimilarityResult>)
    requires DistinctVectors(rs)
    ensures DistinctVectors(SortDesc(rs))
  {
    if rs != [] {
      var init := rs[..|rs| - 1];
      var last := rs[|rs| - 1];
      SortDescDistinct(init);
      SortDescPermutes(init);
      forall y | y in SortDesc(init) ensures y.vector != last.vector {
        assert y in multiset(SortDesc(init));
        var k :| 0 <= k < |init| && init[k] == y;
      }
      InsertDistinct(SortDesc(init), last);
    }
  }

  // ------------------------------------------------- filtering and limits

  /** The results whose similarity reaches `min`, in order. */
  function AtLeast(rs: seq<SimilarityResult>, min: real): (r: seq<SimilarityResult>)
    ensures forall i :: 0 <= i < |r| ==> r[i].similarity >= min
    ensures |r| <= |rs|
  {
    if rs == [] then []
    else (if rs[0].similarity >= min then [rs[0]] else []) + AtLeast(rs[1..], min)
  }

  /** The filter keeps exactly the results that reach `min`. */
  lemma {:induction false} AtLeastMembers(rs: seq<SimilarityResult>, min: real)
    ensures forall x :: x in AtLeast(rs, min) <==> x in rs && x.similarity >= min
  {
    if rs != [] {
      AtLeastMembers(rs[1..], min);
      assert rs == [rs[0]] + rs[1..];
    }
  }

  lemma SortedTail(rs: seq<SimilarityResult>)
    requires SortedDesc(rs) && rs != []
    ensures SortedDesc(rs[1..])
  {
    var tail := rs[1..];
    forall i, j | 0 <= i < j < |tail| ensures tail[i].similarity >= tail[j].similarity {
      assert tail[i] == rs[i + 1] && tail[j] == rs[j + 1];
    }
  }

  lemma {:induction false} AtLeastNone(rs: seq<SimilarityResult>, min: real)
    requires forall k :: 0 <= k < |rs| ==> rs[k].similarity < min
    ensures AtLeast(rs, min) == []
  {
    if rs != [] {
      AtLeastNone(rs[1..], min);
    }
  }

  /** On sorted results the threshold keeps a prefix: the kept results are the leading ones. */
  lemma {:induction false} AtLeastIsPrefix(rs: seq<SimilarityResult>, min: real)
    requires SortedDesc(rs)
    ensures AtLeast(rs, min) == rs[..|AtLeast(rs, min)|]
    ensures |AtLeast(rs, min)| < |rs| ==> rs[|AtLeast(rs, min)|].similarity < min
  {
    if rs != [] {
      var tail := rs[1..];
      if rs[0].similarity < min {
        forall k | 0 <= k < |rs| ensures rs[k].similarity < min {
          assert rs[0].similarity >= rs[k].similarity;
        }
        AtLeastNone(rs, min);
      } else {
        SortedTail(rs);
        AtLeastIsPrefix(tail, min);
        var kept := AtLeast(tail, min);
        var n := |kept|;
        assert AtLeast(rs, min) == [rs[0]] + kept;
        assert rs[..n + 1] == [rs[0]] + tail[..n];
        assert n + 1 < |rs| ==> rs[n + 1] == tail[n];
      }
    }
  }

  /** On sorted results the threshold keeps exactly a prefix, so order is kept. */
  lemma AtLeastPrefix(rs: seq<SimilarityResult>, min: real)
    requires SortedDesc(rs)
    ensures AtLeast(rs, min) == rs[..|AtLeast(rs, min)|]
    ensures forall k :: |AtLeast(rs, min)| <= k < |rs| ==> rs[k].similarity < min
  {
    AtLeastIsPrefix(rs, min);
    var n := |AtLeast(rs, min)|;
    forall k | n <= k < |rs| ensures rs[k].similarity < min {
      assert rs[n].similarity >= rs[k].similarity;
    }
  }

  /** `Stream.limit(n)` and `subList(0, min(n, size))`: the first `n` results, or all of them. */
  function Take(rs: seq<SimilarityResult>, n: nat): (r: seq<SimilarityResult>)
    ensures |r| == if n < |rs| then n else |rs|
    ensures r == rs[..|r|]
  {
    if n < |rs| then rs[..n] else rs
  }
}
