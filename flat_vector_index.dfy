/**
 * The in-memory index: a mutable map from identifier text to vector. The
 * contracts of the index interface are stated on this, its only
 * implementation.
 */
module FlatIndex {
  import opened Wrappers
  import opened Entities

  const NullVector: string := "Vector cannot be null"
  const NullId: string := "Vector ID cannot be null"
  const NullOtherIndex: string := "Other index cannot be null"

  /** Every vector is filed under its own identifier text. */
  ghost predicate KeyedById(m: map<string, Vector>)
  {
    forall k :: k in m ==> m[k].IdValue() == k
  }

  /** The ids of a list of vectors, in order. */
  function IdsOf(list: seq<Vector>): (ids: seq<string>)
    ensures |ids| == |list|
    ensures forall i :: 0 <= i < |list| ==> ids[i] == list[i].IdValue()
  {
    if list == [] then [] else [list[0].IdValue()] + IdsOf(list[1..])
  }

  /** No identifier appears twice in the list. */
  ghost predicate DistinctIds(list: seq<Vector>)
  {
    forall i, j :: 0 <= i < j < |list| ==> list[i].IdValue() != list[j].IdValue()
  }

  /** The map obtained by adding the vectors of a list one after the other. */
  function Indexed(list: seq<Vector>): (m: map<string, Vector>)
    ensures forall i :: 0 <= i < |list| ==> list[i].IdValue() in m
    ensures forall k :: k in m ==> exists i :: 0 <= i < |list| && list[i].IdValue() == k
    ensures KeyedById(m)
  {
    if list == [] then map[]
    else
      var init := list[..|list| - 1];
      var last := list[|list| - 1];
      assert forall i :: 0 <= i < |list| - 1 ==> init[i] == list[i];
      Indexed(init)[last.IdValue() := last]
  }

  /**
   * A list that holds every vector of a keyed map exactly once rebuilds
   * that map when its vectors are added one after the other.
   */
  lemma {:induction false} IndexedList(list: seq<Vector>)
    requires DistinctIds(list)
    ensures forall i :: 0 <= i < |list| ==> Indexed(list)[list[i].IdValue()] == list[i]
  {
    if list != [] {
      var init := list[..|list| - 1];
      IndexedList(init);
      forall i | 0 <= i < |list| - 1
        ensures Indexed(list)[list[i].IdValue()] == list[i]
      {
        assert init[i] == list[i];
      }
    }
  }

  /** A list listing the vectors of `m`, one per identifier. */
  ghost predicate Lists(list: seq<Vector>, m: map<string, Vector>)
  {
    && |list| == |m|
    && DistinctIds(list)
    && (forall i :: 0 <= i < |list| ==> list[i].IdValue() in m && m[list[i].IdValue()] == list[i])
    && (forall k :: k in m ==> exists i :: 0 <= i < |list| && list[i] == m[k])
  }

  /** The loop of `all()` part way: `list` holds the vectors whose identifiers have left `remaining`. */
  ghost predicate ListedSoFar(m: map<string, Vector>, list: seq<Vector>, remaining: set<string>)
  {
    && KeyedById(m)
    && remaining <= m.Keys
    && |list| + |remaining| == |m|
    && (forall i :: 0 <= i < |list| ==> list[i].IdValue() in m && list[i].IdValue() !in remaining && m[list[i].IdValue()] == list[i])
    && (forall k :: k in m && k !in remaining ==> k in IdsOf(list))
    && DistinctIds(list)
  }

  lemma ListedStep(m: map<string, Vector>, list: seq<Vector>, remaining: set<string>, k: string)
    requires ListedSoFar(m, list, remaining)
    requires k in remaining
    ensures ListedSoFar(m, list + [m[k]], remaining - {k})
  {
    var next := list + [m[k]];
    assert IdsOf(next) == IdsOf(list) + [k];
  }

  lemma ListedAll(m: map<string, Vector>, list: seq<Vector>)
    requires ListedSoFar(m, list, {})
    ensures Lists(list, m)
  {
    forall k | k in m ensures exists i :: 0 <= i < |list| && list[i] == m[k] {
      var ids := IdsOf(list);
      var i :| 0 <= i < |ids| && ids[i] == k;
      assert list[i] == m[k];
    }
  }

  lemma ListsIndexed(list: seq<Vector>, m: map<string, Vector>)
    requires KeyedById(m)
    requires Lists(list, m)
    ensures Indexed(list) == m
  {
    IndexedList(list);
    var ix := Indexed(list);
    forall k | k in m ensures k in ix && ix[k] == m[k] {
      var i :| 0 <= i < |list| && list[i] == m[k];
      assert list[i].IdValue() == k;
    }
    forall k | k in ix ensures k in m {
      var i :| 0 <= i < |list| && list[i].IdValue() == k;
    }
  }

  lemma UpdateUnion(a: map<string, Vector>, b: map<string, Vector>, k: string, v: Vector)
    ensures (a + b)[k := v] == a + b[k := v]
  {
  }

  /** Adding one more vector of the list extends the map by that vector. */
  lemma IndexedStep(list: seq<Vector>, i: nat)
    requires i < |list|
    ensures Indexed(list[..i + 1]) == Indexed(list[..i])[list[i].IdValue() := list[i]]
  {
    var p := list[..i + 1];
    assert p[..|p| - 1] == list[..i];
  }

  class FlatVectorIndex {
    var vectors: map<string, Vector>

    ghost predicate Valid()
      reads this
    {
      KeyedById(vectors)
    }

    constructor()
      ensures vectors == map[]
      ensures Valid()
    {
      vectors := map[];
    }

    /**
     * `add(vector)`: a missing vector is refused and nothing changes;
     * otherwise the vector is filed under its identifier, replacing any
     * vector already filed there, so the size grows only for a new one.
     */
    method Add(vector: Option<Vector>) returns (outcome: Outcome)
      requires Valid()
      modifies this
      ensures Valid()
      ensures vector.None? ==> outcome == Fail(IllegalArgument(NullVector)) && vectors == old(vectors)
      ensures vector.Some? ==> outcome == Pass && vectors == old(vectors)[vector.value.IdValue() := vector.value]
      ensures vector.Some? ==> |vectors| == |old(vectors)| + (if vector.value.IdValue() in old(vectors) then 0 else 1)
    {
      if vector.None? {
        return Fail(IllegalArgument(NullVector));
      }
      vectors := vectors[vector.value.IdValue() := vector.value];
      outcome := Pass;
    }

    /** `get(id)`: the vector filed under `id`, None when there is none. */
    function Get(id: Option<string>): (r: Result<Option<Vector>>)
      reads this
      requires Valid()
      ensures id.None? ==> r == Err(IllegalArgument(NullId))
      ensures id.Some? ==> r.Ok? && (r.value.Some? <==> id.value in vectors)
      ensures id.Some? && r.value.Some? ==> r.value.value == vectors[id.value] && r.value.value.IdValue() == id.value
    {
      match id
      case None => Err(IllegalArgument(NullId))
      case Some(k) => Ok(if k in vectors then Some(vectors[k]) else None)
    }

    /**
     * `all()`: a new list holding every stored vector exactly once, in the
     * map's iteration order, which is left unspecified.
     */
    method All() returns (list: seq<Vector>)
      requires Valid()
      ensures Lists(list, vectors)
    {
      var m := vectors;
      list := [];
      var remaining := m.Keys;
      while remaining != {}
        invariant ListedSoFar(m, list, remaining)
        decreases |remaining|
      {
        var k :| k in remaining;
        ListedStep(m, list, remaining, k);
        list := list + [m[k]];
        remaining := remaining - {k};
      }
      ListedAll(m, list);
    }

    /** `size()` */
    function Size(): (n: nat)
      reads this
      ensures n == |vectors|
    {
      |vectors|
    }

    /** `contains(id)`: whether a vector is filed under `id`. */
    function Contains(id: Option<string>): (r: Result<bool>)
      reads this
      ensures id.None? ==> r == Err(IllegalArgument(NullId))
      ensures id.Some? ==> r.Ok? && (r.value <==> id.value in vectors)
    {
      match id
      case None => Err(IllegalArgument(NullId))
      case Some(k) => Ok(k in vectors)
    }

    /**
     * `remove(id)`: the vector that was filed under `id`, or None; only that
     * entry disappears.
     */
    method Remove(id: Option<string>) returns (r: Result<Option<Vector>>)
      requires Valid()
      modifies this
      ensures Valid()
      ensures id.None? ==> r == Err(IllegalArgument(NullId)) && vectors == old(vectors)
      ensures id.Some? ==> vectors == old(vectors) - {id.value}
      ensures id.Some? ==> r.Ok? && (r.value.Some? <==> id.value in old(vectors))
      ensures id.Some? && r.value.Some? ==> r.value.value == old(vectors)[id.value]
    {
      if id.None? {
        return Err(IllegalArgument(NullId));
      }
      var k := id.value;
      if k in vectors {
        r := Ok(Some(vectors[k]));
      } else {
        r := Ok(None);
      }
      vectors := vectors - {k};
    }

    /** `clear()`: afterwards nothing is stored. */
    method Clear()
      modifies this
      ensures Valid()
      ensures vectors == map[]
    {
      vectors := map[];
    }

    /** `getAllIds()`: the set of stored identifiers. */
    function AllIds(): (ids: set<string>)
      reads this
      ensures ids == vectors.Keys
    {
      vectors.Keys
    }

    /**
     * `addAll(other)`: every vector of `other` is added in turn, so the
     * result is this index overridden by `other`. The list of `other` is
     * taken before the first addition, so adding an index to itself changes
     * nothing.
     */
    method AddAll(other: FlatVectorIndex?) returns (outcome: Outcome)
      requires Valid()
      requires other != null ==> other.Valid()
      modifies this
      ensures Valid()
      ensures other == null ==> outcome == Fail(IllegalArgument(NullOtherIndex)) && vectors == old(vectors)
      ensures other != null ==> outcome == Pass && vectors == old(vectors) + old(other.vectors)
    {
      if other == null {
        return Fail(IllegalArgument(NullOtherIndex));
      }
      var list := other.All();
      ListsIndexed(list, other.vectors);
      AddEach(list);
      outcome := Pass;
    }

    /** The loop of `addAll`: adds the vectors of `list` one after the other. */
    method AddEach(list: seq<Vector>)
      requires Valid()
      modifies this
      ensures Valid()
      ensures vectors == old(vectors) + Indexed(list)
    {
      var i := 0;
      while i < |list|
        invariant 0 <= i <= |list|
        invariant Valid()
        invariant vectors == old(vectors) + Indexed(list[..i])
      {
        IndexedStep(list, i);
        UpdateUnion(old(vectors), Indexed(list[..i]), list[i].IdValue(), list[i]);
        var _ := Add(Some(list[i]));
        i := i + 1;
      }
      assert list[..|list|] == list;
    }

    /** `copy()`: a new, separate index with the same entries. */
    method Copy() returns (c: FlatVectorIndex)
      requires Valid()
      ensures fresh(c)
      ensures c.Valid() && c.vectors == vectors
    {
      c := new FlatVectorIndex();
      c.vectors := vectors;
    }

    /** `equals(other)`: same identifiers filed to the same vectors. */
    predicate Equals(other: FlatVectorIndex?)
      reads this, other
    {
      other != null && vectors == other.vectors
    }
  }
}
