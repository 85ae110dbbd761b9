/** The vector entity: an identifier together with its coordinates. */
module Entities {
  import opened Wrappers
  import opened JavaStrings
  import opened ValueObjects

  /**
   * An immutable vector. Equality is the datatype's structural equality:
   * same identifier text and same coordinates, element by element.
   */
  datatype Vector = Vector(id: VectorId, data: VectorData) {

    /** `getDimension()`: the length of the coordinates `getValues()` returns. */
    function Dimension(): (n: nat)
      ensures n == |data.values| && n >= 1
    {
      ValueObjects.Dimension(data)
    }

    /** `getValues()`: a fresh copy of the coordinates on every call. */
    method Values() returns (a: array<real>)
      ensures fresh(a)
      ensures a[..] == data.values
      ensures a.Length == Dimension()
    {
      a := ValueObjects.Values(data);
    }

    /** `getIdValue()` */
    function IdValue(): (s: string)
      ensures s == id.value
    {
      id.value
    }
  }

  /**
   * `Vector.of(id, values)` on the contents of the values array: the null
   * checks come first (the identifier before the values), then the
   * identifier's own validation, then the coordinates'.
   */
  function VectorFrom(id: Option<string>, values: Option<seq<real>>): (r: Result<Vector>)
    ensures id.None? ==> r == Err(IllegalArgument("Vector ID cannot be null"))
    ensures id.Some? && values.None? ==> r == Err(IllegalArgument("Vector values cannot be null"))
    ensures id.Some? && values.Some? && IsBlank(id.value) ==> r == Err(IllegalArgument("Vector ID cannot be empty"))
    ensures id.Some? && values == Some([]) && !IsBlank(id.value) ==> r == Err(IllegalArgument("Vector values cannot be empty"))
    ensures r.Ok? <==> id.Some? && values.Some? && !IsBlank(id.value) && values.value != []
    ensures r.Ok? ==> r.value.id.value == id.value && r.value.data.values == values.value
  {
    if id.None? then Err(IllegalArgument("Vector ID cannot be null"))
    else if values.None? then Err(IllegalArgument("Vector values cannot be null"))
    else
      var vid :- NewVectorId(id);
      var vdata :- CheckVectorData(values);
      Ok(Vector(vid, vdata))
  }

  /** A vector is rebuilt from its own identifier text and coordinates. */
  lemma VectorFromParts(v: Vector)
    ensures VectorFrom(Some(v.IdValue()), Some(v.data.values)) == Ok(v)
  {
    NonBlankIff(v.IdValue());
  }

  /** `Vector.of(id, values)` on a Java array, which is copied. */
  method Of(id: Option<string>, values: array?<real>) returns (r: Result<Vector>)
    ensures r == VectorFrom(id, if values == null then None else Some(values[..]))
  {
    if id.None? {
      return Err(IllegalArgument("Vector ID cannot be null"));
    }
    if values == null {
      return Err(IllegalArgument("Vector values cannot be null"));
    }
    var vid := NewVectorId(id);
    if vid.Err? {
      return Err(vid.error);
    }
    var vdata := NewVectorData(values);
    if vdata.Err? {
      return Err(vdata.error);
    }
    r := Ok(Vector(vid.value, vdata.value));
  }
}
