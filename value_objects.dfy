/**
 * The two validated value objects of the domain: a vector identifier, which
 * must not be blank, and a vector's coordinates, which must not be empty.
 * Both are subset types, so every value of them that exists is valid, as
 * every constructed Java record is.
 */
module ValueObjects {
  import opened Wrappers
  import opened JavaStrings

  datatype RawVectorId = RawVectorId(value: string)

  /** `trim()` leaves something: some character of the text is above U+0020. */
  predicate NonBlank(s: string)
  {
    |s| > 0 && (s[0] > ' ' || exists i :: 0 < i < |s| && s[i] > ' ')
  }

  lemma NonBlankIff(s: string)
    ensures NonBlank(s) <==> !IsBlank(s)
  {
    BlankIff(s);
  }

  /** An identifier whose text is not blank; the text is kept as given, untrimmed. */
  type VectorId = r: RawVectorId | NonBlank(r.value) witness RawVectorId("v")

  /**
   * The record's compact constructor (and the `of` factory, which only
   * forwards to it): null and blank texts are refused, any other text is
   * kept unchanged, surrounding spaces included.
   */
  function NewVectorId(value: Option<string>): (r: Result<VectorId>)
    ensures value.None? ==> r == Err(IllegalArgument("Vector ID cannot be null"))
    ensures value.Some? && IsBlank(value.value) ==> r == Err(IllegalArgument("Vector ID cannot be empty"))
    ensures r.Ok? <==> value.Some? && exists i :: 0 <= i < |value.value| && value.value[i] > ' '
    ensures r.Ok? ==> r.value.value == value.value
  {
    match value
    case None => Err(IllegalArgument("Vector ID cannot be null"))
    case Some(s) =>
      BlankIff(s);
      NonBlankIff(s);
      if IsBlank(s) then Err(IllegalArgument("Vector ID cannot be empty"))
      else Ok(RawVectorId(s))
  }

  datatype RawVectorData = RawVectorData(values: seq<real>)

  /** Coordinates of a vector: at least one value. */
  type VectorData = d: RawVectorData | |d.values| > 0 witness RawVectorData([0.0])

  /**
   * Validation done by the record's constructor on the (copied) contents of
   * the caller's array: null and empty arrays are refused.
   */
  function CheckVectorData(values: Option<seq<real>>): (r: Result<VectorData>)
    ensures values.None? ==> r == Err(IllegalArgument("Vector values cannot be null"))
    ensures values == Some([]) ==> r == Err(IllegalArgument("Vector values cannot be empty"))
    ensures r.Ok? <==> values.Some? && values.value != []
    ensures r.Ok? ==> r.value.values == values.value
  {
    match values
    case None => Err(IllegalArgument("Vector values cannot be null"))
    case Some(vs) =>
      if vs == [] then Err(IllegalArgument("Vector values cannot be empty"))
      else Ok(RawVectorData(vs))
  }

  /**
   * `VectorData.of(values)`: the constructor copies the caller's array, so
   * the stored coordinates are the array's contents at the time of the call
   * and later writes to the array cannot reach them.
   */
  method NewVectorData(values: array?<real>) returns (r: Result<VectorData>)
    ensures values == null ==> r == Err(IllegalArgument("Vector values cannot be null"))
    ensures values != null && values.Length == 0 ==> r == Err(IllegalArgument("Vector values cannot be empty"))
    ensures r.Ok? <==> values != null && values.Length > 0
    ensures r.Ok? ==> values != null && r.value.values == values[..]
  {
    if values == null {
      r := CheckVectorData(None);
    } else {
      var copy := new real[values.Length];
      forall i | 0 <= i < values.Length {
        copy[i] := values[i];
      }
      r := CheckVectorData(Some(copy[..]));
    }
  }

  /** `values()`: a fresh array on every call, holding the stored coordinates. */
  method Values(d: VectorData) returns (a: array<real>)
    ensures fresh(a)
    ensures a[..] == d.values
  {
    a := new real[|d.values|](i requires 0 <= i < |d.values| => d.values[i]);
  }

  /** `dimension()`: the number of coordinates, never zero. */
  function Dimension(d: VectorData): (n: nat)
    ensures n == |d.values| && n >= 1
  {
    |d.values|
  }
}
