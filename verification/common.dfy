/** Shared vocabulary: optional values, results, the storage layer's errors,
    and the "first match" search that both services use for their lookups. */
module Common {

  /** An optional column or payload field (`null`/`undefined` in the source). */
  datatype Option<+T> = None | Some(value: T)

  /** The outcome of an operation: a value, or the error it throws. */
  datatype Result<+T, +E> = Ok(value: T) | Err(error: E)

  /** An error raised by the storage client. A known request error carries the
      client's error code; anything else is opaque. */
  datatype StorageError = KnownRequestError(code: string) | OtherError(name: string)

  /** The storage client's code for a unique-constraint violation. */
  const UniqueViolation: string := "P2002"

  /** The index of the first element satisfying `p`, if any. This is what a
      `findFirst` query returns when the table is read in storage order. */
  function FirstIndex<T>(s: seq<T>, p: T -> bool): (r: Option<nat>)
    ensures r.Some? ==> r.value < |s| && p(s[r.value])
    ensures r.Some? ==> forall j :: 0 <= j < r.value ==> !p(s[j])
    ensures r.None? <==> forall j :: 0 <= j < |s| ==> !p(s[j])
  {
    if s == [] then None
    else if p(s[0]) then Some(0)
    else
      match FirstIndex(s[1..], p)
      case None => None
      case Some(k) => Some(k + 1)
  }
}
