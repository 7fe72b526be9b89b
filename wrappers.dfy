/** Optional values and the uniform response envelope every handler produces. */
module Wrappers {

  datatype Option<+T> = None | Some(value: T) {
    function GetOr(default: T): T {
      match this
      case Some(v) => v
      case None => default
    }
  }

  /** `{statusCode, message, data}` on success, `{statusCode, message}` on failure. */
  datatype ApiResult<+T> =
    | Ok(status: nat, message: string, data: T)
    | Err(status: nat, message: string)

  /** Status of an error that reaches the global error handler without a status of its own
      (a schema validation failure, a thrown reference error). */
  const SERVER_ERROR: nat := 500

  /** A text field as JavaScript's `!x` sees it: absent and "" are both falsy. */
  predicate Given(s: string) { s != "" }

  /** A `findOneAndUpdate` payload field: an absent key leaves the stored value alone. */
  function Patch<T>(current: T, update: Option<T>): (r: T)
    ensures update.Some? ==> r == update.value
    ensures update.None? ==> r == current
  {
    update.GetOr(current)
  }

  /** The same for a field whose stored value may be null: an absent key keeps it as it is. */
  function PatchNullable<T>(current: Option<T>, update: Option<T>): (r: Option<T>)
    ensures update.Some? ==> r == update
    ensures update.None? ==> r == current
  {
    if update.Some? then update else current
  }
}
