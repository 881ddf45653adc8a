/**
 * Shared vocabulary of the backend model: identifiers, request outcomes and the
 * JavaScript truthiness rules the controllers rely on.
 */
module Common {

  /** A MongoDB ObjectId, compared through its string form as the controllers do. */
  type Id = string

  datatype Option<+T> = None | Some(value: T)

  /**
   * What a handler answers. `Ok` is a 2xx response; the others are the
   * 400, 401, 403, 404 and 500 answers the controllers and middleware send.
   */
  datatype Outcome = Ok | Invalid | Unauthorized | Forbidden | NotFound | ServerError

  /** A value or the non-Ok outcome that replaced it. */
  datatype Result<+T> = Success(value: T) | Failure(error: Outcome)

  /** A request field is truthy in JavaScript when it is present and not the empty string. */
  predicate Truthy(field: Option<string>)
  {
    field.Some? && field.value != ""
  }

  /** `field || fallback`, the merge idiom of the update handlers. */
  function OrElse(field: Option<string>, fallback: string): (r: string)
    ensures Truthy(field) ==> r == field.value
    ensures !Truthy(field) ==> r == fallback
  {
    if Truthy(field) then field.value else fallback
  }

  function Min(a: int, b: int): int
  {
    if a <= b then a else b
  }

  function Max(a: int, b: int): int
  {
    if a <= b then b else a
  }
}
