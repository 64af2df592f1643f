/** Outcome kinds shared by every controller action. The HTTP layer maps `Ok` to 200/201,
    `NotFound` to 404 and `Rejected` to 400 or 500; the reason keeps the kinds apart. */
module Common {

  datatype Option<+T> = None | Some(value: T) {
    function GetOr(default: T): T {
      match this
      case Some(v) => v
      case None => default
    }
  }

  /** Why a request was refused after the looked-up rows were found. */
  datatype Reason =
    | OrderCompleted   // the stored order is already 'terminée'
    | InvalidField     // a model validator or a NOT NULL constraint failed
    | DuplicateKey     // a unique or primary-key constraint failed

  datatype Result<+T> = Ok(value: T) | NotFound | Rejected(reason: Reason)

  /** JavaScript truthiness of an optional string: absent or "" is falsy. */
  predicate Truthy(s: Option<string>) {
    s.Some? && s.value != ""
  }

  /** The `a || b` idiom of the controllers on optional strings. */
  function OrElse(s: Option<string>, fallback: string): (r: string)
    ensures Truthy(s) ==> r == s.value
    ensures !Truthy(s) ==> r == fallback
  {
    if Truthy(s) then s.value else fallback
  }
}
