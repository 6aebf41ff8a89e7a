module Wrappers {
  datatype Option<+T> = None | Some(value: T) {
    function GetOr(default: T): T {
      match this
      case Some(v) => v
      case None => default
    }
  }

  datatype Result<+T> = Success(value: T) | Failure(error: string)

  /** JavaScript truthiness of a string that may be `null`: present and non-empty. */
  predicate Truthy(o: Option<string>) {
    o.Some? && o.value != []
  }
}
