/** The optional value used wherever the source has `null` or `undefined`,
    and the outcome of an awaited request. */
module Wrappers {

  datatype Option<+T> = None | Some(value: T) {

    /** The value, or `default` when there is none (JavaScript's `x ?? default`). */
    function GetOr(default: T): T {
      match this
      case Some(v) => v
      case None => default
    }
  }

  /** JavaScript truthiness of an optional string: present and non-empty. */
  predicate Truthy(s: Option<string>) {
    s.Some? && s.value != []
  }

  /** How an awaited content request ended: with its `data`, or by throwing. */
  datatype FetchOutcome<T> = Fetched(data: T) | Failed
}
