/** Values standing in for JavaScript's `null` / `undefined` and for thrown errors. */
module Outcomes {

  /** A value that may be absent: an optional property, or a lookup that found nothing. */
  datatype Option<+T> = None | Some(value: T) {

    /** The carried value, or `default` when absent. */
    function GetOr(default: T): T {
      match this
      case Some(v) => v
      case None => default
    }
  }

  /** Either a value or the message of the `Error` the source throws. */
  datatype Result<+T> = Success(value: T) | Failure(message: string)

  /** JavaScript truthiness of an optional string: present and not empty. */
  predicate Truthy(o: Option<string>) {
    o.Some? && o.value != ""
  }
}
