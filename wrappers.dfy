/** Option and Result types shared by every module of the model. */
module Wrappers {

  /** A value that may be absent: JavaScript's `undefined`, and also a JSON
      `null`, which the model reads the same way. */
  datatype Option<+T> = None | Some(value: T) {
    function GetOr(default: T): T {
      match this
      case Some(v) => v
      case None => default
    }
  }

  /** One property of `{ ...base, ...patch }`: the patch's value when the
      patch has the property, the base's otherwise. */
  function Spread<T>(base: Option<T>, patch: Option<T>): Option<T> {
    if patch.Some? then patch else base
  }

  /** The outcome of an operation that either returns a value or throws an
      `Error` whose message is `message`. */
  datatype Result<+T> = Ok(value: T) | Err(message: string)
}
