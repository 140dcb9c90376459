/** Option and Result values standing for the application's `T | null` returns and thrown errors. */
module Common {

  /** `None` is JavaScript's `null`/`undefined`; `Some(v)` is a present value. */
  datatype Option<+T> = None | Some(value: T) {

    /** The value when present, otherwise `default` (the `x ?? default` idiom). */
    function GetOr(default: T): T {
      match this
      case Some(v) => v
      case None => default
    }
  }

  /** `Err(message)` stands for an `Error` thrown with that message. */
  datatype Result<+T> = Ok(value: T) | Err(message: string)

  /** JavaScript truthiness of an optional string: present and not empty. */
  predicate Present(s: Option<string>) {
    s.Some? && s.value != ""
  }
}
