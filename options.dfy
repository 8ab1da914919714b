/** Optional values (a JavaScript field that may be absent, null or
    undefined) and outcomes that may be a thrown error. */
module Options {
  datatype Option<+T> = None | Some(value: T) {
    function GetOr(default: T): T {
      match this
      case Some(v) => v
      case None => default
    }
  }

  /** A value, or the message of the `Error` thrown instead. */
  datatype Result<+T> = Ok(value: T) | Err(message: string)
}
