/** Optional values, for the source's `None`, error returns, for its exceptions, and the ends a
    send can have. */
module Options {
  datatype Option<+T> = None | Some(value: T) {
    function GetOr(default: T): T {
      if Some? then value else default
    }
  }

  datatype Result<+T, +E> = Ok(value: T) | Err(error: E)

  /** How a send ends for its sender: acknowledged, lost, or raised after arriving. */
  datatype Sending = Acked | Lost | Ambiguous
}
