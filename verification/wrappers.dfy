/** Optional values and replies from collaborators (the persistence service,
    the model backends), used by every other module. */
module Wrappers {

  datatype Option<+T> = None | Some(value: T) {
    function GetOr(default: T): T {
      match this
      case Some(v) => v
      case None => default
    }
  }

  /** The reply of an external service: the data it returned, or the message
      of the error it reported. */
  datatype Reply<+T> = Ok(data: T) | Err(message: string)

  /** The outcome of awaiting a call that may throw: it completed with the
      service's reply, or it threw before replying. */
  datatype Outcome<+T> = Completed(reply: Reply<T>) | Threw
}
