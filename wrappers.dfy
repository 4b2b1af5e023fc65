/** Optional values and results with an error message, used wherever the
    Python code returns None or raises an exception. */
module Wrappers {

  datatype Option<T> = None | Some(value: T)
  {
    function GetOr(default: T): T
    {
      match this
      case None => default
      case Some(v) => v
    }
  }

  /** The error kinds the library raises; the message is kept as text. */
  datatype Error =
    | CHJError(msg: string)
    | IndexedTableError(msg: string)
    | KeyError(msg: string)
    | IndexError(msg: string)
    | ValueError(msg: string)
    | RuntimeError(msg: string)
    | Failure(msg: string)        // a bare Exception, or a call on None
    | ApplicationNotFound(msg: string, names: seq<(string, seq<string>)>)

  datatype Result<T> = Ok(value: T) | Err(error: Error)
}
