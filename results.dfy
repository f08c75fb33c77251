/** Optional values and error-carrying results, standing in for Go's nil and (value, error) pairs. */
module Results {

  datatype Option<+T> = None | Some(value: T) {
    /** The wrapped value, or `d` when there is none. */
    function GetOr(d: T): T {
      match this
      case Some(v) => v
      case None => d
    }
  }

  datatype Result<+T, +E> = Ok(value: T) | Err(error: E)
}
