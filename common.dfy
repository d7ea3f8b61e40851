/** Small value wrappers shared by every module of the model. */
module Common {

  /** A value that may be absent: Redis replies `nil` and Python `None`. */
  datatype Option<T> = None | Some(value: T) {
    function GetOr(default: T): T {
      match this
      case Some(v) => v
      case None => default
    }
  }

  function Min(a: int, b: int): int { if a <= b then a else b }
  function Max(a: int, b: int): int { if a <= b then b else a }
}
