/** Failure-compatible result types shared by every module of the project. */
module Wrappers {

  datatype Option<+T> = None | Some(value: T) {
    function GetOr<S>(f: T -> S, default: S): S {
      match this
      case Some(v) => f(v)
      case None => default
    }
  }

  /** `left or right` on two optional values that are never falsy when present. */
  function Or<T>(left: Option<T>, right: T): T {
    match left
    case Some(v) => v
    case None => right
  }

  function MaxInt(a: int, b: int): int {
    if a < b then b else a
  }
}
