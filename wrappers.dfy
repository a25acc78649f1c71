/** Optional values: JavaScript's `undefined` wherever the server tests for it. */
module Wrappers {

  datatype Option<+T> = None | Some(value: T)

  /** The elements of an optional value, as a sequence of length zero or one. */
  function ToSeq<T>(o: Option<T>): seq<T>
  {
    match o
    case Some(v) => [v]
    case None => []
  }
}
