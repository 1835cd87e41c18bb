/** Failure-carrying wrappers shared by every module of the model. */
module Wrappers {

  /** A value that may be absent: a missing JSON field, a SQL NULL, a Python `None`. */
  datatype Option<+T> = None | Some(value: T)

  /** The outcome of an operation that the source can abort with an error. */
  datatype Result<+T, +E> = Ok(value: T) | Err(error: E)

  /** The one-element sequence of a present value, the empty one otherwise. */
  function ToSeq<T>(o: Option<T>): (s: seq<T>)
    ensures |s| <= 1
    ensures o.Some? <==> |s| == 1
    ensures o.Some? ==> s[0] == o.value
  {
    match o
    case Some(v) => [v]
    case None => []
  }
}
