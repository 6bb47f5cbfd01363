/** The optional value used for lookups that may find nothing. */
module Wrappers {

  datatype Option<+T> = None | Some(value: T)

  /** The elements of an optional value, as a sequence of length 0 or 1. */
  function ToSeq<T>(o: Option<T>): (s: seq<T>)
    ensures |s| <= 1
    ensures o.Some? <==> |s| == 1
    ensures o.Some? ==> s[0] == o.value
  {
    match o
    case None => []
    case Some(v) => [v]
  }
}
