/** The optional value used wherever the scripts test a value for null,
    undefined or absence. */
module Wrappers {

  datatype Option<+T> = None | Some(value: T)

  /** The values of an option as a sequence of zero or one element. */
  function ToSeq<T>(o: Option<T>): (s: seq<T>)
    ensures |s| <= 1
    ensures o.Some? <==> |s| == 1
    ensures o.Some? ==> s[0] == o.value
  {
    match o
    case None => []
    case Some(v) => [v]
  }
}
