/** Optional values: a configuration slot that may be unset, a record that may not be complete yet. */
module Wrappers {

  datatype Option<+T> = None | Some(value: T)

  /** The records an optional emission contributes to an output stream: zero or one. */
  function Emitted<T>(out: Option<T>): (r: seq<T>)
    ensures |r| <= 1
    ensures out.Some? <==> |r| == 1
    ensures out.Some? ==> r[0] == out.value
  {
    match out
    case Some(v) => [v]
    case None => []
  }
}
