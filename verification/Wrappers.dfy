/** Optional values, for operations that may fail. */
module Wrappers {
  datatype Option<+T> = None | Some(value: T)

  /** n results, or none when one of them is missing. */
  function Collect<T>(n: nat, f: nat -> Option<T>): (r: Option<seq<T>>)
    ensures r.Some? ==> |r.value| == n && forall i :: 0 <= i < n ==> f(i) == Some(r.value[i])
  {
    if n == 0 then Some([])
    else
      match Collect(n - 1, f)
      case None => None
      case Some(v) =>
        match f(n - 1)
        case None => None
        case Some(x) => Some(v + [x])
  }
}
