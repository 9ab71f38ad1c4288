/** Option and Result, used wherever the source returns `nullptr` or throws. */
module Wrappers {

  datatype Option<+T> = None | Some(value: T)

  datatype Result<+T, +E> = Ok(value: T) | Err(error: E)

  /** The entries of a sequence of options that are present, in order. */
  function Present<T>(s: seq<Option<T>>): (r: seq<T>)
    requires forall k :: 0 <= k < |s| ==> s[k].Some?
    ensures |r| == |s|
    ensures forall k :: 0 <= k < |s| ==> r[k] == s[k].value
  {
    if s == [] then [] else [s[0].value] + Present(s[1..])
  }
}
