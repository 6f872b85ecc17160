/** The value an operation may or may not have: JavaScript's `undefined`. */
module Options {
  datatype Option<+T> = None | Some(value: T)

  /** The values, all of them present. */
  function Somes<T>(values: seq<T>): (r: seq<Option<T>>)
    ensures |r| == |values| && forall i :: 0 <= i < |values| ==> r[i] == Some(values[i])
  {
    seq(|values|, i requires 0 <= i < |values| => Some(values[i]))
  }
}
