/** Optional values. `None` stands for JavaScript's `null`/`undefined` on
    record fields and for `NaN` on parsed numbers. */
module Wrappers {

  datatype Option<+T> = None | Some(value: T) {

    /** The value, or `default` when absent: JavaScript's `value ?? default`. */
    function GetOr(default: T): T {
      match this
      case Some(v) => v
      case None => default
    }
  }

  /** The values that are present and satisfy `keep`, in order
      (`values.filter(Boolean)` for a suitable `keep`). */
  function PresentWhere<T>(values: seq<Option<T>>, keep: T -> bool): (r: seq<T>)
    ensures |r| <= |values|
    ensures forall i :: 0 <= i < |r| ==> keep(r[i]) && Some(r[i]) in values
    ensures forall i :: 0 <= i < |values| && values[i].Some? && keep(values[i].value) ==> values[i].value in r
    ensures values != [] && values[0].Some? && keep(values[0].value) ==> |r| > 0 && r[0] == values[0].value
  {
    if values == [] then []
    else
      var rest := PresentWhere(values[1..], keep);
      assert forall i :: 0 <= i < |rest| ==> Some(rest[i]) in values;
      assert forall i :: 1 <= i < |values| ==> values[i] == values[1..][i - 1];
      if values[0].Some? && keep(values[0].value) then [values[0].value] + rest else rest
  }
}
