/** Small failure-carrying datatypes shared by every module of the model. */
module Base {

  /** A value that may be absent: a missing field, `null`, or a number that
      did not parse (JavaScript's `NaN`). */
  datatype Option<+T> = None | Some(value: T) {

    /** The value, or `default` when absent. */
    function GetOr(default: T): T {
      match this
      case Some(v) => v
      case None => default
    }
  }

  /** The outcome of a handler: the record it builds, or the first error it
      reports to the user. */
  datatype Result<+R, +E> = Success(value: R) | Failure(error: E)

  /** The answer of a backend query the handler awaits: either the rows it
      returned or an error (which the handlers turn into a generic failure). */
  datatype Lookup<+T> = LookupFailed | Rows(rows: seq<T>)

  /** No element occurs twice. */
  ghost predicate Distinct<T>(s: seq<T>) {
    forall i, j :: 0 <= i < j < |s| ==> s[i] != s[j]
  }

  /** The subsequence of `s` whose elements satisfy `keep`, in order. */
  function Filter<T>(s: seq<T>, keep: T -> bool): (r: seq<T>)
    ensures |r| <= |s|
    ensures forall x :: x in r ==> x in s && keep(x)
    ensures forall x :: x in s && keep(x) ==> x in r
  {
    if |s| == 0 then []
    else (if keep(s[0]) then [s[0]] else []) + Filter(s[1..], keep)
  }

  lemma FilterAppend<T>(a: seq<T>, b: seq<T>, keep: T -> bool)
    ensures Filter(a + b, keep) == Filter(a, keep) + Filter(b, keep)
  {
    if |a| == 0 {
      assert a + b == b;
    } else {
      assert (a + b)[1..] == a[1..] + b;
      FilterAppend(a[1..], b, keep);
    }
  }
}
