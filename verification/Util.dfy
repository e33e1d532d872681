/** Small datatypes shared by every module: a nullable database column and the outcome of a
    call that may raise. */
module Util {

  datatype Option<+T> = None | Some(value: T)

  datatype Result<+T, +E> = Ok(value: T) | Err(error: E) {
    predicate IsFailure() {
      Err?
    }

    function PropagateFailure<U>(): Result<U, E>
      requires Err?
    {
      Err(error)
    }

    function Extract(): T
      requires Ok?
    {
      value
    }
  }

  /** The indices below `n` accepted by `keep`, in ascending order: the shape of a query
      ordered by primary key. */
  function Select(n: nat, keep: nat -> bool): (ids: seq<nat>)
    ensures forall i: nat :: i in ids <==> i < n && keep(i)
    ensures forall j, k :: 0 <= j < k < |ids| ==> ids[j] < ids[k]
  {
    if n == 0 then []
    else
      var below := Select(n - 1, keep);
      if keep(n - 1) then
        assert forall k :: 0 <= k < |below| ==> below[k] in below;
        below + [n - 1]
      else below
  }
}
