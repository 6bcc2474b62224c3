/** Option, Result and Either, the three sum types the Rust code builds on. */
module Wrappers {

  datatype Option<+T> = None | Some(value: T)

  /** A fallible result; `:-` propagates the first failure, like Rust's `?`. */
  datatype Result<+T, +E> = Ok(value: T) | Err(error: E) {
    predicate IsFailure() {
      Err?
    }

    function PropagateFailure<U>(): Result<U, E>
      requires Err?
    {
      Err(error)
    }

    function Extract(): T
      requires Ok?
    {
      value
    }
  }

  /** `either::Either`: a decoded entry (Left) or a bare key (Right). */
  datatype Either<+L, +R> = Left(left: L) | Right(right: R)

  /**
   * `collect::<Result<Vec<_>, _>>()`: every value in order when all are `Ok`,
   * otherwise the first error (collection stops there).
   */
  function CollectResults<T, E>(rs: seq<Result<T, E>>): (r: Result<seq<T>, E>)
    ensures r.Ok? <==> forall i :: 0 <= i < |rs| ==> rs[i].Ok?
    ensures r.Ok? ==> |r.value| == |rs| && forall i :: 0 <= i < |rs| ==> rs[i] == Ok(r.value[i])
    ensures r.Err? ==> exists i :: 0 <= i < |rs| && rs[i] == Err(r.error) && forall j :: 0 <= j < i ==> rs[j].Ok?
  {
    if rs == [] then Ok([])
    else if rs[0].Err? then Err(rs[0].error)
    else
      var rest := CollectResults(rs[1..]);
      if rest.Err? then
        assert exists i :: 0 <= i < |rs| && rs[i] == Err(rest.error) && forall j :: 0 <= j < i ==> rs[j].Ok? by {
          var i :| 0 <= i < |rs[1..]| && rs[1..][i] == Err(rest.error) && forall j :: 0 <= j < i ==> rs[1..][j].Ok?;
          assert rs[i + 1] == Err(rest.error);
          forall j | 0 <= j < i + 1 ensures rs[j].Ok? {
            if j > 0 {
              assert rs[j] == rs[1..][j - 1];
            }
          }
        }
        Err(rest.error)
      else
        assert forall i :: 1 <= i < |rs| ==> rs[i] == rs[1..][i - 1];
        Ok([rs[0].value] + rest.value)
  }

  /** What collecting the rest gives once `acc` has been collected. */
  function Prepend<T, E>(acc: seq<T>, r: Result<seq<T>, E>): Result<seq<T>, E>
  {
    if r.Ok? then Ok(acc + r.value) else r
  }

  lemma CollectCons<T, E>(x: Result<T, E>, rest: seq<Result<T, E>>)
    ensures CollectResults([x] + rest) == (if x.Err? then Err(x.error) else Prepend([x.value], CollectResults(rest)))
  {
    assert ([x] + rest)[1..] == rest;
  }

  lemma PrependAppend<T, E>(acc: seq<T>, x: T, r: Result<seq<T>, E>)
    ensures Prepend(acc, Prepend([x], r)) == Prepend(acc + [x], r)
  {
    if r.Ok? {
      assert acc + ([x] + r.value) == (acc + [x]) + r.value;
    }
  }
}
