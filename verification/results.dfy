/** Failure-compatible result type for the extractor.

Every way a run of the extractor stops early is one of the `Error` cases;
read.py ends the process in each of them, so none is recoverable and the
model simply propagates the first one with `:-`.
 */
module Results {

  /** Why a run aborts. */
  datatype Error =
    | OutOfBounds   // the bounds check fails and the process calls `exit(1)`
    | ZeroDivision  // a float division by zero raises ZeroDivisionError
    | IndexError    // the value array is indexed outside Python's range

  datatype Result<+T> = Ok(value: T) | Err(error: Error) {

    predicate IsFailure() {
      Err?
    }

    function PropagateFailure<U>(): Result<U>
      requires Err?
    {
      Err(error)
    }

    function Extract(): T
      requires Ok?
    {
      value
    }
  }

  /** Applies `f` to every element in order and stops at the first failure:
      the result is one value per element, in order, or the error of the
      first element that fails. */
  function MapAll<A, B>(f: A -> Result<B>, xs: seq<A>): (r: Result<seq<B>>)
    ensures r.Ok? <==> forall i :: 0 <= i < |xs| ==> f(xs[i]).Ok?
    ensures r.Ok? ==> |r.value| == |xs|
    ensures r.Ok? ==> forall i :: 0 <= i < |xs| ==> f(xs[i]) == Ok(r.value[i])
    ensures r.Err? ==> exists i :: (0 <= i < |xs| && f(xs[i]) == Err(r.error)
                                    && forall j :: 0 <= j < i ==> f(xs[j]).Ok?)
  {
    if |xs| == 0 then Ok([])
    else
      var head :- f(xs[0]);
      var rest :- MapAll(f, xs[1..]);
      Ok([head] + rest)
  }

  /** Appending an element that succeeds appends its value. */
  lemma MapAllSnoc<A, B>(f: A -> Result<B>, xs: seq<A>, x: A, ys: seq<B>, y: B)
    requires MapAll(f, xs) == Ok(ys)
    requires f(x) == Ok(y)
    ensures MapAll(f, xs + [x]) == Ok(ys + [y])
  {
    var zs := xs + [x];
    assert forall i :: 0 <= i < |xs| ==> zs[i] == xs[i];
    assert zs[|xs|] == x;
    var r := MapAll(f, zs);
    assert r.Ok?;
    assert r.value == ys + [y];
  }

  /** After elements that all succeed, an element that fails makes the whole
      map fail with its error. */
  lemma MapAllFirstFailure<A, B>(f: A -> Result<B>, xs: seq<A>, rest: seq<A>, ys: seq<B>)
    requires MapAll(f, xs) == Ok(ys)
    requires |rest| > 0 && f(rest[0]).Err?
    ensures MapAll(f, xs + rest) == Err(f(rest[0]).error)
  {
    var zs := xs + rest;
    assert forall i :: 0 <= i < |xs| ==> zs[i] == xs[i] && f(zs[i]).Ok?;
    assert zs[|xs|] == rest[0];
    var r := MapAll(f, zs);
    assert r.Err?;
    var i :| 0 <= i < |zs| && f(zs[i]) == Err(r.error)
      && forall j :: 0 <= j < i ==> f(zs[j]).Ok?;
    assert i == |xs|;
  }
}
