/** Failure-compatible results in the shape of `anyhow::Result`: an error carries its
    outermost message and the chain of causes beneath it. */
module Outcomes {

  datatype Option<+T> = None | Some(value: T)

  /** An `anyhow::Error`: the message shown first, then the causes it wraps. */
  datatype Error = Error(message: string, causes: seq<string>)

  datatype Result<+T> = Ok(value: T) | Err(error: Error) {

    predicate IsFailure() {
      Err?
    }

    function PropagateFailure<U>(): Result<U>
      requires Err?
    {
      Err(error)
    }

    function Extract(): T
      requires Ok?
    {
      value
    }
  }

  /** `bail!(msg)`, and `Option::with_context(|| msg)` on a `None`. */
  function Fail<T>(msg: string): Result<T> {
    Err(Error(msg, []))
  }

  /** `Result::with_context(|| msg)`: a failure gains `msg` as its outermost message and keeps
      the old message as the first cause; a success passes through. */
  function WithContext<T>(r: Result<T>, msg: string): (r': Result<T>)
    ensures r.Ok? ==> r' == r
    ensures r.Err? ==> r'.Err? && r'.error.message == msg
    ensures r.Err? ==> r'.error.causes == [r.error.message] + r.error.causes
  {
    match r
    case Ok(_) => r
    case Err(e) => Err(Error(msg, [e.message] + e.causes))
  }

  /** `Iterator::collect::<Result<Vec<_>>>()` over `f`: the values of `f` in order, or the
      first error. */
  function CollectAll<A, B>(f: A -> Result<B>, xs: seq<A>): (r: Result<seq<B>>)
    ensures r.Ok? ==> |r.value| == |xs|
    decreases |xs|
  {
    if |xs| == 0 then Ok([])
    else
      var y :- f(xs[0]);
      var rest :- CollectAll(f, xs[1..]);
      Ok([y] + rest)
  }

  /** Collecting succeeds exactly when every element does, and then holds each element's
      value in place; a failure is the error of some element that failed. */
  lemma {:induction false} CollectAllSpec<A, B>(f: A -> Result<B>, xs: seq<A>)
    ensures CollectAll(f, xs).Ok? <==> forall i :: 0 <= i < |xs| ==> f(xs[i]).Ok?
    ensures CollectAll(f, xs).Ok? ==> forall i :: 0 <= i < |xs| ==> CollectAll(f, xs).value[i] == f(xs[i]).value
    ensures CollectAll(f, xs).Err? ==>
      exists k :: 0 <= k < |xs| && f(xs[k]).Err? && CollectAll(f, xs).error == f(xs[k]).error
    decreases |xs|
  {
    if |xs| > 0 {
      var tail := xs[1..];
      CollectAllSpec(f, tail);
      var r := CollectAll(f, xs);
      var rest := CollectAll(f, tail);
      if f(xs[0]).Err? {
        assert r.error == f(xs[0]).error;
      } else if rest.Err? {
        var k :| 0 <= k < |tail| && f(tail[k]).Err? && rest.error == f(tail[k]).error;
        assert tail[k] == xs[k + 1];
      } else {
        assert r.value == [f(xs[0]).value] + rest.value;
        forall i | 1 <= i < |xs|
          ensures f(xs[i]).Ok? && r.value[i] == f(xs[i]).value
        {
          assert tail[i - 1] == xs[i];
        }
      }
    }
  }
}
