// Shared result shapes: a value that may be absent (`Option`) and a computation
// that may fail with a compile error message (`Result`). Where the source can
// only panic, the model returns `Option` and `None` stands for the panic.
module Outcomes {

  datatype Option<T> = None | Some(value: T)

  datatype Result<T> = Ok(value: T) | Err(msg: string)
  {
    predicate IsFailure() { Err? }

    function PropagateFailure<U>(): Result<U>
      requires Err?
    {
      Err(msg)
    }

    function Extract(): T
      requires Ok?
    {
      value
    }
  }

  /// `Option::with_context(msg)?` / `map_compile_error(msg)?`: an absent value
  /// turns into the given error message.
  function OrError<T>(o: Option<T>, msg: string): (r: Result<T>)
    ensures r.Ok? <==> o.Some?
    ensures r.Ok? ==> r.value == o.value
    ensures r.Err? ==> r.msg == msg
  {
    match o
    case Some(v) => Ok(v)
    case None => Err(msg)
  }

  /// `r` after the elements `done` that a loop has already collected.
  function PrependValues<T>(done: seq<T>, r: Result<seq<T>>): Result<seq<T>>
  {
    if r.Ok? then Ok(done + r.value) else r
  }

  lemma PrependNothing<T>(r: Result<seq<T>>)
    ensures PrependValues([], r) == r
  {
    if r.Ok? {
      assert [] + r.value == r.value;
    }
  }

  lemma PrependValuesTwice<T>(done: seq<T>, x: T, r: Result<seq<T>>)
    ensures PrependValues(done, PrependValues([x], r)) == PrependValues(done + [x], r)
  {
    if r.Ok? {
      assert done + ([x] + r.value) == (done + [x]) + r.value;
    }
  }

  /// A recursion whose depth the source does not bound, run with a depth
  /// budget: it returns, or it runs out of budget, which stands for the
  /// stack overflow of the unbounded recursion.
  datatype Run<T> = Returns(result: Result<T>) | OutOfFuel

  /// The message of the panic `Option::unwrap` raises on `None`.
  const UnwrapNonePanic := "panic: called `Option::unwrap()` on a `None` value"
}
