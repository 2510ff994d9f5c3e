// src/once.rs and src/lazy.rs: the runtime one-shot caches. `Once` holds a
// value written by the first `get`'s initializer; `Lazy` wraps a provider and
// fills its own `Once` from it on the first `get`. The atomic flag of
// `std::sync::Once` is a single-threaded "initialised" state here.
module OnceLazy {
  import opened Outcomes

  /// The abstract step of `Once::get`: the cell after the call and the value
  /// returned, given the cell before and what the initializer would produce.
  function OnceStep<T>(cell: Option<T>, produced: T): (r: (Option<T>, T))
    ensures r.0 == Some(r.1)
    ensures cell.Some? ==> r.1 == cell.value
    ensures cell.None? ==> r.1 == produced
  {
    if cell.Some? then (cell, cell.value) else (Some(produced), produced)
  }

  /// Once a cell is filled, every later `get` leaves it as it is, whatever
  /// its initializer would have produced.
  lemma {:induction false} OnceRepeated<T>(cell: Option<T>, later: seq<T>)
    requires cell.Some?
    ensures OnceSteps(cell, later) == cell
    decreases |later|
  {
    if |later| > 0 {
      OnceRepeated(cell, later[1..]);
    }
  }

  /// The cell after a sequence of `get`s whose initializers would produce
  /// `produced` in turn.
  function OnceSteps<T>(cell: Option<T>, produced: seq<T>): (r: Option<T>)
    ensures produced != [] ==> r.Some?
    decreases |produced|
  {
    if produced == [] then cell else OnceSteps(OnceStep(cell, produced[0]).0, produced[1..])
  }

  /// Any number of `get`s on a fresh cell keeps the first initializer's value.
  lemma FirstValueKept<T>(produced: seq<T>)
    requires |produced| > 0
    ensures OnceSteps(None, produced) == Some(produced[0])
  {
    OnceRepeated(Some(produced[0]), produced[1..]);
  }

  /// `Once<T>`: `value` is `None` before the first `get`; `runs` counts the
  /// initializer calls.
  class Once<T> {
    var value: Option<T>
    var runs: nat

    ghost predicate Valid()
      reads this
    {
      runs == if value.Some? then 1 else 0
    }

    /// `Once::new`: uninitialised.
    constructor ()
      ensures Valid() && value == None && runs == 0
    {
      value := None;
      runs := 0;
    }

    /// `Once::get`: the first call runs the initializer and stores its
    /// result; every later call returns the stored value without running it.
    method Get(initializer: () -> T) returns (r: T)
      requires Valid()
      modifies this
      ensures Valid()
      ensures (value, r) == OnceStep(old(value), initializer())
      ensures runs == if old(value).Some? then old(runs) else old(runs) + 1
    {
      if value.None? {
        var v := initializer();
        value := Some(v);
        runs := runs + 1;
      }
      r := value.value;
    }
  }

  /// The provider a `Lazy` wraps: its `n`-th invocation builds `produce(n)`,
  /// a new instance each time.
  datatype Provider<T> = Provider(produce: nat -> T)

  /// `Lazy<T>`: a provider and its own cache.
  class Lazy<T> {
    const provider: Provider<T>
    const cache: Once<T>

    ghost predicate Valid()
      reads this, cache
    {
      cache.Valid() && (cache.value.Some? ==> cache.value.value == provider.produce(0))
    }

    /// `Lazy::new`: the provider is not invoked.
    constructor (p: Provider<T>)
      ensures Valid() && provider == p && fresh(cache)
      ensures cache.value == None && cache.runs == 0
    {
      provider := p;
      cache := new Once();
    }

    /// `Lazy::get`: the first call invokes the provider once and caches the
    /// instance; later calls return the same instance.
    method Get() returns (r: T)
      requires Valid()
      modifies cache
      ensures Valid()
      ensures r == provider.produce(0) && cache.value == Some(r)
      ensures cache.runs == 1
      ensures old(cache.value).Some? ==> cache.runs == old(cache.runs)
    {
      var p := provider.produce;
      r := cache.Get(() => p(0));
    }
  }
}
