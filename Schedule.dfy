/** Orders in which the independent iterations of a parallel loop may run.

    An OpenMP `parallel for`, a rayon `par_iter_mut` / `par_chunks_mut` and a
    crossbeam scope that spawns one thread per chunk all run iterations
    0 .. n-1 that write disjoint cells. Any interleaving of such iterations
    leaves the buffer as some serial execution of them does, so the model
    runs them one after another in an arbitrary order `order`, given as a
    parameter, and proves the result does not depend on it. */
module Schedule {

  /** Every entry of `order` is an iteration index below `n`, and every
      iteration index below `n` occurs in `order`. */
  predicate Covers(order: seq<nat>, n: nat)
  {
    (forall t :: 0 <= t < |order| ==> order[t] < n) &&
    (forall r :: 0 <= r < n ==> r in order)
  }

  /** No iteration runs twice. */
  predicate Distinct(order: seq<nat>)
  {
    forall s, t :: 0 <= s < t < |order| ==> order[s] != order[t]
  }

  /** A schedule: each iteration runs exactly once. */
  predicate IsSchedule(order: seq<nat>, n: nat)
  {
    Covers(order, n) && Distinct(order)
  }

  /** Program order 0, 1, ..., n-1. */
  function InOrder(n: nat): (order: seq<nat>)
    ensures |order| == n
    ensures forall t :: 0 <= t < n ==> order[t] == t
  {
    if n == 0 then [] else InOrder(n - 1) + [n - 1]
  }

  /** The serial loop is one of the schedules. */
  lemma InOrderIsSchedule(n: nat)
    ensures IsSchedule(InOrder(n), n)
  {
    var order := InOrder(n);
    forall r | 0 <= r < n ensures r in order {
      assert order[r] == r;
    }
  }
}
