/** The threads of a kernel launch, taken in any order. */
module Threads {

  predicate IsThread(t: int, count: int) {
    0 <= t < count
  }

  function AllThreads(count: int): (r: set<int>)
    ensures forall t :: t in r <==> IsThread(t, count)
  {
    set t: int | 0 <= t < count && IsThread(t, count)
  }
}
