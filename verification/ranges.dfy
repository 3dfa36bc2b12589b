/** Loop bounds as Python's `range` reads them. */
module Ranges {

  /**
   The number of values `range(stop)` yields, which is also the number
   `range(1, stop + 1)` yields: none for a bound that is not positive.
   */
  function Count(stop: int): (n: nat)
    ensures stop >= 0 ==> n == stop
    ensures stop <= 0 ==> n == 0
  {
    if stop < 0 then 0 else stop
  }

  /** The values `range(start, stop)` yields, in order. */
  function Range(start: int, stop: int): seq<int>
    decreases stop - start
  {
    if start >= stop then [] else [start] + Range(start + 1, stop)
  }

  /**
   A loop over `range(start, stop)` runs `Count(stop - start)` times and
   visits `start`, `start + 1`, ... in turn; in particular `range(n)` and
   `range(1, n + 1)` both run `Count(n)` times.
   */
  lemma {:induction false} RangeValues(start: int, stop: int)
    ensures |Range(start, stop)| == Count(stop - start)
    ensures forall i :: 0 <= i < |Range(start, stop)| ==> Range(start, stop)[i] == start + i
    decreases stop - start
  {
    if start < stop {
      RangeValues(start + 1, stop);
    }
  }
}
