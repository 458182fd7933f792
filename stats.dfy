/**
 * The aggregate figures the analyzers report over a list of scores: the sum,
 * the first maximal entry (what Python's `max` with a key returns) and the
 * average.
 */
module Stats {

  function Sum(xs: seq<real>): real {
    if xs == [] then 0.0 else Sum(xs[..|xs| - 1]) + xs[|xs| - 1]
  }

  /** Every entry lies in `[lo, hi]`. */
  predicate Within(xs: seq<real>, lo: real, hi: real) {
    forall i :: 0 <= i < |xs| ==> lo <= xs[i] <= hi
  }

  /**
   * The index of the first maximal entry: scanning left to right, a later
   * entry replaces the current best only when it is strictly larger.
   */
  function FirstMaxIndex(xs: seq<real>): (k: nat)
    requires xs != []
    ensures k < |xs|
    ensures forall j :: 0 <= j < |xs| ==> xs[j] <= xs[k]
    ensures forall j :: 0 <= j < k ==> xs[j] < xs[k]
  {
    if |xs| == 1 then 0
    else
      var k := FirstMaxIndex(xs[..|xs| - 1]);
      if xs[|xs| - 1] > xs[k] then |xs| - 1 else k
  }

  function Max(xs: seq<real>): real
    requires xs != []
  {
    xs[FirstMaxIndex(xs)]
  }

  function Average(xs: seq<real>): real
    requires xs != []
  {
    Sum(xs) / (|xs| as real)
  }

  /** A sum of `n` entries none above `hi` is at most `n * hi`. */
  lemma {:induction false} SumAtMost(xs: seq<real>, hi: real)
    requires forall i :: 0 <= i < |xs| ==> xs[i] <= hi
    ensures Sum(xs) <= (|xs| as real) * hi
  {
    if xs != [] {
      SumAtMost(xs[..|xs| - 1], hi);
    }
  }

  /** A sum of `n` entries none below `lo` is at least `n * lo`. */
  lemma {:induction false} SumAtLeast(xs: seq<real>, lo: real)
    requires forall i :: 0 <= i < |xs| ==> lo <= xs[i]
    ensures (|xs| as real) * lo <= Sum(xs)
  {
    if xs != [] {
      SumAtLeast(xs[..|xs| - 1], lo);
    }
  }

  /** The average of entries in `[lo, hi]` lies in `[lo, hi]`. */
  lemma AverageWithin(xs: seq<real>, lo: real, hi: real)
    requires xs != [] && Within(xs, lo, hi)
    ensures lo <= Average(xs) <= hi
  {
    SumAtMost(xs, hi);
    SumAtLeast(xs, lo);
  }

  /** The average never exceeds the first maximal entry. */
  lemma AverageAtMostMax(xs: seq<real>)
    requires xs != []
    ensures Average(xs) <= Max(xs)
  {
    SumAtMost(xs, Max(xs));
  }
}
