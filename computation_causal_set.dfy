/**
 * The causal-set view of a one-dimensional signal: sample `i` precedes
 * sample `j` when it comes earlier and is strictly smaller. The analysis
 * writes this order into an n×n 0/1 matrix, counts its relations, and clears
 * from a copy every relation implied by a two-step chain, leaving the
 * covering relation (the transitive reduction).
 */
module CausalSetAnalysis {

  datatype Analysis =
    | TooShort(error: string)
    | Analysis(causalMatrix: seq<seq<int>>, relationCount: nat, transitiveReduction: seq<seq<int>>)

  const TooShortMessage: string := "Signal too short for causal set analysis"

  /** Sample `i` causally precedes sample `j`. */
  predicate Precedes(x: seq<real>, i: nat, j: nat)
    requires i < |x| && j < |x|
  {
    i < j && x[i] < x[j]
  }

  /** Some sample among the first `m` lies between `i` and `k`. */
  predicate CoveredBelow(x: seq<real>, i: nat, k: nat, m: nat)
    requires i < |x| && k < |x| && m <= |x|
  {
    exists j: nat :: j < m && Precedes(x, i, j) && Precedes(x, j, k)
  }

  /** `i` precedes `k` through some intermediate sample. */
  predicate Covered(x: seq<real>, i: nat, k: nat)
    requires i < |x| && k < |x|
  {
    CoveredBelow(x, i, k, |x|)
  }

  /** `k` covers `i`: a relation of the order that no intermediate sample implies. */
  predicate Link(x: seq<real>, i: nat, k: nat)
    requires i < |x| && k < |x|
  {
    Precedes(x, i, k) && !Covered(x, i, k)
  }

  function Bit(b: bool): int {
    if b then 1 else 0
  }

  // ---------------------------------------------------------------
  // The order
  // ---------------------------------------------------------------

  /** The relation is transitive, so it is a strict partial order. */
  lemma PrecedesTransitive(x: seq<real>, i: nat, j: nat, k: nat)
    requires i < |x| && j < |x| && k < |x|
    requires Precedes(x, i, j) && Precedes(x, j, k)
    ensures Precedes(x, i, k)
  {
  }

  /** A sequence of samples, each covered by the next. */
  predicate LinkChain(x: seq<real>, p: seq<nat>) {
    && |p| >= 1
    && (forall m :: 0 <= m < |p| ==> p[m] < |x|)
    && (forall m :: 0 <= m < |p| - 1 ==> Link(x, p[m], p[m + 1]))
  }

  /** Following links only ever moves forward in the order. */
  lemma {:induction false} LinkChainPrecedes(x: seq<real>, p: seq<nat>)
    requires LinkChain(x, p) && |p| >= 2
    ensures Precedes(x, p[0], p[|p| - 1])
  {
    if |p| > 2 {
      var q := p[1..];
      assert LinkChain(x, q) by {
        forall m | 0 <= m < |q| - 1
          ensures Link(x, q[m], q[m + 1])
        {
          assert q[m] == p[m + 1] && q[m + 1] == p[m + 2];
        }
      }
      LinkChainPrecedes(x, q);
      assert Link(x, p[0], p[1]);
    }
  }

  /**
   * The reduction loses nothing: every relation of the order is reached by a
   * chain of covering links, so the order is the transitive closure of the
   * reduction.
   */
  lemma {:induction false} LinksGenerateOrder(x: seq<real>, i: nat, k: nat) returns (p: seq<nat>)
    requires i < |x| && k < |x| && Precedes(x, i, k)
    ensures LinkChain(x, p) && |p| >= 2 && p[0] == i && p[|p| - 1] == k
    decreases k - i
  {
    if Covered(x, i, k) {
      var j: nat :| j < |x| && Precedes(x, i, j) && Precedes(x, j, k);
      var p1 := LinksGenerateOrder(x, i, j);
      var p2 := LinksGenerateOrder(x, j, k);
      p := p1 + p2[1..];
      forall m | 0 <= m < |p| - 1
        ensures Link(x, p[m], p[m + 1])
      {
        if m < |p1| - 1 {
          assert p[m] == p1[m] && p[m + 1] == p1[m + 1];
        } else {
          var m2 := m - (|p1| - 1);
          assert p[m] == p2[m2] && p[m + 1] == p2[m2 + 1];
        }
      }
    } else {
      p := [i, k];
    }
  }

  // ---------------------------------------------------------------
  // Counting
  // ---------------------------------------------------------------

  /** The number of `j < m` that `i` precedes. */
  function RowRelations(x: seq<real>, i: nat, m: nat): nat
    requires i < |x| && m <= |x|
  {
    if m == 0 then 0 else RowRelations(x, i, m - 1) + Bit(Precedes(x, i, m - 1))
  }

  /** The number of related pairs whose earlier sample is among the first `m`. */
  function Relations(x: seq<real>, m: nat): nat
    requires m <= |x|
  {
    if m == 0 then 0 else Relations(x, m - 1) + RowRelations(x, m - 1, |x|)
  }

  /** A row counts at most the later samples. */
  lemma {:induction false} RowRelationsBound(x: seq<real>, i: nat, m: nat)
    requires i < |x| && m <= |x|
    ensures RowRelations(x, i, m) <= if m <= i + 1 then 0 else m - i - 1
  {
    if m > 0 {
      RowRelationsBound(x, i, m - 1);
    }
  }

  /** A strictly increasing signal relates every pair: a row counts exactly the later samples. */
  lemma {:induction false} RowRelationsIncreasing(x: seq<real>, i: nat, m: nat)
    requires i < |x| && m <= |x|
    requires forall a, b :: 0 <= a < b < |x| ==> x[a] < x[b]
    ensures RowRelations(x, i, m) == if m <= i + 1 then 0 else m - i - 1
  {
    if m > 0 {
      RowRelationsIncreasing(x, i, m - 1);
    }
  }

  /** The related pairs `(i, j)` with `i` below `m`. */
  ghost function Pairs(x: seq<real>, m: nat): set<(nat, nat)>
    requires m <= |x|
  {
    set i: nat, j: nat | i < m && j < |x| && Precedes(x, i, j) :: (i, j)
  }

  /** The related pairs `(i, j)` of one row with `j` below `m`. */
  ghost function RowPairs(x: seq<real>, i: nat, m: nat): set<(nat, nat)>
    requires i < |x| && m <= |x|
  {
    set j: nat | j < m && Precedes(x, i, j) :: (i, j)
  }

  lemma {:induction false} RowPairsCount(x: seq<real>, i: nat, m: nat)
    requires i < |x| && m <= |x|
    ensures |RowPairs(x, i, m)| == RowRelations(x, i, m)
  {
    if m > 0 {
      RowPairsCount(x, i, m - 1);
      var last: set<(nat, nat)> := if Precedes(x, i, m - 1) then {(i, m - 1)} else {};
      assert RowPairs(x, i, m) == RowPairs(x, i, m - 1) + last;
      assert (i, m - 1) !in RowPairs(x, i, m - 1);
    }
  }

  /** The count is the number of related pairs. */
  lemma {:induction false} RelationsCountPairs(x: seq<real>, m: nat)
    requires m <= |x|
    ensures |Pairs(x, m)| == Relations(x, m)
  {
    if m > 0 {
      RelationsCountPairs(x, m - 1);
      RowPairsCount(x, m - 1, |x|);
      assert Pairs(x, m) == Pairs(x, m - 1) + RowPairs(x, m - 1, |x|);
      assert Pairs(x, m - 1) !! RowPairs(x, m - 1, |x|);
    }
  }

  /** At most `n(n-1)/2` pairs are related, and a strictly increasing signal relates them all. */
  lemma {:induction false} RelationsBound(x: seq<real>, m: nat)
    requires m <= |x|
    ensures 2 * Relations(x, m) <= m * (2 * |x| - m - 1)
    ensures (forall a, b :: 0 <= a < b < |x| ==> x[a] < x[b]) ==> 2 * Relations(x, m) == m * (2 * |x| - m - 1)
  {
    if m > 0 {
      RelationsBound(x, m - 1);
      RowRelationsBound(x, m - 1, |x|);
      if forall a, b :: 0 <= a < b < |x| ==> x[a] < x[b] {
        RowRelationsIncreasing(x, m - 1, |x|);
      }
      assert m * (2 * |x| - m - 1) == (m - 1) * (2 * |x| - (m - 1) - 1) + 2 * (|x| - m);
    }
  }

  // ---------------------------------------------------------------
  // The analysis, on arrays
  // ---------------------------------------------------------------

  /** The rows of a matrix, as `tolist()` gives them. */
  function Rows(a: array2<int>): (rows: seq<seq<int>>)
    reads a
    ensures |rows| == a.Length0
    ensures forall i :: 0 <= i < a.Length0 ==> |rows[i]| == a.Length1
    ensures forall i, j :: 0 <= i < a.Length0 && 0 <= j < a.Length1 ==> rows[i][j] == a[i, j]
  {
    seq(a.Length0, i requires 0 <= i < a.Length0 reads a =>
      seq(a.Length1, j requires 0 <= j < a.Length1 reads a => a[i, j]))
  }

  /** The matrix holds the order: a one exactly where the row precedes the column. */
  ghost predicate HoldsOrder(x: seq<real>, c: array2<int>)
    reads c
  {
    && c.Length0 == |x| && c.Length1 == |x|
    && forall a, b :: 0 <= a < |x| && 0 <= b < |x| ==> c[a, b] == Bit(Precedes(x, a, b))
  }

  /** A zero matrix in which the ones of the order are written row by row. */
  method CausalMatrix(x: seq<real>) returns (c: array2<int>)
    ensures fresh(c) && HoldsOrder(x, c)
  {
    var n := |x|;
    c := new int[n, n]((a, b) => 0);
    for i := 0 to n
      invariant forall a, b :: 0 <= a < n && 0 <= b < n ==> c[a, b] == if a < i then Bit(Precedes(x, a, b)) else 0
    {
      for j := i + 1 to n
        invariant forall a, b :: 0 <= a < n && 0 <= b < n ==>
          c[a, b] == if a < i || (a == i && b < j) then Bit(Precedes(x, a, b)) else 0
      {
        if x[i] < x[j] {
          c[i, j] := 1;
        }
      }
    }
  }

  /** The sum of all entries of the matrix, which is the number of related pairs. */
  method CountRelations(x: seq<real>, c: array2<int>) returns (count: nat)
    requires HoldsOrder(x, c)
    ensures count == Relations(x, |x|)
  {
    var n := |x|;
    count := 0;
    for i := 0 to n
      invariant count == Relations(x, i)
    {
      for j := 0 to n
        invariant count == Relations(x, i) + RowRelations(x, i, j)
      {
        count := count + c[i, j];
      }
    }
  }

  /**
   * Whether entry `(a, b)` is still set while row `i` is being cleared with
   * the intermediates below `j`, and with intermediate `j` up to column `k`.
   */
  ghost predicate Kept(x: seq<real>, i: nat, j: nat, k: nat, a: nat, b: nat)
    requires j <= |x| && a < |x| && b < |x|
  {
    && Precedes(x, a, b)
    && !(a < i && Covered(x, a, b))
    && !(a == i && CoveredBelow(x, a, b, j))
    && !(a == i && j < |x| && b < k && Precedes(x, a, j) && Precedes(x, j, b))
  }

  ghost predicate ReducedSoFar(x: seq<real>, t: array2<int>, i: nat, j: nat, k: nat)
    requires j <= |x|
    reads t
  {
    && t.Length0 == |x| && t.Length1 == |x|
    && forall a, b :: 0 <= a < |x| && 0 <= b < |x| ==> t[a, b] == Bit(Kept(x, i, j, k, a, b))
  }

  /** A copy of the matrix. */
  method Copy(c: array2<int>) returns (t: array2<int>)
    ensures fresh(t) && t.Length0 == c.Length0 && t.Length1 == c.Length1
    ensures forall a, b :: 0 <= a < c.Length0 && 0 <= b < c.Length1 ==> t[a, b] == c[a, b]
  {
    t := new int[c.Length0, c.Length1]((a, b) requires 0 <= a < c.Length0 && 0 <= b < c.Length1 reads c => c[a, b]);
  }

  /**
   * Clears, in place in `t` (a copy of the order matrix `c`), every entry
   * `(i, k)` for which some `j` has `c[i, j]` and `c[j, k]`; the tests read
   * `c`, so the outcome does not depend on the order of the loops.
   */
  method Reduce(x: seq<real>, c: array2<int>, t: array2<int>)
    requires t != c && HoldsOrder(x, c) && HoldsOrder(x, t)
    modifies t
    ensures forall a, b :: 0 <= a < |x| && 0 <= b < |x| ==> t[a, b] == Bit(Link(x, a, b))
  {
    var n := |x|;
    for i := 0 to n
      invariant ReducedSoFar(x, t, i, 0, 0)
    {
      for j := 0 to n
        invariant ReducedSoFar(x, t, i, j, 0)
      {
        if c[i, j] != 0 {
          for k := 0 to n
            invariant ReducedSoFar(x, t, i, j, k)
          {
            if c[j, k] != 0 {
              t[i, k] := 0;
            }
          }
          NextIntermediate(x, t, i, j);
        } else {
          SkipIntermediate(x, t, i, j);
        }
      }
      NextRow(x, t, i);
    }
  }

  /** Finishing intermediate `j` leaves what clearing with the intermediates up to `j` leaves. */
  lemma NextIntermediate(x: seq<real>, t: array2<int>, i: nat, j: nat)
    requires i < |x| && j < |x| && ReducedSoFar(x, t, i, j, |x|)
    ensures ReducedSoFar(x, t, i, j + 1, 0)
  {
    forall a, b | 0 <= a < |x| && 0 <= b < |x|
      ensures Kept(x, i, j, |x|, a, b) == Kept(x, i, j + 1, 0, a, b)
    {
      if a == i && CoveredBelow(x, i, b, j + 1) && !(Precedes(x, i, j) && Precedes(x, j, b)) {
        var m: nat :| m < j + 1 && Precedes(x, i, m) && Precedes(x, m, b);
        assert m < j;
      }
    }
  }

  /** An intermediate that row `i` does not precede clears nothing. */
  lemma SkipIntermediate(x: seq<real>, t: array2<int>, i: nat, j: nat)
    requires i < |x| && j < |x| && ReducedSoFar(x, t, i, j, 0) && !Precedes(x, i, j)
    ensures ReducedSoFar(x, t, i, j + 1, 0)
  {
    forall a, b | 0 <= a < |x| && 0 <= b < |x|
      ensures Kept(x, i, j, 0, a, b) == Kept(x, i, j + 1, 0, a, b)
    {
      if a == i && CoveredBelow(x, i, b, j + 1) {
        var m: nat :| m < j + 1 && Precedes(x, i, m) && Precedes(x, m, b);
        assert m < j;
      }
    }
  }

  lemma NextRow(x: seq<real>, t: array2<int>, i: nat)
    requires i < |x| && ReducedSoFar(x, t, i, |x|, 0)
    ensures ReducedSoFar(x, t, i + 1, 0, 0)
  {
    forall a, b | 0 <= a < |x| && 0 <= b < |x|
      ensures Kept(x, i, |x|, 0, a, b) == Kept(x, i + 1, 0, 0, a, b)
    {
    }
  }

  /**
   * The analysis of a signal: too short below two samples; otherwise the
   * order matrix, the number of related pairs and the covering relation.
   */
  method Analyze(signal: seq<real>) returns (r: Analysis)
    ensures r.TooShort? <==> |signal| < 2
    ensures r.TooShort? ==> r.error == TooShortMessage
    ensures r.Analysis? ==>
      var n := |signal|;
      && |r.causalMatrix| == n && |r.transitiveReduction| == n
      && (forall i :: 0 <= i < n ==> |r.causalMatrix[i]| == n && |r.transitiveReduction[i]| == n)
      && (forall i, j :: 0 <= i < n && 0 <= j < n ==> r.causalMatrix[i][j] == Bit(Precedes(signal, i, j)))
      && r.relationCount == |Pairs(signal, n)| == Relations(signal, n)
      && 2 * r.relationCount <= n * (n - 1)
      && (forall i, k :: 0 <= i < n && 0 <= k < n ==> r.transitiveReduction[i][k] == Bit(Link(signal, i, k)))
  {
    var x := signal;
    var n := |x|;
    if n < 2 {
      return TooShort(TooShortMessage);
    }
    var causal := CausalMatrix(x);
    var count := CountRelations(x, causal);
    var reduction := Copy(causal);
    Reduce(x, causal, reduction);
    RelationsCountPairs(x, n);
    RelationsBound(x, n);
    r := Analysis(Rows(causal), count, Rows(reduction));
  }
}
