/**
 * Directed graphs over string identifiers given as successor lists, with
 * walks, reachability and the closure argument that every worklist
 * traversal of the model relies on.
 */
module Digraph {

  /** `g[a]` lists the successors of `a`, with repetitions; a missing key has none. */
  type Adjacency = map<string, seq<string>>

  /** The successors of `a`, like Python's `g.get(a, [])`. */
  function Next(g: Adjacency, a: string): seq<string> {
    if a in g then g[a] else []
  }

  function Last(p: seq<string>): string
    requires p != []
  {
    p[|p| - 1]
  }

  /** A non-empty sequence of identifiers in which each one is a successor of the one before. */
  predicate IsWalk(g: Adjacency, p: seq<string>) {
    && |p| >= 1
    && forall i :: 0 <= i < |p| - 1 ==> p[i + 1] in Next(g, p[i])
  }

  /** A walk that starts at `a` and ends at `b`. */
  predicate IsWalkFrom(g: Adjacency, p: seq<string>, a: string, b: string) {
    IsWalk(g, p) && p[0] == a && Last(p) == b
  }

  /** `b` can be reached from `a` by following successor links zero or more times. */
  ghost predicate Reaches(g: Adjacency, a: string, b: string) {
    exists p :: IsWalkFrom(g, p, a, b)
  }

  /** Every successor of a member of `s` is in `s`. */
  ghost predicate ClosedUnder(g: Adjacency, s: set<string>) {
    forall v, t :: v in s && t in Next(g, v) ==> t in s
  }

  /** A finite set holding `start` and every successor: what a traversal from `start` can ever visit. */
  lemma Universe(g: Adjacency, start: string) returns (u: set<string>)
    ensures start in u
    ensures forall v, t :: t in Next(g, v) ==> t in u
  {
    u := {start} + set v, t | v in g && t in g[v] :: t;
  }

  lemma ReachesSelf(g: Adjacency, a: string)
    ensures Reaches(g, a, a)
  {
    assert IsWalkFrom(g, [a], a, a);
  }

  /** Extending a walk by one successor link. */
  lemma ReachesStep(g: Adjacency, a: string, v: string, t: string)
    requires Reaches(g, a, v)
    requires t in Next(g, v)
    ensures Reaches(g, a, t)
  {
    var p :| IsWalkFrom(g, p, a, v);
    assert IsWalkFrom(g, p + [t], a, t);
  }

  lemma WalkStep(g: Adjacency, p: seq<string>, i: nat)
    requires IsWalk(g, p) && i < |p| - 1
    ensures p[i + 1] in Next(g, p[i])
  {
  }

  /** A walk extended by a successor of its last node is a walk. */
  lemma WalkAppend(g: Adjacency, p: seq<string>, t: string)
    requires IsWalk(g, p) && t in Next(g, Last(p))
    ensures IsWalk(g, p + [t])
  {
    var q := p + [t];
    forall i | 0 <= i < |q| - 1
      ensures q[i + 1] in Next(g, q[i])
    {
      if i < |p| - 1 {
        WalkStep(g, p, i);
      }
    }
  }

  /** A non-empty prefix of a walk is a walk. */
  lemma WalkPrefix(g: Adjacency, p: seq<string>, k: nat)
    requires IsWalk(g, p) && 1 <= k <= |p|
    ensures IsWalk(g, p[..k])
  {
    assert forall i :: 0 <= i < k ==> p[..k][i] == p[i];
  }

  /** A walk that starts inside a closed set stays inside it. */
  lemma {:induction false} ClosedContainsWalk(g: Adjacency, s: set<string>, p: seq<string>)
    requires IsWalk(g, p) && p[0] in s
    requires ClosedUnder(g, s)
    ensures Last(p) in s
    decreases |p|
  {
    if |p| > 1 {
      var q := p[..|p| - 1];
      assert IsWalk(g, q);
      ClosedContainsWalk(g, s, q);
      assert p[|p| - 1] in Next(g, p[|p| - 2]);
    }
  }

  /** A closed set that contains `a` contains everything reachable from `a`. */
  lemma ClosedContainsReachable(g: Adjacency, s: set<string>, a: string, b: string)
    requires a in s && ClosedUnder(g, s)
    requires Reaches(g, a, b)
    ensures b in s
  {
    var p :| IsWalkFrom(g, p, a, b);
    ClosedContainsWalk(g, s, p);
  }

  /** Every node of a walk is reachable from its first node. */
  lemma {:induction false} WalkNodesReachable(g: Adjacency, p: seq<string>, k: nat)
    requires IsWalk(g, p) && k < |p|
    ensures Reaches(g, p[0], p[k])
  {
    assert IsWalkFrom(g, p[..k + 1], p[0], p[k]);
  }

  /** From a node with no successors only the node itself is reachable. */
  lemma {:induction false} SinkReachesOnlyItself(g: Adjacency, a: string, b: string)
    requires Next(g, a) == []
    ensures Reaches(g, a, b) <==> b == a
  {
    if Reaches(g, a, b) {
      var p :| IsWalkFrom(g, p, a, b);
      if |p| > 1 {
        WalkStep(g, p, 0);
      }
    } else {
      ReachesSelf(g, a);
    }
  }

  /** No identifier occurs twice. */
  predicate Distinct(s: seq<string>) {
    forall i, j :: 0 <= i < j < |s| ==> s[i] != s[j]
  }

  lemma DistinctAppend(s: seq<string>, x: string)
    requires Distinct(s) && x !in s
    ensures Distinct(s + [x])
  {
  }

  /** A sequence without repetitions has as many elements as the set of its elements. */
  lemma {:induction false} DistinctCard(s: seq<string>)
    requires Distinct(s)
    ensures |set x | x in s| == |s|
  {
    if s != [] {
      var init := s[..|s| - 1];
      DistinctCard(init);
      assert (set x | x in s) == (set x | x in init) + {Last(s)};
      assert Last(s) !in init;
    }
  }

  /** Visiting one more identifier of a finite universe leaves fewer to visit: the measure of every traversal. */
  lemma VisitShrinks(u: set<string>, visited: set<string>, n: string)
    requires visited <= u && n in u && n !in visited
    ensures visited + {n} <= u
    ensures |u - (visited + {n})| < |u - visited|
  {
    assert u - (visited + {n}) == (u - visited) - {n};
  }

  /**
   * The state of a stack-and-visited-set traversal from `start`: `start` is
   * visited or pending, everything visited or pending is reachable, and every
   * successor of a visited identifier is visited or pending.
   */
  ghost predicate Worklist(g: Adjacency, start: string, visited: set<string>, stack: seq<string>) {
    && (start in visited || start in stack)
    && (forall x :: x in visited ==> Reaches(g, start, x))
    && (forall j :: 0 <= j < |stack| ==> Reaches(g, start, stack[j]))
    && (forall v, t :: v in visited && t in Next(g, v) ==> t in visited || t in stack)
  }

  lemma WorklistInit(g: Adjacency, start: string)
    ensures Worklist(g, start, {}, [start])
  {
    ReachesSelf(g, start);
  }

  /** Popping an identifier that was already visited keeps the traversal state. */
  lemma WorklistSkip(g: Adjacency, start: string, visited: set<string>, stack: seq<string>)
    requires Worklist(g, start, visited, stack) && stack != [] && Last(stack) in visited
    ensures Worklist(g, start, visited, stack[..|stack| - 1])
  {
    var rest := stack[..|stack| - 1];
    forall v, t | v in visited && t in Next(g, v)
      ensures t in visited || t in rest
    {
      if t !in visited {
        var j :| 0 <= j < |stack| && stack[j] == t;
        assert rest[j] == t;
      }
    }
  }

  /** Popping a new identifier, marking it visited and pushing its successors keeps the traversal state. */
  lemma WorklistExpand(g: Adjacency, start: string, visited: set<string>, stack: seq<string>)
    requires Worklist(g, start, visited, stack) && stack != [] && Last(stack) !in visited
    ensures Worklist(g, start, visited + {Last(stack)}, stack[..|stack| - 1] + Next(g, Last(stack)))
  {
    var node := Last(stack);
    var rest := stack[..|stack| - 1];
    var stack' := rest + Next(g, node);
    assert Reaches(g, start, stack[|stack| - 1]);
    forall j | 0 <= j < |stack'|
      ensures Reaches(g, start, stack'[j])
    {
      if j < |rest| {
        assert stack'[j] == stack[j];
      } else {
        ReachesStep(g, start, node, stack'[j]);
      }
    }
    forall v, t | v in visited + {node} && t in Next(g, v)
      ensures t in visited + {node} || t in stack'
    {
      if v == node {
        var j :| 0 <= j < |Next(g, node)| && Next(g, node)[j] == t;
        assert stack'[|rest| + j] == t;
      } else if t !in visited && t != node {
        var j :| 0 <= j < |stack| && stack[j] == t;
        assert stack'[j] == t;
      }
    }
    if start !in visited && start != node {
      var j :| 0 <= j < |stack| && stack[j] == start;
      assert stack'[j] == start;
    }
  }

  /** When the stack is empty the visited set is exactly what is reachable from `start`. */
  lemma WorklistDone(g: Adjacency, start: string, visited: set<string>)
    requires Worklist(g, start, visited, [])
    ensures forall n :: n in visited <==> Reaches(g, start, n)
  {
    assert ClosedUnder(g, visited);
    forall n | Reaches(g, start, n)
      ensures n in visited
    {
      ClosedContainsReachable(g, visited, start, n);
    }
  }

  function Reverse(p: seq<string>): (r: seq<string>)
    ensures |r| == |p|
    ensures forall i :: 0 <= i < |p| ==> r[i] == p[|p| - 1 - i]
  {
    if p == [] then [] else Reverse(p[1..]) + [p[0]]
  }

  /** `r` lists `b` as a successor of `a` exactly when `g` lists `a` as a successor of `b`. */
  ghost predicate Transposed(g: Adjacency, r: Adjacency) {
    forall a, b :: b in Next(r, a) <==> a in Next(g, b)
  }

  /** A walk of the transposed graph, read backwards, is a walk of the graph. */
  lemma ReversedWalk(g: Adjacency, r: Adjacency, p: seq<string>)
    requires Transposed(g, r) && IsWalk(r, p)
    ensures IsWalk(g, Reverse(p))
  {
    var q := Reverse(p);
    forall i | 0 <= i < |q| - 1
      ensures q[i + 1] in Next(g, q[i])
    {
      var j := |p| - 2 - i;
      WalkStep(r, p, j);
    }
  }

  /** Backward reachability in the transposed graph is forward reachability in the graph. */
  lemma ReachesTransposed(g: Adjacency, r: Adjacency, a: string, b: string)
    requires Transposed(g, r)
    ensures Reaches(r, a, b) <==> Reaches(g, b, a)
  {
    if Reaches(r, a, b) {
      var p :| IsWalkFrom(r, p, a, b);
      ReversedWalk(g, r, p);
      assert IsWalkFrom(g, Reverse(p), b, a);
    }
    if Reaches(g, b, a) {
      var p :| IsWalkFrom(g, p, b, a);
      ReversedWalk(r, g, p);
      assert IsWalkFrom(r, Reverse(p), a, b);
    }
  }
}
