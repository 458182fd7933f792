/**
 * The privilege graph shared by the attacker (red) and defender (blue)
 * analyzers: a node table, a forward adjacency list built from a JSON-like
 * specification, forward reachability, Dijkstra's shortest path and the
 * "energy" score of a path.
 */
module BloodHoundGraph {
  import opened Outcomes
  import opened Digraph

  /** A declared identity; a higher privilege is a more powerful identity. */
  datatype Node = Node(name: string, privilege: real)

  /** A directed permission link; the weight is the cost of traversing it. */
  datatype Edge = Edge(source: string, target: string, weight: real)

  /** One entry of the `nodes` list of the input; `privilege` may be absent. */
  datatype NodeSpec = NodeSpec(name: string, privilege: Option<real>)

  /** One entry of the `edges` list of the input; `weight` may be absent. */
  datatype EdgeSpec = EdgeSpec(source: string, target: string, weight: Option<real>)

  /** The input object; an absent list is given as the empty sequence. */
  datatype GraphSpec = GraphSpec(nodes: seq<NodeSpec>, edges: seq<EdgeSpec>, highValueNodes: seq<string>)

  const DefaultPrivilege: real := 1.0
  const DefaultWeight: real := 1.0

  type NodeTable = map<string, Node>

  /** Outgoing edges keyed by source identifier. */
  type EdgeTable = map<string, seq<Edge>>

  function NodeOf(s: NodeSpec): Node {
    Node(s.name, s.privilege.GetOr(DefaultPrivilege))
  }

  function EdgeOf(s: EdgeSpec): Edge {
    Edge(s.source, s.target, s.weight.GetOr(DefaultWeight))
  }

  /** The edges leaving `a`, like `edges.get(a, [])`. */
  function Out(edges: EdgeTable, a: string): seq<Edge> {
    if a in edges then edges[a] else []
  }

  function Targets(es: seq<Edge>): (ts: seq<string>)
    ensures |ts| == |es|
    ensures forall i :: 0 <= i < |es| ==> ts[i] == es[i].target
  {
    seq(|es|, i requires 0 <= i < |es| => es[i].target)
  }

  /** The successor lists of the edge table, the graph that walks and reachability are about. */
  function Succ(edges: EdgeTable): Adjacency {
    map s | s in edges :: Targets(edges[s])
  }

  lemma NextSucc(edges: EdgeTable, a: string)
    ensures Next(Succ(edges), a) == Targets(Out(edges, a))
  {
  }

  // ---------------------------------------------------------------
  // Graph building
  // ---------------------------------------------------------------

  /** The node table after storing the entries in order; a repeated name keeps its last entry. */
  function LoadNodes(specs: seq<NodeSpec>): NodeTable {
    if specs == [] then map[]
    else LoadNodes(specs[..|specs| - 1])[specs[|specs| - 1].name := NodeOf(specs[|specs| - 1])]
  }

  /** The edge table after appending each entry to the list of its source, in order. */
  function LoadEdges(specs: seq<EdgeSpec>): EdgeTable {
    if specs == [] then map[]
    else
      var t := LoadEdges(specs[..|specs| - 1]);
      var e := EdgeOf(specs[|specs| - 1]);
      t[e.source := Out(t, e.source) + [e]]
  }

  /** The keys of the edge table in the order a Python dict keeps them: first insertion. */
  function SourceOrder(specs: seq<EdgeSpec>): seq<string> {
    if specs == [] then []
    else
      var o := SourceOrder(specs[..|specs| - 1]);
      var s := specs[|specs| - 1].source;
      if s in o then o else o + [s]
  }

  /**
   * One more entry: its source gets an empty list if it had none, the edge
   * is appended to that list, and a new source is recorded at the end.
   */
  lemma LoadEdgesStep(specs: seq<EdgeSpec>, i: nat)
    requires i < |specs|
    ensures var t := LoadEdges(specs[..i]); var s := specs[i].source;
      var t1 := if s in t then t else t[s := []];
      LoadEdges(specs[..i + 1]) == t1[s := t1[s] + [EdgeOf(specs[i])]]
    ensures var o := SourceOrder(specs[..i]);
      SourceOrder(specs[..i + 1]) == if specs[i].source in LoadEdges(specs[..i]) then o else o + [specs[i].source]
  {
    assert specs[..i + 1][..i] == specs[..i];
    SourceOrderIsKeyOrder(specs[..i]);
  }

  /** Reference definition: the input edges whose source is `src`, in input order. */
  function Outgoing(specs: seq<EdgeSpec>, src: string): seq<Edge> {
    if specs == [] then []
    else (if specs[0].source == src then [EdgeOf(specs[0])] else []) + Outgoing(specs[1..], src)
  }

  /** A name is in the node table iff some entry declares it, and then the last such entry decides its privilege. */
  lemma {:induction false} LoadNodesLookup(specs: seq<NodeSpec>, k: string)
    ensures k in LoadNodes(specs) <==> exists i :: 0 <= i < |specs| && specs[i].name == k
    ensures forall i :: 0 <= i < |specs| && specs[i].name == k && (forall j :: i < j < |specs| ==> specs[j].name != k)
                        ==> LoadNodes(specs)[k] == Node(k, specs[i].privilege.GetOr(DefaultPrivilege))
  {
    if specs != [] {
      var n := |specs| - 1;
      var pre := specs[..n];
      LoadNodesLookup(pre, k);
      assert forall i :: 0 <= i < n ==> pre[i] == specs[i];
      if specs[n].name == k {
        forall i | 0 <= i < |specs| && specs[i].name == k && (forall j :: i < j < |specs| ==> specs[j].name != k)
          ensures i == n
        {
        }
      } else {
        assert k in LoadNodes(specs) <==> k in LoadNodes(pre);
        forall i | 0 <= i < |specs| && specs[i].name == k && (forall j :: i < j < |specs| ==> specs[j].name != k)
          ensures LoadNodes(specs)[k] == Node(k, specs[i].privilege.GetOr(DefaultPrivilege))
        {
          assert i < n && pre[i].name == k;
        }
      }
    }
  }

  lemma {:induction false} OutgoingAppend(specs: seq<EdgeSpec>, s: EdgeSpec, src: string)
    ensures Outgoing(specs + [s], src) == Outgoing(specs, src) + (if s.source == src then [EdgeOf(s)] else [])
  {
    var last := if s.source == src then [EdgeOf(s)] else [];
    var q := specs + [s];
    if specs == [] {
      assert q == [s];
      assert Outgoing(q, src) == last + Outgoing([], src);
    } else {
      var head := if specs[0].source == src then [EdgeOf(specs[0])] else [];
      assert q[0] == specs[0] && q[1..] == specs[1..] + [s];
      assert Outgoing(q, src) == head + Outgoing(specs[1..] + [s], src);
      OutgoingAppend(specs[1..], s, src);
      assert Outgoing(q, src) == head + (Outgoing(specs[1..], src) + last);
    }
  }

  /**
   * Building keeps, for every source, one edge per input edge from it, in
   * input order, with the default weight filled in; parallel edges and
   * edges to or from undeclared identifiers are kept.
   */
  lemma {:induction false} LoadEdgesOutgoing(specs: seq<EdgeSpec>, src: string)
    ensures Out(LoadEdges(specs), src) == Outgoing(specs, src)
  {
    if specs != [] {
      var pre := specs[..|specs| - 1];
      LoadEdgesOutgoing(pre, src);
      OutgoingAppend(pre, specs[|specs| - 1], src);
      assert pre + [specs[|specs| - 1]] == specs;
    }
  }

  /** The recorded key order lists every key of the edge table exactly once. */
  lemma {:induction false} SourceOrderIsKeyOrder(specs: seq<EdgeSpec>)
    ensures Distinct(SourceOrder(specs))
    ensures forall s :: s in LoadEdges(specs) <==> s in SourceOrder(specs)
  {
    if specs != [] {
      SourceOrderIsKeyOrder(specs[..|specs| - 1]);
    }
  }

  // ---------------------------------------------------------------
  // Weights, path cost and energy
  // ---------------------------------------------------------------

  /** Every edge weight is non-negative: the condition under which Dijkstra's answer is minimal. */
  ghost predicate NonNegative(edges: EdgeTable) {
    forall a, i :: a in edges && 0 <= i < |edges[a]| ==> 0.0 <= edges[a][i].weight
  }

  /** The smallest weight among the edges of `es` that lead to `b`. */
  function MinWeight(es: seq<Edge>, b: string): real
    requires b in Targets(es)
    decreases |es|
  {
    if es[0].target != b then
      MinWeight(es[1..], b)
    else if b !in Targets(es[1..]) then
      es[0].weight
    else
      var w := MinWeight(es[1..], b);
      if es[0].weight <= w then es[0].weight else w
  }

  /** MinWeight is the weight of some edge to `b`, and no edge to `b` is lighter. */
  lemma {:induction false} MinWeightIsLeast(es: seq<Edge>, b: string)
    requires b in Targets(es)
    ensures forall e :: e in es && e.target == b ==> MinWeight(es, b) <= e.weight
    ensures exists e :: e in es && e.target == b && e.weight == MinWeight(es, b)
    decreases |es|
  {
    if es[0].target != b || b in Targets(es[1..]) {
      MinWeightIsLeast(es[1..], b);
    }
    assert forall e :: e in es ==> e == es[0] || e in es[1..];
  }

  /** The cost of one step: the cheapest edge from `a` to `b`. */
  function StepCost(edges: EdgeTable, a: string, b: string): real {
    var es := Out(edges, a);
    if b in Targets(es) then MinWeight(es, b) else 0.0
  }

  /** The cost of a walk: the sum of the costs of its steps. */
  function Cost(edges: EdgeTable, p: seq<string>): real
    decreases |p|
  {
    if |p| <= 1 then 0.0
    else Cost(edges, p[..|p| - 1]) + StepCost(edges, p[|p| - 2], p[|p| - 1])
  }

  /** `p` is a walk from `start` to `end` that no other such walk undercuts when weights are non-negative. */
  ghost predicate IsShortestPath(edges: EdgeTable, start: string, end: string, p: seq<string>) {
    && IsWalkFrom(Succ(edges), p, start, end)
    && (NonNegative(edges) ==>
          forall q :: IsWalkFrom(Succ(edges), q, start, end) ==> Cost(edges, p) <= Cost(edges, q))
  }

  lemma CostAppend(edges: EdgeTable, p: seq<string>, t: string)
    requires IsWalk(Succ(edges), p) && t in Targets(Out(edges, Last(p)))
    ensures IsWalk(Succ(edges), p + [t])
    ensures Cost(edges, p + [t]) == Cost(edges, p) + MinWeight(Out(edges, Last(p)), t)
  {
    NextSucc(edges, Last(p));
    WalkAppend(Succ(edges), p, t);
    CostSnoc(edges, p, t);
  }

  lemma CostSnoc(edges: EdgeTable, p: seq<string>, t: string)
    requires p != [] && t in Targets(Out(edges, Last(p)))
    ensures Cost(edges, p + [t]) == Cost(edges, p) + MinWeight(Out(edges, Last(p)), t)
  {
    var q := p + [t];
    CostUnfold(edges, q);
    assert q[..|q| - 1] == p && q[|q| - 2] == Last(p) && q[|q| - 1] == t;
  }

  lemma CostUnfold(edges: EdgeTable, p: seq<string>)
    requires |p| >= 2
    ensures Cost(edges, p) == Cost(edges, p[..|p| - 1]) + StepCost(edges, p[|p| - 2], p[|p| - 1])
  {
  }

  lemma MinWeightNonNegative(edges: EdgeTable, a: string, b: string)
    requires NonNegative(edges) && b in Targets(Out(edges, a))
    ensures 0.0 <= MinWeight(Out(edges, a), b)
  {
    MinWeightIsLeast(Out(edges, a), b);
    var e :| e in Out(edges, a) && e.target == b && e.weight == MinWeight(Out(edges, a), b);
    var i :| 0 <= i < |Out(edges, a)| && Out(edges, a)[i] == e;
  }

  /** With non-negative weights no step costs less than zero. */
  lemma StepCostNonNegative(edges: EdgeTable, a: string, b: string)
    requires NonNegative(edges)
    ensures 0.0 <= StepCost(edges, a, b)
  {
    if b in Targets(Out(edges, a)) {
      MinWeightNonNegative(edges, a, b);
    }
  }

  lemma {:induction false} CostNonNegative(edges: EdgeTable, p: seq<string>)
    requires NonNegative(edges)
    ensures 0.0 <= Cost(edges, p)
    decreases |p|
  {
    if |p| > 1 {
      CostNonNegative(edges, p[..|p| - 1]);
      StepCostNonNegative(edges, p[|p| - 2], p[|p| - 1]);
    }
  }

  /** With non-negative weights a prefix of a walk costs no more than the walk. */
  lemma {:induction false} CostPrefix(edges: EdgeTable, p: seq<string>, k: nat)
    requires NonNegative(edges) && k <= |p|
    ensures Cost(edges, p[..k]) <= Cost(edges, p)
    decreases |p|
  {
    if k < |p| {
      var q := p[..|p| - 1];
      CostPrefix(edges, q, k);
      assert q[..k] == p[..k];
      if |p| >= 2 {
        CostUnfold(edges, p);
        StepCostNonNegative(edges, p[|p| - 2], p[|p| - 1]);
      }
    } else {
      assert p[..k] == p;
    }
  }

  /** `max(0, pb - pa)`: the privilege gained by stepping from `pa` to `pb`. */
  function Rise(pa: real, pb: real): (r: real)
    ensures 0.0 <= r && pb - pa <= r
  {
    if pb - pa > 0.0 then pb - pa else 0.0
  }

  /** The weight of the first edge of `es` that leads to `b`, or 0 when none does. */
  function FirstWeight(es: seq<Edge>, b: string): real {
    if es == [] then 0.0
    else if es[0].target == b then es[0].weight
    else FirstWeight(es[1..], b)
  }

  /** FirstWeight picks the earliest matching edge, and is 0 only by default when there is none. */
  lemma {:induction false} FirstWeightIsFirstMatch(es: seq<Edge>, b: string)
    ensures b !in Targets(es) ==> FirstWeight(es, b) == 0.0
    ensures b in Targets(es) ==>
      exists i :: 0 <= i < |es| && es[i].target == b && FirstWeight(es, b) == es[i].weight
                  && forall j :: 0 <= j < i ==> es[j].target != b
  {
    if es != [] {
      FirstWeightIsFirstMatch(es[1..], b);
      if es[0].target != b && b in Targets(es) {
        var i :| 0 <= i < |es[1..]| && es[1..][i].target == b && FirstWeight(es[1..], b) == es[1..][i].weight
                 && forall j :: 0 <= j < i ==> es[1..][j].target != b;
        assert es[i + 1].target == b;
      }
      if es[0].target == b {
        assert FirstWeight(es, b) == es[0].weight;
      }
    }
  }

  predicate Declared(nodes: NodeTable, p: seq<string>) {
    forall i :: 0 <= i < |p| ==> p[i] in nodes
  }

  /** The index of the first identifier of `p` that the node table lacks. */
  function FirstUndeclared(nodes: NodeTable, p: seq<string>): (k: nat)
    requires !Declared(nodes, p)
    ensures k < |p| && p[k] !in nodes
    ensures forall j :: 0 <= j < k ==> p[j] in nodes
  {
    if p[0] !in nodes then 0 else 1 + FirstUndeclared(nodes, p[1..])
  }

  /** The energy of one step: the privilege gained plus the weight of the first edge a→b. */
  function StepEnergy(nodes: NodeTable, edges: EdgeTable, a: string, b: string): real
    requires a in nodes && b in nodes
  {
    Rise(nodes[a].privilege, nodes[b].privilege) + FirstWeight(Out(edges, a), b)
  }

  function PathEnergy(nodes: NodeTable, edges: EdgeTable, p: seq<string>): real
    requires Declared(nodes, p)
    decreases |p|
  {
    if |p| < 2 then 0.0
    else PathEnergy(nodes, edges, p[..|p| - 1]) + StepEnergy(nodes, edges, p[|p| - 2], p[|p| - 1])
  }

  /** What scoring a path yields: 0 for fewer than two identifiers, else a `KeyError` for the first undeclared one, else the energy. */
  function EnergyOutcome(nodes: NodeTable, edges: EdgeTable, p: seq<string>): Outcome<real> {
    if |p| < 2 then Ok(0.0)
    else if !Declared(nodes, p) then KeyError(p[FirstUndeclared(nodes, p)])
    else Ok(PathEnergy(nodes, edges, p))
  }

  /** Energy is never negative when edge weights are not. */
  lemma {:induction false} PathEnergyNonNegative(nodes: NodeTable, edges: EdgeTable, p: seq<string>)
    requires Declared(nodes, p) && NonNegative(edges)
    ensures 0.0 <= PathEnergy(nodes, edges, p)
    decreases |p|
  {
    if |p| >= 2 {
      PathEnergyNonNegative(nodes, edges, p[..|p| - 1]);
      FirstWeightIsFirstMatch(Out(edges, p[|p| - 2]), p[|p| - 1]);
    }
  }

  // ---------------------------------------------------------------
  // Dijkstra's search state
  // ---------------------------------------------------------------

  /** A priority-queue entry: the cost so far, the identifier reached, and the route up to the identifier before it. */
  datatype Entry = Entry(cost: real, node: string, path: seq<string>)

  /** The entries pushed after settling a node at `cost` whose route is `path`: one per outgoing edge, in order. */
  function Pushes(cost: real, path: seq<string>, es: seq<Edge>): (r: seq<Entry>)
    ensures |r| == |es|
    ensures forall i :: 0 <= i < |es| ==> r[i] == Entry(cost + es[i].weight, es[i].target, path)
  {
    seq(|es|, i requires 0 <= i < |es| => Entry(cost + es[i].weight, es[i].target, path))
  }

  /** An entry's route extended by its node is a walk from `start` costing at most the entry's cost. */
  ghost predicate EntryOk(edges: EdgeTable, start: string, x: Entry) {
    && IsWalkFrom(Succ(edges), x.path + [x.node], start, x.node)
    && Cost(edges, x.path + [x.node]) <= x.cost
  }

  /** Some entry of `pq` is for `t` and costs at most `c`. */
  ghost predicate Queued(pq: seq<Entry>, t: string, c: real) {
    exists j :: 0 <= j < |pq| && pq[j].node == t && pq[j].cost <= c
  }

  /** For every settled node and edge out of it, the target is settled or queued at no more than the settled cost plus the edge weight. */
  ghost predicate Frontier(edges: EdgeTable, dist: map<string, real>, pq: seq<Entry>) {
    forall u, i :: u in dist && 0 <= i < |Out(edges, u)| ==>
      Out(edges, u)[i].target in dist || Queued(pq, Out(edges, u)[i].target, dist[u] + Out(edges, u)[i].weight)
  }

  ghost predicate EntriesOk(edges: EdgeTable, start: string, pq: seq<Entry>) {
    forall j :: 0 <= j < |pq| ==> EntryOk(edges, start, pq[j])
  }

  /** The settled cost of every settled node is at most the cost of any walk from `start` to it. */
  ghost predicate LowerBounds(edges: EdgeTable, start: string, dist: map<string, real>) {
    forall v, q :: v in dist && IsWalkFrom(Succ(edges), q, start, v) ==> dist[v] <= Cost(edges, q)
  }

  /** Entry `k` costs no more than any other entry. */
  predicate Least(pq: seq<Entry>, k: nat) {
    k < |pq| && forall j :: 0 <= j < |pq| ==> pq[k].cost <= pq[j].cost
  }

  /** The queue without its entry `k`. */
  function RemoveAt(pq: seq<Entry>, k: nat): (r: seq<Entry>)
    requires k < |pq|
    ensures |r| == |pq| - 1
    ensures forall j :: 0 <= j < |r| ==> r[j] == if j < k then pq[j] else pq[j + 1]
  {
    pq[..k] + pq[k + 1..]
  }

  /** A walk that starts inside `s` and ends outside it leaves `s` at some step. */
  lemma {:induction false} FirstExit(q: seq<string>, s: set<string>) returns (k: nat)
    requires |q| >= 1 && q[0] in s && Last(q) !in s
    ensures 1 <= k < |q| && q[k - 1] in s && q[k] !in s
    decreases |q|
  {
    if q[|q| - 2] in s {
      k := |q| - 1;
    } else {
      k := FirstExit(q[..|q| - 1], s);
    }
  }

  /** A walk costs at least its prefix up to some step plus the cheapest edge of that step. */
  lemma CostThroughStep(edges: EdgeTable, q: seq<string>, m: nat)
    requires IsWalk(Succ(edges), q) && NonNegative(edges) && 1 <= m < |q|
    ensures IsWalk(Succ(edges), q[..m])
    ensures q[m] in Targets(Out(edges, q[m - 1]))
    ensures Cost(edges, q[..m]) + MinWeight(Out(edges, q[m - 1]), q[m]) <= Cost(edges, q)
  {
    assert IsWalk(Succ(edges), q[..m]) by {
      WalkPrefix(Succ(edges), q, m);
    }
    assert q[m] in Targets(Out(edges, q[m - 1])) by {
      WalkStep(Succ(edges), q, m - 1);
      NextSucc(edges, q[m - 1]);
    }
    StepCostBound(edges, q, m);
  }

  /** The cost part of `CostThroughStep`, stated without the walk. */
  lemma StepCostBound(edges: EdgeTable, q: seq<string>, m: nat)
    requires NonNegative(edges) && 1 <= m < |q|
    ensures Cost(edges, q[..m]) + StepCost(edges, q[m - 1], q[m]) <= Cost(edges, q)
  {
    var r := q[..m + 1];
    assert Cost(edges, r) == Cost(edges, q[..m]) + StepCost(edges, q[m - 1], q[m]) by {
      CostUnfold(edges, r);
      assert r[..m] == q[..m] && r[m - 1] == q[m - 1] && r[m] == q[m];
    }
    CostPrefix(edges, q, m + 1);
  }

  /** The target of an edge out of a settled node, not itself settled, is queued at no more than the cheapest such edge allows. */
  lemma QueuedAcross(edges: EdgeTable, dist: map<string, real>, pq: seq<Entry>, u: string, t: string)
    requires Frontier(edges, dist, pq) && u in dist && t !in dist && t in Targets(Out(edges, u))
    ensures Queued(pq, t, dist[u] + MinWeight(Out(edges, u), t))
  {
    var es := Out(edges, u);
    MinWeightIsLeast(es, t);
    var e :| e in es && e.target == t && e.weight == MinWeight(es, t);
    var i :| 0 <= i < |es| && es[i] == e;
  }

  /**
   * The heart of Dijkstra's correctness: an entry of least cost for a node
   * not yet settled costs no more than any walk from `start` to that node.
   */
  lemma PopIsMinimal(edges: EdgeTable, start: string, dist: map<string, real>, pq: seq<Entry>, k: nat, q: seq<string>)
    requires NonNegative(edges) && Least(pq, k)
    requires start in dist && pq[k].node !in dist
    requires Frontier(edges, dist, pq) && LowerBounds(edges, start, dist)
    requires IsWalkFrom(Succ(edges), q, start, pq[k].node)
    ensures pq[k].cost <= Cost(edges, q)
  {
    var m := FirstExit(q, dist.Keys);
    var u, t := q[m - 1], q[m];
    CostThroughStep(edges, q, m);
    QueuedAcross(edges, dist, pq, u, t);
    assert IsWalkFrom(Succ(edges), q[..m], start, u);
    var j :| 0 <= j < |pq| && pq[j].node == t && pq[j].cost <= dist[u] + MinWeight(Out(edges, u), t);
    assert pq[k].cost <= pq[j].cost;
  }

  lemma QueuedAfterRemove(pq: seq<Entry>, k: nat, t: string, c: real)
    requires k < |pq| && Queued(pq, t, c) && pq[k].node != t
    ensures Queued(RemoveAt(pq, k), t, c)
  {
    var j :| 0 <= j < |pq| && pq[j].node == t && pq[j].cost <= c;
    var r := RemoveAt(pq, k);
    if j < k {
      assert r[j] == pq[j];
    } else {
      assert r[j - 1] == pq[j];
    }
  }

  lemma QueuedAfterAppend(pq: seq<Entry>, more: seq<Entry>, t: string, c: real)
    requires Queued(pq, t, c)
    ensures Queued(pq + more, t, c)
  {
    var j :| 0 <= j < |pq| && pq[j].node == t && pq[j].cost <= c;
    assert (pq + more)[j] == pq[j];
  }

  /** Dropping an entry for a node already settled keeps the frontier. */
  lemma FrontierAfterSkip(edges: EdgeTable, dist: map<string, real>, pq: seq<Entry>, k: nat)
    requires Frontier(edges, dist, pq) && k < |pq| && pq[k].node in dist
    ensures Frontier(edges, dist, RemoveAt(pq, k))
  {
    forall u, i | u in dist && 0 <= i < |Out(edges, u)| && Out(edges, u)[i].target !in dist
      ensures Queued(RemoveAt(pq, k), Out(edges, u)[i].target, dist[u] + Out(edges, u)[i].weight)
    {
      QueuedAfterRemove(pq, k, Out(edges, u)[i].target, dist[u] + Out(edges, u)[i].weight);
    }
  }

  /** Settling the popped node and pushing its edges keeps the frontier. */
  lemma FrontierAfterSettle(edges: EdgeTable, dist: map<string, real>, pq: seq<Entry>, k: nat, path: seq<string>)
    requires Frontier(edges, dist, pq) && k < |pq| && pq[k].node !in dist
    ensures var v := pq[k].node;
            Frontier(edges, dist[v := pq[k].cost], RemoveAt(pq, k) + Pushes(pq[k].cost, path, Out(edges, v)))
  {
    var v, c := pq[k].node, pq[k].cost;
    var dist' := dist[v := c];
    var rest := RemoveAt(pq, k);
    var pushed := Pushes(c, path, Out(edges, v));
    forall u, i | u in dist' && 0 <= i < |Out(edges, u)| && Out(edges, u)[i].target !in dist'
      ensures Queued(rest + pushed, Out(edges, u)[i].target, dist'[u] + Out(edges, u)[i].weight)
    {
      var e := Out(edges, u)[i];
      if u == v {
        assert (rest + pushed)[|rest| + i] == pushed[i];
      } else {
        assert Queued(pq, e.target, dist[u] + e.weight);
        QueuedAfterRemove(pq, k, e.target, dist[u] + e.weight);
        QueuedAfterAppend(rest, pushed, e.target, dist[u] + e.weight);
      }
    }
  }

  lemma EntriesOkAfterRemove(edges: EdgeTable, start: string, pq: seq<Entry>, k: nat)
    requires EntriesOk(edges, start, pq) && k < |pq|
    ensures EntriesOk(edges, start, RemoveAt(pq, k))
  {
    var r := RemoveAt(pq, k);
    forall j | 0 <= j < |r|
      ensures EntryOk(edges, start, r[j])
    {
      if j < k {
        assert r[j] == pq[j];
      } else {
        assert r[j] == pq[j + 1];
      }
    }
  }

  /** The entries pushed after settling `x` extend its walk by one edge each. */
  lemma EntriesOkPushes(edges: EdgeTable, start: string, x: Entry)
    requires EntryOk(edges, start, x)
    ensures EntriesOk(edges, start, Pushes(x.cost, x.path + [x.node], Out(edges, x.node)))
  {
    var newPath := x.path + [x.node];
    var es := Out(edges, x.node);
    var pushed := Pushes(x.cost, newPath, es);
    NextSucc(edges, x.node);
    forall i | 0 <= i < |pushed|
      ensures EntryOk(edges, start, pushed[i])
    {
      assert pushed[i].node == Targets(es)[i];
      CostAppend(edges, newPath, pushed[i].node);
      MinWeightIsLeast(es, es[i].target);
    }
  }

  lemma EntriesOkAfterAppend(edges: EdgeTable, start: string, pq: seq<Entry>, more: seq<Entry>)
    requires EntriesOk(edges, start, pq) && EntriesOk(edges, start, more)
    ensures EntriesOk(edges, start, pq + more)
  {
    forall j | 0 <= j < |pq + more|
      ensures EntryOk(edges, start, (pq + more)[j])
    {
      if j >= |pq| {
        assert (pq + more)[j] == more[j - |pq|];
      }
    }
  }

  /** Settling the least entry at its cost keeps every settled cost a lower bound. */
  lemma LowerBoundsAfterSettle(edges: EdgeTable, start: string, dist: map<string, real>, pq: seq<Entry>, k: nat)
    requires NonNegative(edges) && Least(pq, k) && pq[k].node !in dist
    requires Frontier(edges, dist, pq) && LowerBounds(edges, start, dist)
    requires dist == map[] ==> pq[k].cost == 0.0
    requires dist != map[] ==> start in dist
    ensures LowerBounds(edges, start, dist[pq[k].node := pq[k].cost])
  {
    var v := pq[k].node;
    var dist' := dist[v := pq[k].cost];
    forall w, q | w in dist' && IsWalkFrom(Succ(edges), q, start, w)
      ensures dist'[w] <= Cost(edges, q)
    {
      if w == v {
        if dist == map[] {
          CostNonNegative(edges, q);
        } else {
          PopIsMinimal(edges, start, dist, pq, k, q);
        }
      }
    }
  }

  /** With nothing queued, the settled set is closed under successors. */
  lemma FrontierClosed(edges: EdgeTable, dist: map<string, real>)
    requires Frontier(edges, dist, [])
    ensures ClosedUnder(Succ(edges), dist.Keys)
  {
    forall v, t | v in dist.Keys && t in Next(Succ(edges), v)
      ensures t in dist.Keys
    {
      NextSucc(edges, v);
      var i :| 0 <= i < |Targets(Out(edges, v))| && Targets(Out(edges, v))[i] == t;
      assert !Queued([], t, dist[v] + Out(edges, v)[i].weight);
    }
  }

  /** A walk whose cost is below every settled lower bound for its end is a shortest path. */
  lemma ShortestFromBounds(edges: EdgeTable, start: string, end: string, dist: map<string, real>, p: seq<string>)
    requires IsWalkFrom(Succ(edges), p, start, end) && end in dist && Cost(edges, p) <= dist[end]
    requires NonNegative(edges) ==> LowerBounds(edges, start, dist)
    ensures IsShortestPath(edges, start, end, p)
  {
  }

  /** `u` holds `start` and every successor of every identifier. */
  ghost predicate Covers(g: Adjacency, start: string, u: set<string>) {
    start in u && forall v, t :: t in Next(g, v) ==> t in u
  }

  /**
   * The invariant of the search loop: settled and queued identifiers stay in
   * `u`, `end` is not yet settled, the first round pops `start` at cost 0,
   * and every entry, the frontier and the settled costs are as above.
   */
  ghost predicate Search(edges: EdgeTable, start: string, end: string, u: set<string>, dist: map<string, real>, pq: seq<Entry>) {
    && dist.Keys <= u
    && (forall j :: 0 <= j < |pq| ==> pq[j].node in u)
    && end !in dist
    && (dist == map[] ==> pq == [Entry(0.0, start, [])])
    && (dist != map[] ==> start in dist)
    && EntriesOk(edges, start, pq)
    && Frontier(edges, dist, pq)
    && (NonNegative(edges) ==> LowerBounds(edges, start, dist))
  }

  lemma SearchInit(edges: EdgeTable, start: string, end: string, u: set<string>)
    requires start in u
    ensures Search(edges, start, end, u, map[], [Entry(0.0, start, [])])
  {
    assert [] + [start] == [start];
    assert IsWalkFrom(Succ(edges), [start], start, start);
  }

  /** Popping an entry for a node already settled keeps the invariant. */
  lemma SearchSkip(edges: EdgeTable, start: string, end: string, u: set<string>, dist: map<string, real>, pq: seq<Entry>, k: nat)
    requires Search(edges, start, end, u, dist, pq) && k < |pq| && pq[k].node in dist
    ensures Search(edges, start, end, u, dist, RemoveAt(pq, k))
  {
    EntriesOkAfterRemove(edges, start, pq, k);
    FrontierAfterSkip(edges, dist, pq, k);
  }

  /** Settling the least entry, when it is not `end`, and pushing its edges keeps the invariant. */
  lemma SearchSettle(edges: EdgeTable, start: string, end: string, u: set<string>, dist: map<string, real>, pq: seq<Entry>, k: nat)
    requires Search(edges, start, end, u, dist, pq) && Covers(Succ(edges), start, u)
    requires Least(pq, k) && pq[k].node !in dist && pq[k].node != end
    ensures var x := pq[k];
            Search(edges, start, end, u, dist[x.node := x.cost],
                   RemoveAt(pq, k) + Pushes(x.cost, x.path + [x.node], Out(edges, x.node)))
  {
    var x := pq[k];
    var rest := RemoveAt(pq, k);
    var pushed := Pushes(x.cost, x.path + [x.node], Out(edges, x.node));
    EntriesOkAfterRemove(edges, start, pq, k);
    EntriesOkPushes(edges, start, x);
    EntriesOkAfterAppend(edges, start, rest, pushed);
    FrontierAfterSettle(edges, dist, pq, k, x.path + [x.node]);
    if NonNegative(edges) {
      LowerBoundsAfterSettle(edges, start, dist, pq, k);
    }
    NextSucc(edges, x.node);
    forall j | 0 <= j < |rest + pushed|
      ensures (rest + pushed)[j].node in u
    {
      if j < |rest| {
        assert (rest + pushed)[j] == rest[j];
      } else {
        assert (rest + pushed)[j].node == Targets(Out(edges, x.node))[j - |rest|];
      }
    }
  }

  /** When the least entry is for `end`, its route is a shortest path. */
  lemma SearchFound(edges: EdgeTable, start: string, end: string, u: set<string>, dist: map<string, real>, pq: seq<Entry>, k: nat)
    requires Search(edges, start, end, u, dist, pq)
    requires Least(pq, k) && pq[k].node == end
    ensures IsShortestPath(edges, start, end, pq[k].path + [end])
  {
    var x := pq[k];
    assert EntryOk(edges, start, x);
    if NonNegative(edges) {
      LowerBoundsAfterSettle(edges, start, dist, pq, k);
    }
    ShortestFromBounds(edges, start, end, dist[end := x.cost], x.path + [end]);
  }

  /**
   * Every queued route is made of settled identifiers, none twice: a route is
   * only ever extended by an identifier not yet settled.
   */
  ghost predicate SimpleRoutes(settled: set<string>, pq: seq<Entry>) {
    forall j :: 0 <= j < |pq| ==> Distinct(pq[j].path) && forall v :: v in pq[j].path ==> v in settled
  }

  lemma SimpleRoutesAfterRemove(settled: set<string>, pq: seq<Entry>, k: nat)
    requires SimpleRoutes(settled, pq) && k < |pq|
    ensures SimpleRoutes(settled, RemoveAt(pq, k))
  {
    var r := RemoveAt(pq, k);
    forall j | 0 <= j < |r|
      ensures Distinct(r[j].path) && forall v :: v in r[j].path ==> v in settled
    {
      assert r[j] == pq[j] || r[j] == pq[j + 1];
    }
  }

  /** The route to an identifier not yet settled, extended by it, repeats nothing. */
  lemma ExtendedRouteSimple(settled: set<string>, pq: seq<Entry>, k: nat)
    requires SimpleRoutes(settled, pq) && k < |pq| && pq[k].node !in settled
    ensures Distinct(pq[k].path + [pq[k].node])
  {
    DistinctAppend(pq[k].path, pq[k].node);
  }

  /** Settling entry `k` and queueing its extended route keeps every route simple and settled. */
  lemma SimpleRoutesAfterSettle(settled: set<string>, pq: seq<Entry>, k: nat, es: seq<Edge>)
    requires SimpleRoutes(settled, pq) && k < |pq| && pq[k].node !in settled
    ensures var x := pq[k];
            SimpleRoutes(settled + {x.node}, RemoveAt(pq, k) + Pushes(x.cost, x.path + [x.node], es))
  {
    var x := pq[k];
    var rest: seq<Entry> := RemoveAt(pq, k);
    var pushed: seq<Entry> := Pushes(x.cost, x.path + [x.node], es);
    SimpleRoutesAfterRemove(settled, pq, k);
    ExtendedRouteSimple(settled, pq, k);
    forall j | 0 <= j < |rest + pushed|
      ensures Distinct((rest + pushed)[j].path)
      ensures forall v: string :: v in (rest + pushed)[j].path ==> v in settled + {x.node}
    {
      if j < |rest| {
        assert (rest + pushed)[j] == rest[j];
      } else {
        assert (rest + pushed)[j].path == x.path + [x.node];
      }
    }
  }

  /** The whole loop invariant of the search: `Search` together with simple, settled routes. */
  ghost predicate Dijkstra(edges: EdgeTable, start: string, end: string, u: set<string>, dist: map<string, real>, pq: seq<Entry>) {
    Search(edges, start, end, u, dist, pq) && SimpleRoutes(dist.Keys, pq)
  }

  lemma DijkstraInit(edges: EdgeTable, start: string, end: string, u: set<string>)
    requires start in u
    ensures Dijkstra(edges, start, end, u, map[], [Entry(0.0, start, [])])
  {
    SearchInit(edges, start, end, u);
  }

  lemma DijkstraSkip(edges: EdgeTable, start: string, end: string, u: set<string>, dist: map<string, real>, pq: seq<Entry>, k: nat)
    requires Dijkstra(edges, start, end, u, dist, pq) && k < |pq| && pq[k].node in dist
    ensures Dijkstra(edges, start, end, u, dist, RemoveAt(pq, k))
  {
    SearchSkip(edges, start, end, u, dist, pq, k);
    SimpleRoutesAfterRemove(dist.Keys, pq, k);
  }

  /** When the least entry is for `end`, its route extended by `end` is a simple shortest path. */
  lemma DijkstraFound(edges: EdgeTable, start: string, end: string, u: set<string>, dist: map<string, real>, pq: seq<Entry>, k: nat)
    requires Dijkstra(edges, start, end, u, dist, pq)
    requires Least(pq, k) && pq[k].node == end
    ensures IsShortestPath(edges, start, end, pq[k].path + [end]) && Distinct(pq[k].path + [end])
  {
    SearchFound(edges, start, end, u, dist, pq, k);
    ExtendedRouteSimple(dist.Keys, pq, k);
  }

  lemma DijkstraSettle(edges: EdgeTable, start: string, end: string, u: set<string>, dist: map<string, real>, pq: seq<Entry>, k: nat)
    requires Dijkstra(edges, start, end, u, dist, pq) && Covers(Succ(edges), start, u)
    requires Least(pq, k) && pq[k].node !in dist && pq[k].node != end
    ensures dist.Keys <= u && pq[k].node in u
    ensures var x := pq[k];
            Dijkstra(edges, start, end, u, dist[x.node := x.cost],
                     RemoveAt(pq, k) + Pushes(x.cost, x.path + [x.node], Out(edges, x.node)))
  {
    var x := pq[k];
    SearchSettle(edges, start, end, u, dist, pq, k);
    SimpleRoutesAfterSettle(dist.Keys, pq, k, Out(edges, x.node));
    assert dist[x.node := x.cost].Keys == dist.Keys + {x.node};
  }

  /** With nothing queued, the settled set holds `start`, lacks `end`, and is closed under successors. */
  lemma DijkstraDone(edges: EdgeTable, start: string, end: string, u: set<string>, dist: map<string, real>)
    requires Dijkstra(edges, start, end, u, dist, [])
    ensures start in dist.Keys && end !in dist.Keys
    ensures ClosedUnder(Succ(edges), dist.Keys)
  {
    FrontierClosed(edges, dist);
  }

  /** The index of an entry of least cost; Python's heap pops the least `(cost, node, path)` tuple. */
  method MinCostIndex(pq: seq<Entry>) returns (k: nat)
    requires pq != []
    ensures k < |pq|
    ensures forall j :: 0 <= j < |pq| ==> pq[k].cost <= pq[j].cost
  {
    k := 0;
    var j := 1;
    while j < |pq|
      invariant 1 <= j <= |pq| && k < j
      invariant forall i :: 0 <= i < j ==> pq[k].cost <= pq[i].cost
    {
      if pq[j].cost < pq[k].cost {
        k := j;
      }
      j := j + 1;
    }
  }

  // ---------------------------------------------------------------
  // The graph object
  // ---------------------------------------------------------------

  class Graph {
    var nodes: NodeTable
    var edges: EdgeTable
    /** The keys of `edges` in insertion order, the order Python iterates the dict in. */
    var sources: seq<string>
    var highValueNodes: seq<string>

    ghost predicate Valid()
      reads this
    {
      Distinct(sources) && forall s :: s in edges <==> s in sources
    }

    constructor ()
      ensures Valid()
      ensures nodes == map[] && edges == map[] && sources == [] && highValueNodes == []
    {
      nodes := map[];
      edges := map[];
      sources := [];
      highValueNodes := [];
    }

    /**
     * Replaces the whole graph by the one the specification describes:
     * nothing from an earlier build survives.
     */
    method Build(spec: GraphSpec)
      modifies this
      ensures Valid()
      ensures nodes == LoadNodes(spec.nodes)
      ensures edges == LoadEdges(spec.edges) && sources == SourceOrder(spec.edges)
      ensures highValueNodes == spec.highValueNodes
    {
      var ns: NodeTable := map[];
      var i := 0;
      while i < |spec.nodes|
        invariant 0 <= i <= |spec.nodes|
        invariant ns == LoadNodes(spec.nodes[..i])
      {
        var n := spec.nodes[i];
        ns := ns[n.name := Node(n.name, n.privilege.GetOr(DefaultPrivilege))];
        assert spec.nodes[..i + 1][..i] == spec.nodes[..i];
        i := i + 1;
      }
      assert spec.nodes[..i] == spec.nodes;

      var es: EdgeTable := map[];
      var order: seq<string> := [];
      i := 0;
      while i < |spec.edges|
        invariant 0 <= i <= |spec.edges|
        invariant es == LoadEdges(spec.edges[..i]) && order == SourceOrder(spec.edges[..i])
      {
        var e := spec.edges[i];
        var src, tgt := e.source, e.target;
        var weight := e.weight.GetOr(DefaultWeight);
        LoadEdgesStep(spec.edges, i);
        if src !in es {
          es := es[src := []];
          order := order + [src];
        }
        es := es[src := es[src] + [Edge(src, tgt, weight)]];
        i := i + 1;
      }
      assert spec.edges[..i] == spec.edges;
      nodes, edges, sources, highValueNodes := ns, es, order, spec.highValueNodes;
      SourceOrderIsKeyOrder(spec.edges);
    }

    /**
     * The identifiers reachable from `start`, found with an explicit stack and
     * a visited set; `expanded` records, in order, each identifier whose
     * successors were pushed.
     */
    method ReachableNodes(start: string) returns (visited: set<string>, ghost expanded: seq<string>)
      ensures forall n :: n in visited <==> Reaches(Succ(edges), start, n)
      ensures Distinct(expanded) && forall n :: n in expanded <==> n in visited
    {
      ghost var g := Succ(edges);
      ghost var u := Universe(g, start);
      visited := {};
      expanded := [];
      var stack := [start];
      WorklistInit(g, start);
      while stack != []
        invariant visited <= u && forall j :: 0 <= j < |stack| ==> stack[j] in u
        invariant Worklist(g, start, visited, stack)
        invariant Distinct(expanded) && forall n :: n in expanded <==> n in visited
        decreases |u - visited|, |stack|
      {
        var node := stack[|stack| - 1];
        if node in visited {
          WorklistSkip(g, start, visited, stack);
          stack := stack[..|stack| - 1];
          continue;
        }
        VisitShrinks(u, visited, node);
        WorklistExpand(g, start, visited, stack);
        NextSucc(edges, node);
        visited := visited + {node};
        DistinctAppend(expanded, node);
        expanded := expanded + [node];
        stack := stack[..|stack| - 1] + Targets(Out(edges, node));
      }
      WorklistDone(g, start, visited);
    }

    /**
     * Dijkstra's search from `start` to `end`: the route to `end` as a list
     * of identifiers, or `[]` when either end is undeclared or `end` cannot
     * be reached.
     */
    method ShortestPath(start: string, end: string) returns (p: seq<string>)
      ensures start !in nodes || end !in nodes ==> p == []
      ensures start in nodes && end in nodes ==> (p == [] <==> !Reaches(Succ(edges), start, end))
      ensures p != [] ==> IsShortestPath(edges, start, end, p) && Distinct(p)
      ensures start in nodes && end == start ==> p == [start]
    {
      if start !in nodes || end !in nodes {
        return [];
      }
      ghost var g := Succ(edges);
      ghost var u := Universe(g, start);
      ghost var dist: map<string, real> := map[];
      var pq := [Entry(0.0, start, [])];
      var visited: set<string> := {};
      DijkstraInit(edges, start, end, u);
      while pq != []
        invariant visited == dist.Keys
        invariant Dijkstra(edges, start, end, u, dist, pq)
        decreases |u - visited|, |pq|
      {
        var k := MinCostIndex(pq);
        var top := pq[k];
        if top.node in visited {
          DijkstraSkip(edges, start, end, u, dist, pq, k);
          pq := RemoveAt(pq, k);
          continue;
        }
        var newPath := top.path + [top.node];
        if top.node == end {
          DijkstraFound(edges, start, end, u, dist, pq, k);
          return newPath;
        }
        DijkstraSettle(edges, start, end, u, dist, pq, k);
        VisitShrinks(u, visited, top.node);
        visited := visited + {top.node};
        dist := dist[top.node := top.cost];
        pq := RemoveAt(pq, k) + Pushes(top.cost, newPath, Out(edges, top.node));
      }
      DijkstraDone(edges, start, end, u, dist);
      if Reaches(g, start, end) {
        ClosedContainsReachable(g, visited, start, end);
      }
      return [];
    }

    /** Energy of a path: privilege rises plus first-edge weights; a `KeyError` for an undeclared identifier. */
    method ComputePathEnergy(path: seq<string>) returns (r: Outcome<real>)
      ensures r == EnergyOutcome(nodes, edges, path)
    {
      if |path| < 2 {
        return Ok(0.0);
      }
      var energy := 0.0;
      var i := 0;
      while i < |path| - 1
        invariant 0 <= i <= |path| - 1
        invariant forall j :: 0 <= j < i ==> path[j] in nodes
        invariant i > 0 ==> path[i] in nodes
        invariant energy == if i == 0 then 0.0 else PathEnergy(nodes, edges, path[..i + 1])
      {
        var a, b := path[i], path[i + 1];
        if a !in nodes {
          return KeyError(a);
        }
        if b !in nodes {
          return KeyError(b);
        }
        var pa, pb := nodes[a].privilege, nodes[b].privilege;
        energy := energy + Rise(pa, pb);
        var es := Out(edges, a);
        ghost var base := energy;
        var j := 0;
        while j < |es|
          invariant 0 <= j <= |es|
          invariant FirstWeight(es, b) == FirstWeight(es[j..], b)
          invariant energy == base
        {
          if es[j].target == b {
            energy := energy + es[j].weight;
            break;
          }
          assert es[j..][1..] == es[j + 1..];
          j := j + 1;
        }
        assert energy == base + FirstWeight(es, b);
        assert path[..i + 2][..i + 1] == path[..i + 1];
        i := i + 1;
      }
      assert path[..i + 1] == path;
      return Ok(energy);
    }
  }
}
