/**
 * The attacker's view of the privilege graph: from every high-value
 * identifier, a shortest route to each declared identifier it can reach,
 * scored by escalation energy, and a summary of those routes.
 */
module BloodHoundRed {
  import opened Outcomes
  import opened Digraph
  import opened BloodHoundGraph
  import Stats

  /** One route an attacker can take, its escalation energy and a note naming its ends. */
  datatype AttackPath = AttackPath(path: seq<string>, energy: real, notes: string)

  /** `count`, `max_energy`, `avg_energy` and `most_critical_path` (absent when there are no routes). */
  datatype Summary = Summary(count: nat, maxEnergy: real, avgEnergy: real, mostCriticalPath: Option<seq<string>>)

  /** What `process` returns: the organ's name, every route in order, and the summary. */
  datatype Report = Report(organ: string, attackPaths: seq<AttackPath>, summary: Summary)

  const OrganName: string := "bloodhound_red"

  function EscalationNote(start: string, end: string): string {
    "Privilege escalation from " + start + " → " + end
  }

  /** The identifier a route ends at. */
  function EndOf(a: AttackPath): string {
    if a.path == [] then "" else Last(a.path)
  }

  function Ends(paths: seq<AttackPath>): (r: seq<string>)
    ensures |r| == |paths|
    ensures forall i :: 0 <= i < |paths| ==> r[i] == EndOf(paths[i])
  {
    seq(|paths|, i requires 0 <= i < |paths| => EndOf(paths[i]))
  }

  function Energies(paths: seq<AttackPath>): (r: seq<real>)
    ensures |r| == |paths|
    ensures forall i :: 0 <= i < |paths| ==> r[i] == paths[i].energy
  {
    seq(|paths|, i requires 0 <= i < |paths| => paths[i].energy)
  }

  // ---------------------------------------------------------------
  // What the routes are
  // ---------------------------------------------------------------

  /** `n` is a target of escalation from `start`: both declared, distinct, and `n` reachable. */
  ghost predicate Escalates(nodes: NodeTable, edges: EdgeTable, start: string, n: string) {
    start in nodes && n in nodes && n != start && Reaches(Succ(edges), start, n)
  }

  ghost function Escalations(nodes: NodeTable, edges: EdgeTable, start: string): set<string> {
    set n | n in nodes.Keys && Escalates(nodes, edges, start, n)
  }

  /** A route from `start`: a shortest path to its end, repeating no identifier, scored as the graph scores it, with the escalation note. */
  ghost predicate Record(nodes: NodeTable, edges: EdgeTable, start: string, a: AttackPath) {
    && IsShortestPath(edges, start, EndOf(a), a.path)
    && Distinct(a.path)
    && EnergyOutcome(nodes, edges, a.path) == Ok(a.energy)
    && a.notes == EscalationNote(start, EndOf(a))
  }

  /** The routes found from one high-value identifier: one per escalation target, in some order. */
  ghost predicate Block(nodes: NodeTable, edges: EdgeTable, start: string, block: seq<AttackPath>) {
    && (forall i :: 0 <= i < |block| ==> Record(nodes, edges, start, block[i]))
    && Distinct(Ends(block))
    && (forall n :: n in Ends(block) <==> Escalates(nodes, edges, start, n))
  }

  /** The routes for a list of high-value identifiers: one block per entry, entries in list order. */
  ghost predicate AttackPathsFor(nodes: NodeTable, edges: EdgeTable, hv: seq<string>, paths: seq<AttackPath>)
    decreases |hv|
  {
    if hv == [] then paths == []
    else exists k :: 0 <= k <= |paths|
           && AttackPathsFor(nodes, edges, hv[..|hv| - 1], paths[..k])
           && Block(nodes, edges, Last(hv), paths[k..])
  }

  /** Each route starts at `start`, ends at one of its escalation targets, and is scored without error. */
  lemma BlockRoutes(nodes: NodeTable, edges: EdgeTable, start: string, block: seq<AttackPath>, i: nat)
    requires Block(nodes, edges, start, block) && i < |block|
    ensures |block[i].path| >= 2 && block[i].path[0] == start && Last(block[i].path) != start
    ensures Escalates(nodes, edges, start, Last(block[i].path))
    ensures Declared(nodes, block[i].path) && block[i].energy == PathEnergy(nodes, edges, block[i].path)
  {
    assert Ends(block)[i] in Ends(block);
  }

  /**
   * Scoring the routes from `start` can stop at `key`: `key` is an undeclared
   * identifier on a shortest path, repeating no identifier, from `start` to
   * one of its escalation targets.
   */
  ghost predicate ScoringFails(nodes: NodeTable, edges: EdgeTable, start: string, key: string) {
    exists n, p :: && Escalates(nodes, edges, start, n) && IsShortestPath(edges, start, n, p) && Distinct(p)
                   && key in p && key !in nodes
  }

  /** An undeclared identifier on a simple shortest path to an escalation target makes scoring fail. */
  lemma ScoringFailsOn(nodes: NodeTable, edges: EdgeTable, start: string, end: string, p: seq<string>, k: nat)
    requires start in nodes && end in nodes && end != start
    requires IsShortestPath(edges, start, end, p) && Distinct(p) && k < |p| && p[k] !in nodes
    ensures ScoringFails(nodes, edges, start, p[k])
  {
    assert Escalates(nodes, edges, start, end);
  }

  /** An undeclared high-value identifier contributes no route. */
  lemma UndeclaredStartContributesNothing(nodes: NodeTable, edges: EdgeTable, start: string, block: seq<AttackPath>)
    requires start !in nodes && Block(nodes, edges, start, block)
    ensures block == []
  {
    assert block == [] || Escalates(nodes, edges, start, Ends(block)[0]);
  }

  ghost function EscalationCount(nodes: NodeTable, edges: EdgeTable, hv: seq<string>): nat
    decreases |hv|
  {
    if hv == [] then 0
    else EscalationCount(nodes, edges, hv[..|hv| - 1]) + |Escalations(nodes, edges, Last(hv))|
  }

  /** A block holds exactly one route per escalation target. */
  lemma BlockSize(nodes: NodeTable, edges: EdgeTable, start: string, block: seq<AttackPath>)
    requires Block(nodes, edges, start, block)
    ensures |block| == |Escalations(nodes, edges, start)|
  {
    DistinctCard(Ends(block));
    assert (set x | x in Ends(block)) == Escalations(nodes, edges, start);
  }

  /** Each entry of the high-value list contributes one route per escalation target, duplicates included. */
  lemma {:induction false} AttackPathCount(nodes: NodeTable, edges: EdgeTable, hv: seq<string>, paths: seq<AttackPath>)
    requires AttackPathsFor(nodes, edges, hv, paths)
    ensures |paths| == EscalationCount(nodes, edges, hv)
    decreases |hv|
  {
    if hv != [] {
      var k :| 0 <= k <= |paths|
               && AttackPathsFor(nodes, edges, hv[..|hv| - 1], paths[..k])
               && Block(nodes, edges, Last(hv), paths[k..]);
      AttackPathCount(nodes, edges, hv[..|hv| - 1], paths[..k]);
      BlockSize(nodes, edges, Last(hv), paths[k..]);
    }
  }

  /** Adding entries to the high-value list never removes routes. */
  lemma {:induction false} EscalationCountPrefix(nodes: NodeTable, edges: EdgeTable, hv: seq<string>, a: nat, b: nat)
    requires a <= b <= |hv|
    ensures EscalationCount(nodes, edges, hv[..a]) <= EscalationCount(nodes, edges, hv[..b])
    decreases b - a
  {
    if a < b {
      assert hv[..b][..b - 1] == hv[..b - 1];
      EscalationCountPrefix(nodes, edges, hv, a, b - 1);
    }
  }

  /** The routes of all entries but the last, then the block of the last entry. */
  lemma SplitLast(nodes: NodeTable, edges: EdgeTable, hv: seq<string>, paths: seq<AttackPath>) returns (m: nat)
    requires AttackPathsFor(nodes, edges, hv, paths) && hv != []
    ensures m <= |paths|
    ensures AttackPathsFor(nodes, edges, hv[..|hv| - 1], paths[..m])
    ensures Block(nodes, edges, Last(hv), paths[m..])
  {
    m :| 0 <= m <= |paths|
         && AttackPathsFor(nodes, edges, hv[..|hv| - 1], paths[..m])
         && Block(nodes, edges, Last(hv), paths[m..]);
  }

  /**
   * Entry `i` of the high-value list owns the slice `paths[j..k]`, a full
   * block of routes from it, placed after the routes of the entries before it.
   */
  lemma {:induction false} EntryBlock(nodes: NodeTable, edges: EdgeTable, hv: seq<string>, paths: seq<AttackPath>, i: nat)
    returns (j: nat, k: nat)
    requires AttackPathsFor(nodes, edges, hv, paths) && i < |hv|
    ensures j == EscalationCount(nodes, edges, hv[..i]) && k == EscalationCount(nodes, edges, hv[..i + 1])
    ensures j <= k <= |paths| && Block(nodes, edges, hv[i], paths[j..k])
    decreases |hv|
  {
    var h := |hv| - 1;
    var m := SplitLast(nodes, edges, hv, paths);
    if i == h {
      AttackPathCount(nodes, edges, hv[..h], paths[..m]);
      AttackPathCount(nodes, edges, hv, paths);
      assert hv[..i + 1] == hv && hv[i] == Last(hv);
      assert paths[m..|paths|] == paths[m..];
      j, k := m, |paths|;
    } else {
      j, k := EntryBlock(nodes, edges, hv[..h], paths[..m], i);
      assert hv[..h][..i] == hv[..i] && hv[..h][..i + 1] == hv[..i + 1] && hv[..h][i] == hv[i];
      assert paths[..m][j..k] == paths[j..k];
    }
  }

  /** A high-value identifier listed twice, anywhere in the list, yields two full, separate blocks of routes from it. */
  lemma RepeatedStart(nodes: NodeTable, edges: EdgeTable, hv: seq<string>, paths: seq<AttackPath>, i1: nat, i2: nat)
    requires AttackPathsFor(nodes, edges, hv, paths)
    requires i1 < i2 < |hv| && hv[i1] == hv[i2]
    ensures exists j1, k1, j2, k2 :: 0 <= j1 <= k1 <= j2 <= k2 <= |paths|
              && Block(nodes, edges, hv[i1], paths[j1..k1]) && Block(nodes, edges, hv[i1], paths[j2..k2])
  {
    var j1, k1 := EntryBlock(nodes, edges, hv, paths, i1);
    var j2, k2 := EntryBlock(nodes, edges, hv, paths, i2);
    EscalationCountPrefix(nodes, edges, hv, i1 + 1, i2);
  }

  // ---------------------------------------------------------------
  // Summary
  // ---------------------------------------------------------------

  /**
   * The summary of a list of routes: all zero and no path for none;
   * otherwise the count, the first maximal energy with its path, and the
   * mean energy.
   */
  function Summarize(paths: seq<AttackPath>): (s: Summary)
    ensures paths == [] ==> s == Summary(0, 0.0, 0.0, None)
    ensures paths != [] ==>
      && s.count == |paths|
      && (forall i :: 0 <= i < |paths| ==> paths[i].energy <= s.maxEnergy)
      && exists k :: 0 <= k < |paths| && s.maxEnergy == paths[k].energy
                     && s.mostCriticalPath == Some(paths[k].path)
                     && forall j :: 0 <= j < k ==> paths[j].energy < s.maxEnergy
  {
    if paths == [] then Summary(0, 0.0, 0.0, None)
    else
      var es := Energies(paths);
      var k := Stats.FirstMaxIndex(es);
      Summary(|paths|, es[k], Stats.Average(es), Some(paths[k].path))
  }

  /** The mean energy never exceeds the maximal one, and with non-negative energies it is non-negative. */
  lemma SummaryAverage(paths: seq<AttackPath>)
    requires paths != []
    ensures Summarize(paths).avgEnergy <= Summarize(paths).maxEnergy
    ensures (forall i :: 0 <= i < |paths| ==> 0.0 <= paths[i].energy) ==> 0.0 <= Summarize(paths).avgEnergy
  {
    var es := Energies(paths);
    Stats.AverageAtMostMax(es);
    if forall i :: 0 <= i < |paths| ==> 0.0 <= paths[i].energy {
      Stats.SumAtLeast(es, 0.0);
    }
  }

  // ---------------------------------------------------------------
  // The organ
  // ---------------------------------------------------------------

  /**
   * The loop state of `AttackPathsFrom`: the routes found so far are records,
   * one per escalation target of `reach` already taken out of `todo`.
   */
  ghost predicate Partial(nodes: NodeTable, edges: EdgeTable, start: string, reach: set<string>, todo: set<string>,
                          block: seq<AttackPath>) {
    && todo <= reach
    && (forall j :: 0 <= j < |block| ==> Record(nodes, edges, start, block[j]))
    && Distinct(Ends(block))
    && (forall n :: n in Ends(block) <==> n in reach && n !in todo && Escalates(nodes, edges, start, n))
  }

  /** Taking out an identifier that is no escalation target adds no route. */
  lemma PartialSkip(nodes: NodeTable, edges: EdgeTable, start: string, reach: set<string>, todo: set<string>,
                    block: seq<AttackPath>, end: string)
    requires Partial(nodes, edges, start, reach, todo, block) && end in todo
    requires !Escalates(nodes, edges, start, end)
    ensures Partial(nodes, edges, start, reach, todo - {end}, block)
  {
  }

  /** Taking out an escalation target adds its route. */
  lemma PartialAdd(nodes: NodeTable, edges: EdgeTable, start: string, reach: set<string>, todo: set<string>,
                   block: seq<AttackPath>, end: string, a: AttackPath)
    requires Partial(nodes, edges, start, reach, todo, block) && end in todo
    requires Escalates(nodes, edges, start, end) && a.path != [] && Last(a.path) == end && Record(nodes, edges, start, a)
    ensures Partial(nodes, edges, start, reach, todo - {end}, block + [a])
  {
    assert Ends(block + [a]) == Ends(block) + [end];
    DistinctAppend(Ends(block), end);
  }

  /** Once every reachable identifier is taken out, the routes form the block of `start`. */
  lemma PartialDone(nodes: NodeTable, edges: EdgeTable, start: string, reach: set<string>, block: seq<AttackPath>)
    requires Partial(nodes, edges, start, reach, {}, block)
    requires forall n :: n in reach <==> Reaches(Succ(edges), start, n)
    ensures Block(nodes, edges, start, block)
  {
  }

  /**
   * The routes from `start` in `g`, one per identifier of its reachable set
   * taken in an unspecified order (the iteration order of a Python set); a
   * `KeyError` when scoring a route meets an undeclared identifier.
   */
  method AttackPathsFrom(g: Graph, start: string) returns (r: Outcome<seq<AttackPath>>)
    ensures r.Ok? ==> Block(g.nodes, g.edges, start, r.value)
    ensures r.KeyError? ==> start in g.nodes && r.key !in g.nodes && ScoringFails(g.nodes, g.edges, start, r.key)
  {
    var reach;
    ghost var expanded;
    reach, expanded := g.ReachableNodes(start);
    var todo := reach;
    var block: seq<AttackPath> := [];
    while todo != {}
      invariant Partial(g.nodes, g.edges, start, reach, todo, block)
      decreases |todo|
    {
      var end :| end in todo;
      if start == end {
        PartialSkip(g.nodes, g.edges, start, reach, todo, block, end);
        todo := todo - {end};
        continue;
      }
      var path := g.ShortestPath(start, end);
      if path == [] {
        PartialSkip(g.nodes, g.edges, start, reach, todo, block, end);
        todo := todo - {end};
        continue;
      }
      var energy := g.ComputePathEnergy(path);
      if energy.KeyError? {
        var k := FirstUndeclared(g.nodes, path);
        ScoringFailsOn(g.nodes, g.edges, start, end, path, k);
        return KeyError(energy.key);
      }
      var a := AttackPath(path, energy.value, EscalationNote(start, end));
      PartialAdd(g.nodes, g.edges, start, reach, todo, block, end, a);
      todo := todo - {end};
      block := block + [a];
    }
    PartialDone(g.nodes, g.edges, start, reach, block);
    return Ok(block);
  }

  class RedOrgan {
    const name: string
    /** The graph engine, rebuilt from the input on every call. */
    const graph: Graph

    constructor ()
      ensures name == OrganName && fresh(graph)
    {
      name := OrganName;
      graph := new Graph();
    }

    /**
     * Rebuilds the graph from `data`, then collects, for each high-value
     * entry in list order, the routes from it; a `KeyError` from scoring
     * stops the whole computation.
     */
    method ComputeAttackPaths(data: GraphSpec) returns (r: Outcome<seq<AttackPath>>)
      modifies graph
      ensures graph.Valid()
      ensures graph.nodes == LoadNodes(data.nodes) && graph.edges == LoadEdges(data.edges)
      ensures graph.sources == SourceOrder(data.edges) && graph.highValueNodes == data.highValueNodes
      ensures r.Ok? ==> AttackPathsFor(graph.nodes, graph.edges, data.highValueNodes, r.value)
      ensures r.KeyError? ==>
        exists s :: s in data.highValueNodes && ScoringFails(graph.nodes, graph.edges, s, r.key)
    {
      graph.Build(data);
      var hv := graph.highValueNodes;
      var paths: seq<AttackPath> := [];
      var i := 0;
      while i < |hv|
        invariant 0 <= i <= |hv| && hv == data.highValueNodes
        invariant graph.Valid()
        invariant graph.nodes == LoadNodes(data.nodes) && graph.edges == LoadEdges(data.edges)
        invariant graph.sources == SourceOrder(data.edges) && graph.highValueNodes == data.highValueNodes
        invariant AttackPathsFor(graph.nodes, graph.edges, hv[..i], paths)
      {
        var block := AttackPathsFrom(graph, hv[i]);
        if block.KeyError? {
          assert hv[i] in data.highValueNodes;
          return KeyError(block.key);
        }
        assert hv[..i + 1][..i] == hv[..i];
        assert (paths + block.value)[..|paths|] == paths;
        assert (paths + block.value)[|paths|..] == block.value;
        paths := paths + block.value;
        i := i + 1;
      }
      assert hv[..i] == hv;
      return Ok(paths);
    }

    /** The organ's report: every route in the order computed, and their summary. */
    method Process(data: GraphSpec) returns (r: Outcome<Report>)
      modifies graph
      ensures graph.Valid()
      ensures graph.nodes == LoadNodes(data.nodes) && graph.edges == LoadEdges(data.edges)
      ensures graph.sources == SourceOrder(data.edges) && graph.highValueNodes == data.highValueNodes
      ensures r.Ok? ==>
        && r.value.organ == name
        && AttackPathsFor(graph.nodes, graph.edges, data.highValueNodes, r.value.attackPaths)
        && r.value.summary == Summarize(r.value.attackPaths)
      ensures r.KeyError? ==>
        exists s :: s in data.highValueNodes && ScoringFails(graph.nodes, graph.edges, s, r.key)
    {
      var paths := ComputeAttackPaths(data);
      if paths.KeyError? {
        return KeyError(paths.key);
      }
      return Ok(Report(name, paths.value, Summarize(paths.value)));
    }
  }
}
