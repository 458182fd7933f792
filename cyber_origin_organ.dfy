/**
 * The defender's view of the privilege graph: the reverse adjacency, the
 * identifiers from which each high-value identifier can be reached, a
 * shortest route from each of them into it scored by stability gain, and a
 * summary of those routes.
 */
module BloodHoundBlue {
  import opened Outcomes
  import opened Digraph
  import opened BloodHoundGraph
  import Stats

  /** A route whose first identifier, once fixed, cuts an attacker's way to a high-value identifier. */
  datatype RemediationPath = RemediationPath(path: seq<string>, stabilityGain: real, notes: string)

  /** `count`, `max_gain`, `avg_gain` and `most_impactful_path` (absent when there are no routes). */
  datatype Summary = Summary(count: nat, maxGain: real, avgGain: real, mostImpactfulPath: Option<seq<string>>)

  datatype Report = Report(organ: string, remediationPaths: seq<RemediationPath>, summary: Summary)

  const OrganName: string := "bloodhound_blue"

  function RemediationNote(node: string, hv: string): string {
    "Fixing " + node + " reduces attack surface toward " + hv
  }

  // ---------------------------------------------------------------
  // Reverse adjacency
  // ---------------------------------------------------------------

  /** One forward edge as the reverse pass meets it: the key it is stored under and its target. */
  datatype Link = Link(src: string, dst: string)

  function LinksFrom(src: string, es: seq<Edge>): (r: seq<Link>)
    ensures |r| == |es|
    ensures forall i :: 0 <= i < |es| ==> r[i] == Link(src, es[i].target)
  {
    seq(|es|, i requires 0 <= i < |es| => Link(src, es[i].target))
  }

  /** Every edge in the order the reverse pass meets it: sources in key order, each source's edges in list order. */
  function Links(edges: EdgeTable, sources: seq<string>): seq<Link> {
    if sources == [] then []
    else Links(edges, sources[..|sources| - 1]) + LinksFrom(Last(sources), Out(edges, Last(sources)))
  }

  /** Reference definition: the sources of the links into `t`, once per link, in order. */
  function Into(links: seq<Link>, t: string): seq<string> {
    if links == [] then []
    else Into(links[..|links| - 1], t) + (if links[|links| - 1].dst == t then [links[|links| - 1].src] else [])
  }

  /** One empty list per declared identifier. */
  function EmptyLists(nodes: NodeTable): (r: Adjacency)
    ensures r.Keys == nodes.Keys
    ensures forall n :: n in r ==> r[n] == []
  {
    map n | n in nodes :: []
  }

  /**
   * What the reverse pass yields: starting from an empty list per declared
   * identifier, each link appends its source to its target's list; a link
   * into an undeclared identifier raises a `KeyError`.
   */
  function ReverseOf(nodes: NodeTable, links: seq<Link>): Outcome<Adjacency> {
    if links == [] then Ok(EmptyLists(nodes))
    else
      match ReverseOf(nodes, links[..|links| - 1])
      case KeyError(k) => KeyError(k)
      case Ok(rev) =>
        var l := links[|links| - 1];
        if l.dst !in rev then KeyError(l.dst) else Ok(rev[l.dst := rev[l.dst] + [l.src]])
  }

  /**
   * The reverse pass succeeds exactly when every link ends at a declared
   * identifier; it then has a key for every declared identifier and lists,
   * for each, the source of every link into it; otherwise it fails on the
   * first link into an undeclared identifier.
   */
  lemma {:induction false} ReverseOfSpec(nodes: NodeTable, links: seq<Link>)
    ensures ReverseOf(nodes, links).Ok? <==> forall i :: 0 <= i < |links| ==> links[i].dst in nodes
    ensures ReverseOf(nodes, links).Ok? ==>
      && ReverseOf(nodes, links).value.Keys == nodes.Keys
      && forall t :: t in nodes ==> ReverseOf(nodes, links).value[t] == Into(links, t)
    ensures ReverseOf(nodes, links).KeyError? ==>
      && ReverseOf(nodes, links).key !in nodes
      && exists i :: 0 <= i < |links| && links[i].dst == ReverseOf(nodes, links).key
                     && forall j :: 0 <= j < i ==> links[j].dst in nodes
  {
    ReverseOfValue(nodes, links);
    ReverseOfOkIff(nodes, links);
    ReverseOfError(nodes, links);
  }

  /** A successful reverse pass keeps the declared identifiers as keys and lists each one's incoming sources. */
  lemma {:induction false} ReverseOfValue(nodes: NodeTable, links: seq<Link>)
    ensures ReverseOf(nodes, links).Ok? ==>
      && ReverseOf(nodes, links).value.Keys == nodes.Keys
      && forall t :: t in nodes ==> ReverseOf(nodes, links).value[t] == Into(links, t)
  {
    if links != [] && ReverseOf(nodes, links).Ok? {
      var pre := links[..|links| - 1];
      ReverseOfValue(nodes, pre);
    }
  }

  lemma {:induction false} ReverseOfOkIff(nodes: NodeTable, links: seq<Link>)
    ensures ReverseOf(nodes, links).Ok? <==> forall i :: 0 <= i < |links| ==> links[i].dst in nodes
  {
    if links != [] {
      var pre := links[..|links| - 1];
      ReverseOfOkIff(nodes, pre);
      ReverseOfValue(nodes, pre);
      assert forall j :: 0 <= j < |links| - 1 ==> links[j] == pre[j];
    }
  }

  lemma {:induction false} ReverseOfError(nodes: NodeTable, links: seq<Link>)
    ensures ReverseOf(nodes, links).KeyError? ==>
      && ReverseOf(nodes, links).key !in nodes
      && exists i :: 0 <= i < |links| && links[i].dst == ReverseOf(nodes, links).key
                     && forall j :: 0 <= j < i ==> links[j].dst in nodes
  {
    if links != [] && ReverseOf(nodes, links).KeyError? {
      var pre := links[..|links| - 1];
      if ReverseOf(nodes, pre).KeyError? {
        ReverseOfError(nodes, pre);
        var i :| 0 <= i < |pre| && pre[i].dst == ReverseOf(nodes, pre).key
                 && forall j :: 0 <= j < i ==> pre[j].dst in nodes;
        assert links[i] == pre[i];
        assert forall j :: 0 <= j < i ==> links[j] == pre[j];
      } else {
        ReverseOfValue(nodes, pre);
        ReverseOfOkIff(nodes, pre);
        assert forall j :: 0 <= j < |links| - 1 ==> links[j] == pre[j];
      }
    }
  }

  lemma {:induction false} IntoMembers(links: seq<Link>, t: string, s: string)
    ensures s in Into(links, t) <==> Link(s, t) in links
  {
    if links != [] {
      var pre := links[..|links| - 1];
      IntoMembers(pre, t, s);
      assert links == pre + [links[|links| - 1]];
    }
  }

  lemma {:induction false} LinksMembers(edges: EdgeTable, sources: seq<string>, s: string, t: string)
    ensures Link(s, t) in Links(edges, sources) <==> s in sources && t in Targets(Out(edges, s))
  {
    if sources != [] {
      var pre := sources[..|sources| - 1];
      var last := Last(sources);
      LinksMembers(edges, pre, s, t);
      assert sources == pre + [last];
      var more := LinksFrom(last, Out(edges, last));
      if Link(s, t) in more {
        var i :| 0 <= i < |more| && more[i] == Link(s, t);
        assert Targets(Out(edges, s))[i] == t;
      }
      if s == last && t in Targets(Out(edges, s)) {
        var i :| 0 <= i < |Targets(Out(edges, s))| && Targets(Out(edges, s))[i] == t;
        assert more[i] == Link(s, t);
      }
    }
  }

  /**
   * When the reverse pass over a graph whose key order lists exactly its
   * sources succeeds, it is the transpose of the forward graph, and every
   * identifier with a successor list is declared.
   */
  lemma ReverseIsTranspose(nodes: NodeTable, edges: EdgeTable, sources: seq<string>, rev: Adjacency)
    requires forall s :: s in edges <==> s in sources
    requires ReverseOf(nodes, Links(edges, sources)) == Ok(rev)
    ensures Transposed(Succ(edges), rev)
    ensures rev.Keys == nodes.Keys
  {
    var links := Links(edges, sources);
    ReverseOfSpec(nodes, links);
    forall a, b
      ensures b in Next(rev, a) <==> a in Next(Succ(edges), b)
    {
      NextSucc(edges, b);
      IntoMembers(links, a, b);
      LinksMembers(edges, sources, b, a);
      if a in Targets(Out(edges, b)) && b in sources {
        var i :| 0 <= i < |links| && links[i] == Link(b, a);
      }
    }
  }

  lemma LinksPrefix(edges: EdgeTable, sources: seq<string>, i: nat)
    requires i < |sources|
    ensures Links(edges, sources[..i + 1]) == Links(edges, sources[..i]) + LinksFrom(sources[i], Out(edges, sources[i]))
  {
    assert sources[..i + 1][..i] == sources[..i];
  }

  /** One more link seen by the reverse pass: its target's list grows by its source, or the pass fails. */
  lemma ReverseAppend(nodes: NodeTable, done: seq<Link>, src: string, es: seq<Edge>, j: nat)
    requires j < |es|
    ensures var before := ReverseOf(nodes, done + LinksFrom(src, es[..j]));
            var t := es[j].target;
            ReverseOf(nodes, done + LinksFrom(src, es[..j + 1])) ==
              match before
              case KeyError(k) => KeyError(k)
              case Ok(rev) => if t !in rev then KeyError(t) else Ok(rev[t := rev[t] + [src]])
  {
    var before := done + LinksFrom(src, es[..j]);
    var after := done + LinksFrom(src, es[..j + 1]);
    assert after == before + [Link(src, es[j].target)];
    assert after[..|after| - 1] == before;
  }

  lemma {:induction false} LinksIsPrefix(edges: EdgeTable, sources: seq<string>, i: nat)
    requires i <= |sources|
    ensures Links(edges, sources[..i]) <= Links(edges, sources)
    decreases |sources|
  {
    if i < |sources| {
      var pre := sources[..|sources| - 1];
      LinksIsPrefix(edges, pre, i);
      assert pre[..i] == sources[..i];
    } else {
      assert sources[..i] == sources;
    }
  }

  /** Once the reverse pass fails, later links do not change the failure. */
  lemma {:induction false} ReverseErrorSticks(nodes: NodeTable, pre: seq<Link>, all: seq<Link>)
    requires pre <= all && ReverseOf(nodes, pre).KeyError?
    ensures ReverseOf(nodes, all) == ReverseOf(nodes, pre)
    decreases |all|
  {
    if |all| > |pre| {
      ReverseErrorSticks(nodes, pre, all[..|all| - 1]);
    } else {
      assert pre == all;
    }
  }

  /** A failure met at the `j`-th edge of the `i`-th source is the failure of the whole pass. */
  lemma ReverseFailsEarly(nodes: NodeTable, edges: EdgeTable, sources: seq<string>, i: nat, j: nat)
    requires i < |sources| && j < |Out(edges, sources[i])|
    requires ReverseOf(nodes, Links(edges, sources[..i]) + LinksFrom(sources[i], Out(edges, sources[i])[..j + 1])).KeyError?
    ensures ReverseOf(nodes, Links(edges, sources)) ==
            ReverseOf(nodes, Links(edges, sources[..i]) + LinksFrom(sources[i], Out(edges, sources[i])[..j + 1]))
  {
    var es := Out(edges, sources[i]);
    var pre := Links(edges, sources[..i]) + LinksFrom(sources[i], es[..j + 1]);
    LinksPrefix(edges, sources, i);
    LinksIsPrefix(edges, sources, i + 1);
    assert LinksFrom(sources[i], es[..j + 1]) <= LinksFrom(sources[i], es);
    assert pre <= Links(edges, sources[..i + 1]);
    ReverseErrorSticks(nodes, pre, Links(edges, sources));
  }

  /** Every successor of every identifier is declared: what a successful reverse pass guarantees. */
  ghost predicate TargetsDeclared(nodes: NodeTable, edges: EdgeTable) {
    forall a, b :: b in Next(Succ(edges), a) ==> b in nodes
  }

  lemma TransposeDeclares(nodes: NodeTable, edges: EdgeTable, rev: Adjacency)
    requires Transposed(Succ(edges), rev) && rev.Keys == nodes.Keys
    ensures TargetsDeclared(nodes, edges)
  {
    forall a, b | b in Next(Succ(edges), a)
      ensures b in nodes
    {
      assert a in Next(rev, b);
    }
  }

  /** A walk from a declared identifier through targets of edges stays declared. */
  lemma WalkDeclared(nodes: NodeTable, edges: EdgeTable, p: seq<string>)
    requires TargetsDeclared(nodes, edges) && IsWalk(Succ(edges), p) && p[0] in nodes
    ensures Declared(nodes, p)
  {
    forall i | 0 < i < |p|
      ensures p[i] in nodes
    {
      WalkStep(Succ(edges), p, i - 1);
    }
  }

  // ---------------------------------------------------------------
  // Stability gain
  // ---------------------------------------------------------------

  /** `max(0, pa - pb)`: the privilege given up by stepping from `pa` to `pb`. */
  function Drop(pa: real, pb: real): (r: real)
    ensures 0.0 <= r && pa - pb <= r
  {
    if pa - pb > 0.0 then pa - pb else 0.0
  }

  function StepGain(nodes: NodeTable, edges: EdgeTable, a: string, b: string): real
    requires a in nodes && b in nodes
  {
    Drop(nodes[a].privilege, nodes[b].privilege) + FirstWeight(Out(edges, a), b)
  }

  function PathGain(nodes: NodeTable, edges: EdgeTable, p: seq<string>): real
    requires Declared(nodes, p)
    decreases |p|
  {
    if |p| < 2 then 0.0
    else PathGain(nodes, edges, p[..|p| - 1]) + StepGain(nodes, edges, p[|p| - 2], p[|p| - 1])
  }

  /** What scoring a route yields: 0 for fewer than two identifiers, else a `KeyError` for the first undeclared one, else the gain. */
  function GainOutcome(nodes: NodeTable, edges: EdgeTable, p: seq<string>): Outcome<real> {
    if |p| < 2 then Ok(0.0)
    else if !Declared(nodes, p) then KeyError(p[FirstUndeclared(nodes, p)])
    else Ok(PathGain(nodes, edges, p))
  }

  /** Gain is never negative when edge weights are not. */
  lemma {:induction false} PathGainNonNegative(nodes: NodeTable, edges: EdgeTable, p: seq<string>)
    requires Declared(nodes, p) && NonNegative(edges)
    ensures 0.0 <= PathGain(nodes, edges, p)
    decreases |p|
  {
    if |p| >= 2 {
      PathGainNonNegative(nodes, edges, p[..|p| - 1]);
      FirstWeightIsFirstMatch(Out(edges, p[|p| - 2]), p[|p| - 1]);
    }
  }

  /**
   * Attack energy and stability gain differ by the privilege change along
   * the route: the rises and drops telescope and the edge weights cancel.
   */
  lemma {:induction false} EnergyMinusGain(nodes: NodeTable, edges: EdgeTable, p: seq<string>)
    requires Declared(nodes, p) && |p| >= 1
    ensures PathEnergy(nodes, edges, p) - PathGain(nodes, edges, p) == nodes[Last(p)].privilege - nodes[p[0]].privilege
    decreases |p|
  {
    if |p| >= 2 {
      var pre := p[..|p| - 1];
      EnergyMinusGain(nodes, edges, pre);
      assert Last(pre) == p[|p| - 2];
    }
  }

  // ---------------------------------------------------------------
  // What the routes are
  // ---------------------------------------------------------------

  /** Fixing `n` protects `hv`: both declared, distinct, and `hv` reachable from `n`. */
  ghost predicate Fixes(nodes: NodeTable, edges: EdgeTable, hv: string, n: string) {
    n in nodes && hv in nodes && n != hv && Reaches(Succ(edges), n, hv)
  }

  function StartOf(a: RemediationPath): string {
    if a.path == [] then "" else a.path[0]
  }

  function Starts(paths: seq<RemediationPath>): (r: seq<string>)
    ensures |r| == |paths|
    ensures forall i :: 0 <= i < |paths| ==> r[i] == StartOf(paths[i])
  {
    seq(|paths|, i requires 0 <= i < |paths| => StartOf(paths[i]))
  }

  function Gains(paths: seq<RemediationPath>): (r: seq<real>)
    ensures |r| == |paths|
    ensures forall i :: 0 <= i < |paths| ==> r[i] == paths[i].stabilityGain
  {
    seq(|paths|, i requires 0 <= i < |paths| => paths[i].stabilityGain)
  }

  /** A route into `hv`: a shortest path from its first identifier, repeating no identifier, scored by gain, with the remediation note. */
  ghost predicate Record(nodes: NodeTable, edges: EdgeTable, hv: string, a: RemediationPath) {
    && IsShortestPath(edges, StartOf(a), hv, a.path)
    && Distinct(a.path)
    && GainOutcome(nodes, edges, a.path) == Ok(a.stabilityGain)
    && a.notes == RemediationNote(StartOf(a), hv)
  }

  /** The routes into one high-value identifier: one from each identifier whose fixing protects it, in some order. */
  ghost predicate Block(nodes: NodeTable, edges: EdgeTable, hv: string, block: seq<RemediationPath>) {
    && (forall i :: 0 <= i < |block| ==> Record(nodes, edges, hv, block[i]))
    && Distinct(Starts(block))
    && (forall n :: n in Starts(block) <==> Fixes(nodes, edges, hv, n))
  }

  /** The routes for a list of high-value identifiers: one block per entry, entries in list order. */
  ghost predicate RemediationPathsFor(nodes: NodeTable, edges: EdgeTable, hvs: seq<string>, paths: seq<RemediationPath>)
    decreases |hvs|
  {
    if hvs == [] then paths == []
    else exists k :: 0 <= k <= |paths|
           && RemediationPathsFor(nodes, edges, hvs[..|hvs| - 1], paths[..k])
           && Block(nodes, edges, Last(hvs), paths[k..])
  }

  /** Each route starts at its fixing point, ends at the high-value identifier, and is scored without error. */
  lemma BlockRoutes(nodes: NodeTable, edges: EdgeTable, hv: string, block: seq<RemediationPath>, i: nat)
    requires Block(nodes, edges, hv, block) && i < |block|
    ensures |block[i].path| >= 2 && Last(block[i].path) == hv && block[i].path[0] != hv
    ensures Fixes(nodes, edges, hv, block[i].path[0])
    ensures Declared(nodes, block[i].path) && block[i].stabilityGain == PathGain(nodes, edges, block[i].path)
  {
    assert Starts(block)[i] in Starts(block);
  }

  // ---------------------------------------------------------------
  // Summary
  // ---------------------------------------------------------------

  /**
   * The summary of a list of routes: all zero and no path for none;
   * otherwise the count, the first maximal gain with its path, and the mean
   * gain.
   */
  function Summarize(paths: seq<RemediationPath>): (s: Summary)
    ensures paths == [] ==> s == Summary(0, 0.0, 0.0, None)
    ensures paths != [] ==>
      && s.count == |paths|
      && (forall i :: 0 <= i < |paths| ==> paths[i].stabilityGain <= s.maxGain)
      && exists k :: 0 <= k < |paths| && s.maxGain == paths[k].stabilityGain
                     && s.mostImpactfulPath == Some(paths[k].path)
                     && forall j :: 0 <= j < k ==> paths[j].stabilityGain < s.maxGain
  {
    if paths == [] then Summary(0, 0.0, 0.0, None)
    else
      var gs := Gains(paths);
      var k := Stats.FirstMaxIndex(gs);
      Summary(|paths|, gs[k], Stats.Average(gs), Some(paths[k].path))
  }

  /** The mean gain never exceeds the maximal one, and with non-negative gains it is non-negative. */
  lemma SummaryAverage(paths: seq<RemediationPath>)
    requires paths != []
    ensures Summarize(paths).avgGain <= Summarize(paths).maxGain
    ensures (forall i :: 0 <= i < |paths| ==> 0.0 <= paths[i].stabilityGain) ==> 0.0 <= Summarize(paths).avgGain
  {
    var gs := Gains(paths);
    Stats.AverageAtMostMax(gs);
    if forall i :: 0 <= i < |paths| ==> 0.0 <= paths[i].stabilityGain {
      Stats.SumAtLeast(gs, 0.0);
    }
  }

  // ---------------------------------------------------------------
  // The organ
  // ---------------------------------------------------------------

  /** The elements of `s` as a list without repetitions, in an unspecified order (Python's `list(a_set)`). */
  method ListOf(s: set<string>) returns (xs: seq<string>)
    ensures Distinct(xs)
    ensures forall n :: n in xs <==> n in s
  {
    xs := [];
    var rest := s;
    while rest != {}
      invariant rest <= s && Distinct(xs)
      invariant forall n :: n in xs <==> n in s && n !in rest
      decreases |rest|
    {
      var n :| n in rest;
      DistinctAppend(xs, n);
      xs := xs + [n];
      rest := rest - {n};
    }
  }

  class BlueOrgan {
    const name: string
    /** The graph engine, rebuilt from the input on every call. */
    const graph: Graph

    constructor ()
      ensures name == OrganName && fresh(graph)
    {
      name := OrganName;
      graph := new Graph();
    }

    /** The reverse adjacency of `g`, built as the reverse pass describes. */
    method ReverseEdges(g: Graph) returns (r: Outcome<Adjacency>)
      ensures r == ReverseOf(g.nodes, Links(g.edges, g.sources))
    {
      var reverse := EmptyLists(g.nodes);
      ghost var done: seq<Link> := [];
      var i := 0;
      while i < |g.sources|
        invariant 0 <= i <= |g.sources|
        invariant done == Links(g.edges, g.sources[..i])
        invariant ReverseOf(g.nodes, done) == Ok(reverse)
      {
        var src := g.sources[i];
        var es := Out(g.edges, src);
        var j := 0;
        assert done + LinksFrom(src, es[..0]) == done;
        while j < |es|
          invariant 0 <= j <= |es|
          invariant ReverseOf(g.nodes, done + LinksFrom(src, es[..j])) == Ok(reverse)
        {
          var t := es[j].target;
          ReverseAppend(g.nodes, done, src, es, j);
          if t !in reverse {
            ReverseFailsEarly(g.nodes, g.edges, g.sources, i, j);
            return KeyError(t);
          }
          reverse := reverse[t := reverse[t] + [src]];
          j := j + 1;
        }
        assert es[..j] == es;
        LinksPrefix(g.edges, g.sources, i);
        done := done + LinksFrom(src, es);
        i := i + 1;
      }
      assert g.sources[..i] == g.sources;
      return Ok(reverse);
    }

    /** The identifiers from which `start` is reachable, as a list without repetitions in an unspecified order. */
    method ReverseReachable(start: string, rev: Adjacency) returns (r: seq<string>)
      ensures Distinct(r)
      ensures forall n :: n in r <==> Reaches(rev, start, n)
    {
      ghost var u := Universe(rev, start);
      var visited: set<string> := {};
      var stack := [start];
      WorklistInit(rev, start);
      while stack != []
        invariant visited <= u && forall j :: 0 <= j < |stack| ==> stack[j] in u
        invariant Worklist(rev, start, visited, stack)
        decreases |u - visited|, |stack|
      {
        var node := stack[|stack| - 1];
        if node in visited {
          WorklistSkip(rev, start, visited, stack);
          stack := stack[..|stack| - 1];
          continue;
        }
        VisitShrinks(u, visited, node);
        WorklistExpand(rev, start, visited, stack);
        visited := visited + {node};
        stack := stack[..|stack| - 1] + Next(rev, node);
      }
      WorklistDone(rev, start, visited);
      r := ListOf(visited);
    }

    /** Stability gain of a route: privilege drops plus first-edge weights; a `KeyError` for an undeclared identifier. */
    method ComputeStabilityGain(g: Graph, path: seq<string>) returns (r: Outcome<real>)
      ensures r == GainOutcome(g.nodes, g.edges, path)
    {
      if |path| < 2 {
        return Ok(0.0);
      }
      var gain := 0.0;
      var i := 0;
      while i < |path| - 1
        invariant 0 <= i <= |path| - 1
        invariant forall j :: 0 <= j < i ==> path[j] in g.nodes
        invariant i > 0 ==> path[i] in g.nodes
        invariant gain == if i == 0 then 0.0 else PathGain(g.nodes, g.edges, path[..i + 1])
      {
        var a, b := path[i], path[i + 1];
        if a !in g.nodes {
          return KeyError(a);
        }
        if b !in g.nodes {
          return KeyError(b);
        }
        var pa, pb := g.nodes[a].privilege, g.nodes[b].privilege;
        gain := gain + Drop(pa, pb);
        var es := Out(g.edges, a);
        ghost var base := gain;
        var j := 0;
        while j < |es|
          invariant 0 <= j <= |es|
          invariant FirstWeight(es, b) == FirstWeight(es[j..], b)
          invariant gain == base
        {
          if es[j].target == b {
            gain := gain + es[j].weight;
            break;
          }
          assert es[j..][1..] == es[j + 1..];
          j := j + 1;
        }
        assert gain == base + FirstWeight(es, b);
        assert path[..i + 2][..i + 1] == path[..i + 1];
        i := i + 1;
      }
      assert path[..i + 1] == path;
      return Ok(gain);
    }

    /** The routes into `hv`: one shortest path from each backward-reachable identifier other than `hv`, in list order. */
    method RemediationPathsInto(g: Graph, rev: Adjacency, hv: string) returns (block: seq<RemediationPath>)
      requires Transposed(Succ(g.edges), rev) && rev.Keys == g.nodes.Keys
      ensures Block(g.nodes, g.edges, hv, block)
    {
      var backward := ReverseReachable(hv, rev);
      TransposeDeclares(g.nodes, g.edges, rev);
      block := [];
      var i := 0;
      while i < |backward|
        invariant 0 <= i <= |backward|
        invariant forall j :: 0 <= j < |block| ==> Record(g.nodes, g.edges, hv, block[j])
        invariant Distinct(Starts(block))
        invariant forall n :: n in Starts(block) <==> n in backward[..i] && Fixes(g.nodes, g.edges, hv, n)
      {
        var node := backward[i];
        ReachesTransposed(Succ(g.edges), rev, hv, node);
        assert backward[..i + 1] == backward[..i] + [node];
        if node != hv {
          var path := g.ShortestPath(node, hv);
          if path != [] {
            WalkDeclared(g.nodes, g.edges, path);
            var gain := ComputeStabilityGain(g, path);
            var a := RemediationPath(path, gain.value, RemediationNote(node, hv));
            assert Starts(block + [a]) == Starts(block) + [node];
            DistinctAppend(Starts(block), node);
            block := block + [a];
          }
        }
        i := i + 1;
      }
      assert backward[..i] == backward;
      forall n | Fixes(g.nodes, g.edges, hv, n)
        ensures n in backward
      {
        ReachesTransposed(Succ(g.edges), rev, hv, n);
      }
    }

    /**
     * Rebuilds the graph from `data`, reverses it, then collects, for each
     * high-value entry in list order, the routes into it. The only failure
     * is the reverse pass's `KeyError`: once it succeeds every route is
     * scored without error.
     */
    method ComputeRemediationPaths(data: GraphSpec) returns (r: Outcome<seq<RemediationPath>>)
      modifies graph
      ensures graph.Valid()
      ensures graph.nodes == LoadNodes(data.nodes) && graph.edges == LoadEdges(data.edges)
      ensures graph.sources == SourceOrder(data.edges) && graph.highValueNodes == data.highValueNodes
      ensures var rev := ReverseOf(graph.nodes, Links(graph.edges, graph.sources));
              && (rev.KeyError? ==> r == KeyError(rev.key))
              && (rev.Ok? ==> r.Ok? && RemediationPathsFor(graph.nodes, graph.edges, data.highValueNodes, r.value))
    {
      graph.Build(data);
      var rev := ReverseEdges(graph);
      if rev.KeyError? {
        return KeyError(rev.key);
      }
      ReverseIsTranspose(graph.nodes, graph.edges, graph.sources, rev.value);
      var hvs := graph.highValueNodes;
      var paths: seq<RemediationPath> := [];
      var i := 0;
      while i < |hvs|
        invariant 0 <= i <= |hvs| && hvs == data.highValueNodes
        invariant graph.Valid()
        invariant graph.nodes == LoadNodes(data.nodes) && graph.edges == LoadEdges(data.edges)
        invariant graph.sources == SourceOrder(data.edges) && graph.highValueNodes == data.highValueNodes
        invariant RemediationPathsFor(graph.nodes, graph.edges, hvs[..i], paths)
      {
        var block := RemediationPathsInto(graph, rev.value, hvs[i]);
        assert hvs[..i + 1][..i] == hvs[..i];
        assert (paths + block)[..|paths|] == paths;
        assert (paths + block)[|paths|..] == block;
        paths := paths + block;
        i := i + 1;
      }
      assert hvs[..i] == hvs;
      return Ok(paths);
    }

    /** The organ's report: every route in the order computed, and their summary. */
    method Process(data: GraphSpec) returns (r: Outcome<Report>)
      modifies graph
      ensures graph.Valid()
      ensures graph.nodes == LoadNodes(data.nodes) && graph.edges == LoadEdges(data.edges)
      ensures graph.sources == SourceOrder(data.edges) && graph.highValueNodes == data.highValueNodes
      ensures r.Ok? ==>
        && r.value.organ == name
        && RemediationPathsFor(graph.nodes, graph.edges, data.highValueNodes, r.value.remediationPaths)
        && r.value.summary == Summarize(r.value.remediationPaths)
      ensures var rev := ReverseOf(graph.nodes, Links(graph.edges, graph.sources));
              && (rev.KeyError? <==> r.KeyError?)
              && (r.KeyError? ==> rev == KeyError(r.key))
    {
      var paths := ComputeRemediationPaths(data);
      if paths.KeyError? {
        return KeyError(paths.key);
      }
      return Ok(Report(name, paths.value, Summarize(paths.value)));
    }
  }
}
