/**
 * The CORS analyzer: each rule that lets one origin read responses of an API
 * origin becomes an aperture with a permeability (how open it is) and a risk
 * (how dangerous it is), and the apertures are summarised.
 */
module Cors {
  import opened Outcomes
  import Stats

  /** A rule after defaults are applied. */
  datatype Rule = Rule(apiOrigin: string, allowedOrigin: string, allowsCredentials: bool, wildcard: bool, notes: string)

  /** One entry of the `rules` list of the input; the optional keys may be absent. */
  datatype RuleSpec = RuleSpec(apiOrigin: string, allowedOrigin: string,
                               allowsCredentials: Option<bool>, wildcard: Option<bool>, notes: Option<string>)

  /** An aperture from the API origin (`source`) to the origin it admits (`target`). */
  datatype CorsEdge = CorsEdge(source: string, target: string, permeability: real, risk: real, notes: string)

  datatype Summary = Summary(totalRules: nat, avgPermeability: real, avgRisk: real, highRiskPairs: seq<string>)

  datatype Report = Report(organ: string, edges: seq<CorsEdge>, summary: Summary)

  const OrganName: string := "cors"
  const DefaultNote: string := "CORS rule"
  /** Apertures at or above this risk are reported as high-risk pairs. */
  const HighRisk: real := 2.0

  function RuleOf(s: RuleSpec): Rule {
    Rule(s.apiOrigin, s.allowedOrigin, s.allowsCredentials.GetOr(false), s.wildcard.GetOr(false), s.notes.GetOr(""))
  }

  // ---------------------------------------------------------------
  // Permeability and risk
  // ---------------------------------------------------------------

  /** A wildcard rule is twice as open as a rule naming one origin. */
  function Permeability(r: Rule): (p: real)
    ensures 1.0 <= p <= 2.0
    ensures p == 2.0 <==> r.wildcard
  {
    if r.wildcard then 2.0 else 1.0
  }

  /** The risk table over the two flags; credentials dominate, a wildcard adds to them. */
  function Risk(r: Rule): (risk: real)
    ensures 0.5 <= risk <= 3.0
    ensures risk >= HighRisk <==> r.allowsCredentials
    ensures risk == 3.0 <==> r.wildcard && r.allowsCredentials
  {
    match (r.wildcard, r.allowsCredentials)
    case (true, true) => 3.0
    case (false, true) => 2.0
    case (true, false) => 1.5
    case (false, false) => 0.5
  }

  /** Opening a rule to every origin strictly raises both its permeability and its risk. */
  lemma WildcardRaisesRisk(r: Rule)
    requires !r.wildcard
    ensures Risk(r.(wildcard := true)) > Risk(r)
    ensures Permeability(r.(wildcard := true)) > Permeability(r)
  {
  }

  function EdgeOf(r: Rule): CorsEdge {
    CorsEdge(r.apiOrigin, r.allowedOrigin, Permeability(r), Risk(r), if r.notes == "" then DefaultNote else r.notes)
  }

  // ---------------------------------------------------------------
  // Summary
  // ---------------------------------------------------------------

  function PairLabel(e: CorsEdge): string {
    e.source + " → " + e.target
  }

  /** The labels of the high-risk edges, in edge order. */
  function HighRiskPairs(edges: seq<CorsEdge>): (pairs: seq<string>)
    ensures |pairs| <= |edges|
  {
    if edges == [] then []
    else
      var e := edges[|edges| - 1];
      HighRiskPairs(edges[..|edges| - 1]) + (if e.risk >= HighRisk then [PairLabel(e)] else [])
  }

  /** Every high-risk edge is listed, and everything listed is the label of a high-risk edge. */
  lemma {:induction false} HighRiskPairsMembers(edges: seq<CorsEdge>)
    ensures forall i :: 0 <= i < |edges| && edges[i].risk >= HighRisk ==> PairLabel(edges[i]) in HighRiskPairs(edges)
    ensures forall x :: x in HighRiskPairs(edges) ==>
      exists i :: 0 <= i < |edges| && edges[i].risk >= HighRisk && x == PairLabel(edges[i])
  {
    if edges != [] {
      var init := edges[..|edges| - 1];
      HighRiskPairsMembers(init);
      forall i | 0 <= i < |edges| && edges[i].risk >= HighRisk
        ensures PairLabel(edges[i]) in HighRiskPairs(edges)
      {
        if i < |init| {
          assert edges[i] == init[i];
        }
      }
      forall x | x in HighRiskPairs(edges)
        ensures exists i :: 0 <= i < |edges| && edges[i].risk >= HighRisk && x == PairLabel(edges[i])
      {
        if x in HighRiskPairs(init) {
          var i :| 0 <= i < |init| && init[i].risk >= HighRisk && x == PairLabel(init[i]);
          assert edges[i] == init[i];
        } else {
          assert edges[|edges| - 1].risk >= HighRisk && x == PairLabel(edges[|edges| - 1]);
        }
      }
    }
  }

  function Permeabilities(edges: seq<CorsEdge>): (r: seq<real>)
    ensures |r| == |edges|
    ensures forall i :: 0 <= i < |edges| ==> r[i] == edges[i].permeability
  {
    seq(|edges|, i requires 0 <= i < |edges| => edges[i].permeability)
  }

  function Risks(edges: seq<CorsEdge>): (r: seq<real>)
    ensures |r| == |edges|
    ensures forall i :: 0 <= i < |edges| ==> r[i] == edges[i].risk
  {
    seq(|edges|, i requires 0 <= i < |edges| => edges[i].risk)
  }

  /** All zero and no pairs for no edges; otherwise the count, the two means and the high-risk pairs. */
  function Summarize(edges: seq<CorsEdge>): (s: Summary)
    ensures edges == [] ==> s == Summary(0, 0.0, 0.0, [])
    ensures edges != [] ==> s.totalRules == |edges| && s.highRiskPairs == HighRiskPairs(edges)
  {
    if edges == [] then Summary(0, 0.0, 0.0, [])
    else Summary(|edges|, Stats.Average(Permeabilities(edges)), Stats.Average(Risks(edges)), HighRiskPairs(edges))
  }

  // ---------------------------------------------------------------
  // The rules' view of the summary
  // ---------------------------------------------------------------

  function EdgesOf(rules: seq<Rule>): (edges: seq<CorsEdge>)
    ensures |edges| == |rules|
    ensures forall i :: 0 <= i < |rules| ==> edges[i] == EdgeOf(rules[i])
  {
    seq(|rules|, i requires 0 <= i < |rules| => EdgeOf(rules[i]))
  }

  /** `api → allowed` for each rule that admits credentials, in rule order. */
  function CredentialedPairs(rules: seq<Rule>): seq<string> {
    if rules == [] then []
    else
      var r := rules[|rules| - 1];
      CredentialedPairs(rules[..|rules| - 1]) + (if r.allowsCredentials then [r.apiOrigin + " → " + r.allowedOrigin] else [])
  }

  /** The high-risk pairs of the computed edges are exactly the rules that admit credentials. */
  lemma {:induction false} HighRiskIsCredentialed(rules: seq<Rule>)
    ensures HighRiskPairs(EdgesOf(rules)) == CredentialedPairs(rules)
  {
    if rules != [] {
      var init := rules[..|rules| - 1];
      HighRiskIsCredentialed(init);
      assert EdgesOf(rules)[..|rules| - 1] == EdgesOf(init);
    }
  }

  /**
   * For the edges of a non-empty rule list the mean permeability lies in
   * `[1, 2]`, the mean risk in `[0.5, 3]`, and the pairs are the credentialed rules.
   */
  lemma SummaryOfRules(rules: seq<Rule>)
    requires rules != []
    ensures var s := Summarize(EdgesOf(rules));
      && s.totalRules == |rules|
      && 1.0 <= s.avgPermeability <= 2.0
      && 0.5 <= s.avgRisk <= 3.0
      && s.highRiskPairs == CredentialedPairs(rules)
  {
    var edges := EdgesOf(rules);
    Stats.AverageWithin(Permeabilities(edges), 1.0, 2.0);
    Stats.AverageWithin(Risks(edges), 0.5, 3.0);
    HighRiskIsCredentialed(rules);
  }

  // ---------------------------------------------------------------
  // The organ
  // ---------------------------------------------------------------

  class CorsOrgan {
    const name: string

    constructor ()
      ensures name == OrganName
    {
      name := OrganName;
    }

    /** One rule per input entry, in order, with the defaults filled in. */
    method BuildRules(data: seq<RuleSpec>) returns (rules: seq<Rule>)
      ensures |rules| == |data|
      ensures forall i :: 0 <= i < |data| ==> rules[i] == RuleOf(data[i])
    {
      rules := [];
      for i := 0 to |data|
        invariant |rules| == i
        invariant forall j :: 0 <= j < i ==> rules[j] == RuleOf(data[j])
      {
        var s := data[i];
        rules := rules + [Rule(s.apiOrigin, s.allowedOrigin, s.allowsCredentials.GetOr(false),
                               s.wildcard.GetOr(false), s.notes.GetOr(""))];
      }
    }

    /** One edge per rule, in order, carrying the rule's permeability and risk. */
    method ComputeEdges(rules: seq<Rule>) returns (edges: seq<CorsEdge>)
      ensures edges == EdgesOf(rules)
    {
      edges := [];
      for i := 0 to |rules|
        invariant |edges| == i
        invariant forall j :: 0 <= j < i ==> edges[j] == EdgeOf(rules[j])
      {
        var r := rules[i];
        var permeability := 1.0;
        if r.wildcard {
          permeability := permeability + 1.0;
        }
        var risk := 0.0;
        if r.wildcard && r.allowsCredentials {
          risk := 3.0;
        } else if r.allowsCredentials {
          risk := 2.0;
        } else if r.wildcard {
          risk := 1.5;
        } else {
          risk := 0.5;
        }
        var notes := if r.notes == "" then DefaultNote else r.notes;
        edges := edges + [CorsEdge(r.apiOrigin, r.allowedOrigin, permeability, risk, notes)];
      }
    }

    /** The report: one edge per input rule, in order, and their summary. */
    method Process(data: seq<RuleSpec>) returns (r: Report)
      ensures r.organ == name
      ensures |r.edges| == |data|
      ensures forall i :: 0 <= i < |data| ==> r.edges[i] == EdgeOf(RuleOf(data[i]))
      ensures r.summary == Summarize(r.edges)
    {
      var rules := BuildRules(data);
      var edges := ComputeEdges(rules);
      return Report(name, edges, Summarize(edges));
    }
  }
}
