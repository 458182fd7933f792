/**
 * The XSS analyzer: each sink through which an attacker origin can run
 * script in a victim origin becomes a flow whose hijack energy is twice the
 * sink's severity, and the flows are summarised with the most energetic ones
 * singled out.
 */
module Xss {
  import opened Outcomes
  import Stats

  /** A sink after defaults are applied. */
  datatype Sink = Sink(attackerOrigin: string, victimOrigin: string, description: string, severity: real)

  /** One entry of the `sinks` list of the input; the optional keys may be absent. */
  datatype SinkSpec = SinkSpec(attackerOrigin: string, victimOrigin: string, description: Option<string>, severity: Option<real>)

  datatype Flow = Flow(source: string, target: string, energy: real, notes: string)

  datatype Summary = Summary(totalSinks: nat, maxEnergy: real, avgEnergy: real, criticalSinks: seq<string>)

  datatype Report = Report(organ: string, flows: seq<Flow>, summary: Summary)

  const OrganName: string := "xss"
  const DefaultNote: string := "XSS sink"
  const DefaultSeverity: real := 1.0

  function SinkOf(s: SinkSpec): Sink {
    Sink(s.attackerOrigin, s.victimOrigin, s.description.GetOr(""), s.severity.GetOr(DefaultSeverity))
  }

  /** The flow of a sink: from attacker to victim, with twice the severity as its energy. */
  function FlowOf(s: Sink): Flow {
    Flow(s.attackerOrigin, s.victimOrigin, s.severity * 2.0, if s.description == "" then DefaultNote else s.description)
  }

  function FlowsOf(sinks: seq<Sink>): (flows: seq<Flow>)
    ensures |flows| == |sinks|
    ensures forall i :: 0 <= i < |sinks| ==> flows[i] == FlowOf(sinks[i])
  {
    seq(|sinks|, i requires 0 <= i < |sinks| => FlowOf(sinks[i]))
  }

  // ---------------------------------------------------------------
  // Summary
  // ---------------------------------------------------------------

  function FlowLabel(f: Flow): string {
    f.source + " → " + f.target
  }

  function Energies(flows: seq<Flow>): (r: seq<real>)
    ensures |r| == |flows|
    ensures forall i :: 0 <= i < |flows| ==> r[i] == flows[i].energy
  {
    seq(|flows|, i requires 0 <= i < |flows| => flows[i].energy)
  }

  /** The labels of the flows whose energy reaches `bar`, in flow order. */
  function AtLeast(flows: seq<Flow>, bar: real): (labels: seq<string>)
    ensures |labels| <= |flows|
  {
    if flows == [] then []
    else
      var f := flows[|flows| - 1];
      AtLeast(flows[..|flows| - 1], bar) + (if f.energy >= bar then [FlowLabel(f)] else [])
  }

  /** Every flow reaching `bar` is listed, and everything listed is the label of such a flow. */
  lemma {:induction false} AtLeastMembers(flows: seq<Flow>, bar: real)
    ensures forall i :: 0 <= i < |flows| && flows[i].energy >= bar ==> FlowLabel(flows[i]) in AtLeast(flows, bar)
    ensures forall x :: x in AtLeast(flows, bar) ==>
      exists i :: 0 <= i < |flows| && flows[i].energy >= bar && x == FlowLabel(flows[i])
  {
    if flows != [] {
      var init := flows[..|flows| - 1];
      AtLeastMembers(init, bar);
      forall i | 0 <= i < |flows| && flows[i].energy >= bar
        ensures FlowLabel(flows[i]) in AtLeast(flows, bar)
      {
        if i < |init| {
          assert flows[i] == init[i];
        }
      }
      forall x | x in AtLeast(flows, bar)
        ensures exists i :: 0 <= i < |flows| && flows[i].energy >= bar && x == FlowLabel(flows[i])
      {
        if x in AtLeast(init, bar) {
          var i :| 0 <= i < |init| && init[i].energy >= bar && x == FlowLabel(init[i]);
          assert flows[i] == init[i];
        } else {
          assert flows[|flows| - 1].energy >= bar && x == FlowLabel(flows[|flows| - 1]);
        }
      }
    }
  }

  /** All zero and no critical sinks for no flows; otherwise the maximal and mean energy and the flows reaching the maximum. */
  function Summarize(flows: seq<Flow>): (s: Summary)
    ensures flows == [] ==> s == Summary(0, 0.0, 0.0, [])
    ensures flows != [] ==>
      && s.totalSinks == |flows|
      && (forall i :: 0 <= i < |flows| ==> flows[i].energy <= s.maxEnergy)
      && (exists i :: 0 <= i < |flows| && flows[i].energy == s.maxEnergy)
  {
    if flows == [] then Summary(0, 0.0, 0.0, [])
    else
      var m := Stats.Max(Energies(flows));
      Summary(|flows|, m, Stats.Average(Energies(flows)), AtLeast(flows, m))
  }

  /**
   * With at least one flow, the critical sinks are exactly the flows of
   * maximal energy, so there is at least one, and the mean energy does not
   * exceed the maximum.
   */
  lemma SummaryCritical(flows: seq<Flow>)
    requires flows != []
    ensures var s := Summarize(flows);
      && s.criticalSinks != []
      && (forall i :: 0 <= i < |flows| && flows[i].energy == s.maxEnergy ==> FlowLabel(flows[i]) in s.criticalSinks)
      && (forall x :: x in s.criticalSinks ==>
            exists i :: 0 <= i < |flows| && flows[i].energy == s.maxEnergy && x == FlowLabel(flows[i]))
      && s.avgEnergy <= s.maxEnergy
  {
    var s := Summarize(flows);
    AtLeastMembers(flows, s.maxEnergy);
    var k :| 0 <= k < |flows| && flows[k].energy == s.maxEnergy;
    assert FlowLabel(flows[k]) in s.criticalSinks;
    Stats.AverageAtMostMax(Energies(flows));
  }

  /**
   * In terms of the sinks: the maximal energy is twice the severity of a
   * sink exactly when no sink is more severe, and such a sink is listed.
   */
  lemma CriticalSinksAreMostSevere(sinks: seq<Sink>, i: nat)
    requires i < |sinks|
    ensures var s := Summarize(FlowsOf(sinks));
      (forall j :: 0 <= j < |sinks| ==> sinks[j].severity <= sinks[i].severity) ==>
        FlowLabel(FlowOf(sinks[i])) in s.criticalSinks
    ensures var s := Summarize(FlowsOf(sinks));
      (forall j :: 0 <= j < |sinks| ==> sinks[j].severity <= sinks[i].severity) <==> s.maxEnergy == sinks[i].severity * 2.0
  {
    var flows := FlowsOf(sinks);
    var s := Summarize(flows);
    SummaryCritical(flows);
    var k :| 0 <= k < |flows| && flows[k].energy == s.maxEnergy;
    if forall j :: 0 <= j < |sinks| ==> sinks[j].severity <= sinks[i].severity {
      assert sinks[k].severity <= sinks[i].severity;
      assert flows[i].energy == s.maxEnergy;
    }
    if s.maxEnergy == sinks[i].severity * 2.0 {
      forall j | 0 <= j < |sinks|
        ensures sinks[j].severity <= sinks[i].severity
      {
        assert flows[j].energy <= s.maxEnergy;
      }
    }
  }

  // ---------------------------------------------------------------
  // The organ
  // ---------------------------------------------------------------

  class XssOrgan {
    const name: string

    constructor ()
      ensures name == OrganName
    {
      name := OrganName;
    }

    /** One sink per input entry, in order, with the defaults filled in. */
    method BuildSinks(data: seq<SinkSpec>) returns (sinks: seq<Sink>)
      ensures |sinks| == |data|
      ensures forall i :: 0 <= i < |data| ==> sinks[i] == SinkOf(data[i])
    {
      sinks := [];
      for i := 0 to |data|
        invariant |sinks| == i
        invariant forall j :: 0 <= j < i ==> sinks[j] == SinkOf(data[j])
      {
        var s := data[i];
        sinks := sinks + [Sink(s.attackerOrigin, s.victimOrigin, s.description.GetOr(""), s.severity.GetOr(DefaultSeverity))];
      }
    }

    /** One flow per sink, in order. */
    method ComputeFlows(sinks: seq<Sink>) returns (flows: seq<Flow>)
      ensures flows == FlowsOf(sinks)
    {
      flows := [];
      for i := 0 to |sinks|
        invariant |flows| == i
        invariant forall j :: 0 <= j < i ==> flows[j] == FlowOf(sinks[j])
      {
        var s := sinks[i];
        var energy := s.severity * 2.0;
        var notes := if s.description == "" then DefaultNote else s.description;
        flows := flows + [Flow(s.attackerOrigin, s.victimOrigin, energy, notes)];
      }
    }

    /** The report: one flow per input sink, in order, and their summary. */
    method Process(data: seq<SinkSpec>) returns (r: Report)
      ensures r.organ == name
      ensures |r.flows| == |data|
      ensures forall i :: 0 <= i < |data| ==> r.flows[i] == FlowOf(SinkOf(data[i]))
      ensures r.summary == Summarize(r.flows)
    {
      var sinks := BuildSinks(data);
      var flows := ComputeFlows(sinks);
      return Report(name, flows, Summarize(flows));
    }
  }
}
