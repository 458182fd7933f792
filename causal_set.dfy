/**
 * The threshold event linker: the samples of a signal that exceed a
 * threshold are events, and each event is linked to the next one.
 */
module CausalEvents {

  /** The threshold `build_causal_set` uses when its caller gives none. */
  const DefaultThreshold: real := 0.5

  /** A causal link `[earlier, later]` between two events, given by their sample indices. */
  datatype CausalLink = CausalLink(earlier: nat, later: nat)

  datatype CausalSet = CausalSet(events: seq<nat>, causalLinks: seq<CausalLink>)

  /** The indices of the samples above `threshold`, in increasing order. */
  function Events(v: seq<real>, threshold: real): (e: seq<nat>)
    ensures |e| <= |v|
  {
    if v == [] then []
    else Events(v[..|v| - 1], threshold) + if v[|v| - 1] > threshold then [|v| - 1] else []
  }

  /** Every event is the index of a sample above the threshold. */
  lemma {:induction false} EventsAboveThreshold(v: seq<real>, threshold: real)
    ensures forall i :: 0 <= i < |Events(v, threshold)| ==>
      Events(v, threshold)[i] < |v| && v[Events(v, threshold)[i]] > threshold
  {
    if v != [] {
      var init := v[..|v| - 1];
      EventsAboveThreshold(init, threshold);
      var before := Events(init, threshold);
      var e := Events(v, threshold);
      forall i | 0 <= i < |e|
        ensures e[i] < |v| && v[e[i]] > threshold
      {
        if i < |before| {
          assert e[i] == before[i] && v[before[i]] == init[before[i]];
        }
      }
    }
  }

  /** The events are listed in strictly increasing order, so each once. */
  lemma {:induction false} EventsAscending(v: seq<real>, threshold: real)
    ensures forall i, j :: 0 <= i < j < |Events(v, threshold)| ==> Events(v, threshold)[i] < Events(v, threshold)[j]
  {
    if v != [] {
      var init := v[..|v| - 1];
      EventsAscending(init, threshold);
      EventsAboveThreshold(init, threshold);
      var before := Events(init, threshold);
      var e := Events(v, threshold);
      forall i, j | 0 <= i < j < |e|
        ensures e[i] < e[j]
      {
        assert e[i] == before[i];
        if j < |before| {
          assert e[j] == before[j];
        }
      }
    }
  }

  /** Every sample above the threshold is an event. */
  lemma {:induction false} EventsComplete(v: seq<real>, threshold: real)
    ensures forall k :: 0 <= k < |v| && v[k] > threshold ==> k in Events(v, threshold)
  {
    if v != [] {
      var init := v[..|v| - 1];
      EventsComplete(init, threshold);
      forall k | 0 <= k < |v| && v[k] > threshold
        ensures k in Events(v, threshold)
      {
        if k < |init| {
          assert init[k] == v[k];
        }
      }
    }
  }

  /** Without a sample above the threshold there are no events. */
  lemma {:induction false} NoEvents(v: seq<real>, threshold: real)
    requires forall k :: 0 <= k < |v| ==> v[k] <= threshold
    ensures Events(v, threshold) == []
  {
    if v != [] {
      NoEvents(v[..|v| - 1], threshold);
    }
  }

  /** Linked events are consecutive: no sample strictly between them exceeds the threshold. */
  lemma LinkedEventsAreConsecutive(v: seq<real>, threshold: real, i: nat, k: nat)
    requires i + 1 < |Events(v, threshold)|
    requires Events(v, threshold)[i] < k < Events(v, threshold)[i + 1]
    ensures k < |v| && v[k] <= threshold
  {
    EventsAscending(v, threshold);
    EventsComplete(v, threshold);
    var e := Events(v, threshold);
    forall m | 0 <= m < |e|
      ensures e[m] != k
    {
      if m < i {
        assert e[m] < e[i];
      } else if i + 1 < m {
        assert e[i + 1] < e[m];
      }
    }
  }

  lemma EventPair(v: seq<real>, threshold: real, j: nat)
    requires j + 1 < |Events(v, threshold)|
    ensures var e := Events(v, threshold);
      e[j] < e[j + 1] < |v| && e[j] in e && e[j + 1] in e
  {
    EventsAscending(v, threshold);
    EventsAboveThreshold(v, threshold);
  }

  /**
   * The events of the signal and a link between each pair of consecutive
   * events; with fewer than two events there are no links.
   */
  method BuildCausalSet(v: seq<real>, threshold: real := DefaultThreshold) returns (r: CausalSet)
    ensures r.events == Events(v, threshold)
    ensures |r.causalLinks| == if |r.events| == 0 then 0 else |r.events| - 1
    ensures forall i :: 0 <= i < |r.causalLinks| ==> r.causalLinks[i] == CausalLink(r.events[i], r.events[i + 1])
    ensures forall i :: 0 <= i < |r.causalLinks| ==>
      var l := r.causalLinks[i];
      && l.earlier < l.later < |v|
      && l.earlier in r.events && l.later in r.events
  {
    var events := Events(v, threshold);
    var links: seq<CausalLink> := [];
    var i := 0;
    while i + 1 < |events|
      invariant i == |links|
      invariant i == 0 || i < |events|
      invariant forall j :: 0 <= j < i ==> links[j] == CausalLink(events[j], events[j + 1])
    {
      links := links + [CausalLink(events[i], events[i + 1])];
      i := i + 1;
    }
    forall j | 0 <= j < |links|
      ensures links[j].earlier < links[j].later < |v|
      ensures links[j].earlier in events && links[j].later in events
    {
      EventPair(v, threshold, j);
    }
    return CausalSet(events, links);
  }
}
