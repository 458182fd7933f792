/**
 * A leaky integrate-and-fire neuron: the membrane potential starts at rest,
 * each input moves it by ten times the input less a leak of one, and a
 * potential above the firing threshold emits a spike and resets to rest.
 */
module SpikeNeuron {

  const Rest: real := -65.0
  const Threshold: real := -50.0

  /** The potential after integrating one input, before the threshold test. */
  function Charge(v: real, input: real): real {
    v + input * 10.0 - 1.0
  }

  predicate Fires(v: real, input: real) {
    Charge(v, input) > Threshold
  }

  /** The potential recorded after one input: reset to rest on a spike. */
  function Step(v: real, input: real): (w: real)
    ensures w <= Threshold
    ensures Fires(v, input) ==> w == Rest
  {
    if Fires(v, input) then Rest else Charge(v, input)
  }

  /** The potential after all of `inputs`, starting from rest. */
  function StateAfter(inputs: seq<real>): real {
    if inputs == [] then Rest else Step(StateAfter(inputs[..|inputs| - 1]), inputs[|inputs| - 1])
  }

  /** The spike bit of step `i`: 1 when the charged potential crosses the threshold. */
  function SpikeAt(inputs: seq<real>, i: nat): int
    requires i < |inputs|
  {
    if Fires(StateAfter(inputs[..i]), inputs[i]) then 1 else 0
  }

  lemma StateAfterStep(inputs: seq<real>, i: nat)
    requires i < |inputs|
    ensures StateAfter(inputs[..i + 1]) == Step(StateAfter(inputs[..i]), inputs[i])
  {
    assert inputs[..i + 1][..i] == inputs[..i];
  }

  /** Without positive input the neuron never rises above rest, so it never fires. */
  lemma {:induction false} QuietNeuronNeverFires(inputs: seq<real>)
    requires forall i :: 0 <= i < |inputs| ==> inputs[i] <= 0.0
    ensures StateAfter(inputs) <= Rest
    ensures forall i :: 0 <= i < |inputs| ==> !Fires(StateAfter(inputs[..i]), inputs[i])
  {
    if inputs != [] {
      var init := inputs[..|inputs| - 1];
      QuietNeuronNeverFires(init);
      forall i | 0 <= i < |inputs|
        ensures !Fires(StateAfter(inputs[..i]), inputs[i])
      {
        if i < |init| {
          assert inputs[..i] == init[..i];
        } else {
          assert inputs[..i] == init;
        }
      }
    }
  }

  /** With no input at all the potential leaks by one per step. */
  lemma {:induction false} LeakWithoutInput(inputs: seq<real>)
    requires forall i :: 0 <= i < |inputs| ==> inputs[i] == 0.0
    ensures StateAfter(inputs) == Rest - |inputs| as real
  {
    if inputs != [] {
      LeakWithoutInput(inputs[..|inputs| - 1]);
    }
  }

  /**
   * Feeds the inputs in order, recording the potential and whether a spike
   * was emitted after each one.
   */
  method Simulate(inputs: seq<real>) returns (potentials: seq<real>, spikes: seq<int>)
    ensures |potentials| == |inputs| && |spikes| == |inputs|
    ensures forall i :: 0 <= i < |inputs| ==> potentials[i] == StateAfter(inputs[..i + 1])
    ensures forall i :: 0 <= i < |inputs| ==> spikes[i] == SpikeAt(inputs, i)
    ensures forall i :: 0 <= i < |inputs| ==> (spikes[i] == 0 || spikes[i] == 1) && potentials[i] <= Threshold
    ensures forall i :: 0 <= i < |inputs| && spikes[i] == 1 ==> potentials[i] == Rest
  {
    var v := Rest;
    potentials := [];
    spikes := [];
    for i := 0 to |inputs|
      invariant |potentials| == i && |spikes| == i
      invariant v == StateAfter(inputs[..i])
      invariant forall j :: 0 <= j < i ==> potentials[j] == StateAfter(inputs[..j + 1])
      invariant forall j :: 0 <= j < i ==> spikes[j] == SpikeAt(inputs, j)
    {
      StateAfterStep(inputs, i);
      v := v + inputs[i] * 10.0 - 1.0;
      if v > Threshold {
        spikes := spikes + [1];
        v := Rest;
      } else {
        spikes := spikes + [0];
      }
      potentials := potentials + [v];
    }
    forall i | 0 <= i < |inputs|
      ensures potentials[i] <= Threshold
      ensures spikes[i] == 1 ==> potentials[i] == Rest
    {
      StateAfterStep(inputs, i);
    }
  }
}
