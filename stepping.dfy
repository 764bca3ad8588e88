/** The skeleton the four integrators of website/src/utils/simulators.ts
    share: the step count, the time axis, the rectangular stimulus window and
    the shape of the returned arrays. */
module Stepping {
  import opened Types

  /** The largest length `Array(n)` accepts; a larger, negative or
      non-integral length throws a RangeError. */
  const MaxArrayLength: int := 4294967295

  /** `Array(Math.floor(duration / dt))` does not throw: the step count is a
      finite, non-negative array length. */
  predicate ArrayLengthValid(c: ActionPotentialParams)
  {
    c.timeStep != 0.0 &&
    0.0 <= c.duration / c.timeStep < (MaxArrayLength + 1) as real
  }

  /** `numSteps = Math.floor(duration / dt)`. */
  function NumSteps(c: ActionPotentialParams): (n: nat)
    requires ArrayLengthValid(c)
    ensures n as real <= c.duration / c.timeStep < n as real + 1.0
    ensures n <= MaxArrayLength
  {
    (c.duration / c.timeStep).Floor
  }

  /** Time of sample i, by multiplication rather than accumulation. */
  function TimeAt(c: ActionPotentialParams, i: nat): real
  {
    i as real * c.timeStep
  }

  /** `Array(n).fill(0).map((_, i) => i * dt)`. */
  function TimeAxis(c: ActionPotentialParams, n: nat): (ts: seq<real>)
    ensures |ts| == n
    ensures n > 0 ==> ts[0] == 0.0
    ensures forall i :: 0 <= i < n - 1 ==> ts[i + 1] - ts[i] == c.timeStep
    ensures forall i :: 0 <= i < n ==> ts[i] == TimeAt(c, i)
  {
    seq(n, (i: int) requires 0 <= i => TimeAt(c, i))
  }

  /** The stimulus window is closed at both ends. */
  predicate InWindow(c: ActionPotentialParams, t: real)
  {
    c.stimulusStart <= t && t <= c.stimulusStart + c.stimulusDuration
  }

  /** `I_ext` at time t. */
  function ExternalCurrent(c: ActionPotentialParams, t: real): real
  {
    if InWindow(c, t) then c.stimulusCurrent else 0.0
  }

  /** What every integrator promises of its time, voltage and current arrays:
      all have `numSteps` elements, `time[i] = i * dt`, and `current[i]` is the
      stimulus amplitude exactly inside the window and zero outside it. */
  ghost predicate WellFormed(c: ActionPotentialParams, r: SimulationResult)
    requires ArrayLengthValid(c)
  {
    var n := NumSteps(c);
    |r.time| == n && |r.voltage| == n &&
    r.current.Some? && |r.current.value| == n &&
    (forall i :: 0 <= i < n ==> r.time[i] == i as real * c.timeStep) &&
    (forall i :: 0 <= i < n ==>
      (InWindow(c, r.time[i]) ==> r.current.value[i] == c.stimulusCurrent) &&
      (!InWindow(c, r.time[i]) ==> r.current.value[i] == 0.0))
  }

  /** Sample i carries the current of the window rule at its own time. */
  lemma CurrentIsStimulus(c: ActionPotentialParams, r: SimulationResult, i: nat)
    requires ArrayLengthValid(c) && WellFormed(c, r) && i < NumSteps(c)
    ensures r.current.value[i] == ExternalCurrent(c, TimeAt(c, i))
  {
  }
}
