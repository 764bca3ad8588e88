/** `simulateIntegrateFire` of website/src/utils/simulators.ts: explicit
    Euler over the membrane voltage with a hard reset at threshold. */
module IntegrateFire {
  import opened Types
  import opened Stepping

  /** The membrane time constant `tau = Rm * Cm`. */
  function Tau(p: IntegrateFireParams): real
  {
    p.membraneResistance * p.membraneCapacitance
  }

  /** The leaky-integrator Euler update, before the threshold test. */
  function Integrate(p: IntegrateFireParams, V: real, iExt: real): real
    requires Tau(p) != 0.0
  {
    V + p.common.timeStep * ((-(V - p.restingPotential) + p.membraneResistance * iExt) / Tau(p))
  }

  /** One step: integrate, then replace any voltage at or above threshold
      by the reset potential. The result is either the reset potential or
      strictly below threshold; a crossing gives exactly the reset
      potential, and no crossing leaves the integrated voltage. */
  function Step(p: IntegrateFireParams, V: real, iExt: real): (next: real)
    requires Tau(p) != 0.0
    ensures next == p.resetPotential || next < p.thresholdVoltage
    ensures Integrate(p, V, iExt) >= p.thresholdVoltage ==> next == p.resetPotential
    ensures Integrate(p, V, iExt) < p.thresholdVoltage ==> next == Integrate(p, V, iExt)
  {
    var integrated := Integrate(p, V, iExt);
    if integrated >= p.thresholdVoltage then p.resetPotential else integrated
  }

  /** The reference trajectory, starting at the resting potential. */
  function VoltageAt(p: IntegrateFireParams, i: nat): real
    requires Tau(p) != 0.0
  {
    if i == 0 then p.restingPotential
    else Step(p, VoltageAt(p, i - 1), ExternalCurrent(p.common, TimeAt(p.common, i - 1)))
  }

  /** What a call promises: the shared shape, no gating block, and sample i
      is the reference voltage at step i. */
  ghost predicate IsRun(p: IntegrateFireParams, r: SimulationResult)
    requires Tau(p) != 0.0 && ArrayLengthValid(p.common)
  {
    WellFormed(p.common, r) && r.gatingVariables.None? &&
    forall i :: 0 <= i < NumSteps(p.common) ==> r.voltage[i] == VoltageAt(p, i)
  }

  /** Every voltage of the trace is the reference voltage at its index. */
  ghost predicate OnTrajectory(p: IntegrateFireParams, trace: seq<real>)
    requires Tau(p) != 0.0
  {
    forall j {:trigger VoltageAt(p, j)} :: 0 <= j < |trace| ==> VoltageAt(p, j) == trace[j]
  }

  lemma ExtendTrajectory(p: IntegrateFireParams, trace: seq<real>, V: real)
    requires Tau(p) != 0.0
    requires OnTrajectory(p, trace) && VoltageAt(p, |trace|) == V
    ensures OnTrajectory(p, trace + [V])
  {
    var t := trace + [V];
    forall j | 0 <= j < |t| ensures VoltageAt(p, j) == t[j] {
      if j < |trace| { assert t[j] == trace[j]; }
    }
  }

  /** The update branch of the loop body: the Euler update, then the spike
      check. */
  method UpdateVoltage(p: IntegrateFireParams, tau: real, V: real, iExt: real) returns (next: real)
    requires tau == Tau(p) && tau != 0.0
    ensures next == Step(p, V, iExt)
  {
    var dVdt := (-(V - p.restingPotential) + p.membraneResistance * iExt) / tau;
    next := V + p.common.timeStep * dVdt;
    if next >= p.thresholdVoltage {
      next := p.resetPotential;
    }
  }

  method SimulateIntegrateFire(p: IntegrateFireParams) returns (r: SimulationResult)
    requires ArrayLengthValid(p.common) && Tau(p) != 0.0
    ensures IsRun(p, r)
  {
    var c := p.common;
    var numSteps := NumSteps(c);
    var time := TimeAxis(c, numSteps);
    var voltage, current := [], [];

    var tau := p.membraneResistance * p.membraneCapacitance;
    var V := p.restingPotential;

    var i := 0;
    while i < numSteps
      invariant 0 <= i <= numSteps && |voltage| == i && |current| == i
      invariant OnTrajectory(p, voltage)
      invariant i < numSteps ==> VoltageAt(p, i) == V
      invariant forall j :: 0 <= j < i ==> current[j] == ExternalCurrent(c, time[j])
    {
      var t := time[i];
      var iExt := if t >= c.stimulusStart && t <= c.stimulusStart + c.stimulusDuration
                  then c.stimulusCurrent else 0.0;

      ExtendTrajectory(p, voltage, V);
      voltage := voltage + [V];
      current := current + [iExt];

      if i < numSteps - 1 {
        assert iExt == ExternalCurrent(c, TimeAt(c, i));
        V := UpdateVoltage(p, tau, V, iExt);
      }
      i := i + 1;
    }

    r := SimulationResult(time, voltage, Some(current), None);
    forall j | 0 <= j < numSteps ensures r.voltage[j] == VoltageAt(p, j) {
      assert VoltageAt(p, j) == voltage[j];
    }
  }

  /** Sample 0 of a non-empty run is the resting potential. */
  lemma InitialSample(p: IntegrateFireParams, r: SimulationResult)
    requires Tau(p) != 0.0 && ArrayLengthValid(p.common)
    requires IsRun(p, r) && NumSteps(p.common) > 0
    ensures r.voltage[0] == p.restingPotential
  {
    assert VoltageAt(p, 0) == p.restingPotential;
  }

  /** Consecutive samples are one step apart, driven by the recorded current
      of the earlier sample. */
  lemma SamplesFollowStep(p: IntegrateFireParams, r: SimulationResult, i: nat)
    requires Tau(p) != 0.0 && ArrayLengthValid(p.common)
    requires IsRun(p, r) && i + 1 < NumSteps(p.common)
    ensures r.voltage[i + 1] == Step(p, r.voltage[i], r.current.value[i])
  {
    assert r.voltage[i] == VoltageAt(p, i);
    assert r.voltage[i + 1] == VoltageAt(p, i + 1);
    CurrentIsStimulus(p.common, r, i);
  }

  /** Along a run, a sample whose integrated successor reaches threshold is
      followed by exactly the reset potential; otherwise by the integrated
      voltage itself. */
  lemma ResetAtCrossing(p: IntegrateFireParams, r: SimulationResult, i: nat)
    requires Tau(p) != 0.0 && ArrayLengthValid(p.common)
    requires IsRun(p, r) && i + 1 < NumSteps(p.common)
    ensures Integrate(p, r.voltage[i], r.current.value[i]) >= p.thresholdVoltage ==>
              r.voltage[i + 1] == p.resetPotential
    ensures Integrate(p, r.voltage[i], r.current.value[i]) < p.thresholdVoltage ==>
              r.voltage[i + 1] == Integrate(p, r.voltage[i], r.current.value[i])
  {
    SamplesFollowStep(p, r, i);
  }

  /** With the reset potential below threshold, every sample after the first
      is strictly below threshold. */
  lemma BelowThresholdAfterStart(p: IntegrateFireParams, r: SimulationResult, i: nat)
    requires Tau(p) != 0.0 && ArrayLengthValid(p.common)
    requires p.resetPotential < p.thresholdVoltage
    requires IsRun(p, r) && 1 <= i < NumSteps(p.common)
    ensures r.voltage[i] < p.thresholdVoltage
  {
    assert r.voltage[i] == VoltageAt(p, i);
  }

  /** From rest with no stimulus, one step stays at rest, unless rest is
      itself at or above threshold, in which case the step resets. */
  lemma RestStep(p: IntegrateFireParams)
    requires Tau(p) != 0.0
    ensures p.restingPotential < p.thresholdVoltage ==> Step(p, p.restingPotential, 0.0) == p.restingPotential
    ensures p.thresholdVoltage <= p.restingPotential ==> Step(p, p.restingPotential, 0.0) == p.resetPotential
  {
    var numerator := -(p.restingPotential - p.restingPotential) + p.membraneResistance * 0.0;
    assert numerator == 0.0;
    assert Integrate(p, p.restingPotential, 0.0) == p.restingPotential;
  }

  /** A neuron resting below threshold stays at rest for as long as no
      stimulus has been applied. */
  lemma {:induction false} StaysAtRest(p: IntegrateFireParams, k: nat)
    requires Tau(p) != 0.0 && p.restingPotential < p.thresholdVoltage
    requires forall j :: 0 <= j < k ==> ExternalCurrent(p.common, TimeAt(p.common, j)) == 0.0
    ensures VoltageAt(p, k) == p.restingPotential
  {
    if k > 0 {
      StaysAtRest(p, k - 1);
      RestStep(p);
    }
  }

  /** Two runs on the same parameters agree sample for sample. */
  lemma RunIsDeterministic(p: IntegrateFireParams, r1: SimulationResult, r2: SimulationResult)
    requires Tau(p) != 0.0 && ArrayLengthValid(p.common)
    requires IsRun(p, r1) && IsRun(p, r2)
    ensures r1 == r2
  {
    assert r1.time == r2.time;
    assert r1.voltage == r2.voltage;
    assert r1.current.value == r2.current.value;
  }
}
