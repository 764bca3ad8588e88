/** `simulateFitzHughNagumo` of website/src/utils/simulators.ts: explicit
    Euler over the dimensionless pair (v, w); v is reported scaled to
    millivolts. */
module FitzHughNagumo {
  import opened Types
  import opened Stepping

  datatype State = State(v: real, w: real)

  /** The fixed initial conditions. */
  const Initial: State := State(-1.0, -0.5)

  /** `voltage[i] = v * 100 - 70`. */
  function ReportedVoltage(v: real): real
  {
    v * 100.0 - 70.0
  }

  /** The internal fast variable a reported voltage stands for. */
  function InternalVoltage(mV: real): real
  {
    (mV + 70.0) / 100.0
  }

  /** Reporting loses nothing: the scaling is undone exactly, and distinct
      internal values are reported as distinct voltages. */
  lemma ReportingIsInvertible(v: real, v': real)
    ensures InternalVoltage(ReportedVoltage(v)) == v
    ensures ReportedVoltage(InternalVoltage(v)) == v
    ensures ReportedVoltage(v) == ReportedVoltage(v') ==> v == v'
  {
  }

  /** One explicit-Euler step; both derivatives are taken at the old state. */
  function Step(p: FitzHughNagumoParams, s: State, iExt: real): State
    requires p.tau != 0.0
  {
    EulerStep(p.common.timeStep, p.a, p.b, p.tau, s, iExt)
  }

  /** The step on the fields it reads: the time step, a, b and tau. */
  function EulerStep(dt: real, a: real, b: real, tau: real, s: State, iExt: real): State
    requires tau != 0.0
  {
    var dvdt := s.v - (s.v * s.v * s.v) / 3.0 - s.w + iExt;
    var dwdt := (s.v + a - b * s.w) / tau;
    State(s.v + dt * dvdt, s.w + dt * dwdt)
  }

  /** The reference trajectory. */
  function StateAt(p: FitzHughNagumoParams, i: nat): State
    requires p.tau != 0.0
  {
    if i == 0 then Initial
    else Step(p, StateAt(p, i - 1), ExternalCurrent(p.common, TimeAt(p.common, i - 1)))
  }

  /** The gating block holds w only, index-aligned with the voltage array. */
  predicate HasGates(r: SimulationResult)
  {
    r.gatingVariables.Some? &&
    r.gatingVariables.value.m.None? && r.gatingVariables.value.h.None? &&
    r.gatingVariables.value.n.None? &&
    r.gatingVariables.value.w.Some? && |r.gatingVariables.value.w.value| == |r.voltage|
  }

  /** The internal state sample i stands for. */
  function Sample(r: SimulationResult, i: nat): State
    requires HasGates(r) && i < |r.voltage|
  {
    State(InternalVoltage(r.voltage[i]), r.gatingVariables.value.w.value[i])
  }

  /** What a call promises: the shared shape, the gate w, and sample i
      reports the reference state at step i. */
  ghost predicate IsRun(p: FitzHughNagumoParams, r: SimulationResult)
    requires p.tau != 0.0 && ArrayLengthValid(p.common)
  {
    WellFormed(p.common, r) && HasGates(r) &&
    forall i :: 0 <= i < NumSteps(p.common) ==>
      r.voltage[i] == ReportedVoltage(StateAt(p, i).v) &&
      r.gatingVariables.value.w.value[i] == StateAt(p, i).w
  }

  /** Every state of the trace is the reference state at its index. */
  ghost predicate OnTrajectory(p: FitzHughNagumoParams, trace: seq<State>)
    requires p.tau != 0.0
  {
    forall j {:trigger StateAt(p, j)} :: 0 <= j < |trace| ==> StateAt(p, j) == trace[j]
  }

  lemma ExtendTrajectory(p: FitzHughNagumoParams, trace: seq<State>, s: State)
    requires p.tau != 0.0
    requires OnTrajectory(p, trace) && StateAt(p, |trace|) == s
    ensures OnTrajectory(p, trace + [s])
  {
    var t := trace + [s];
    forall j | 0 <= j < |t| ensures StateAt(p, j) == t[j] {
      if j < |trace| { assert t[j] == trace[j]; }
    }
  }

  /** The update branch of the loop body: both derivatives first, then both
      variables. */
  method UpdateState(p: FitzHughNagumoParams, v: real, wVal: real, iExt: real)
    returns (nextV: real, nextW: real)
    requires p.tau != 0.0
    ensures State(nextV, nextW) == Step(p, State(v, wVal), iExt)
  {
    var dt := p.common.timeStep;
    var dvdt := v - (v * v * v) / 3.0 - wVal + iExt;
    var dwdt := (v + p.a - p.b * wVal) / p.tau;

    nextV := v + dt * dvdt;
    nextW := wVal + dt * dwdt;
  }

  method SimulateFitzHughNagumo(p: FitzHughNagumoParams) returns (r: SimulationResult)
    requires ArrayLengthValid(p.common) && p.tau != 0.0
    ensures IsRun(p, r)
  {
    var c := p.common;
    var numSteps := NumSteps(c);
    var time := TimeAxis(c, numSteps);
    var voltage, current, w := [], [], [];

    var v, wVal := -1.0, -0.5;
    ghost var trace: seq<State> := [];

    var i := 0;
    while i < numSteps
      invariant 0 <= i <= numSteps && |trace| == i
      invariant |voltage| == i && |current| == i && |w| == i
      invariant OnTrajectory(p, trace)
      invariant i < numSteps ==> StateAt(p, i) == State(v, wVal)
      invariant forall j :: 0 <= j < i ==>
        voltage[j] == ReportedVoltage(trace[j].v) && w[j] == trace[j].w
      invariant forall j :: 0 <= j < i ==> current[j] == ExternalCurrent(c, time[j])
    {
      var t := time[i];
      var iExt := if t >= c.stimulusStart && t <= c.stimulusStart + c.stimulusDuration
                  then c.stimulusCurrent else 0.0;

      voltage := voltage + [v * 100.0 - 70.0];
      current := current + [iExt];
      w := w + [wVal];
      ExtendTrajectory(p, trace, State(v, wVal));
      trace := trace + [State(v, wVal)];

      if i < numSteps - 1 {
        assert iExt == ExternalCurrent(c, TimeAt(c, i));
        v, wVal := UpdateState(p, v, wVal, iExt);
      }
      i := i + 1;
    }

    r := SimulationResult(time, voltage, Some(current),
                          Some(GatingVariables(None, None, None, Some(w))));
    forall j | 0 <= j < numSteps
      ensures r.voltage[j] == ReportedVoltage(StateAt(p, j).v)
      ensures r.gatingVariables.value.w.value[j] == StateAt(p, j).w
    {
      assert StateAt(p, j) == trace[j];
    }
  }

  /** Sample 0 of a non-empty run: v = -1 is reported as -170 mV, and w
      starts at -0.5. */
  lemma InitialSample(p: FitzHughNagumoParams, r: SimulationResult)
    requires p.tau != 0.0 && ArrayLengthValid(p.common)
    requires IsRun(p, r) && NumSteps(p.common) > 0
    ensures r.voltage[0] == -170.0
    ensures r.gatingVariables.value.w.value[0] == -0.5
  {
    assert StateAt(p, 0) == Initial;
  }

  /** Consecutive samples are one Euler step apart, driven by the recorded
      current of the earlier sample. */
  lemma SamplesFollowEuler(p: FitzHughNagumoParams, r: SimulationResult, i: nat)
    requires p.tau != 0.0 && ArrayLengthValid(p.common)
    requires IsRun(p, r) && i + 1 < NumSteps(p.common)
    ensures Sample(r, i + 1) == Step(p, Sample(r, i), r.current.value[i])
  {
    var s0, s1 := StateAt(p, i), StateAt(p, i + 1);
    ReportingIsInvertible(s0.v, s0.v);
    ReportingIsInvertible(s1.v, s1.v);
    assert Sample(r, i) == s0;
    assert Sample(r, i + 1) == s1;
    CurrentIsStimulus(p.common, r, i);
  }

  /** Two runs on the same parameters agree sample for sample. */
  lemma RunIsDeterministic(p: FitzHughNagumoParams, r1: SimulationResult, r2: SimulationResult)
    requires p.tau != 0.0 && ArrayLengthValid(p.common)
    requires IsRun(p, r1) && IsRun(p, r2)
    ensures r1 == r2
  {
    var n := NumSteps(p.common);
    var w1, w2 := r1.gatingVariables.value.w.value, r2.gatingVariables.value.w.value;
    forall i | 0 <= i < n ensures r1.voltage[i] == r2.voltage[i] && w1[i] == w2[i] {
      var s := StateAt(p, i);
    }
    assert r1.time == r2.time;
    assert r1.voltage == r2.voltage;
    assert r1.current.value == r2.current.value;
    assert w1 == w2;
  }

  /** A step never reads the `threshold` field. */
  lemma StepIgnoresThreshold(p: FitzHughNagumoParams, x: real, s: State, iExt: real)
    requires p.tau != 0.0
    ensures Step(p.(threshold := x), s, iExt) == Step(p, s, iExt)
  {
    var q := p.(threshold := x);
    assert q.common.timeStep == p.common.timeStep && q.a == p.a && q.b == p.b && q.tau == p.tau;
  }

  /** Nor, by induction, does the trajectory. */
  lemma {:induction false} ThresholdIgnoredAt(p: FitzHughNagumoParams, x: real, i: nat)
    requires p.tau != 0.0
    ensures StateAt(p.(threshold := x), i) == StateAt(p, i)
  {
    if i > 0 {
      ThresholdIgnoredAt(p, x, i - 1);
      StepIgnoresThreshold(p, x, StateAt(p, i - 1), ExternalCurrent(p.common, TimeAt(p.common, i - 1)));
    }
  }

  /** Hence a run on p is exactly a run on p with any other threshold. */
  lemma ThresholdIgnored(p: FitzHughNagumoParams, x: real, r: SimulationResult)
    requires p.tau != 0.0 && ArrayLengthValid(p.common)
    ensures IsRun(p, r) <==> IsRun(p.(threshold := x), r)
  {
    forall i | 0 <= i < NumSteps(p.common) {
      ThresholdIgnoredAt(p, x, i);
    }
  }
}
