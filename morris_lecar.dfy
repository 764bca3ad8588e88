/** `simulateMorrisLecar` of website/src/utils/simulators.ts: explicit Euler
    over the voltage V and the potassium recovery variable w. */
module MorrisLecar {
  import opened Types
  import opened Stepping

  datatype State = State(V: real, w: real)

  /** The fixed initial conditions. */
  const Initial: State := State(-60.0, 0.014)

  /** The divisors the integrator uses: C, v2, and v4 (also as 2 * v4). */
  predicate Divisible(p: MorrisLecarParams)
  {
    p.membraneCapacitance != 0.0 && p.v2 != 0.0 && p.v4 != 0.0
  }

  // Steady-state functions; each is a fraction or a time constant in (0, 1],
  // and each needs only its own divisor to be non-zero.

  function MInf(p: MorrisLecarParams, math: MathLib, V: real): (r: real)
    requires Sound(math) && p.v2 != 0.0
    ensures 0.0 < r < 1.0
  {
    0.5 * (1.0 + math.tanh((V - p.v1) / p.v2))
  }

  function WInf(p: MorrisLecarParams, math: MathLib, V: real): (r: real)
    requires Sound(math) && p.v4 != 0.0
    ensures 0.0 < r < 1.0
  {
    0.5 * (1.0 + math.tanh((V - p.v3) / p.v4))
  }

  function TauW(p: MorrisLecarParams, math: MathLib, V: real): (r: real)
    requires Sound(math) && p.v4 != 0.0
    ensures 0.0 < r <= 1.0
  {
    var k := math.cosh((V - p.v3) / (2.0 * p.v4));
    assert 1.0 <= k;
    1.0 / k
  }

  // Ionic currents of one state.

  function CalciumCurrent(p: MorrisLecarParams, math: MathLib, s: State): real
    requires Sound(math) && p.v2 != 0.0
  {
    p.calciumConductance * MInf(p, math, s.V) * (s.V - p.calciumReversal)
  }

  function PotassiumCurrent(p: MorrisLecarParams, s: State): real
  {
    p.potassiumConductance * s.w * (s.V - p.potassiumReversal)
  }

  function LeakCurrent(p: MorrisLecarParams, s: State): real
  {
    p.leakConductance * (s.V - p.leakReversal)
  }

  /** With non-negative conductances and gate, each ionic current has the
      sign of the voltage's distance from its reversal potential, so its
      term `-I` in dV/dt pulls V toward that potential; the current vanishes
      exactly when a positive conductance meets V at the reversal. */
  lemma CurrentsPullTowardReversal(p: MorrisLecarParams, math: MathLib, s: State)
    requires Sound(math) && p.v2 != 0.0
    requires 0.0 <= p.calciumConductance && 0.0 <= p.potassiumConductance
    requires 0.0 <= p.leakConductance && 0.0 <= s.w
    ensures 0.0 <= CalciumCurrent(p, math, s) * (s.V - p.calciumReversal)
    ensures 0.0 <= PotassiumCurrent(p, s) * (s.V - p.potassiumReversal)
    ensures 0.0 <= LeakCurrent(p, s) * (s.V - p.leakReversal)
    ensures 0.0 < p.calciumConductance ==>
              (CalciumCurrent(p, math, s) == 0.0 <==> s.V == p.calciumReversal)
    ensures 0.0 < p.leakConductance ==>
              (LeakCurrent(p, s) == 0.0 <==> s.V == p.leakReversal)
  {
    var m := MInf(p, math, s.V);
    var dCa, dK, dL := s.V - p.calciumReversal, s.V - p.potassiumReversal, s.V - p.leakReversal;
    assert 0.0 <= p.calciumConductance * m;
    assert CalciumCurrent(p, math, s) * dCa == (p.calciumConductance * m) * (dCa * dCa);
    assert 0.0 <= p.potassiumConductance * s.w;
    assert PotassiumCurrent(p, s) * dK == (p.potassiumConductance * s.w) * (dK * dK);
    assert 0.0 <= dK * dK;
    assert 0.0 <= (p.potassiumConductance * s.w) * (dK * dK);
    assert LeakCurrent(p, s) * dL == p.leakConductance * (dL * dL);
    if 0.0 < p.calciumConductance {
      assert 0.0 < p.calciumConductance * m;
    }
  }

  /** The recovery update, relaxing w toward WInf(V) with time constant
      TauW(V) / phi. */
  function RecoveryStep(p: MorrisLecarParams, math: MathLib, V: real, w: real): real
    requires Sound(math) && p.v4 != 0.0
  {
    w + p.common.timeStep * (p.phi * (WInf(p, math, V) - w) / TauW(p, math, V))
  }

  /** The recovery update moves w toward its steady state by the factor
      1 - dt * phi / TauW(V). */
  lemma RecoveryRelaxes(p: MorrisLecarParams, math: MathLib, V: real, w: real)
    requires Sound(math) && p.v4 != 0.0
    ensures var wInf, tau := WInf(p, math, V), TauW(p, math, V);
      RecoveryStep(p, math, V, w) - wInf
        == (1.0 - p.common.timeStep * p.phi / tau) * (w - wInf)
  {
    var wInf, tau, dt := WInf(p, math, V), TauW(p, math, V), p.common.timeStep;
    calc {
      RecoveryStep(p, math, V, w) - wInf;
      w - wInf + dt * (p.phi * (wInf - w) / tau);
      { assert p.phi * (wInf - w) / tau == -(p.phi / tau) * (w - wInf); }
      w - wInf - dt * (p.phi / tau) * (w - wInf);
      { assert dt * (p.phi / tau) == dt * p.phi / tau; }
      (1.0 - dt * p.phi / tau) * (w - wInf);
    }
  }

  /** w stays a fraction in [0, 1] when the step is small against its time
      constant: 0 <= dt * phi / TauW(V) <= 1. */
  lemma RecoveryStaysFraction(p: MorrisLecarParams, math: MathLib, V: real, w: real)
    requires Sound(math) && p.v4 != 0.0 && 0.0 <= w <= 1.0
    requires 0.0 <= p.common.timeStep * p.phi / TauW(p, math, V) <= 1.0
    ensures 0.0 <= RecoveryStep(p, math, V, w) <= 1.0
  {
    var wInf, k := WInf(p, math, V), p.common.timeStep * p.phi / TauW(p, math, V);
    RecoveryRelaxes(p, math, V, w);
    assert RecoveryStep(p, math, V, w) == (1.0 - k) * w + k * wInf;
    assert 0.0 <= (1.0 - k) * w <= 1.0 - k;
    assert 0.0 <= k * wInf <= k;
  }

  /** One explicit-Euler step; both derivatives are taken at the old state. */
  function Step(p: MorrisLecarParams, math: MathLib, s: State, iExt: real): State
    requires Sound(math) && Divisible(p)
  {
    var dt := p.common.timeStep;
    var dVdt := (-CalciumCurrent(p, math, s) - PotassiumCurrent(p, s) - LeakCurrent(p, s) + iExt)
                / p.membraneCapacitance;
    State(s.V + dt * dVdt, RecoveryStep(p, math, s.V, s.w))
  }

  /** The reference trajectory. */
  function StateAt(p: MorrisLecarParams, math: MathLib, i: nat): State
    requires Sound(math) && Divisible(p)
  {
    if i == 0 then Initial
    else Step(p, math, StateAt(p, math, i - 1), ExternalCurrent(p.common, TimeAt(p.common, i - 1)))
  }

  /** w stays a fraction along the trajectory as long as every step so far
      was small against the time constant of w. */
  lemma {:induction false} RecoveryStaysFractionAt(p: MorrisLecarParams, math: MathLib, i: nat)
    requires Sound(math) && Divisible(p)
    requires forall j :: 0 <= j < i ==>
      0.0 <= p.common.timeStep * p.phi / TauW(p, math, StateAt(p, math, j).V) <= 1.0
    ensures 0.0 <= StateAt(p, math, i).w <= 1.0
  {
    if i > 0 {
      RecoveryStaysFractionAt(p, math, i - 1);
      var s := StateAt(p, math, i - 1);
      RecoveryStaysFraction(p, math, s.V, s.w);
    }
  }

  /** The gating block holds w only, index-aligned with the voltage array. */
  predicate HasGates(r: SimulationResult)
  {
    r.gatingVariables.Some? &&
    r.gatingVariables.value.m.None? && r.gatingVariables.value.h.None? &&
    r.gatingVariables.value.n.None? &&
    r.gatingVariables.value.w.Some? && |r.gatingVariables.value.w.value| == |r.voltage|
  }

  function Sample(r: SimulationResult, i: nat): State
    requires HasGates(r) && i < |r.voltage|
  {
    State(r.voltage[i], r.gatingVariables.value.w.value[i])
  }

  /** What a call promises: the shared shape, the gate w, and sample i is
      the reference state at step i. */
  ghost predicate IsRun(p: MorrisLecarParams, math: MathLib, r: SimulationResult)
    requires Sound(math) && Divisible(p) && ArrayLengthValid(p.common)
  {
    WellFormed(p.common, r) && HasGates(r) &&
    forall i {:trigger Sample(r, i)} :: 0 <= i < NumSteps(p.common) ==> Sample(r, i) == StateAt(p, math, i)
  }

  /** Every state of the trace is the reference state at its index. */
  ghost predicate OnTrajectory(p: MorrisLecarParams, math: MathLib, trace: seq<State>)
    requires Sound(math) && Divisible(p)
  {
    forall j {:trigger StateAt(p, math, j)} :: 0 <= j < |trace| ==> StateAt(p, math, j) == trace[j]
  }

  lemma ExtendTrajectory(p: MorrisLecarParams, math: MathLib, trace: seq<State>, s: State)
    requires Sound(math) && Divisible(p)
    requires OnTrajectory(p, math, trace) && StateAt(p, math, |trace|) == s
    ensures OnTrajectory(p, math, trace + [s])
  {
    var t := trace + [s];
    forall j | 0 <= j < |t| ensures StateAt(p, math, j) == t[j] {
      if j < |trace| { assert t[j] == trace[j]; }
    }
  }

  /** The recorded arrays, packaged as the result, form a run. */
  lemma TraceIsRun(p: MorrisLecarParams, math: MathLib, r: SimulationResult, trace: seq<State>)
    requires Sound(math) && Divisible(p) && ArrayLengthValid(p.common)
    requires WellFormed(p.common, r) && HasGates(r)
    requires |trace| == NumSteps(p.common) && OnTrajectory(p, math, trace)
    requires forall j {:trigger trace[j]} :: 0 <= j < |trace| ==> trace[j] == Sample(r, j)
    ensures IsRun(p, math, r)
  {
    forall i | 0 <= i < NumSteps(p.common) ensures Sample(r, i) == StateAt(p, math, i) {
      assert trace[i] == Sample(r, i);
    }
  }

  /** The update branch of the loop body: both derivatives from the old
      state and the currents computed before recording, then both
      variables. */
  method UpdateState(p: MorrisLecarParams, math: MathLib, V: real, wVal: real,
                     iCa: real, iK: real, iL: real, iExt: real)
    returns (nextV: real, nextW: real)
    requires Sound(math) && Divisible(p)
    requires iCa == CalciumCurrent(p, math, State(V, wVal))
    requires iK == PotassiumCurrent(p, State(V, wVal))
    requires iL == LeakCurrent(p, State(V, wVal))
    ensures State(nextV, nextW) == Step(p, math, State(V, wVal), iExt)
  {
    var dt := p.common.timeStep;
    var dVdt := (-iCa - iK - iL + iExt) / p.membraneCapacitance;
    var dwdt := p.phi * (WInf(p, math, V) - wVal) / TauW(p, math, V);

    nextV := V + dt * dVdt;
    nextW := wVal + dt * dwdt;
  }

  method SimulateMorrisLecar(p: MorrisLecarParams, math: MathLib) returns (r: SimulationResult)
    requires Sound(math) && ArrayLengthValid(p.common) && Divisible(p)
    ensures IsRun(p, math, r)
  {
    var c := p.common;
    var numSteps := NumSteps(c);
    var time := TimeAxis(c, numSteps);
    var voltage, current, w := [], [], [];

    var V, wVal := -60.0, 0.014;
    ghost var trace: seq<State> := [];

    var i := 0;
    while i < numSteps
      invariant 0 <= i <= numSteps && |trace| == i
      invariant |voltage| == i && |current| == i && |w| == i
      invariant OnTrajectory(p, math, trace)
      invariant i < numSteps ==> StateAt(p, math, i) == State(V, wVal)
      invariant forall j :: 0 <= j < i ==> trace[j] == State(voltage[j], w[j])
      invariant forall j :: 0 <= j < i ==> current[j] == ExternalCurrent(c, time[j])
    {
      var t := time[i];
      var iExt := if t >= c.stimulusStart && t <= c.stimulusStart + c.stimulusDuration
                  then c.stimulusCurrent else 0.0;

      var iCa := CalciumCurrent(p, math, State(V, wVal));
      var iK := PotassiumCurrent(p, State(V, wVal));
      var iL := LeakCurrent(p, State(V, wVal));

      voltage := voltage + [V];
      current := current + [iExt];
      w := w + [wVal];
      ExtendTrajectory(p, math, trace, State(V, wVal));
      trace := trace + [State(V, wVal)];

      if i < numSteps - 1 {
        assert iExt == ExternalCurrent(c, TimeAt(c, i));
        V, wVal := UpdateState(p, math, V, wVal, iCa, iK, iL, iExt);
      }
      i := i + 1;
    }

    r := SimulationResult(time, voltage, Some(current),
                          Some(GatingVariables(None, None, None, Some(w))));
    TraceIsRun(p, math, r, trace);
  }

  /** Sample 0 of a non-empty run is the fixed initial state. */
  lemma InitialSample(p: MorrisLecarParams, math: MathLib, r: SimulationResult)
    requires Sound(math) && Divisible(p) && ArrayLengthValid(p.common)
    requires IsRun(p, math, r) && NumSteps(p.common) > 0
    ensures r.voltage[0] == -60.0
    ensures r.gatingVariables.value.w.value[0] == 0.014
  {
    var s0 := Sample(r, 0);
  }

  /** Consecutive samples are one Euler step apart, driven by the recorded
      current of the earlier sample. */
  lemma SamplesFollowEuler(p: MorrisLecarParams, math: MathLib, r: SimulationResult, i: nat)
    requires Sound(math) && Divisible(p) && ArrayLengthValid(p.common)
    requires IsRun(p, math, r) && i + 1 < NumSteps(p.common)
    ensures Sample(r, i + 1) == Step(p, math, Sample(r, i), r.current.value[i])
  {
    var before, after := Sample(r, i), Sample(r, i + 1);
    CurrentIsStimulus(p.common, r, i);
  }

  /** Two runs on the same parameters agree sample for sample. */
  lemma RunIsDeterministic(p: MorrisLecarParams, math: MathLib, r1: SimulationResult, r2: SimulationResult)
    requires Sound(math) && Divisible(p) && ArrayLengthValid(p.common)
    requires IsRun(p, math, r1) && IsRun(p, math, r2)
    ensures r1 == r2
  {
    var n := NumSteps(p.common);
    var w1, w2 := r1.gatingVariables.value.w.value, r2.gatingVariables.value.w.value;
    forall i | 0 <= i < n ensures r1.voltage[i] == r2.voltage[i] && w1[i] == w2[i] {
      var s1, s2 := Sample(r1, i), Sample(r2, i);
    }
    assert r1.time == r2.time;
    assert r1.voltage == r2.voltage;
    assert r1.current.value == r2.current.value;
    assert w1 == w2;
  }
}
