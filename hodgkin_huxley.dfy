/** `simulateHodgkinHuxley` of website/src/utils/simulators.ts: explicit
    Euler over the state (V, m, h, n) with the classic rate functions. */
module HodgkinHuxley {
  import opened Types
  import opened Stepping

  datatype State = State(V: real, m: real, h: real, n: real)

  /** The fixed initial conditions. */
  const Initial: State := State(-65.0, 0.05, 0.6, 0.32)

  /** The two voltages at which a rate function has the form 0/0. */
  predicate Regular(V: real)
  {
    V != -40.0 && V != -55.0
  }

  // Rate functions, per millisecond.

  function AlphaM(math: MathLib, V: real): (r: real)
    requires Sound(math) && V != -40.0
    ensures 0.0 < r
  {
    var x := -(V + 40.0) / 10.0;
    assert x < 0.0 || 0.0 < x;
    var d := 1.0 - math.exp(x);
    assert (V + 40.0 > 0.0 && d > 0.0) || (V + 40.0 < 0.0 && d < 0.0);
    0.1 * (V + 40.0) / d
  }

  function BetaM(math: MathLib, V: real): (r: real)
    requires Sound(math)
    ensures 0.0 < r
  {
    4.0 * math.exp(-(V + 65.0) / 18.0)
  }

  function AlphaH(math: MathLib, V: real): (r: real)
    requires Sound(math)
    ensures 0.0 < r
  {
    0.07 * math.exp(-(V + 65.0) / 20.0)
  }

  function BetaH(math: MathLib, V: real): (r: real)
    requires Sound(math)
    ensures 0.0 < r < 1.0
  {
    1.0 / (1.0 + math.exp(-(V + 35.0) / 10.0))
  }

  function AlphaN(math: MathLib, V: real): (r: real)
    requires Sound(math) && V != -55.0
    ensures 0.0 < r
  {
    var x := -(V + 55.0) / 10.0;
    assert x < 0.0 || 0.0 < x;
    var d := 1.0 - math.exp(x);
    assert (V + 55.0 > 0.0 && d > 0.0) || (V + 55.0 < 0.0 && d < 0.0);
    0.01 * (V + 55.0) / d
  }

  function BetaN(math: MathLib, V: real): (r: real)
    requires Sound(math)
    ensures 0.0 < r
  {
    0.125 * math.exp(-(V + 65.0) / 80.0)
  }

  /** Under the real exponential, the denominators of alpha_m and alpha_n
      vanish exactly at the two singular voltages, and nowhere else. */
  lemma RateDenominators(math: MathLib, V: real)
    requires Sound(math)
    ensures (1.0 - math.exp(-(V + 40.0) / 10.0) == 0.0) <==> V == -40.0
    ensures (1.0 - math.exp(-(V + 55.0) / 10.0) == 0.0) <==> V == -55.0
  {
    var x, y := -(V + 40.0) / 10.0, -(V + 55.0) / 10.0;
    if V == -40.0 { assert x == 0.0; } else { assert x < 0.0 || 0.0 < x; }
    if V == -55.0 { assert y == 0.0; } else { assert y < 0.0 || 0.0 < y; }
  }

  /** One Euler update of a gating variable x with opening rate alpha and
      closing rate beta. */
  function GateStep(x: real, alpha: real, beta: real, dt: real): real
  {
    x + dt * (alpha * (1.0 - x) - beta * x)
  }

  /** The gating update relaxes x toward its steady state alpha/(alpha+beta)
      by the factor 1 - dt*(alpha+beta). */
  lemma GateRelaxation(x: real, alpha: real, beta: real, dt: real)
    requires 0.0 < alpha + beta
    ensures var xInf := alpha / (alpha + beta);
      GateStep(x, alpha, beta, dt) - xInf == (1.0 - dt * (alpha + beta)) * (x - xInf)
  {
    var xInf := alpha / (alpha + beta);
    assert alpha == xInf * (alpha + beta);
    calc {
      GateStep(x, alpha, beta, dt) - xInf;
      x + dt * (alpha - (alpha + beta) * x) - xInf;
      { assert dt * (alpha - (alpha + beta) * x) == dt * (alpha + beta) * (xInf - x); }
      x + dt * (alpha + beta) * (xInf - x) - xInf;
    }
  }

  /** A gating variable stays a fraction in [0, 1] as long as the step is
      small against its rates (dt * (alpha + beta) <= 1). */
  lemma GateStaysFraction(x: real, alpha: real, beta: real, dt: real)
    requires 0.0 <= x <= 1.0 && 0.0 <= alpha && 0.0 <= beta && 0.0 <= dt
    requires dt * (alpha + beta) <= 1.0
    ensures 0.0 <= GateStep(x, alpha, beta, dt) <= 1.0
  {
    var k := dt * (alpha + beta);
    assert GateStep(x, alpha, beta, dt) == x * (1.0 - k) + dt * alpha;
    assert 0.0 <= 1.0 - k;
    assert 0.0 <= x * (1.0 - k) by { assert 0.0 <= x; }
    assert x * (1.0 - k) <= 1.0 - k by { assert (1.0 - x) * (1.0 - k) >= 0.0; }
    assert 0.0 <= dt * alpha && 0.0 <= dt * beta;
    assert k == dt * alpha + dt * beta;
  }

  // Ionic currents of one state.

  function SodiumCurrent(p: HodgkinHuxleyParams, s: State): real
  {
    p.sodiumConductance * (s.m * s.m * s.m) * s.h * (s.V - p.sodiumReversal)
  }

  function PotassiumCurrent(p: HodgkinHuxleyParams, s: State): real
  {
    p.potassiumConductance * (s.n * s.n * s.n * s.n) * (s.V - p.potassiumReversal)
  }

  function LeakCurrent(p: HodgkinHuxleyParams, s: State): real
  {
    p.leakConductance * (s.V - p.leakReversal)
  }

  /** One explicit-Euler step: every rate and every ionic current is taken
      from the state before the step. */
  function Step(p: HodgkinHuxleyParams, math: MathLib, s: State, iExt: real): State
    requires Sound(math) && p.membraneCapacitance != 0.0 && Regular(s.V)
  {
    var dt := p.common.timeStep;
    var dVdt := (-SodiumCurrent(p, s) - PotassiumCurrent(p, s) - LeakCurrent(p, s) + iExt)
                / p.membraneCapacitance;
    State(
      s.V + dt * dVdt,
      GateStep(s.m, AlphaM(math, s.V), BetaM(math, s.V), dt),
      GateStep(s.h, AlphaH(math, s.V), BetaH(math, s.V), dt),
      GateStep(s.n, AlphaN(math, s.V), BetaN(math, s.V), dt))
  }

  /** The reference trajectory: `Some` state at sample i, or `None` once an
      earlier step started from a singular voltage. In the source that step
      makes m (at -40 mV) or n (at -55 mV) NaN; V is still finite at the next
      sample, since that update used the old gates, and is NaN from the
      sample after on. The model has no state for any of these samples. */
  function StateAt(p: HodgkinHuxleyParams, math: MathLib, i: nat): Option<State>
    requires Sound(math) && p.membraneCapacitance != 0.0
  {
    if i == 0 then Some(Initial)
    else match StateAt(p, math, i - 1)
      case None => None
      case Some(s) =>
        if Regular(s.V)
        then Some(Step(p, math, s, ExternalCurrent(p.common, TimeAt(p.common, i - 1))))
        else None
  }

  /** Once the trajectory is undefined it stays undefined: a defined state
      at k means every earlier state is defined too. */
  lemma {:induction false} DefinedBefore(p: HodgkinHuxleyParams, math: MathLib, j: nat, k: nat)
    requires Sound(math) && p.membraneCapacitance != 0.0
    requires j <= k && StateAt(p, math, k).Some?
    ensures StateAt(p, math, j).Some?
    decreases k - j
  {
    if j < k {
      DefinedBefore(p, math, j, k - 1);
    }
  }

  /** A defined successor means the step from state i was regular and is
      exactly one Euler step with the stimulus of sample i. */
  lemma Advance(p: HodgkinHuxleyParams, math: MathLib, i: nat, s: State)
    requires Sound(math) && p.membraneCapacitance != 0.0
    requires StateAt(p, math, i) == Some(s) && StateAt(p, math, i + 1).Some?
    ensures Regular(s.V)
    ensures StateAt(p, math, i + 1)
         == Some(Step(p, math, s, ExternalCurrent(p.common, TimeAt(p.common, i))))
  {
  }

  /** All three gates of s are fractions in [0, 1]. */
  predicate GatesAreFractions(s: State)
  {
    0.0 <= s.m <= 1.0 && 0.0 <= s.h <= 1.0 && 0.0 <= s.n <= 1.0
  }

  /** The step from s is regular, forward in time and small against every
      gate's rates: dt * (alpha + beta) <= 1. */
  predicate SmallStep(p: HodgkinHuxleyParams, math: MathLib, s: State)
    requires Sound(math)
  {
    var dt := p.common.timeStep;
    Regular(s.V) && 0.0 <= dt &&
    dt * (AlphaM(math, s.V) + BetaM(math, s.V)) <= 1.0 &&
    dt * (AlphaH(math, s.V) + BetaH(math, s.V)) <= 1.0 &&
    dt * (AlphaN(math, s.V) + BetaN(math, s.V)) <= 1.0
  }

  /** The gates stay fractions along the trajectory as long as every step
      so far was small against the rates. */
  lemma {:induction false} GatesStayFractions(p: HodgkinHuxleyParams, math: MathLib, i: nat)
    requires Sound(math) && p.membraneCapacitance != 0.0
    requires forall j :: 0 <= j < i ==>
      StateAt(p, math, j).Some? && SmallStep(p, math, StateAt(p, math, j).value)
    ensures StateAt(p, math, i).Some? && GatesAreFractions(StateAt(p, math, i).value)
  {
    if i > 0 {
      GatesStayFractions(p, math, i - 1);
      var s := StateAt(p, math, i - 1).value;
      SmallStepKeepsFractions(p, math, s, ExternalCurrent(p.common, TimeAt(p.common, i - 1)));
    }
  }

  /** One small step from fractional gates gives fractional gates. */
  lemma SmallStepKeepsFractions(p: HodgkinHuxleyParams, math: MathLib, s: State, iExt: real)
    requires Sound(math) && p.membraneCapacitance != 0.0
    requires SmallStep(p, math, s) && GatesAreFractions(s)
    ensures GatesAreFractions(Step(p, math, s, iExt))
  {
    var dt := p.common.timeStep;
    GateStaysFraction(s.m, AlphaM(math, s.V), BetaM(math, s.V), dt);
    GateStaysFraction(s.h, AlphaH(math, s.V), BetaH(math, s.V), dt);
    GateStaysFraction(s.n, AlphaN(math, s.V), BetaN(math, s.V), dt);
  }

  /** The gating block holds m, h and n (and no w), index-aligned with the
      voltage array. */
  predicate HasGates(r: SimulationResult)
  {
    r.gatingVariables.Some? &&
    r.gatingVariables.value.m.Some? && |r.gatingVariables.value.m.value| == |r.voltage| &&
    r.gatingVariables.value.h.Some? && |r.gatingVariables.value.h.value| == |r.voltage| &&
    r.gatingVariables.value.n.Some? && |r.gatingVariables.value.n.value| == |r.voltage| &&
    r.gatingVariables.value.w.None?
  }

  function Sample(r: SimulationResult, i: nat): State
    requires HasGates(r) && i < |r.voltage|
  {
    var g := r.gatingVariables.value;
    State(r.voltage[i], g.m.value[i], g.h.value[i], g.n.value[i])
  }

  /** What a call promises: the shared shape, gates m, h, n, and sample i is
      the reference state at step i. */
  ghost predicate IsRun(p: HodgkinHuxleyParams, math: MathLib, r: SimulationResult)
    requires Sound(math) && p.membraneCapacitance != 0.0 && ArrayLengthValid(p.common)
  {
    WellFormed(p.common, r) && HasGates(r) &&
    forall i {:trigger Sample(r, i)} :: 0 <= i < NumSteps(p.common) ==>
      StateAt(p, math, i) == Some(Sample(r, i))
  }

  /** The inputs the model can run: a valid array length, a non-zero
      capacitance and a trajectory that avoids the singular voltages before
      its last sample. */
  predicate Admissible(p: HodgkinHuxleyParams, math: MathLib)
    requires Sound(math)
  {
    ArrayLengthValid(p.common) && p.membraneCapacitance != 0.0 &&
    (NumSteps(p.common) == 0 || StateAt(p, math, NumSteps(p.common) - 1).Some?)
  }

  /** Every state of the trace is the reference state at its index. */
  ghost predicate OnTrajectory(p: HodgkinHuxleyParams, math: MathLib, trace: seq<State>)
    requires Sound(math) && p.membraneCapacitance != 0.0
  {
    forall j {:trigger StateAt(p, math, j)} :: 0 <= j < |trace| ==> StateAt(p, math, j) == Some(trace[j])
  }

  /** Recording the reference state at the next index keeps the trace on
      the trajectory; unless it is the last sample, that state is regular
      and its successor is one Euler step away. */
  lemma NextSample(p: HodgkinHuxleyParams, math: MathLib, trace: seq<State>, s: State)
    requires Sound(math) && Admissible(p, math)
    requires |trace| < NumSteps(p.common)
    requires OnTrajectory(p, math, trace) && StateAt(p, math, |trace|) == Some(s)
    ensures OnTrajectory(p, math, trace + [s])
    ensures |trace| + 1 < NumSteps(p.common) ==>
      Regular(s.V) &&
      StateAt(p, math, |trace| + 1) == Some(Step(p, math, s, ExternalCurrent(p.common, TimeAt(p.common, |trace|))))
  {
    TraceExtends(p, math, trace, s);
    var n := NumSteps(p.common);
    if |trace| + 1 < n {
      StepBeforeLast(p, math, |trace|, n - 1, s);
    }
  }

  /** A state before a defined one is regular, and its successor is one
      Euler step away. */
  lemma StepBeforeLast(p: HodgkinHuxleyParams, math: MathLib, i: nat, k: nat, s: State)
    requires Sound(math) && p.membraneCapacitance != 0.0
    requires i < k && StateAt(p, math, k).Some? && StateAt(p, math, i) == Some(s)
    ensures Regular(s.V)
    ensures StateAt(p, math, i + 1) == Some(Step(p, math, s, ExternalCurrent(p.common, TimeAt(p.common, i))))
  {
    DefinedBefore(p, math, i + 1, k);
    Advance(p, math, i, s);
  }

  /** The reference state at the next index extends a trace on the
      trajectory. */
  lemma TraceExtends(p: HodgkinHuxleyParams, math: MathLib, trace: seq<State>, s: State)
    requires Sound(math) && p.membraneCapacitance != 0.0
    requires OnTrajectory(p, math, trace) && StateAt(p, math, |trace|) == Some(s)
    ensures OnTrajectory(p, math, trace + [s])
  {
    var t := trace + [s];
    forall j | 0 <= j < |t| ensures StateAt(p, math, j) == Some(t[j]) {
      if j < |trace| { assert t[j] == trace[j]; }
    }
  }

  /** The recorded arrays, packaged as the result, form a run. */
  lemma TraceIsRun(p: HodgkinHuxleyParams, math: MathLib, r: SimulationResult, trace: seq<State>)
    requires Sound(math) && p.membraneCapacitance != 0.0 && ArrayLengthValid(p.common)
    requires WellFormed(p.common, r) && HasGates(r)
    requires |trace| == NumSteps(p.common) && OnTrajectory(p, math, trace)
    requires forall j {:trigger trace[j]} :: 0 <= j < |trace| ==> trace[j] == Sample(r, j)
    ensures IsRun(p, math, r)
  {
    forall i | 0 <= i < NumSteps(p.common) ensures StateAt(p, math, i) == Some(Sample(r, i)) {
      assert trace[i] == Sample(r, i);
    }
  }

  /** The update branch of the loop body, taken for every sample but the
      last: the six rates at the old voltage, the three gate updates, then
      the voltage update from the currents computed at the old state. */
  method UpdateState(p: HodgkinHuxleyParams, math: MathLib, V: real, mVal: real, hVal: real, nVal: real,
                     iNa: real, iK: real, iL: real, iExt: real)
    returns (nextV: real, nextM: real, nextH: real, nextN: real)
    requires Sound(math) && p.membraneCapacitance != 0.0 && Regular(V)
    requires iNa == SodiumCurrent(p, State(V, mVal, hVal, nVal))
    requires iK == PotassiumCurrent(p, State(V, mVal, hVal, nVal))
    requires iL == LeakCurrent(p, State(V, mVal, hVal, nVal))
    ensures State(nextV, nextM, nextH, nextN) == Step(p, math, State(V, mVal, hVal, nVal), iExt)
  {
    var dt := p.common.timeStep;
    var am := AlphaM(math, V);
    var bm := BetaM(math, V);
    var ah := AlphaH(math, V);
    var bh := BetaH(math, V);
    var an := AlphaN(math, V);
    var bn := BetaN(math, V);

    nextM := mVal + dt * (am * (1.0 - mVal) - bm * mVal);
    nextH := hVal + dt * (ah * (1.0 - hVal) - bh * hVal);
    nextN := nVal + dt * (an * (1.0 - nVal) - bn * nVal);

    var dVdt := (-iNa - iK - iL + iExt) / p.membraneCapacitance;
    nextV := V + dt * dVdt;
  }

  method SimulateHodgkinHuxley(p: HodgkinHuxleyParams, math: MathLib) returns (r: SimulationResult)
    requires Sound(math) && Admissible(p, math)
    ensures IsRun(p, math, r)
  {
    var c := p.common;
    var numSteps := NumSteps(c);
    var time := TimeAxis(c, numSteps);
    var voltage, current, m, h, n := [], [], [], [], [];

    var V, mVal, hVal, nVal := -65.0, 0.05, 0.6, 0.32;
    ghost var trace: seq<State> := [];

    var i := 0;
    while i < numSteps
      invariant 0 <= i <= numSteps && |trace| == i
      invariant |voltage| == i && |current| == i && |m| == i && |h| == i && |n| == i
      invariant OnTrajectory(p, math, trace)
      invariant i < numSteps ==> StateAt(p, math, i) == Some(State(V, mVal, hVal, nVal))
      invariant forall j :: 0 <= j < i ==> trace[j] == State(voltage[j], m[j], h[j], n[j])
      invariant forall j :: 0 <= j < i ==> current[j] == ExternalCurrent(c, time[j])
    {
      var t := time[i];
      var iExt := if t >= c.stimulusStart && t <= c.stimulusStart + c.stimulusDuration
                  then c.stimulusCurrent else 0.0;

      var iNa := SodiumCurrent(p, State(V, mVal, hVal, nVal));
      var iK := PotassiumCurrent(p, State(V, mVal, hVal, nVal));
      var iL := LeakCurrent(p, State(V, mVal, hVal, nVal));

      voltage := voltage + [V];
      current := current + [iExt];
      m := m + [mVal];
      h := h + [hVal];
      n := n + [nVal];
      ghost var before := State(V, mVal, hVal, nVal);
      NextSample(p, math, trace, before);
      trace := trace + [before];

      if i < numSteps - 1 {
        assert iExt == ExternalCurrent(c, TimeAt(c, i));
        V, mVal, hVal, nVal := UpdateState(p, math, V, mVal, hVal, nVal, iNa, iK, iL, iExt);
      }
      i := i + 1;
    }

    r := SimulationResult(time, voltage, Some(current),
                          Some(GatingVariables(Some(m), Some(h), Some(n), None)));
    TraceIsRun(p, math, r, trace);
  }

  /** Sample 0 of a non-empty run is the fixed initial state. */
  lemma InitialSample(p: HodgkinHuxleyParams, math: MathLib, r: SimulationResult)
    requires Sound(math) && p.membraneCapacitance != 0.0 && ArrayLengthValid(p.common)
    requires IsRun(p, math, r) && NumSteps(p.common) > 0
    ensures r.voltage[0] == -65.0
    ensures r.gatingVariables.value.m.value[0] == 0.05
    ensures r.gatingVariables.value.h.value[0] == 0.6
    ensures r.gatingVariables.value.n.value[0] == 0.32
  {
    var s0 := Sample(r, 0);
  }

  /** Consecutive samples are one Euler step apart, driven by the recorded
      current of the earlier sample; no sample but the last sits at a
      singular voltage. */
  lemma SamplesFollowEuler(p: HodgkinHuxleyParams, math: MathLib, r: SimulationResult, i: nat)
    requires Sound(math) && p.membraneCapacitance != 0.0 && ArrayLengthValid(p.common)
    requires IsRun(p, math, r) && i + 1 < NumSteps(p.common)
    ensures Regular(r.voltage[i])
    ensures Sample(r, i + 1) == Step(p, math, Sample(r, i), r.current.value[i])
  {
    var before, after := Sample(r, i), Sample(r, i + 1);
    Advance(p, math, i, before);
    CurrentIsStimulus(p.common, r, i);
  }

  /** Two runs on the same parameters agree sample for sample. */
  lemma RunIsDeterministic(p: HodgkinHuxleyParams, math: MathLib, r1: SimulationResult, r2: SimulationResult)
    requires Sound(math) && p.membraneCapacitance != 0.0 && ArrayLengthValid(p.common)
    requires IsRun(p, math, r1) && IsRun(p, math, r2)
    ensures r1 == r2
  {
    var n := NumSteps(p.common);
    var g1, g2 := r1.gatingVariables.value, r2.gatingVariables.value;
    forall i | 0 <= i < n
      ensures r1.voltage[i] == r2.voltage[i]
      ensures g1.m.value[i] == g2.m.value[i] && g1.h.value[i] == g2.h.value[i]
      ensures g1.n.value[i] == g2.n.value[i]
    {
      var s1, s2 := Sample(r1, i), Sample(r2, i);
    }
    assert r1.time == r2.time;
    assert r1.voltage == r2.voltage;
    assert r1.current.value == r2.current.value;
    assert g1.m.value == g2.m.value;
    assert g1.h.value == g2.h.value;
    assert g1.n.value == g2.n.value;
  }
}
