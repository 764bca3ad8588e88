# NeuroProject simulation core in Dafny

This project models the simulation engine of the NeuroProject action-potential
simulator and the small pieces of page logic around it:

- **The four integrators of `website/src/utils/simulators.ts`.** Each is a
  fixed-step explicit-Euler integrator:
  - Hodgkin-Huxley over (V, m, h, n);
  - FitzHugh-Nagumo over (v, w), with v reported in millivolts as `100 v - 70`;
  - leaky integrate-and-fire, with a hard reset at threshold;
  - Morris-Lecar over (V, w).

  Each one computes `floor(duration / dt)` samples with `time[i] = i * dt` and
  a closed rectangular stimulus window. It records the state of step i, and then
  advances the state unless step i is the last.

  Each integrator is a Dafny `method` with a `while` loop. Its loop invariants
  prove it against a recursive reference trajectory (`StateAt`, or
  `VoltageAt` for integrate-and-fire). The results are then proved about that
  trajectory:
  - the initial samples;
  - the one-step relation between consecutive samples;
  - the integrate-and-fire reset at each threshold crossing, threshold
    bound and rest state;
  - the sign of each Morris-Lecar ionic current against its reversal
    potential;
  - determinism.
- **The default-parameter table of `Simulator/src/data/algorithms.ts`.** Lemmas
  prove that it has four entries with distinct ids in a fixed order, and give
  each entry's category. The step counts of the defaults are 5000, 1000, 1000
  and 10000, the stimulus windows close before the end of the run, and no
  divisor is zero. The FitzHugh-Nagumo, integrate-and-fire and Morris-Lecar
  defaults are proved to run. For Hodgkin-Huxley, whether the default
  trajectory avoids the two singular voltages is not proved.
- **The page state of `website/src/App.tsx`.** `class AppContent` holds the
  selected algorithm, the untyped parameter record, the last result and the
  busy flag. Its methods are:
  - parameter change;
  - reset;
  - algorithm selection;
  - the two halves of `runSimulation` around its `await`.

  The record is read the way the integrators' destructuring reads it:
  - a missing `threshold` does not matter to FitzHugh-Nagumo, which never
    reads it;
  - a missing `stimulusStart` or `stimulusDuration` makes the window test
    false, so the stimulus never applies;
  - a missing `timeStep` or `duration` makes `Array(NaN)` throw, so no result
    is stored.

  The run dispatch is proved to call the selected integrator, and an unknown
  id or a failed run leaves no result.
- **`website/src/components/TutorialPanel.tsx`.** This covers the toggle of
  the expanded-section set, and `renderContent`. `renderContent` is modelled
  as the ECMAScript `split` with the capturing, lazy separator
  `/(\*\*.*?\*\*)/g`, followed by the bold/plain rendering of each part.
  Lemmas prove that the parts spell the content, and that the odd parts are
  bold runs. They also prove that the split cuts at every run: each bold part
  is the match at its start, and no match starts inside a plain part. These
  properties characterise the split: it is the only sequence of parts,
  plain and bold in turn, that spells the content and cuts at every run.
  Further lemmas prove that bold runs render back to their markup, and
  cover the stray `**` edge case.

Numbers are Dafny `real`s. `Math.exp`, `Math.tanh` and `Math.cosh` are a
parameter `math: MathLib`. The proofs use only the facts in `Sound(math)`,
all of which hold for the real functions:
- `exp(0) = 1`;
- `exp` is positive, below 1 on negatives and above 1 on positives;
- `|tanh| < 1`;
- `cosh >= 1`.

The record that App.tsx imports from `./data/algorithms` is
website/src/data/algorithms.ts, and that file is not part of this model. The
table of Simulator/src/data/algorithms.ts, which has the same shape, stands in
for it.

Files:
- `types.dfy`: the parameter records, `SimulationResult` and `MathLib`.
- `stepping.dfy`: the step count, time axis, stimulus window and result shape
  that all four integrators share.
- One file per integrator: `hodgkin_huxley.dfy`, `fitzhugh_nagumo.dfy`,
  `integrate_fire.dfy` and `morris_lecar.dfy`.
- `records.dfy`: the untyped parameter record.
- `algorithms.dfy`: the table.
- `app.dfy`: the page state.
- `tutorial_panel.dfy`: the tutorial panel logic.

## Model

| member | source | states |
|---|---|---|
| Stepping.NumSteps | website/src/utils/simulators.ts:25 | the step count is the floor of duration / dt, and it is an array length `Array` accepts |
| Stepping.TimeAxis | website/src/utils/simulators.ts:26 | n samples starting at 0, spaced exactly dt apart, sample i being i * dt |
| Stepping.InWindow | website/src/utils/simulators.ts:51 | definition: the closed window `start <= t <= start + duration`; used by every integrator |
| Stepping.ExternalCurrent | website/src/utils/simulators.ts:51 | definition: the amplitude inside the window and 0 outside it; properties in Stepping.CurrentIsStimulus |
| Stepping.CurrentIsStimulus | website/src/utils/simulators.ts:51 | in a well-formed result, current[i] is the stimulus amplitude inside the closed window and 0 outside it |
| HodgkinHuxley.AlphaM | website/src/utils/simulators.ts:40 | alpha_m is positive at every voltage except the singular -40 mV |
| HodgkinHuxley.BetaM | website/src/utils/simulators.ts:41 | beta_m is positive |
| HodgkinHuxley.AlphaH | website/src/utils/simulators.ts:42 | alpha_h is positive |
| HodgkinHuxley.BetaH | website/src/utils/simulators.ts:43 | beta_h lies strictly between 0 and 1 |
| HodgkinHuxley.AlphaN | website/src/utils/simulators.ts:44 | alpha_n is positive at every voltage except the singular -55 mV |
| HodgkinHuxley.BetaN | website/src/utils/simulators.ts:45 | beta_n is positive |
| HodgkinHuxley.RateDenominators | website/src/utils/simulators.ts:40-44 | the alpha_m and alpha_n denominators vanish exactly at -40 mV and -55 mV |
| HodgkinHuxley.GateStep | website/src/utils/simulators.ts:74-76 | definition: one Euler update of a gate; properties in HodgkinHuxley.GateRelaxation and HodgkinHuxley.GateStaysFraction |
| HodgkinHuxley.GateRelaxation | website/src/utils/simulators.ts:74-76 | one gate update moves x toward alpha/(alpha+beta) by the factor 1 - dt(alpha+beta) |
| HodgkinHuxley.GateStaysFraction | website/src/utils/simulators.ts:74-76 | a gate in [0, 1] stays in [0, 1] when dt(alpha+beta) <= 1 |
| HodgkinHuxley.SodiumCurrent | website/src/utils/simulators.ts:54 | definition: gNa m^3 h (V - ENa) at the old state; used by HodgkinHuxley.Step |
| HodgkinHuxley.PotassiumCurrent | website/src/utils/simulators.ts:55 | definition: gK n^4 (V - EK) at the old state; used by HodgkinHuxley.Step |
| HodgkinHuxley.LeakCurrent | website/src/utils/simulators.ts:56 | definition: gL (V - EL); used by HodgkinHuxley.Step |
| HodgkinHuxley.Step | website/src/utils/simulators.ts:65-81 | definition: one Euler step of (V, m, h, n) with every rate and current from the old state; properties in HodgkinHuxley.SamplesFollowEuler and HodgkinHuxley.SmallStepKeepsFractions |
| HodgkinHuxley.StateAt | website/src/utils/simulators.ts:33-82 | definition: the reference trajectory from the initial state, undefined after a step from a singular voltage; properties in HodgkinHuxley.DefinedBefore, HodgkinHuxley.Advance and HodgkinHuxley.GatesStayFractions |
| HodgkinHuxley.SmallStepKeepsFractions | website/src/utils/simulators.ts:74-76 | a step that is small against every gate's rates keeps m, h and n in [0, 1] |
| HodgkinHuxley.GatesStayFractions | website/src/utils/simulators.ts:35-37 | along the trajectory, m, h and n stay in [0, 1] as long as every step so far was small against the rates |
| HodgkinHuxley.DefinedBefore | website/src/utils/simulators.ts:47-82 | once a step has started from a singular voltage, every later state is undefined too |
| HodgkinHuxley.Advance | website/src/utils/simulators.ts:65-81 | a defined successor state came from a regular voltage, by one Euler step with the external current of its time |
| HodgkinHuxley.NextSample | website/src/utils/simulators.ts:58-63 | recording the current state keeps the trace on the reference trajectory and exposes the next state |
| HodgkinHuxley.TraceIsRun | website/src/utils/simulators.ts:84-89 | the recorded arrays, packaged with gates m, h and n, are a run |
| HodgkinHuxley.UpdateState | website/src/utils/simulators.ts:65-81 | the update branch equals one Euler step of (V, m, h, n), with the ionic currents from the pre-update gates |
| HodgkinHuxley.SimulateHodgkinHuxley | website/src/utils/simulators.ts:9-90 | the result has floor(duration/dt) samples, time i*dt, the window current and gates m, h, n, and sample i is the reference state at step i |
| HodgkinHuxley.InitialSample | website/src/utils/simulators.ts:34-37 | a non-empty run starts at V = -65, m = 0.05, h = 0.6, n = 0.32 |
| HodgkinHuxley.SamplesFollowEuler | website/src/utils/simulators.ts:54-80 | sample i+1 is one Euler step from sample i under the recorded current, from a regular voltage |
| HodgkinHuxley.RunIsDeterministic | website/src/utils/simulators.ts:9-90 | two runs on the same parameters are equal |
| FitzHughNagumo.ReportingIsInvertible | website/src/utils/simulators.ts:121 | the millivolt scaling `100 v - 70` is undone exactly and is injective |
| FitzHughNagumo.ReportedVoltage | website/src/utils/simulators.ts:121 | definition: `v * 100 - 70`; properties in FitzHughNagumo.ReportingIsInvertible |
| FitzHughNagumo.EulerStep | website/src/utils/simulators.ts:127-131 | definition: the step on the fields it reads (dt, a, b, tau); properties in FitzHughNagumo.StepIgnoresThreshold |
| FitzHughNagumo.Step | website/src/utils/simulators.ts:125-132 | definition: one Euler step of (v, w), both derivatives from the old state; properties in FitzHughNagumo.SamplesFollowEuler |
| FitzHughNagumo.StateAt | website/src/utils/simulators.ts:110-133 | definition: the reference trajectory from (-1, -0.5); properties in FitzHughNagumo.ThresholdIgnoredAt and FitzHughNagumo.SamplesFollowEuler |
| FitzHughNagumo.ExtendTrajectory | website/src/utils/simulators.ts:120-123 | recording the reference state keeps the trace on the trajectory |
| FitzHughNagumo.UpdateState | website/src/utils/simulators.ts:125-132 | the update branch equals one Euler step, both derivatives from the old (v, w) |
| FitzHughNagumo.SimulateFitzHughNagumo | website/src/utils/simulators.ts:92-141 | the result has the shared shape and gate w only, voltage[i] reports v at step i in mV, and w[i] is w at step i |
| FitzHughNagumo.InitialSample | website/src/utils/simulators.ts:111-112 | a non-empty run reports voltage[0] = -170 and w[0] = -0.5 |
| FitzHughNagumo.SamplesFollowEuler | website/src/utils/simulators.ts:127-131 | the state behind sample i+1 is one Euler step from the state behind sample i under the recorded current |
| FitzHughNagumo.RunIsDeterministic | website/src/utils/simulators.ts:92-141 | two runs on the same parameters are equal |
| FitzHughNagumo.StepIgnoresThreshold | website/src/utils/simulators.ts:93-102 | a step does not depend on the threshold field |
| FitzHughNagumo.ThresholdIgnoredAt | website/src/utils/simulators.ts:93-102 | the state at every step does not depend on the threshold field |
| FitzHughNagumo.ThresholdIgnored | website/src/utils/simulators.ts:93-102 | r is a run on p exactly when it is a run on p with any other threshold |
| IntegrateFire.Tau | website/src/utils/simulators.ts:162 | definition: tau = Rm * Cm, the divisor of the update |
| IntegrateFire.Integrate | website/src/utils/simulators.ts:177-178 | definition: the leaky Euler update before the threshold test; properties in IntegrateFire.Step |
| IntegrateFire.VoltageAt | website/src/utils/simulators.ts:163-184 | definition: the reference trajectory from the resting potential; properties in IntegrateFire.BelowThresholdAfterStart and IntegrateFire.StaysAtRest |
| IntegrateFire.Step | website/src/utils/simulators.ts:177-183 | the next voltage is the reset potential or strictly below threshold; an Euler update at or above threshold gives exactly the reset potential, and one below threshold is kept as it is |
| IntegrateFire.ExtendTrajectory | website/src/utils/simulators.ts:172-173 | recording the reference voltage keeps the trace on the trajectory |
| IntegrateFire.UpdateVoltage | website/src/utils/simulators.ts:175-184 | the update branch (Euler update, then reset at or above threshold) equals one step |
| IntegrateFire.SimulateIntegrateFire | website/src/utils/simulators.ts:143-192 | the result has the shared shape and no gating block, and voltage[i] is the reference voltage at step i |
| IntegrateFire.InitialSample | website/src/utils/simulators.ts:163 | a non-empty run starts at the resting potential |
| IntegrateFire.SamplesFollowStep | website/src/utils/simulators.ts:175-184 | voltage[i+1] is one step (with reset) from voltage[i] under the recorded current |
| IntegrateFire.ResetAtCrossing | website/src/utils/simulators.ts:177-183 | along a run, when the Euler update of voltage[i] under the recorded current reaches threshold, voltage[i+1] is exactly the reset potential; otherwise it is that update |
| IntegrateFire.BelowThresholdAfterStart | website/src/utils/simulators.ts:181-183 | with reset below threshold, every sample after the first is strictly below threshold |
| IntegrateFire.RestStep | website/src/utils/simulators.ts:177-183 | from rest with no stimulus, a step stays at rest below threshold and resets at or above it |
| IntegrateFire.StaysAtRest | website/src/utils/simulators.ts:163-184 | resting below threshold, the voltage stays at rest until the stimulus first applies |
| IntegrateFire.RunIsDeterministic | website/src/utils/simulators.ts:143-192 | two runs on the same parameters are equal |
| MorrisLecar.MInf | website/src/utils/simulators.ts:226 | m_inf lies strictly between 0 and 1 |
| MorrisLecar.WInf | website/src/utils/simulators.ts:227 | w_inf lies strictly between 0 and 1 |
| MorrisLecar.TauW | website/src/utils/simulators.ts:228 | tau_w lies in (0, 1] |
| MorrisLecar.CalciumCurrent | website/src/utils/simulators.ts:237 | definition: `I_Ca = gCa m_inf(V) (V - ECa)` from the old state; properties in MorrisLecar.CurrentsPullTowardReversal and MorrisLecar.UpdateState |
| MorrisLecar.PotassiumCurrent | website/src/utils/simulators.ts:238 | definition: `I_K = gK w (V - EK)` from the old state; properties in MorrisLecar.CurrentsPullTowardReversal and MorrisLecar.UpdateState |
| MorrisLecar.LeakCurrent | website/src/utils/simulators.ts:239 | definition: `I_L = gL (V - EL)`; properties in MorrisLecar.CurrentsPullTowardReversal and MorrisLecar.UpdateState |
| MorrisLecar.CurrentsPullTowardReversal | website/src/utils/simulators.ts:237-239 | with non-negative conductances and gate, each ionic current has the sign of V minus its reversal potential; with a positive conductance, the calcium and leak currents vanish exactly at their reversal potentials |
| MorrisLecar.RecoveryStep | website/src/utils/simulators.ts:249-252 | definition: the w update `w + dt phi (w_inf - w) / tau_w`; properties in MorrisLecar.RecoveryRelaxes and MorrisLecar.RecoveryStaysFraction |
| MorrisLecar.RecoveryRelaxes | website/src/utils/simulators.ts:249-252 | the w update moves w toward w_inf by the factor 1 - dt phi / tau_w |
| MorrisLecar.RecoveryStaysFraction | website/src/utils/simulators.ts:249-252 | w stays in [0, 1] when 0 <= dt phi / tau_w <= 1 |
| MorrisLecar.Step | website/src/utils/simulators.ts:237-252 | definition: one Euler step of (V, w) with currents and derivatives from the old state; properties in MorrisLecar.SamplesFollowEuler |
| MorrisLecar.StateAt | website/src/utils/simulators.ts:221-254 | definition: the reference trajectory from (-60, 0.014); properties in MorrisLecar.RecoveryStaysFractionAt and MorrisLecar.SamplesFollowEuler |
| MorrisLecar.RecoveryStaysFractionAt | website/src/utils/simulators.ts:223 | along the trajectory, w stays in [0, 1] as long as every step so far was small against the time constant of w |
| MorrisLecar.ExtendTrajectory | website/src/utils/simulators.ts:242-244 | recording the reference state keeps the trace on the trajectory |
| MorrisLecar.TraceIsRun | website/src/utils/simulators.ts:256-261 | the recorded arrays, packaged with gate w, are a run |
| MorrisLecar.UpdateState | website/src/utils/simulators.ts:246-253 | the update branch equals one Euler step, with the currents and both derivatives from the old (V, w) |
| MorrisLecar.SimulateMorrisLecar | website/src/utils/simulators.ts:194-262 | the result has the shared shape and gate w only, and sample i is the reference state at step i |
| MorrisLecar.InitialSample | website/src/utils/simulators.ts:222-223 | a non-empty run starts at V = -60, w = 0.014 |
| MorrisLecar.SamplesFollowEuler | website/src/utils/simulators.ts:237-252 | sample i+1 is one Euler step from sample i under the recorded current |
| MorrisLecar.RunIsDeterministic | website/src/utils/simulators.ts:194-262 | two runs on the same parameters are equal |
| Records.CommonRecord | website/src/types/index.ts:1-7 | the common block is the record with exactly the five shared field names |
| Records.RecordWindow | website/src/utils/simulators.ts:51 | definition: the window test evaluated on the record, false when either window field is missing |
| Records.CommonFromRecord | website/src/utils/simulators.ts:10-15 | a block is read exactly when dt and duration are present and so is the amplitude if the window can open; dt and duration are the record's, the block's window holds exactly the times the record's window test accepts, and the current is the record's amplitude there and 0 elsewhere |
| Records.CommonRoundTrip | website/src/utils/simulators.ts:10-15 | any record holding a common block, whatever its other fields, reads back as that block |
| Records.HodgkinHuxleyFromRecord | website/src/utils/simulators.ts:10-23 | definition: the destructuring of the Hodgkin-Huxley fields; properties in Records.HodgkinHuxleyRoundTrip |
| Records.FitzHughNagumoFromRecord | website/src/utils/simulators.ts:93-102 | definition: the destructuring of the FitzHugh-Nagumo fields, threshold not required; properties in Records.FitzHughNagumoRoundTrip and App.ThresholdNotRequired |
| Records.IntegrateFireFromRecord | website/src/utils/simulators.ts:144-155 | definition: the destructuring of the integrate-and-fire fields; properties in Records.IntegrateFireRoundTrip |
| Records.MorrisLecarFromRecord | website/src/utils/simulators.ts:195-213 | definition: the destructuring of the Morris-Lecar fields; properties in Records.MorrisLecarRoundTrip |
| Records.HodgkinHuxleyRoundTrip | website/src/utils/simulators.ts:10-23 | the Hodgkin-Huxley integrator reads back exactly the parameters whose record it is given |
| Records.FitzHughNagumoRoundTrip | website/src/utils/simulators.ts:93-102 | the FitzHugh-Nagumo integrator reads back exactly the parameters whose record it is given |
| Records.IntegrateFireRoundTrip | website/src/utils/simulators.ts:144-155 | the integrate-and-fire integrator reads back exactly the parameters whose record it is given |
| Records.MorrisLecarConductances | website/src/utils/simulators.ts:201-204 | the Morris-Lecar record holds C and the three conductances under their field names |
| Records.MorrisLecarReversals | website/src/utils/simulators.ts:205-207 | the Morris-Lecar record holds the three reversal potentials under their field names |
| Records.MorrisLecarShape | website/src/utils/simulators.ts:208-212 | the Morris-Lecar record holds v1 to v4 and phi under their field names |
| Records.MorrisLecarCommon | website/src/utils/simulators.ts:196-200 | the common block of a Morris-Lecar record reads back unchanged |
| Records.MorrisLecarRoundTrip | website/src/utils/simulators.ts:195-213 | the Morris-Lecar integrator reads back exactly the parameters whose record it is given |
| Records.UpdateParameter | website/src/App.tsx:68-73 | the key holds the new value, every other field keeps its old value, and the key set gains at most the key |
| Records.UpdateParameterLaws | website/src/App.tsx:68-73 | writing a field's own value back changes nothing, and of two writes to one field the last wins |
| AlgorithmTable.FindAlgorithm | website/src/App.tsx:22 | `find` returns the first entry with the id, and nothing exactly when no entry has it |
| AlgorithmTable.FindDistinct | website/src/App.tsx:22 | with distinct ids, looking up an entry's id finds that entry |
| AlgorithmTable.Algorithms | Simulator/src/data/algorithms.ts:3-84 | definition: the four entries with their ids, names, descriptions, categories and default parameter sets; properties in AlgorithmTable.TableShape, AlgorithmTable.FindEveryModel and AlgorithmTable.Categories |
| AlgorithmTable.TableShape | Simulator/src/data/algorithms.ts:3-84 | four entries, in the order hodgkin-huxley, fitzhugh-nagumo, integrate-fire, morris-lecar, each with its own model's defaults and with distinct ids |
| AlgorithmTable.FindEveryModel | Simulator/src/data/algorithms.ts:5-60 | looking up any model's id finds that model's entry |
| AlgorithmTable.Categories | Simulator/src/data/algorithms.ts:8-62 | Hodgkin-Huxley and Morris-Lecar are Biophysical, FitzHugh-Nagumo is Phenomenological and integrate-and-fire is Abstract |
| AlgorithmTable.DefaultStepCounts | Simulator/src/data/algorithms.ts:10-67 | every default dt and duration is positive with a valid array length, and the step counts are 5000, 1000, 1000 and 10000 |
| AlgorithmTable.WindowsEndBeforeRun | Simulator/src/data/algorithms.ts:11-70 | every default stimulus window closes before the run ends |
| AlgorithmTable.DefaultDivisorsNonZero | Simulator/src/data/algorithms.ts:15-80 | the default divisors are non-zero: Cm = 1, tau = 12.5, Rm Cm = 100, and C, v2, v4 for Morris-Lecar |
| AlgorithmTable.IntegrateFireDefaultsBelowThreshold | Simulator/src/data/algorithms.ts:46-56 | a default integrate-and-fire run has 1000 samples, starts at -70 and stays below -55 afterwards |
| AlgorithmTable.FitzHughNagumoDefaultThresholdUnread | Simulator/src/data/algorithms.ts:38 | the default threshold -0.1 has no effect on a FitzHugh-Nagumo run |
| App.Route | website/src/App.tsx:39-54 | each of the four ids routes to its own model, and any other id is the "Unknown algorithm" error |
| App.RouteModelId | website/src/App.tsx:39-51 | every model's id routes back to that model |
| App.Runnable | website/src/App.tsx:39-54 | definition: the record reads as the selected model's parameters and meets that integrator's preconditions; properties in App.Dispatch and the defaults lemmas |
| App.Dispatch | website/src/App.tsx:36-59 | a result exists exactly when the selected integrator can run on the record, and it is that integrator's run; an unknown id gives none |
| App.ProducesIsDeterministic | website/src/App.tsx:39-56 | what a run stores is determined by the id and the record |
| App.ThresholdNotRequired | website/src/App.tsx:43-45 | a FitzHugh-Nagumo record runs with or without `threshold`, and produces the same arrays either way |
| App.FitzHughNagumoDefaultsRunnable | website/src/App.tsx:21-26 | the FitzHugh-Nagumo table defaults run under their own id |
| App.IntegrateFireDefaultsRunnable | website/src/App.tsx:21-26 | the integrate-and-fire table defaults run under their own id |
| App.MorrisLecarDefaultsRunnable | website/src/App.tsx:21-26 | the Morris-Lecar table defaults run under their own id |
| App.SelectThenRun | website/src/App.tsx:21-56 | after a switch to a model, a stored result is that model's run on its table defaults |
| App.AppContent.constructor | website/src/App.tsx:13-18 | the initial state is hodgkin-huxley with the first entry's defaults, no result, not simulating |
| App.AppContent.HandleReset | website/src/App.tsx:75-80 | the parameters become the selected entry's defaults, or stay unchanged when no entry matches; nothing else changes |
| App.AppContent.SelectAlgorithm | website/src/App.tsx:21-26 | the selection changes and the parameters become the new entry's defaults, or stay unchanged when none matches |
| App.AppContent.HandleParameterChange | website/src/App.tsx:68-73 | the parameters become the one-field update of the old record; nothing else changes |
| App.AppContent.BeginRun | website/src/App.tsx:31 | the busy flag is set and nothing else changes |
| App.AppContent.FinishRun | website/src/App.tsx:36-62 | the dispatched result is stored, or none on failure or an unknown id, and the busy flag is cleared either way |
| TutorialPanel.CloseFrom | website/src/components/TutorialPanel.tsx:26 | the lazy `.*?\*\*` stops at c exactly when c holds the first `**` from k and no line terminator comes before it |
| TutorialPanel.ShiftedRun | website/src/components/TutorialPanel.tsx:26 | a bold run read as a substring is a bold run read in place |
| TutorialPanel.MatchAt | website/src/components/TutorialPanel.tsx:26 | a match at q is at least four characters long and ends inside the text; properties in TutorialPanel.MatchAtBoldRun |
| TutorialPanel.MatchAtBoldRun | website/src/components/TutorialPanel.tsx:26 | the match at q ends at e exactly when s[q..e] is a bold run |
| TutorialPanel.SplitFrom | website/src/components/TutorialPanel.tsx:26 | definition: `split` with the capturing separator, from the last cut and the search position; properties in the lemmas below |
| TutorialPanel.Split | website/src/components/TutorialPanel.tsx:26 | definition: `content.split(/(\*\*.*?\*\*)/g)`; characterised by TutorialPanel.SplitCharacterized |
| TutorialPanel.SplitFromConcat | website/src/components/TutorialPanel.tsx:26 | the split parts, in order, spell the text from the last cut |
| TutorialPanel.SplitFromAlternates | website/src/components/TutorialPanel.tsx:26 | there is an odd number of parts, and every odd-indexed part is a bold run |
| TutorialPanel.MatchAtSuffix | website/src/components/TutorialPanel.tsx:26 | the match at a position depends only on the text from that position on |
| TutorialPanel.SplitFromCuts | website/src/components/TutorialPanel.tsx:26 | each bold part is the match at its start, and no match starts inside a plain part |
| TutorialPanel.FirstCut | website/src/components/TutorialPanel.tsx:26 | in parts that cut at every run, no match starts inside the first part, and it is either the whole text or followed by the match that is the second part |
| TutorialPanel.CutsUnique | website/src/components/TutorialPanel.tsx:26 | two sequences of parts that spell the same text and cut at every run are equal |
| TutorialPanel.SplitCharacterized | website/src/components/TutorialPanel.tsx:26 | the split is exactly the sequence of parts, plain and bold in turn, that spells the content and cuts at every run |
| TutorialPanel.SplitsAroundRun | website/src/components/TutorialPanel.tsx:26 | `x**a**y` splits into `x`, `**a**` and `y` |
| TutorialPanel.SplitConcat | website/src/components/TutorialPanel.tsx:26 | concatenating the parts gives the content back |
| TutorialPanel.NoRunNoSplit | website/src/components/TutorialPanel.tsx:26 | text with no bold run is one part |
| TutorialPanel.RelativeIndex | website/src/components/TutorialPanel.tsx:31 | a `slice` index counts back from the end when negative and is clamped to the string: 0 below its start, len past its end |
| TutorialPanel.JsSlice | website/src/components/TutorialPanel.tsx:31 | definition: ECMAScript `String.prototype.slice` with both indices resolved by TutorialPanel.RelativeIndex; used by TutorialPanel.Slice |
| TutorialPanel.Slice | website/src/components/TutorialPanel.tsx:31 | the result is ECMAScript `part.slice(2, -2)`: its length is that of the part less four, or 0, and the part is its first two characters, the result and its last two |
| TutorialPanel.RenderPart | website/src/components/TutorialPanel.tsx:28-35 | definition: bold without the outer `**` when the part starts and ends with `**`, plain otherwise; properties in TutorialPanel.RenderPartFaithful |
| TutorialPanel.RenderContent | website/src/components/TutorialPanel.tsx:25-37 | one node per split part |
| TutorialPanel.RenderPartFaithful | website/src/components/TutorialPanel.tsx:28-35 | a bold run renders bold and gives its markup back, and a part not starting with `**` renders as itself |
| TutorialPanel.RenderContentShape | website/src/components/TutorialPanel.tsx:26-36 | there is an odd number of nodes, and every odd-indexed node is bold with its part as markup |
| TutorialPanel.UnrenderParts | website/src/components/TutorialPanel.tsx:27-36 | nodes whose markup is their part spell the parts' concatenation |
| TutorialPanel.RenderRoundTrip | website/src/components/TutorialPanel.tsx:25-37 | the markup of the rendered nodes spells the content, unless a plain part starts and ends with `**` |
| TutorialPanel.StrayStarsRenderEmptyBold | website/src/components/TutorialPanel.tsx:28-31 | a lone `**` or `***` is no match, yet it renders as an empty bold element |
| TutorialPanel.Toggled | website/src/components/TutorialPanel.tsx:15-23 | the index flips membership and every other index keeps its membership |
| TutorialPanel.ToggleLaws | website/src/components/TutorialPanel.tsx:15-23 | toggling an index twice restores the set, and toggles of two indices commute |
| TutorialPanel.TutorialPanelState.constructor | website/src/components/TutorialPanel.tsx:12 | only section 0 starts expanded |
| TutorialPanel.TutorialPanelState.ToggleSection | website/src/components/TutorialPanel.tsx:15-23 | the expanded set becomes the toggle of the old set at the index |

## Left out

- Floating point: numbers are exact reals. IEEE rounding, overflow to
  Infinity and NaN are not modelled, and neither is the accumulated error of
  `i * dt`.
- `Math.exp`, `Math.tanh` and `Math.cosh` are a parameter. The proofs use only
  the sign and range facts of `Sound`, not the functions' values.
- `Math.pow(m, 3)` and `Math.pow(n, 4)` are written as products.
- HodgkinHuxley.SimulateHodgkinHuxley: requires `membraneCapacitance != 0`,
  and that no step starts from the singular voltages -40 mV or -55 mV. At
  those voltages alpha_m or alpha_n is 0/0, so the code stores a NaN gate
  from the next sample on and a NaN voltage from the sample after. With a
  zero capacitance the first voltage update divides by zero. The model gives
  no run in either case. Whether the default Hodgkin-Huxley trajectory avoids
  the two voltages is not proved. The code does not apply the analytic limits
  at these points, and neither does the model.
- FitzHughNagumo.SimulateFitzHughNagumo: requires `tau != 0`. With a zero tau
  the code's first w update divides by zero, and w is not finite from then
  on.
- IntegrateFire.SimulateIntegrateFire: requires `Rm * Cm != 0`. With a zero
  product each update divides by zero. A positive numerator gives +Infinity,
  which the threshold test replaces by the reset potential, so such a run can
  stay finite. A zero numerator gives NaN and a negative one -Infinity; the
  voltage is not finite from then on.
- MorrisLecar.SimulateMorrisLecar: requires C, v2 and v4 to be non-zero.
  With v2 = 0, m_inf is tanh of an infinity, so it is 0 or 1, and the run
  stays finite unless some voltage equals v1 exactly (0/0). With v4 = 0, the
  w update divides by tau_w = 1/cosh(Infinity) = 0. With C = 0, the voltage
  update divides by zero.
- App.Dispatch: stores no result where the code stores one. These cases are:
  - the model-specific fields the integrator reads are incomplete (other
    than FitzHugh-Nagumo's `threshold`). The code computes with `undefined`.
    Three integrate-and-fire fields behave differently from the rest:
    - without `thresholdVoltage`, the test `V >= Vth` is always false. The
      code stores a finite run that never resets;
    - without `resetPotential`, the run is finite up to the first threshold
      crossing. The code then stores `undefined`, and NaN after it;
    - without `restingPotential`, the code stores `undefined` at the first
      sample and NaN from the next on.

    For every other field, a stored array holds NaN from the first update
    on, in the voltage or in a gate. The voltage follows one update later
    when the field only enters a gate's update;
  - both window fields are present but `stimulusCurrent` is missing. The
    code stores `undefined` as the current inside the window, and NaN
    voltages after the first update inside it. The run stays finite if no
    sample falls in the window;
  - a zero divisor or a Hodgkin-Huxley singular voltage, as above;
  - at most one sample. No update runs, so a zero divisor or a missing model
    field does not matter there, and the code's result is finite except for
    a missing integrate-and-fire `restingPotential`.

  A missing `timeStep` or `duration` gives `Array(NaN)`, which throws a
  RangeError that `runSimulation` catches. A step count that is negative,
  too large, or not finite because `timeStep` is zero throws the same way.
  The code and the model agree on these: no result.
- App.AppContent.FinishRun: weakened in the same way as App.Dispatch, which
  it calls.
- Output buffers: every integrator appends each sample to a sequence in index
  order. The code preallocates `new Array(numSteps)` and writes by index. Each
  index is written exactly once, in increasing order, so the final contents
  are the same. In-place writes and aliasing of the arrays are not modelled.
- React scheduling in App.tsx is not modelled:
  - the 100 ms `setTimeout` before a run;
  - the order in which effects fire, including a run with the previous
    model's parameters right after a switch;
  - the automatic re-run when parameters change.

  Instead, the two halves of `runSimulation` are separate methods
  (`BeginRun`, `FinishRun`), and selection loads the defaults directly.
- `console.error` on a failed run is left out.
- The `category` field is a string in the source and a three-valued datatype
  here, because the table uses only three values.
- The tutorial lookup `tutorials[selectedAlgorithm]` and all JSX rendering are
  left out. website/src/data/tutorials.ts is not part of this model, and
  tutorial text is an arbitrary string.
- The `lim` argument of `split` is left out, since the code never passes one.
- website/src/data/algorithms.ts, which App.tsx imports, is not part of this
  model. The Simulator/src/data/algorithms.ts table is used in its place.
- The plotting, parameter-panel, header and landing-page components are left
  out.
