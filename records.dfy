/** The untyped parameter record website/src/App.tsx keeps in its state
    (an object whose numeric fields are read and written by name) and the
    typed parameter blocks each simulator reads from it through its
    `parameters as any` cast. */
module Records {
  import opened Types
  import opened Stepping

  type Record = map<string, real>

  /** The common block, field by field. */
  function CommonRecord(c: ActionPotentialParams): (rec: Record)
    ensures rec.Keys == {"timeStep", "duration", "stimulusCurrent", "stimulusStart", "stimulusDuration"}
  {
    map["timeStep" := c.timeStep, "duration" := c.duration, "stimulusCurrent" := c.stimulusCurrent,
        "stimulusStart" := c.stimulusStart, "stimulusDuration" := c.stimulusDuration]
  }

  function HodgkinHuxleyRecord(p: HodgkinHuxleyParams): Record
  {
    CommonRecord(p.common) + map[
      "membraneCapacitance" := p.membraneCapacitance, "sodiumConductance" := p.sodiumConductance,
      "potassiumConductance" := p.potassiumConductance, "leakConductance" := p.leakConductance,
      "sodiumReversal" := p.sodiumReversal, "potassiumReversal" := p.potassiumReversal,
      "leakReversal" := p.leakReversal]
  }

  function FitzHughNagumoRecord(p: FitzHughNagumoParams): Record
  {
    CommonRecord(p.common) + map["a" := p.a, "b" := p.b, "tau" := p.tau, "threshold" := p.threshold]
  }

  function IntegrateFireRecord(p: IntegrateFireParams): Record
  {
    CommonRecord(p.common) + map[
      "membraneResistance" := p.membraneResistance, "membraneCapacitance" := p.membraneCapacitance,
      "thresholdVoltage" := p.thresholdVoltage, "restingPotential" := p.restingPotential,
      "resetPotential" := p.resetPotential]
  }

  function MorrisLecarRecord(p: MorrisLecarParams): Record
  {
    CommonRecord(p.common) + map[
      "membraneCapacitance" := p.membraneCapacitance, "calciumConductance" := p.calciumConductance,
      "potassiumConductance" := p.potassiumConductance, "leakConductance" := p.leakConductance,
      "calciumReversal" := p.calciumReversal, "potassiumReversal" := p.potassiumReversal,
      "leakReversal" := p.leakReversal, "v1" := p.v1, "v2" := p.v2, "v3" := p.v3, "v4" := p.v4,
      "phi" := p.phi]
  }

  /** The record of a parameter set: the common fields plus the model's own,
      under the field names of its interface. */
  function ToRecord(mp: ModelParams): Record
  {
    match mp
    case HodgkinHuxleyDefaults(p) => HodgkinHuxleyRecord(p)
    case FitzHughNagumoDefaults(p) => FitzHughNagumoRecord(p)
    case IntegrateFireDefaults(p) => IntegrateFireRecord(p)
    case MorrisLecarDefaults(p) => MorrisLecarRecord(p)
  }

  /** Whether time t lies in the window `t >= stimulusStart &&
      t <= stimulusStart + stimulusDuration` as the code evaluates it on the
      record: when either field is missing one comparison is with `undefined`
      or `NaN`, which is false, so the window never opens. */
  predicate RecordWindow(rec: Record, t: real)
  {
    HasWindow(rec) && rec["stimulusStart"] <= t <= rec["stimulusStart"] + rec["stimulusDuration"]
  }

  predicate HasWindow(rec: Record)
  {
    "stimulusStart" in rec && "stimulusDuration" in rec
  }

  /** Reading the common block back. A missing time step or duration makes
      `Array(NaN)` throw, so there is no block. A missing window field gives
      a window no time lies in, and then the amplitude is never read. */
  function CommonFromRecord(rec: Record): (r: Option<ActionPotentialParams>)
    ensures r.Some? <==>
      ("timeStep" in rec && "duration" in rec && ("stimulusCurrent" in rec || !HasWindow(rec)))
    ensures r.Some? ==> r.value.timeStep == rec["timeStep"] && r.value.duration == rec["duration"]
    ensures r.Some? ==> forall t :: InWindow(r.value, t) <==> RecordWindow(rec, t)
    ensures r.Some? ==> forall t ::
      ExternalCurrent(r.value, t) == if RecordWindow(rec, t) then rec["stimulusCurrent"] else 0.0
  {
    if "timeStep" !in rec || "duration" !in rec then None
    else if HasWindow(rec) then
      if "stimulusCurrent" in rec
      then Some(ActionPotentialParams(rec["timeStep"], rec["duration"], rec["stimulusCurrent"],
                                      rec["stimulusStart"], rec["stimulusDuration"]))
      else None
    else
      var c := ActionPotentialParams(rec["timeStep"], rec["duration"], 0.0, 1.0, -2.0);
      assert forall t :: !InWindow(c, t);
      Some(c)
  }

  /** Any record that carries a common block reads back as that block,
      whatever other fields it holds. */
  lemma CommonRoundTrip(c: ActionPotentialParams, extra: Record)
    ensures CommonFromRecord(extra + CommonRecord(c)) == Some(c)
  {
    var rec := extra + CommonRecord(c);
    assert rec["timeStep"] == c.timeStep && rec["duration"] == c.duration;
    assert rec["stimulusCurrent"] == c.stimulusCurrent;
    assert rec["stimulusStart"] == c.stimulusStart && rec["stimulusDuration"] == c.stimulusDuration;
  }

  function HodgkinHuxleyFromRecord(rec: Record): Option<HodgkinHuxleyParams>
  {
    match CommonFromRecord(rec)
    case None => None
    case Some(c) =>
      if "membraneCapacitance" in rec && "sodiumConductance" in rec && "potassiumConductance" in rec &&
         "leakConductance" in rec && "sodiumReversal" in rec && "potassiumReversal" in rec &&
         "leakReversal" in rec
      then Some(HodgkinHuxleyParams(c, rec["membraneCapacitance"], rec["sodiumConductance"],
                                    rec["potassiumConductance"], rec["leakConductance"],
                                    rec["sodiumReversal"], rec["potassiumReversal"], rec["leakReversal"]))
      else None
  }

  /** The integrator never reads `threshold`, so it may be missing; a
      missing one reads as 0. */
  function FitzHughNagumoFromRecord(rec: Record): Option<FitzHughNagumoParams>
  {
    match CommonFromRecord(rec)
    case None => None
    case Some(c) =>
      if "a" in rec && "b" in rec && "tau" in rec
      then Some(FitzHughNagumoParams(c, rec["a"], rec["b"], rec["tau"],
                                     if "threshold" in rec then rec["threshold"] else 0.0))
      else None
  }

  function IntegrateFireFromRecord(rec: Record): Option<IntegrateFireParams>
  {
    match CommonFromRecord(rec)
    case None => None
    case Some(c) =>
      if "membraneResistance" in rec && "membraneCapacitance" in rec && "thresholdVoltage" in rec &&
         "restingPotential" in rec && "resetPotential" in rec
      then Some(IntegrateFireParams(c, rec["membraneResistance"], rec["membraneCapacitance"],
                                    rec["thresholdVoltage"], rec["restingPotential"], rec["resetPotential"]))
      else None
  }

  function MorrisLecarFromRecord(rec: Record): Option<MorrisLecarParams>
  {
    match CommonFromRecord(rec)
    case None => None
    case Some(c) =>
      if "membraneCapacitance" in rec && "calciumConductance" in rec && "potassiumConductance" in rec &&
         "leakConductance" in rec && "calciumReversal" in rec && "potassiumReversal" in rec &&
         "leakReversal" in rec && "v1" in rec && "v2" in rec && "v3" in rec && "v4" in rec && "phi" in rec
      then Some(MorrisLecarParams(c, rec["membraneCapacitance"], rec["calciumConductance"],
                                  rec["potassiumConductance"], rec["leakConductance"],
                                  rec["calciumReversal"], rec["potassiumReversal"], rec["leakReversal"],
                                  rec["v1"], rec["v2"], rec["v3"], rec["v4"], rec["phi"]))
      else None
  }

  // Each simulator reads back exactly the parameter set whose record it is
  // given.

  lemma HodgkinHuxleyRoundTrip(p: HodgkinHuxleyParams)
    ensures HodgkinHuxleyFromRecord(HodgkinHuxleyRecord(p)) == Some(p)
  {
    assert CommonFromRecord(HodgkinHuxleyRecord(p)) == Some(p.common);
  }

  lemma FitzHughNagumoRoundTrip(p: FitzHughNagumoParams)
    ensures FitzHughNagumoFromRecord(FitzHughNagumoRecord(p)) == Some(p)
  {
    assert CommonFromRecord(FitzHughNagumoRecord(p)) == Some(p.common);
  }

  lemma IntegrateFireRoundTrip(p: IntegrateFireParams)
    ensures IntegrateFireFromRecord(IntegrateFireRecord(p)) == Some(p)
  {
    assert CommonFromRecord(IntegrateFireRecord(p)) == Some(p.common);
  }

  lemma MorrisLecarConductances(p: MorrisLecarParams)
    ensures var rec := MorrisLecarRecord(p);
      "membraneCapacitance" in rec && rec["membraneCapacitance"] == p.membraneCapacitance &&
      "calciumConductance" in rec && rec["calciumConductance"] == p.calciumConductance &&
      "potassiumConductance" in rec && rec["potassiumConductance"] == p.potassiumConductance &&
      "leakConductance" in rec && rec["leakConductance"] == p.leakConductance
  {
  }

  lemma MorrisLecarReversals(p: MorrisLecarParams)
    ensures var rec := MorrisLecarRecord(p);
      "calciumReversal" in rec && rec["calciumReversal"] == p.calciumReversal &&
      "potassiumReversal" in rec && rec["potassiumReversal"] == p.potassiumReversal &&
      "leakReversal" in rec && rec["leakReversal"] == p.leakReversal
  {
  }

  lemma MorrisLecarShape(p: MorrisLecarParams)
    ensures var rec := MorrisLecarRecord(p);
      "v1" in rec && rec["v1"] == p.v1 && "v2" in rec && rec["v2"] == p.v2 &&
      "v3" in rec && rec["v3"] == p.v3 && "v4" in rec && rec["v4"] == p.v4 &&
      "phi" in rec && rec["phi"] == p.phi
  {
  }

  lemma MorrisLecarCommon(p: MorrisLecarParams)
    ensures CommonFromRecord(MorrisLecarRecord(p)) == Some(p.common)
  {
  }

  lemma MorrisLecarRoundTrip(p: MorrisLecarParams)
    ensures MorrisLecarFromRecord(MorrisLecarRecord(p)) == Some(p)
  {
    MorrisLecarCommon(p);
    MorrisLecarConductances(p);
    MorrisLecarReversals(p);
    MorrisLecarShape(p);
  }

  /** `{ ...prev, [key]: value }`: key holds value afterwards, and every
      other field is kept with its old value. */
  function UpdateParameter(prev: Record, key: string, value: real): (next: Record)
    ensures next.Keys == prev.Keys + {key}
    ensures next[key] == value
    ensures forall k :: k in prev && k != key ==> next[k] == prev[k]
  {
    prev[key := value]
  }

  /** Writing a field back with the value it already had changes nothing, and
      the last of two writes to one field wins. */
  lemma UpdateParameterLaws(rec: Record, key: string, value: real, other: real)
    ensures key in rec ==> UpdateParameter(rec, key, rec[key]) == rec
    ensures UpdateParameter(UpdateParameter(rec, key, other), key, value) == UpdateParameter(rec, key, value)
  {
  }
}
