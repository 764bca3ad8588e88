/** The table of supported algorithms of Simulator/src/data/algorithms.ts:
    one entry per model, with its id, display text, category and default
    parameter set. */
module AlgorithmTable {
  import opened Types
  import opened Stepping
  import HodgkinHuxley
  import FitzHughNagumo
  import IntegrateFire
  import MorrisLecar

  datatype Category = Biophysical | Phenomenological | Abstract

  datatype Algorithm = Algorithm(
    id: string,
    name: string,
    description: string,
    category: Category,
    defaultParams: ModelParams)

  /** The `AlgorithmType` string naming each model. */
  function ModelId(m: Model): string
  {
    match m
    case HodgkinHuxley => "hodgkin-huxley"
    case FitzHughNagumo => "fitzhugh-nagumo"
    case IntegrateFire => "integrate-fire"
    case MorrisLecar => "morris-lecar"
  }

  /** The model a parameter set belongs to. */
  function ModelOf(mp: ModelParams): Model
  {
    match mp
    case HodgkinHuxleyDefaults(_) => HodgkinHuxley
    case FitzHughNagumoDefaults(_) => FitzHughNagumo
    case IntegrateFireDefaults(_) => IntegrateFire
    case MorrisLecarDefaults(_) => MorrisLecar
  }

  const HodgkinHuxleyDefaultParams: HodgkinHuxleyParams :=
    HodgkinHuxleyParams(ActionPotentialParams(0.01, 50.0, 10.0, 10.0, 1.0),
                        1.0, 120.0, 36.0, 0.3, 50.0, -77.0, -54.4)

  const FitzHughNagumoDefaultParams: FitzHughNagumoParams :=
    FitzHughNagumoParams(ActionPotentialParams(0.1, 100.0, 0.5, 20.0, 5.0),
                         0.7, 0.8, 12.5, -0.1)

  const IntegrateFireDefaultParams: IntegrateFireParams :=
    IntegrateFireParams(ActionPotentialParams(0.1, 100.0, 1.5, 20.0, 10.0),
                        10.0, 10.0, -55.0, -70.0, -80.0)

  const MorrisLecarDefaultParams: MorrisLecarParams :=
    MorrisLecarParams(ActionPotentialParams(0.01, 100.0, 80.0, 20.0, 5.0),
                      20.0, 4.4, 8.0, 2.0, 120.0, -84.0, -60.0,
                      -1.2, 18.0, 2.0, 30.0, 0.04)

  const Algorithms: seq<Algorithm> := [
    Algorithm("hodgkin-huxley", "Hodgkin-Huxley Model",
              "The classic biophysical model describing ionic mechanisms underlying action potentials",
              Biophysical, HodgkinHuxleyDefaults(HodgkinHuxleyDefaultParams)),
    Algorithm("fitzhugh-nagumo", "FitzHugh-Nagumo Model",
              "Simplified two-variable model capturing essential dynamics of excitable membranes",
              Phenomenological, FitzHughNagumoDefaults(FitzHughNagumoDefaultParams)),
    Algorithm("integrate-fire", "Integrate-and-Fire Model",
              "Simple yet powerful model focusing on membrane integration and spike generation",
              Abstract, IntegrateFireDefaults(IntegrateFireDefaultParams)),
    Algorithm("morris-lecar", "Morris-Lecar Model",
              "Two-variable model describing calcium and potassium dynamics in excitable membranes",
              Biophysical, MorrisLecarDefaults(MorrisLecarDefaultParams))
  ]

  /** `table.find(a => a.id === id)`: the first entry with that id, or
      `None` when there is none. */
  function FindAlgorithm(table: seq<Algorithm>, id: string): (r: Option<Algorithm>)
    ensures r.None? <==> forall k :: 0 <= k < |table| ==> table[k].id != id
    ensures r.Some? ==> exists k :: 0 <= k < |table| && table[k] == r.value &&
                                    r.value.id == id &&
                                    forall j :: 0 <= j < k ==> table[j].id != id
  {
    if |table| == 0 then None
    else if table[0].id == id then Some(table[0])
    else
      var rest := FindAlgorithm(table[1..], id);
      if rest.Some? then
        var k :| 0 <= k < |table| - 1 && table[1..][k] == rest.value && rest.value.id == id &&
                 forall j :: 0 <= j < k ==> table[1..][j].id != id;
        assert table[k + 1] == rest.value;
        rest
      else rest
  }

  /** When ids are distinct, the entry found for an id of the table is the
      entry with that id. */
  lemma FindDistinct(table: seq<Algorithm>, k: nat)
    requires forall i, j :: 0 <= i < j < |table| ==> table[i].id != table[j].id
    requires k < |table|
    ensures FindAlgorithm(table, table[k].id) == Some(table[k])
  {
    var r := FindAlgorithm(table, table[k].id);
    var k' :| 0 <= k' < |table| && table[k'] == r.value && r.value.id == table[k].id &&
              forall j :: 0 <= j < k' ==> table[j].id != table[k].id;
    assert k' == k;
  }

  /** Four entries, in the order hodgkin-huxley, fitzhugh-nagumo,
      integrate-fire, morris-lecar, each carrying the defaults of its own
      model and with pairwise distinct ids. */
  lemma TableShape()
    ensures |Algorithms| == 4
    ensures forall k :: 0 <= k < 4 ==> Algorithms[k].id == ModelId(ModelOf(Algorithms[k].defaultParams))
    ensures ModelOf(Algorithms[0].defaultParams) == HodgkinHuxley
    ensures ModelOf(Algorithms[1].defaultParams) == FitzHughNagumo
    ensures ModelOf(Algorithms[2].defaultParams) == IntegrateFire
    ensures ModelOf(Algorithms[3].defaultParams) == MorrisLecar
    ensures forall i, j :: 0 <= i < j < |Algorithms| ==> Algorithms[i].id != Algorithms[j].id
  {
    assert Algorithms[0].id[0] == 'h' && Algorithms[1].id[0] == 'f';
    assert Algorithms[2].id[0] == 'i' && Algorithms[3].id[0] == 'm';
  }

  /** Looking up the id of any model finds that model's entry. */
  lemma FindEveryModel(m: Model)
    ensures var r := FindAlgorithm(Algorithms, ModelId(m));
      r.Some? && r.value.id == ModelId(m) && ModelOf(r.value.defaultParams) == m
  {
    TableShape();
    var k := match m
      case HodgkinHuxley => 0 case FitzHughNagumo => 1
      case IntegrateFire => 2 case MorrisLecar => 3;
    FindDistinct(Algorithms, k);
  }

  /** HodgkinHuxley and MorrisLecar are biophysical, FitzHughNagumo is
      phenomenological and IntegrateFire is abstract. */
  lemma Categories()
    ensures Algorithms[0].category == Biophysical && Algorithms[3].category == Biophysical
    ensures Algorithms[1].category == Phenomenological
    ensures Algorithms[2].category == Abstract
  {
  }

  /** Every default time step and duration is positive, and the step counts
      are 5000, 1000, 1000 and 10000. */
  lemma DefaultStepCounts()
    ensures forall k :: 0 <= k < |Algorithms| ==>
      0.0 < CommonOf(Algorithms[k].defaultParams).timeStep &&
      0.0 < CommonOf(Algorithms[k].defaultParams).duration &&
      ArrayLengthValid(CommonOf(Algorithms[k].defaultParams))
    ensures NumSteps(HodgkinHuxleyDefaultParams.common) == 5000
    ensures NumSteps(FitzHughNagumoDefaultParams.common) == 1000
    ensures NumSteps(IntegrateFireDefaultParams.common) == 1000
    ensures NumSteps(MorrisLecarDefaultParams.common) == 10000
  {
    assert 50.0 / 0.01 == 5000.0;
    assert 100.0 / 0.1 == 1000.0;
    assert 100.0 / 0.01 == 10000.0;
  }

  function CommonOf(mp: ModelParams): ActionPotentialParams
  {
    match mp
    case HodgkinHuxleyDefaults(p) => p.common
    case FitzHughNagumoDefaults(p) => p.common
    case IntegrateFireDefaults(p) => p.common
    case MorrisLecarDefaults(p) => p.common
  }

  /** Every default stimulus window closes before the run ends. */
  lemma WindowsEndBeforeRun()
    ensures forall k :: 0 <= k < |Algorithms| ==>
      var c := CommonOf(Algorithms[k].defaultParams);
      c.stimulusStart + c.stimulusDuration < c.duration
  {
  }

  /** No integrator divides by zero on its defaults: C for HodgkinHuxley,
      tau for FitzHughNagumo, Rm * Cm for IntegrateFire, and C, v2 and v4
      for MorrisLecar. */
  lemma DefaultDivisorsNonZero()
    ensures HodgkinHuxleyDefaultParams.membraneCapacitance != 0.0
    ensures FitzHughNagumoDefaultParams.tau != 0.0
    ensures IntegrateFire.Tau(IntegrateFireDefaultParams) == 100.0
    ensures MorrisLecar.Divisible(MorrisLecarDefaultParams)
  {
  }

  /** The IntegrateFire defaults order reset < rest < threshold, so every
      sample of a default run after the first is below threshold, and the
      neuron rests at -70 until the stimulus starts at t = 20. */
  lemma IntegrateFireDefaultsBelowThreshold(r: SimulationResult)
    requires IntegrateFire.Tau(IntegrateFireDefaultParams) != 0.0
    requires ArrayLengthValid(IntegrateFireDefaultParams.common)
    requires IntegrateFire.IsRun(IntegrateFireDefaultParams, r)
    ensures forall i :: 1 <= i < |r.voltage| ==> r.voltage[i] < -55.0
    ensures |r.voltage| == 1000 && r.voltage[0] == -70.0
  {
    var p := IntegrateFireDefaultParams;
    assert p.resetPotential < p.restingPotential < p.thresholdVoltage;
    DefaultStepCounts();
    forall i | 1 <= i < |r.voltage| ensures r.voltage[i] < -55.0 {
      IntegrateFire.BelowThresholdAfterStart(p, r, i);
    }
    IntegrateFire.InitialSample(p, r);
  }

  /** The FitzHughNagumo defaults carry a threshold of -0.1 that the
      integrator never reads: a run on the defaults is a run on the defaults
      with any other threshold. */
  lemma FitzHughNagumoDefaultThresholdUnread(x: real, r: SimulationResult)
    requires ArrayLengthValid(FitzHughNagumoDefaultParams.common)
    ensures FitzHughNagumoDefaultParams.threshold == -0.1
    ensures FitzHughNagumo.IsRun(FitzHughNagumoDefaultParams, r) <==>
            FitzHughNagumo.IsRun(FitzHughNagumoDefaultParams.(threshold := x), r)
  {
    FitzHughNagumo.ThresholdIgnored(FitzHughNagumoDefaultParams, x, r);
  }
}
