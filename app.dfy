/** The simulator page of website/src/App.tsx: the selected model, the
    parameter record, the last result and the busy flag, with the handlers
    and effects that update them. */
module App {
  import opened Types
  import opened Stepping
  import opened Records
  import opened AlgorithmTable
  import HodgkinHuxley
  import FitzHughNagumo
  import IntegrateFire
  import MorrisLecar

  /** The `switch (selectedAlgorithm)` of `runSimulation`: each of the four
      ids selects its model, anything else is the `Unknown algorithm` error. */
  function Route(id: string): (r: Result<Model>)
    ensures r.Success? ==> ModelId(r.value) == id
    ensures r.Failure? ==> r.error == "Unknown algorithm" && forall m :: ModelId(m) != id
  {
    if id == "hodgkin-huxley" then Success(HodgkinHuxley)
    else if id == "fitzhugh-nagumo" then Success(FitzHughNagumo)
    else if id == "integrate-fire" then Success(IntegrateFire)
    else if id == "morris-lecar" then Success(MorrisLecar)
    else Failure("Unknown algorithm")
  }

  /** Every model's own id routes back to it. */
  lemma RouteModelId(m: Model)
    ensures Route(ModelId(m)) == Success(m)
  {
  }

  /** The parameter record can be read as the selected model's parameters and
      they meet that integrator's preconditions: the arrays can be allocated
      and no division is by zero (for HodgkinHuxley, no step starts from a
      singular voltage either). */
  predicate Runnable(id: string, rec: Record, math: MathLib)
    requires Sound(math)
  {
    match Route(id)
    case Failure(_) => false
    case Success(m) =>
      match m
      case HodgkinHuxley =>
        var p := HodgkinHuxleyFromRecord(rec);
        p.Some? && HodgkinHuxley.Admissible(p.value, math)
      case FitzHughNagumo =>
        var p := FitzHughNagumoFromRecord(rec);
        p.Some? && ArrayLengthValid(p.value.common) && p.value.tau != 0.0
      case IntegrateFire =>
        var p := IntegrateFireFromRecord(rec);
        p.Some? && ArrayLengthValid(p.value.common) && IntegrateFire.Tau(p.value) != 0.0
      case MorrisLecar =>
        var p := MorrisLecarFromRecord(rec);
        p.Some? && ArrayLengthValid(p.value.common) && MorrisLecar.Divisible(p.value)
  }

  /** r is what the selected model's integrator returns on the record. */
  ghost predicate Produces(id: string, rec: Record, math: MathLib, r: SimulationResult)
    requires Sound(math) && Runnable(id, rec, math)
  {
    match Route(id).value
    case HodgkinHuxley => HodgkinHuxley.IsRun(HodgkinHuxleyFromRecord(rec).value, math, r)
    case FitzHughNagumo => FitzHughNagumo.IsRun(FitzHughNagumoFromRecord(rec).value, r)
    case IntegrateFire => IntegrateFire.IsRun(IntegrateFireFromRecord(rec).value, r)
    case MorrisLecar => MorrisLecar.IsRun(MorrisLecarFromRecord(rec).value, math, r)
  }

  /** The body of the `try` in `runSimulation`: dispatch on the id and call
      that model's integrator on the record. An unknown id, or a record the
      integrator cannot run on, leaves no result. */
  method Dispatch(id: string, rec: Record, math: MathLib) returns (result: Option<SimulationResult>)
    requires Sound(math)
    ensures result.Some? <==> Runnable(id, rec, math)
    ensures result.Some? ==> Produces(id, rec, math, result.value)
    ensures Route(id).Failure? ==> result.None?
  {
    result := None;
    var route := Route(id);
    if route.Failure? {
      return;
    }
    match route.value {
      case HodgkinHuxley =>
        var p := HodgkinHuxleyFromRecord(rec);
        if p.Some? && HodgkinHuxley.Admissible(p.value, math) {
          var r := HodgkinHuxley.SimulateHodgkinHuxley(p.value, math);
          result := Some(r);
        }
      case FitzHughNagumo =>
        var p := FitzHughNagumoFromRecord(rec);
        if p.Some? && ArrayLengthValid(p.value.common) && p.value.tau != 0.0 {
          var r := FitzHughNagumo.SimulateFitzHughNagumo(p.value);
          result := Some(r);
        }
      case IntegrateFire =>
        var p := IntegrateFireFromRecord(rec);
        if p.Some? && ArrayLengthValid(p.value.common) && IntegrateFire.Tau(p.value) != 0.0 {
          var r := IntegrateFire.SimulateIntegrateFire(p.value);
          result := Some(r);
        }
      case MorrisLecar =>
        var p := MorrisLecarFromRecord(rec);
        if p.Some? && ArrayLengthValid(p.value.common) && MorrisLecar.Divisible(p.value) {
          var r := MorrisLecar.SimulateMorrisLecar(p.value, math);
          result := Some(r);
        }
    }
  }

  /** What a run produces is determined by the id and the record. */
  lemma ProducesIsDeterministic(id: string, rec: Record, math: MathLib,
                                r1: SimulationResult, r2: SimulationResult)
    requires Sound(math) && Runnable(id, rec, math)
    requires Produces(id, rec, math, r1) && Produces(id, rec, math, r2)
    ensures r1 == r2
  {
    match Route(id).value
    case HodgkinHuxley =>
      HodgkinHuxley.RunIsDeterministic(HodgkinHuxleyFromRecord(rec).value, math, r1, r2);
    case FitzHughNagumo =>
      FitzHughNagumo.RunIsDeterministic(FitzHughNagumoFromRecord(rec).value, r1, r2);
    case IntegrateFire =>
      IntegrateFire.RunIsDeterministic(IntegrateFireFromRecord(rec).value, r1, r2);
    case MorrisLecar =>
      MorrisLecar.RunIsDeterministic(MorrisLecarFromRecord(rec).value, math, r1, r2);
  }

  /** FitzHughNagumo runs on a record whether or not it carries
      `threshold`, and produces the same arrays either way. */
  lemma ThresholdNotRequired(rec: Record, math: MathLib, r: SimulationResult)
    requires Sound(math)
    ensures Runnable("fitzhugh-nagumo", rec - {"threshold"}, math) <==> Runnable("fitzhugh-nagumo", rec, math)
    ensures Runnable("fitzhugh-nagumo", rec, math) ==>
      (Produces("fitzhugh-nagumo", rec - {"threshold"}, math, r) <==> Produces("fitzhugh-nagumo", rec, math, r))
  {
    var without := rec - {"threshold"};
    assert CommonFromRecord(without) == CommonFromRecord(rec);
    var p, q := FitzHughNagumoFromRecord(rec), FitzHughNagumoFromRecord(without);
    assert ("a" in without <==> "a" in rec) && ("b" in without <==> "b" in rec) && ("tau" in without <==> "tau" in rec);
    if p.Some? {
      assert q.Some? && q.value == p.value.(threshold := q.value.threshold);
      if ArrayLengthValid(p.value.common) && p.value.tau != 0.0 {
        FitzHughNagumo.ThresholdIgnored(p.value, q.value.threshold, r);
      }
    }
  }

  // The FitzHughNagumo, IntegrateFire and MorrisLecar table defaults are
  // runnable under their own ids, so selecting those models always yields a
  // result.

  lemma FitzHughNagumoDefaultsRunnable(math: MathLib)
    requires Sound(math)
    ensures Runnable(ModelId(FitzHughNagumo), ToRecord(Algorithms[1].defaultParams), math)
  {
    RouteModelId(FitzHughNagumo);
    FitzHughNagumoRoundTrip(FitzHughNagumoDefaultParams);
    DefaultStepCounts();
  }

  lemma IntegrateFireDefaultsRunnable(math: MathLib)
    requires Sound(math)
    ensures Runnable(ModelId(IntegrateFire), ToRecord(Algorithms[2].defaultParams), math)
  {
    RouteModelId(IntegrateFire);
    IntegrateFireRoundTrip(IntegrateFireDefaultParams);
    DefaultStepCounts();
    DefaultDivisorsNonZero();
  }

  lemma MorrisLecarDefaultsRunnable(math: MathLib)
    requires Sound(math)
    ensures Runnable(ModelId(MorrisLecar), ToRecord(Algorithms[3].defaultParams), math)
  {
    RouteModelId(MorrisLecar);
    MorrisLecarRoundTrip(MorrisLecarDefaultParams);
    DefaultStepCounts();
    DefaultDivisorsNonZero();
  }

  class AppContent {
    var selectedAlgorithm: string
    var parameters: Record
    var simulationResult: Option<SimulationResult>
    var isSimulating: bool

    /** The initial state: hodgkin-huxley with the first table entry's
        defaults, no result, not simulating. */
    constructor()
      ensures selectedAlgorithm == "hodgkin-huxley"
      ensures parameters == ToRecord(Algorithms[0].defaultParams)
      ensures simulationResult == None && !isSimulating
    {
      selectedAlgorithm := "hodgkin-huxley";
      parameters := ToRecord(Algorithms[0].defaultParams);
      simulationResult := None;
      isSimulating := false;
    }

    /** `handleReset`, and the effect that runs the same lookup whenever the
        selection changes: the parameters become the selected entry's
        defaults, or stay as they were when no entry has the selected id. */
    method HandleReset()
      modifies this
      ensures var found := FindAlgorithm(Algorithms, selectedAlgorithm);
        parameters == if found.Some? then ToRecord(found.value.defaultParams) else old(parameters)
      ensures selectedAlgorithm == old(selectedAlgorithm)
      ensures simulationResult == old(simulationResult) && isSimulating == old(isSimulating)
    {
      var found := FindAlgorithm(Algorithms, selectedAlgorithm);
      if found.Some? {
        parameters := ToRecord(found.value.defaultParams);
      }
    }

    /** `setSelectedAlgorithm` from the header, followed by the effect on
        `selectedAlgorithm`, which loads the new entry's defaults. */
    method SelectAlgorithm(id: string)
      modifies this
      ensures selectedAlgorithm == id
      ensures var found := FindAlgorithm(Algorithms, id);
        parameters == if found.Some? then ToRecord(found.value.defaultParams) else old(parameters)
      ensures simulationResult == old(simulationResult) && isSimulating == old(isSimulating)
    {
      selectedAlgorithm := id;
      HandleReset();
    }

    /** `handleParameterChange(key, value)`: the spread update of one field. */
    method HandleParameterChange(key: string, value: real)
      modifies this
      ensures parameters == UpdateParameter(old(parameters), key, value)
      ensures selectedAlgorithm == old(selectedAlgorithm)
      ensures simulationResult == old(simulationResult) && isSimulating == old(isSimulating)
    {
      parameters := UpdateParameter(parameters, key, value);
    }

    /** The part of `runSimulation` before the `await`. */
    method BeginRun()
      modifies this
      ensures isSimulating
      ensures selectedAlgorithm == old(selectedAlgorithm) && parameters == old(parameters)
      ensures simulationResult == old(simulationResult)
    {
      isSimulating := true;
    }

    /** The part of `runSimulation` after the `await`: the dispatched result
        is stored, or `null` when the dispatch fails, and the busy flag is
        cleared either way. */
    method FinishRun(math: MathLib)
      requires Sound(math)
      modifies this
      ensures !isSimulating
      ensures selectedAlgorithm == old(selectedAlgorithm) && parameters == old(parameters)
      ensures simulationResult.Some? <==> Runnable(selectedAlgorithm, parameters, math)
      ensures simulationResult.Some? ==>
        Produces(selectedAlgorithm, parameters, math, simulationResult.value)
      ensures Route(selectedAlgorithm).Failure? ==> simulationResult == None
    {
      var result := Dispatch(selectedAlgorithm, parameters, math);
      simulationResult := result;
      isSimulating := false;
    }
  }

  /** Switching to a model and running: the stored result is exactly that
      model's run on its table defaults whenever those defaults are
      runnable. */
  lemma SelectThenRun(m: Model, math: MathLib, rec: Record, r: SimulationResult)
    requires Sound(math)
    requires var found := FindAlgorithm(Algorithms, ModelId(m));
      found.Some? && rec == ToRecord(found.value.defaultParams)
    requires Runnable(ModelId(m), rec, math) && Produces(ModelId(m), rec, math, r)
    ensures m == FitzHughNagumo ==> FitzHughNagumo.IsRun(FitzHughNagumoDefaultParams, r)
    ensures m == IntegrateFire ==> IntegrateFire.IsRun(IntegrateFireDefaultParams, r)
    ensures m == MorrisLecar ==> MorrisLecar.IsRun(MorrisLecarDefaultParams, math, r)
    ensures m == HodgkinHuxley ==> HodgkinHuxley.IsRun(HodgkinHuxleyDefaultParams, math, r)
  {
    FindEveryModel(m);
    TableShape();
    FindDistinct(Algorithms, match m
      case HodgkinHuxley => 0 case FitzHughNagumo => 1
      case IntegrateFire => 2 case MorrisLecar => 3);
    RouteModelId(m);
    match m
    case HodgkinHuxley => HodgkinHuxleyRoundTrip(HodgkinHuxleyDefaultParams);
    case FitzHughNagumo => FitzHughNagumoRoundTrip(FitzHughNagumoDefaultParams);
    case IntegrateFire => IntegrateFireRoundTrip(IntegrateFireDefaultParams);
    case MorrisLecar => MorrisLecarRoundTrip(MorrisLecarDefaultParams);
  }
}
