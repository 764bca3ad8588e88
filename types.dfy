/** Parameter records, the simulation result and the host's transcendental
    functions, as declared in website/src/types/index.ts and used by
    website/src/utils/simulators.ts. */
module Types {

  datatype Option<+T> = None | Some(value: T)

  datatype Result<+T> = Success(value: T) | Failure(error: string)

  /** The common time/stimulus block every model shares. */
  datatype ActionPotentialParams = ActionPotentialParams(
    timeStep: real,
    duration: real,
    stimulusCurrent: real,
    stimulusStart: real,
    stimulusDuration: real)

  datatype HodgkinHuxleyParams = HodgkinHuxleyParams(
    common: ActionPotentialParams,
    membraneCapacitance: real,
    sodiumConductance: real,
    potassiumConductance: real,
    leakConductance: real,
    sodiumReversal: real,
    potassiumReversal: real,
    leakReversal: real)

  datatype FitzHughNagumoParams = FitzHughNagumoParams(
    common: ActionPotentialParams,
    a: real,
    b: real,
    tau: real,
    threshold: real)

  datatype IntegrateFireParams = IntegrateFireParams(
    common: ActionPotentialParams,
    membraneResistance: real,
    membraneCapacitance: real,
    thresholdVoltage: real,
    restingPotential: real,
    resetPotential: real)

  datatype MorrisLecarParams = MorrisLecarParams(
    common: ActionPotentialParams,
    membraneCapacitance: real,
    calciumConductance: real,
    potassiumConductance: real,
    leakConductance: real,
    calciumReversal: real,
    potassiumReversal: real,
    leakReversal: real,
    v1: real,
    v2: real,
    v3: real,
    v4: real,
    phi: real)

  /** The four supported models (the `AlgorithmType` union). */
  datatype Model = HodgkinHuxley | FitzHughNagumo | IntegrateFire | MorrisLecar

  /** A parameter set of one of the four models. */
  datatype ModelParams =
    | HodgkinHuxleyDefaults(hh: HodgkinHuxleyParams)
    | FitzHughNagumoDefaults(fhn: FitzHughNagumoParams)
    | IntegrateFireDefaults(lif: IntegrateFireParams)
    | MorrisLecarDefaults(ml: MorrisLecarParams)

  /** The optional gating-variable block of a result; a key the source does
      not return is `None`. */
  datatype GatingVariables = GatingVariables(
    m: Option<seq<real>>,
    h: Option<seq<real>>,
    n: Option<seq<real>>,
    w: Option<seq<real>>)

  datatype SimulationResult = SimulationResult(
    time: seq<real>,
    voltage: seq<real>,
    current: Option<seq<real>>,
    gatingVariables: Option<GatingVariables>)

  /** `Math.exp`, `Math.tanh` and `Math.cosh` of the host, which the model
      does not define; they are passed in. */
  datatype MathLib = MathLib(exp: real -> real, tanh: real -> real, cosh: real -> real)

  /** The only facts the model uses about the host functions; all of them
      hold of the real exponential, hyperbolic tangent and hyperbolic cosine. */
  ghost predicate Sound(math: MathLib)
  {
    math.exp(0.0) == 1.0 &&
    (forall x :: 0.0 < math.exp(x)) &&
    (forall x :: x < 0.0 ==> math.exp(x) < 1.0) &&
    (forall x :: 0.0 < x ==> 1.0 < math.exp(x)) &&
    (forall x :: -1.0 < math.tanh(x) < 1.0) &&
    (forall x :: 1.0 <= math.cosh(x))
  }
}
