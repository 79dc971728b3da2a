/** The generator-set state machine: one transition of the node, the outputs of
    a node, and the iteration of transitions under fixed inputs. */
module Genset {

  datatype Node =
    | Error | Reset | Off | Ready | Priming | Cranking
    | WarmUp | Producing | EngineCoolDown | EnclosureCoolDown

  // Durations and instants are integers (nanoseconds); temperatures and
  // electrical quantities are reals.
  datatype Params = Params(
    primingTimeout: int,
    crankingTimeout: int,
    warmUpTimeout: int,
    warmUpMinTime: int,
    warmUpTemp: real,
    engineCoolDownTimeout: int,
    engineCoolDownMinTime: int,
    engineCoolDownTemp: real,
    enclosureCoolDownTimeout: int,
    enclosureCoolDownMinTime: int,
    enclosureCoolDownTemp: real,
    engineTempMin: real, engineTempMax: real,
    auxTemp0Min: real, auxTemp0Max: real,
    auxTemp1Min: real, auxTemp1Max: real,
    singlePhase: bool,
    uMin: real, uMax: real,
    fMin: real, fMax: real,
    pMax: real, pTotMax: real)

  datatype Inputs = Inputs(
    time: int,
    armSwitch: bool, commandSwitch: bool, resetSwitch: bool,
    ioAvailable: bool, fireDetected: bool,
    engineTemp: real, auxTemp0: real, auxTemp1: real,
    outputAvailable: bool,
    u1: real, u2: real, u3: real,
    p1: real, p2: real, p3: real,
    f: real)
  {
    predicate Master() { armSwitch && commandSwitch }
  }

  datatype State = State(node: Node, changed: int)

  datatype Outputs = Outputs(
    ignition: bool, starter: bool, fan: bool, pump: bool, load: bool,
    timeInState: int, ioCheck: bool, outputCheck: bool)
  {
    predicate ActuatorOn() { ignition || starter || fan || pump || load }
  }

  predicate IoCheck(p: Params, i: Inputs) {
    && !i.fireDetected && i.ioAvailable
    && i.engineTemp >= p.engineTempMin && i.engineTemp <= p.engineTempMax
    && i.auxTemp0 >= p.auxTemp0Min && i.auxTemp0 <= p.auxTemp0Max
    && i.auxTemp1 >= p.auxTemp1Min && i.auxTemp1 <= p.auxTemp1Max
  }

  predicate OutputCheck(p: Params, i: Inputs) {
    if !i.outputAvailable then false
    else if i.f < p.fMin || i.f > p.fMax then false
    else if p.singlePhase then
      && i.u1 >= p.uMin && i.u1 <= p.uMax
      && i.p1 <= p.pMax
      && i.p1 <= p.pTotMax
    else
      && i.f >= p.fMin && i.f <= p.fMax
      && i.u1 >= p.uMin && i.u1 <= p.uMax
      && i.u2 >= p.uMin && i.u2 <= p.uMax
      && i.u3 >= p.uMin && i.u3 <= p.uMax
      && i.p1 <= p.pMax
      && i.p2 <= p.pMax
      && i.p3 <= p.pMax
      && i.p1 + i.p2 + i.p3 <= p.pTotMax
  }

  function ComputeStateNode(p: Params, i: Inputs, prev: State): Node {
    if i.resetSwitch then Reset
    else if !(prev.node == Reset || prev.node == Off || prev.node == Error) && !IoCheck(p, i) then Error
    else
      var outCheck := OutputCheck(p, i);
      if (prev.node == WarmUp || prev.node == Producing || prev.node == EngineCoolDown) && !outCheck then Error
      else
        var masterSwitch := i.Master();
        var timeInState := i.time - prev.changed;
        match prev.node
        case Error => Error
        case Reset => if !i.resetSwitch && !masterSwitch then Off else Reset
        case Off => if i.ioAvailable then Ready else Off
        case Ready => if masterSwitch then Priming else Ready
        case Priming =>
          if !masterSwitch then Ready
          else if timeInState >= p.primingTimeout then Cranking
          else Priming
        case Cranking =>
          if !masterSwitch then Ready
          else if timeInState >= p.crankingTimeout then Error
          else if outCheck then WarmUp
          else Cranking
        case WarmUp =>
          if !masterSwitch then EnclosureCoolDown
          else if timeInState >= p.warmUpMinTime
                  && (timeInState >= p.warmUpTimeout || i.engineTemp >= p.warmUpTemp) then Producing
          else WarmUp
        case Producing => if !masterSwitch then EngineCoolDown else Producing
        case EngineCoolDown =>
          if masterSwitch then Producing
          else if timeInState >= p.engineCoolDownMinTime
                  && (timeInState >= p.engineCoolDownTimeout || i.engineTemp <= p.engineCoolDownTemp)
          then EnclosureCoolDown
          else EngineCoolDown
        case EnclosureCoolDown =>
          if masterSwitch then Priming
          else if timeInState >= p.enclosureCoolDownMinTime
                  && (timeInState >= p.enclosureCoolDownTimeout || i.engineTemp <= p.enclosureCoolDownTemp) then Ready
          else EnclosureCoolDown
  }

  function ComputeState(p: Params, i: Inputs, prev: State): State {
    var nextNode := ComputeStateNode(p, i, prev);
    State(nextNode, if nextNode != prev.node then i.time else prev.changed)
  }

  function ComputeOutputs(p: Params, i: Inputs, s: State): Outputs {
    var n := s.node;
    Outputs(
      n == Cranking || n == WarmUp || n == Producing || n == EngineCoolDown,
      n == Cranking,
      n == Priming || n == Cranking || n == WarmUp || n == Producing || n == EngineCoolDown || n == EnclosureCoolDown,
      n == Priming || n == Cranking || n == WarmUp || n == Producing || n == EngineCoolDown,
      n == Producing,
      i.time - s.changed,
      IoCheck(p, i),
      OutputCheck(p, i))
  }

  // The nodes that can follow each other.
  predicate Edge(a: Node, b: Node) {
    || (b == Reset && a != Reset)
    || (b == Error && a != Error && a != Reset && a != Off)
    || match a
       case Error => false
       case Reset => b == Off
       case Off => b == Ready
       case Ready => b == Priming
       case Priming => b == Ready || b == Cranking
       case Cranking => b == Ready || b == WarmUp
       case WarmUp => b == Producing || b == EnclosureCoolDown
       case Producing => b == EngineCoolDown
       case EngineCoolDown => b == Producing || b == EnclosureCoolDown
       case EnclosureCoolDown => b == Priming || b == Ready
  }

  predicate CanFollow(p: Params, i: Inputs, changed: int, a: Node, b: Node) {
    ComputeStateNode(p, i, State(a, changed)) == b
  }

  // No other transition can happen, and each of these does for some parameters and inputs.
  lemma EdgesExactly(a: Node, b: Node)
    requires a != b
    ensures (exists p, i, changed :: CanFollow(p, i, changed, a, b)) <==> Edge(a, b)
  {
    if Edge(a, b) {
      var p := Params(
        10, 10, 10, 10, 0.0, 10, 10, 0.0, 10, 10, 0.0,
        0.0, 0.0, 0.0, 0.0, 0.0, 0.0, true, 0.0, 0.0, 0.0, 0.0, 0.0, 0.0);
      var master := b == Priming || b == Cranking || b == WarmUp || b == Producing;
      var i := Inputs(
        if b == WarmUp then 5 else 10, master, master, b == Reset, b != Error, false, 0.0, 0.0, 0.0,
        true, 0.0, 0.0, 0.0, 0.0, 0.0, 0.0, 0.0);
      assert CanFollow(p, i, 0, a, b);
    }
  }

  // The actuators depend on the node alone, and each node is told by them among
  // the running ones: load within ignition within pump within fan.
  lemma OutputsByNode(p: Params, i: Inputs, s: State)
    ensures var o := ComputeOutputs(p, i, s);
      && (o.load ==> o.ignition) && (o.starter ==> o.ignition) && (o.ignition ==> o.pump) && (o.pump ==> o.fan)
      && (!o.fan <==> s.node == Error || s.node == Reset || s.node == Off || s.node == Ready)
      && (o.fan && !o.pump <==> s.node == EnclosureCoolDown)
      && (o.pump && !o.ignition <==> s.node == Priming)
      && (o.starter <==> s.node == Cranking) && (o.load <==> s.node == Producing)
      && o.timeInState == i.time - s.changed
  {
  }

  // A state that one more transition leaves alone.
  predicate AtRest(p: Params, i: Inputs, s: State) {
    ComputeState(p, i, s) == s
  }

  // The states entered by iterating ComputeState at most n times, stopping early at rest.
  function Visited(p: Params, i: Inputs, s: State, n: nat): seq<State>
    decreases n, s
  {
    var t := ComputeState(p, i, s);
    if n == 0 || t == s then [] else [t] + Visited(p, i, t, n - 1)
  }

  lemma VisitedUnfolds(p: Params, i: Inputs, s: State, n: nat)
    ensures var t := ComputeState(p, i, s);
      Visited(p, i, s, n) == if n == 0 || t == s then [] else [t] + Visited(p, i, t, n - 1)
  {
  }

  function LastOr(s: State, visited: seq<State>): State {
    if visited == [] then s else visited[|visited| - 1]
  }

  const MAX_ITERATIONS: nat := 8

  function Settle(p: Params, i: Inputs, s: State): State {
    LastOr(s, Visited(p, i, s, MAX_ITERATIONS))
  }

  // ---- convergence ----

  // How many more nodes can be entered from here while the inputs stay fixed.
  function Rank(p: Params, i: Inputs, n: Node): nat {
    if i.resetSwitch then (if n == Reset then 0 else 1)
    else if i.Master() then
      match n
      case Off => 5
      case Ready => 4
      case EnclosureCoolDown => 4
      case Priming => 3
      case Cranking => 2
      case WarmUp => 1
      case EngineCoolDown => 1
      case Producing => if IoCheck(p, i) && OutputCheck(p, i) then 0 else 1
      case _ => 0
    else
      match n
      case Producing => 4
      case WarmUp => 3
      case EngineCoolDown => 3
      case Reset => 3
      case Error => 0
      case Ready => 1
      case _ => 2
  }

  lemma StepLowersRank(p: Params, i: Inputs, s: State)
    requires !AtRest(p, i, s)
    ensures ComputeState(p, i, s).node != s.node
    ensures Rank(p, i, ComputeState(p, i, s).node) < Rank(p, i, s.node)
  {
    hide IoCheck, OutputCheck;
  }

  lemma {:induction false} VisitedConverges(p: Params, i: Inputs, s: State, n: nat)
    requires Rank(p, i, s.node) <= n
    ensures |Visited(p, i, s, n)| <= Rank(p, i, s.node)
    ensures AtRest(p, i, LastOr(s, Visited(p, i, s, n)))
    decreases n
  {
    hide IoCheck, OutputCheck;
    if !AtRest(p, i, s) {
      StepLowersRank(p, i, s);
      VisitedConverges(p, i, ComputeState(p, i, s), n - 1);
    }
  }

  // For every parameter set, all inputs and every node, at most five nodes are
  // entered, so the cap of eight never truncates and the result is at rest.
  lemma Convergence(p: Params, i: Inputs, s: State)
    ensures |Visited(p, i, s, MAX_ITERATIONS)| <= 5
    ensures AtRest(p, i, Settle(p, i, s))
    ensures forall n: nat :: n >= 5 ==> Visited(p, i, s, n) == Visited(p, i, s, MAX_ITERATIONS)
  {
    hide IoCheck, OutputCheck;
    VisitedConverges(p, i, s, MAX_ITERATIONS);
    forall n: nat | n >= 5
      ensures Visited(p, i, s, n) == Visited(p, i, s, MAX_ITERATIONS)
    {
      VisitedStable(p, i, s, n, MAX_ITERATIONS);
    }
  }

  lemma {:induction false} VisitedStable(p: Params, i: Inputs, s: State, m: nat, n: nat)
    requires Rank(p, i, s.node) <= m && Rank(p, i, s.node) <= n
    ensures Visited(p, i, s, m) == Visited(p, i, s, n)
    decreases n
  {
    hide IoCheck, OutputCheck;
    if !AtRest(p, i, s) {
      StepLowersRank(p, i, s);
      VisitedStable(p, i, ComputeState(p, i, s), m - 1, n - 1);
    }
  }

  // Five is reached: when no stage has to wait, one update takes the set from
  // Off all the way to Producing.
  lemma FiveNodesInOneUpdate(p: Params, i: Inputs, changed: int)
    requires i.Master() && !i.resetSwitch && IoCheck(p, i) && OutputCheck(p, i)
    requires p.primingTimeout <= 0 < p.crankingTimeout
    requires p.warmUpMinTime <= 0 && p.warmUpTimeout <= 0
    ensures |Visited(p, i, State(Off, changed), MAX_ITERATIONS)| == 5
    ensures Settle(p, i, State(Off, changed)) == State(Producing, i.time)
  {
    hide Visited, OutputCheck;
    VisitedUnfolds(p, i, State(Producing, i.time), 3);
    VisitedUnfolds(p, i, State(WarmUp, i.time), 4);
    VisitedUnfolds(p, i, State(Cranking, i.time), 5);
    VisitedUnfolds(p, i, State(Priming, i.time), 6);
    VisitedUnfolds(p, i, State(Ready, i.time), 7);
    VisitedUnfolds(p, i, State(Off, changed), 8);
  }

  // Recomputing under unchanged inputs enters nothing and changes nothing.
  lemma SettleIdempotent(p: Params, i: Inputs, s: State)
    ensures Visited(p, i, Settle(p, i, s), MAX_ITERATIONS) == []
    ensures Settle(p, i, Settle(p, i, s)) == Settle(p, i, s)
  {
    hide IoCheck, OutputCheck;
    Convergence(p, i, s);
  }

  // ---- what a state at rest guarantees ----

  // Each node's conditions for holding still, read off node by node.
  predicate HoldsStill(p: Params, i: Inputs, s: State) {
    var t := i.time - s.changed;
    match s.node
    case Error => !i.resetSwitch
    case Reset => i.resetSwitch || i.Master()
    case Off => !i.resetSwitch && !i.ioAvailable
    case Ready => !i.resetSwitch && IoCheck(p, i) && !i.Master()
    case Priming => !i.resetSwitch && IoCheck(p, i) && i.Master() && t < p.primingTimeout
    case Cranking => !i.resetSwitch && IoCheck(p, i) && i.Master() && t < p.crankingTimeout && !OutputCheck(p, i)
    case WarmUp =>
      && !i.resetSwitch && IoCheck(p, i) && OutputCheck(p, i) && i.Master()
      && (t < p.warmUpMinTime || (t < p.warmUpTimeout && i.engineTemp < p.warmUpTemp))
    case Producing => !i.resetSwitch && IoCheck(p, i) && OutputCheck(p, i) && i.Master()
    case EngineCoolDown =>
      && !i.resetSwitch && IoCheck(p, i) && OutputCheck(p, i) && !i.Master()
      && (t < p.engineCoolDownMinTime || (t < p.engineCoolDownTimeout && i.engineTemp > p.engineCoolDownTemp))
    case EnclosureCoolDown =>
      && !i.resetSwitch && IoCheck(p, i) && !i.Master()
      && (t < p.enclosureCoolDownMinTime || (t < p.enclosureCoolDownTimeout && i.engineTemp > p.enclosureCoolDownTemp))
  }

  lemma AtRestIff(p: Params, i: Inputs, s: State)
    ensures AtRest(p, i, s) <==> HoldsStill(p, i, s)
  {
    hide IoCheck, OutputCheck;
  }

  ghost predicate SafeOutputs(p: Params, i: Inputs, o: Outputs) {
    && (o.load ==> o.ioCheck && o.outputCheck && i.Master() && !i.resetSwitch)
    && (o.ignition ==> o.ioCheck && !i.resetSwitch)
    && (o.starter ==> o.timeInState < p.crankingTimeout && !o.outputCheck && i.Master())
    && (o.ActuatorOn() ==> o.ioCheck && !i.resetSwitch)
    && (o.load ==> o.ignition && !o.starter)
    && (o.ignition ==> o.fan && o.pump)
    && (o.ioCheck <==> IoCheck(p, i))
    && (o.outputCheck <==> OutputCheck(p, i))
  }

  // After every computation, whatever came before, the outputs are safe for the inputs.
  lemma SafeAfterSettle(p: Params, i: Inputs, s: State)
    ensures SafeOutputs(p, i, ComputeOutputs(p, i, Settle(p, i, s)))
  {
    hide IoCheck, OutputCheck;
    Convergence(p, i, s);
    AtRestIff(p, i, Settle(p, i, s));
  }
}
