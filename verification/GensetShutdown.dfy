/** Exactly how long a shutdown of the generator set can take. */
module GensetShutdown {
  import opened Genset
  import opened GensetRuns

  ghost predicate Durations(p: Params, engine: int, enclosure: int) {
    p.engineCoolDownTimeout == engine && p.enclosureCoolDownTimeout == enclosure && CoolDownValid(p)
  }

  predicate OffAt(p: Params, node: Node, run: seq<Inputs>, m: nat)
    requires m < |run|
  {
    !ComputeOutputs(p, run[m], Rest(p, node, run, m)).ActuatorOn()
  }

  // The master switch is off from the instant t1 on, which lies within the run.
  ghost predicate OffFromInstant(run: seq<Inputs>, gap: int, t1: int, m: nat) {
    m < |run| && Timed(run, gap) && run[0].time <= t1 && MasterOffSince(run, t1)
  }

  // The master switch is off from update k on.
  ghost predicate OffFromUpdate(run: seq<Inputs>, gap: int, k: nat, m: nat) {
    k <= m < |run| && Timed(run, gap) && MasterOffFrom(run, k)
  }

  // For all parameters with these durations, all nodes and all runs: everything
  // is off both cool-downs and the slack after the instant.
  ghost predicate InstantBound(engine: int, enclosure: int, gap: int, slack: int) {
    forall p: Params, node: Node, run: seq<Inputs>, t1: int, m: nat ::
      Durations(p, engine, enclosure) && OffFromInstant(run, gap, t1, m)
      && run[m].time >= t1 + Lasting(engine) + Lasting(enclosure) + slack
      ==> OffAt(p, node, run, m)
  }

  ghost predicate UpdateBound(engine: int, enclosure: int, gap: int, slack: int) {
    forall p: Params, node: Node, run: seq<Inputs>, k: nat, m: nat ::
      Durations(p, engine, enclosure) && OffFromUpdate(run, gap, k, m)
      && run[m].time >= run[k].time + Lasting(engine) + Lasting(enclosure) + slack
      ==> OffAt(p, node, run, m)
  }

  // With both cool-downs lasting, two gaps less two are needed and enough.
  lemma InstantBoundIff(engine: int, enclosure: int, gap: int, slack: int)
    requires gap >= 1
    ensures InstantBound(engine, enclosure, gap, slack) <==> slack >= InstantSlack(engine, enclosure, gap)
  {
    hide OffAt;
    if slack >= InstantSlack(engine, enclosure, gap) {
      forall p: Params, node: Node, run: seq<Inputs>, t1: int, m: nat |
        Durations(p, engine, enclosure) && OffFromInstant(run, gap, t1, m)
        && run[m].time >= t1 + Lasting(engine) + Lasting(enclosure) + slack
        ensures OffAt(p, node, run, m)
      {
        InstantIsEnough(p, node, run, gap, t1, m);
      }
    } else {
      var p, run, m := WorstParams(engine, enclosure), WorstRun(engine, enclosure, gap),
        Lasting(engine) + Lasting(enclosure);
      WorstIsAdmissible(engine, enclosure, gap);
      WorstIsOn(engine, enclosure, gap);
      assert Durations(p, engine, enclosure) && OffFromInstant(run, gap, 0, m) && !OffAt(p, Producing, run, m);
      assert run[m].time >= 0 + Lasting(engine) + Lasting(enclosure) + slack;
    }
  }

  // Counted from the first update that sees the switch off, one gap less one.
  lemma UpdateBoundIff(engine: int, enclosure: int, gap: int, slack: int)
    requires gap >= 1
    ensures UpdateBound(engine, enclosure, gap, slack)
      <==> slack >= UpdateSlack(engine, enclosure, gap) || (engine <= 0 && enclosure <= 0)
  {
    hide OffAt;
    if slack >= UpdateSlack(engine, enclosure, gap) || (engine <= 0 && enclosure <= 0) {
      forall p: Params, node: Node, run: seq<Inputs>, k: nat, m: nat |
        Durations(p, engine, enclosure) && OffFromUpdate(run, gap, k, m)
        && run[m].time >= run[k].time + Lasting(engine) + Lasting(enclosure) + slack
        ensures OffAt(p, node, run, m)
      {
        TimesOrdered(run, gap, k);
        UpdateIsEnough(p, node, run, gap, k, m);
      }
    } else {
      var p, run, m := WorstParams(engine, enclosure), WorstRun(engine, enclosure, gap),
        Lasting(engine) + Lasting(enclosure);
      WorstIsAdmissible(engine, enclosure, gap);
      WorstIsOn(engine, enclosure, gap);
      assert Durations(p, engine, enclosure) && OffFromUpdate(run, gap, 1, m) && !OffAt(p, Producing, run, m);
      assert run[m].time >= run[1].time + Lasting(engine) + Lasting(enclosure) + slack;
    }
  }

  lemma InstantIsEnough(p: Params, node: Node, run: seq<Inputs>, gap: int, t1: int, m: nat)
    requires CoolDownValid(p) && OffFromInstant(run, gap, t1, m)
    requires run[m].time >= t1 + CoolDowns(p) + InstantSlack(p.engineCoolDownTimeout, p.enclosureCoolDownTimeout, gap)
    ensures OffAt(p, node, run, m)
  {
    BoundedShutdownFromInstant(p, node, run, gap, t1, m);
  }

  lemma UpdateIsEnough(p: Params, node: Node, run: seq<Inputs>, gap: int, k: nat, m: nat)
    requires CoolDownValid(p) && OffFromUpdate(run, gap, k, m)
    requires run[m].time >= run[k].time + CoolDowns(p)
      + UpdateSlack(p.engineCoolDownTimeout, p.enclosureCoolDownTimeout, gap)
    ensures OffAt(p, node, run, m)
  {
    BoundedShutdown(p, node, run, gap, k, m);
  }

  // ---- the worst run ----

  // Every check passes and both cool-downs end by their timeouts only.
  function WorstParams(engine: int, enclosure: int): Params {
    Params(
      0, 1, 0, 0, 0.0, engine, engine, 0.0, enclosure, enclosure, 0.0,
      0.0, 0.0, 0.0, 0.0, 0.0, 0.0, true, 0.0, 0.0, 0.0, 0.0, 0.0, 0.0)
  }

  // An update one instant before the switch-off and the next a gap later, then
  // one at every instant up to the last of the engine cool-down, the next a gap
  // later again, and then one at every instant of the enclosure cool-down.
  function WorstTime(engine: int, gap: int, j: nat): int {
    if j == 0 then -1
    else if j <= Lasting(engine) || engine <= 0 then gap + j - 2
    else 2 * gap + j - 3
  }

  function WorstInputs(engine: int, gap: int, j: nat): Inputs {
    Inputs(
      WorstTime(engine, gap, j), j == 0, j == 0, false, true, false, 0.0, 0.0, 0.0,
      true, 0.0, 0.0, 0.0, 0.0, 0.0, 0.0, 0.0)
  }

  function WorstRun(engine: int, enclosure: int, gap: int): (run: seq<Inputs>)
    ensures |run| == Lasting(engine) + Lasting(enclosure) + 1
    ensures forall j :: 0 <= j < |run| ==> run[j] == WorstInputs(engine, gap, j)
  {
    seq(Lasting(engine) + Lasting(enclosure) + 1, (j: nat) => WorstInputs(engine, gap, j))
  }

  function WorstState(engine: int, gap: int, j: nat): State {
    if j == 0 then State(Producing, -1)
    else if j <= Lasting(engine) then State(EngineCoolDown, gap - 1)
    else State(EnclosureCoolDown, if engine <= 0 then gap - 1 else 2 * gap + engine - 2)
  }

  lemma WorstIsTimed(engine: int, enclosure: int, gap: int)
    requires gap >= 1
    ensures Timed(WorstRun(engine, enclosure, gap), gap)
  {
    var run := WorstRun(engine, enclosure, gap);
    forall k | 0 < k < |run|
      ensures run[k - 1].time <= run[k].time <= run[k - 1].time + gap
    {
      assert run[k] == WorstInputs(engine, gap, k) && run[k - 1] == WorstInputs(engine, gap, k - 1);
    }
  }

  // It ends one instant before the bound.
  lemma WorstIsAdmissible(engine: int, enclosure: int, gap: int)
    requires gap >= 1
    ensures Durations(WorstParams(engine, enclosure), engine, enclosure)
    ensures var run, m := WorstRun(engine, enclosure, gap), Lasting(engine) + Lasting(enclosure);
      && OffFromInstant(run, gap, 0, m)
      && run[m].time == m + InstantSlack(engine, enclosure, gap) - 1
      && (m > 0 ==>
            && OffFromUpdate(run, gap, 1, m)
            && run[m].time == run[1].time + m + UpdateSlack(engine, enclosure, gap) - 1)
  {
    hide Timed;
    WorstIsTimed(engine, enclosure, gap);
  }

  lemma {:induction false} WorstRest(engine: int, enclosure: int, gap: int, j: nat)
    requires gap >= 1 && j <= Lasting(engine) + Lasting(enclosure)
    ensures Rest(WorstParams(engine, enclosure), Producing, WorstRun(engine, enclosure, gap), j)
      == WorstState(engine, gap, j)
  {
    hide Settle;
    var p, run := WorstParams(engine, enclosure), WorstRun(engine, enclosure, gap);
    if j == 0 {
      ProducingStays(p, run[0], State(Producing, -1));
    } else {
      WorstRest(engine, enclosure, gap, j - 1);
      ShutdownStep(p, run[j], WorstState(engine, gap, j - 1));
    }
  }

  lemma WorstIsOn(engine: int, enclosure: int, gap: int)
    requires gap >= 1
    ensures !OffAt(WorstParams(engine, enclosure), Producing, WorstRun(engine, enclosure, gap),
      Lasting(engine) + Lasting(enclosure))
  {
    hide Rest, WorstRun;
    WorstRest(engine, enclosure, gap, Lasting(engine) + Lasting(enclosure));
  }
}
