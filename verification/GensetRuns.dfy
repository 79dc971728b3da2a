/** Properties of whole runs of the generator-set controller: a run is the
    initial node together with the inputs of every update, the first element
    being the initial inputs. */
module GensetRuns {
  import opened Genset

  function Initial(node: Node, inputs: Inputs): State {
    State(node, inputs.time)
  }

  // The state left by update k.
  function Rest(p: Params, node: Node, run: seq<Inputs>, k: nat): State
    requires k < |run|
  {
    Settle(p, run[k], Before(p, node, run, k))
  }

  // The state update k starts from.
  function Before(p: Params, node: Node, run: seq<Inputs>, k: nat): State
    requires k < |run|
    decreases k, 0
  {
    if k == 0 then Initial(node, run[0]) else Settle(p, run[k - 1], Before(p, node, run, k - 1))
  }

  lemma RestIsAtRest(p: Params, node: Node, run: seq<Inputs>, k: nat)
    requires k < |run|
    ensures AtRest(p, run[k], Rest(p, node, run, k))
    ensures HoldsStill(p, run[k], Rest(p, node, run, k))
  {
    hide IoCheck, OutputCheck;
    Convergence(p, run[k], Before(p, node, run, k));
    AtRestIff(p, run[k], Rest(p, node, run, k));
  }

  lemma RestDependsOnPrefix(p: Params, node: Node, run: seq<Inputs>, more: seq<Inputs>, k: nat)
    requires k < |run|
    ensures Before(p, node, run + more, k) == Before(p, node, run, k)
    ensures Rest(p, node, run + more, k) == Rest(p, node, run, k)
  {
    hide IoCheck, OutputCheck;
    if k > 0 {
      RestDependsOnPrefix(p, node, run, more, k - 1);
    }
  }

  // ---- every entered node, with the inputs it was entered under ----

  datatype Entry = Entry(node: Node, inputs: Inputs) {
    function AsState(): State { State(node, inputs.time) }
  }

  function Entries(visited: seq<State>, i: Inputs): (es: seq<Entry>)
    ensures |es| == |visited|
    ensures forall k :: 0 <= k < |es| ==> es[k] == Entry(visited[k].node, i)
  {
    seq(|visited|, k requires 0 <= k < |visited| => Entry(visited[k].node, i))
  }

  // All nodes entered up to and including update k, the initial node first.
  function History(p: Params, node: Node, run: seq<Inputs>, k: nat): seq<Entry>
    requires k < |run|
  {
    var earlier := if k == 0 then [Entry(node, run[0])] else History(p, node, run, k - 1);
    earlier + Entries(Visited(p, run[k], Before(p, node, run, k), MAX_ITERATIONS), run[k])
  }

  // Consecutive entries are transitions of the machine that change the node.
  ghost predicate IsChain(p: Params, h: seq<Entry>) {
    forall k :: 0 < k < |h| ==> Follows(p, h[k - 1], h[k])
  }

  predicate Follows(p: Params, a: Entry, b: Entry) {
    b.node != a.node && b.node == ComputeStateNode(p, b.inputs, a.AsState())
  }

  lemma {:induction false} ExtendChain(p: Params, h: seq<Entry>, i: Inputs, s: State, n: nat)
    requires IsChain(p, h) && h != [] && h[|h| - 1].AsState() == s
    ensures var h' := h + Entries(Visited(p, i, s, n), i);
      IsChain(p, h') && h'[|h'| - 1].AsState() == LastOr(s, Visited(p, i, s, n))
    decreases n
  {
    hide IoCheck, OutputCheck, ComputeStateNode;
    var t := ComputeState(p, i, s);
    if n == 0 || t == s {
      assert h + Entries([], i) == h;
    } else {
      var rest := Visited(p, i, t, n - 1);
      var e := Entry(t.node, i);
      assert Follows(p, h[|h| - 1], e);
      ExtendChain(p, h + [e], i, t, n - 1);
      assert Entries([t] + rest, i) == [e] + Entries(rest, i);
      assert h + Entries([t] + rest, i) == h + [e] + Entries(rest, i);
    }
  }

  lemma {:induction false} HistoryIsChain(p: Params, node: Node, run: seq<Inputs>, k: nat)
    requires k < |run|
    ensures var h := History(p, node, run, k);
      && h != [] && h[0] == Entry(node, run[0])
      && IsChain(p, h)
      && h[|h| - 1].AsState() == Rest(p, node, run, k)
  {
    hide IoCheck, OutputCheck;
    if k > 0 {
      HistoryIsChain(p, node, run, k - 1);
    }
    var earlier := if k == 0 then [Entry(node, run[0])] else History(p, node, run, k - 1);
    ExtendChain(p, earlier, run[k], Before(p, node, run, k), MAX_ITERATIONS);
  }

  // ---- start-up order ----

  predicate NonRunning(n: Node) {
    n == Error || n == Reset || n == Off || n == Ready || n == EnclosureCoolDown
  }

  // Since the last non-running entry j the machine went through priming,
  // cranking and warm-up in that order and with the required dwell times, and
  // has only alternated between producing and engine cool-down since.
  ghost predicate StartedUp(p: Params, h: seq<Entry>, j: nat, k: nat) {
    && j + 4 <= k < |h|
    && (h[j].node == Ready || h[j].node == EnclosureCoolDown)
    && h[j + 1].node == Priming && h[j + 2].node == Cranking
    && h[j + 3].node == WarmUp && h[j + 4].node == Producing
    && h[j + 2].inputs.time - h[j + 1].inputs.time >= p.primingTimeout
    && h[j + 3].inputs.time - h[j + 2].inputs.time < p.crankingTimeout
    && h[j + 4].inputs.time - h[j + 3].inputs.time >= p.warmUpMinTime
    && (|| h[j + 4].inputs.time - h[j + 3].inputs.time >= p.warmUpTimeout
        || h[j + 4].inputs.engineTemp >= p.warmUpTemp)
    && (forall m :: j + 1 <= m <= k ==> IoCheck(p, h[m].inputs) && !h[m].inputs.resetSwitch)
    && (forall m :: j + 3 <= m <= k ==> OutputCheck(p, h[m].inputs))
    && (forall m :: j + 1 <= m <= j + 4 ==> h[m].inputs.Master())
    && (forall m :: j + 4 <= m <= k ==>
          if (m - j) % 2 == 0 then h[m].node == Producing && h[m].inputs.Master()
          else h[m].node == EngineCoolDown && !h[m].inputs.Master())
  }

  lemma FirstPower(p: Params, h: seq<Entry>, k: nat)
    requires IsChain(p, h) && k < |h| && NonRunning(h[0].node)
    requires k > 0 && h[k].node == Producing && h[k - 1].node == WarmUp
    ensures k >= 4 && StartedUp(p, h, k - 4, k)
  {
    hide IoCheck, OutputCheck;
    assert Follows(p, h[k - 1], h[k]);
    assert Follows(p, h[k - 2], h[k - 1]);
    assert Follows(p, h[k - 3], h[k - 2]);
    assert Follows(p, h[k - 4], h[k - 3]);
  }

  lemma KeepProducing(p: Params, h: seq<Entry>, j: nat, k: nat)
    requires k + 1 < |h| && StartedUp(p, h, j, k) && Follows(p, h[k], h[k + 1])
    requires h[k + 1].node == Producing || h[k + 1].node == EngineCoolDown
    ensures StartedUp(p, h, j, k + 1)
  {
    hide IoCheck, OutputCheck;
    assert h[k].node == Producing || h[k].node == EngineCoolDown;
    assert IoCheck(p, h[k + 1].inputs) && OutputCheck(p, h[k + 1].inputs);
  }

  lemma BeforeProducing(p: Params, a: Entry, b: Entry)
    requires Follows(p, a, b)
    ensures b.node == Producing ==> a.node == WarmUp || a.node == EngineCoolDown
    ensures b.node == EngineCoolDown ==> a.node == Producing
  {
    hide IoCheck, OutputCheck;
  }

  lemma {:induction false} StartUpOrder(p: Params, h: seq<Entry>, k: nat) returns (j: nat)
    requires IsChain(p, h) && k < |h| && NonRunning(h[0].node)
    requires h[k].node == Producing || h[k].node == EngineCoolDown
    ensures StartedUp(p, h, j, k)
  {
    hide IoCheck, OutputCheck;
    assert Follows(p, h[k - 1], h[k]);
    BeforeProducing(p, h[k - 1], h[k]);
    if h[k - 1].node == WarmUp {
      FirstPower(p, h, k);
      j := k - 4;
    } else {
      j := StartUpOrder(p, h, k - 1);
      KeepProducing(p, h, j, k - 1);
    }
  }

  // Whenever load is on after an update, the whole start-up sequence is in the
  // history and has not been left since.
  lemma LoadOnlyAfterStartUp(p: Params, node: Node, run: seq<Inputs>, k: nat) returns (j: nat)
    requires k < |run| && NonRunning(node)
    requires ComputeOutputs(p, run[k], Rest(p, node, run, k)).load
    ensures var h := History(p, node, run, k); h != [] && StartedUp(p, h, j, |h| - 1)
  {
    hide IoCheck, OutputCheck;
    HistoryIsChain(p, node, run, k);
    j := StartUpOrder(p, History(p, node, run, k), |History(p, node, run, k)| - 1);
  }

  // ---- cool-down order ----

  // The engine cool-down at e was entered from producing and completed: it took
  // its minimum time and either timed out or cooled the engine, and the
  // enclosure cool-down followed.
  ghost predicate EngineCooledAt(p: Params, h: seq<Entry>, e: nat) {
    && 0 < e && e + 1 < |h|
    && h[e - 1].node == Producing && h[e].node == EngineCoolDown && h[e + 1].node == EnclosureCoolDown
    && h[e + 1].inputs.time - h[e].inputs.time >= p.engineCoolDownMinTime
    && (|| h[e + 1].inputs.time - h[e].inputs.time >= p.engineCoolDownTimeout
        || h[e + 1].inputs.engineTemp <= p.engineCoolDownTemp)
  }

  // Unless there is a fault or a reset, a set that has produced is neither ready
  // nor starting again before an engine cool-down has been completed.
  lemma {:induction false} CoolDownOrder(p: Params, h: seq<Entry>, m: nat, k: nat)
    requires IsChain(p, h) && m <= k < |h| && h[m].node == Producing
    requires forall j :: m <= j <= k ==> h[j].node != Error && h[j].node != Reset
    ensures h[k].node == Producing || h[k].node == EngineCoolDown || exists e :: m < e < k && EngineCooledAt(p, h, e)
  {
    hide IoCheck, OutputCheck, EngineCooledAt;
    if k > m {
      CoolDownOrder(p, h, m, k - 1);
      if h[k - 1].node == Producing {
        assert Follows(p, h[k - 1], h[k]);
      } else if h[k - 1].node == EngineCoolDown {
        CoolDownCompletes(p, h, k - 1);
      }
    }
  }

  lemma CoolDownCompletes(p: Params, h: seq<Entry>, e: nat)
    requires IsChain(p, h) && e + 1 < |h| && h[e].node == EngineCoolDown
    requires 0 < e && h[e + 1].node != Error && h[e + 1].node != Reset
    ensures h[e + 1].node == Producing || EngineCooledAt(p, h, e)
  {
    hide IoCheck, OutputCheck;
    assert Follows(p, h[e - 1], h[e]) && Follows(p, h[e], h[e + 1]);
  }

  // ---- fault latch ----

  // Among the updates from here up to before b, one with the reset switch on and
  // a later one with the reset switch off and the master switch off.
  ghost predicate Released(run: seq<Inputs>, start: nat, b: nat) {
    exists r, q :: start <= r < q < b && b <= |run| && run[r].resetSwitch && !run[q].resetSwitch && !run[q].Master()
  }

  predicate Quiet(n: Node) {
    n == Error || n == Reset || n == Off || n == Ready
  }

  lemma FromReset(p: Params, i: Inputs, s: State)
    ensures s.node == Error ==>
      Settle(p, i, s).node == if i.resetSwitch then Reset else Error
    ensures s.node == Reset && (i.resetSwitch || i.Master()) ==> Settle(p, i, s).node == Reset
    ensures Quiet(s.node) && (i.resetSwitch || !i.Master()) ==> Quiet(Settle(p, i, s).node)
  {
    hide IoCheck, OutputCheck;
    if Quiet(s.node) && (i.resetSwitch || !i.Master()) {
      QuietStaysQuiet(p, i, s, MAX_ITERATIONS);
    }
    var t := ComputeState(p, i, s);
    if s.node == Error && i.resetSwitch {
      assert ComputeState(p, i, t) == t;
      assert Visited(p, i, s, MAX_ITERATIONS) == [t];
    }
  }

  lemma {:induction false} QuietStaysQuiet(p: Params, i: Inputs, s: State, n: nat)
    requires Quiet(s.node) && (i.resetSwitch || !i.Master())
    ensures Quiet(LastOr(s, Visited(p, i, s, n)).node)
    decreases n
  {
    hide IoCheck, OutputCheck;
    var t := ComputeState(p, i, s);
    if n > 0 && t != s {
      QuietStaysQuiet(p, i, t, n - 1);
    }
  }

  lemma VisitingErrorEndsThere(p: Params, i: Inputs, s: State, n: nat)
    requires exists e :: e in Visited(p, i, s, n) && e.node == Error
    ensures LastOr(s, Visited(p, i, s, n)).node == Error
    decreases n
  {
    hide IoCheck, OutputCheck;
    var t := ComputeState(p, i, s);
    if t.node == Error {
      assert !i.resetSwitch;
      assert ComputeState(p, i, t) == t;
    } else {
      VisitingErrorEndsThere(p, i, t, n - 1);
    }
  }

  lemma {:induction false} LatchInvariant(p: Params, node: Node, run: seq<Inputs>, start: nat, k: nat)
    requires start <= k < |run| && Before(p, node, run, start).node == Error
    ensures var n := Rest(p, node, run, k).node;
      || n == Error
      || (n == Reset && exists r :: start <= r <= k && run[r].resetSwitch)
      || Released(run, start, k)
      || (Quiet(n) && Released(run, start, k + 1))
  {
    hide IoCheck, OutputCheck;
    if k > start {
      LatchInvariant(p, node, run, start, k - 1);
      FromReset(p, run[k], Rest(p, node, run, k - 1));
    } else {
      FromReset(p, run[k], Before(p, node, run, k));
    }
  }

  // In Error before update k: from the start of the run, or visited by the update before.
  ghost predicate Failed(p: Params, node: Node, run: seq<Inputs>, k: nat)
    requires k < |run|
  {
    if k == 0 then node == Error
    else exists e :: e in Visited(p, run[k - 1], Before(p, node, run, k - 1), MAX_ITERATIONS) && e.node == Error
  }

  // Once the machine has failed, no actuator is on again before an update with
  // the reset switch on and, after it, one with the reset switch off and the
  // master switch off; both lie strictly before the actuator comes on.
  lemma FaultLatch(p: Params, node: Node, run: seq<Inputs>, start: nat, b: nat)
    requires start <= b < |run| && Failed(p, node, run, start)
    requires ComputeOutputs(p, run[b], Rest(p, node, run, b)).ActuatorOn()
    ensures Released(run, start, b)
  {
    hide IoCheck, OutputCheck;
    if start > 0 {
      VisitingErrorEndsThere(p, run[start - 1], Before(p, node, run, start - 1), MAX_ITERATIONS);
    }
    LatchInvariant(p, node, run, start, b);
  }

  // ---- bounded shutdown ----

  // What the configuration checks of the cool-down durations.
  predicate CoolDownValid(p: Params) {
    && p.engineCoolDownMinTime <= p.engineCoolDownTimeout
    && p.enclosureCoolDownMinTime <= p.enclosureCoolDownTimeout
  }

  // A duration that is not positive is over at once.
  function Lasting(d: int): nat { if d > 0 then d else 0 }

  function CoolDowns(p: Params): nat { Lasting(p.engineCoolDownTimeout) + Lasting(p.enclosureCoolDownTimeout) }

  // How much longer than the cool-downs a shutdown can take, counted from the
  // first update that sees the switch off: the end of the engine cool-down can be
  // noticed up to one instant less than a gap too late.
  function UpdateSlack(engine: int, enclosure: int, gap: int): int {
    if engine > 0 && enclosure > 0 then Lasting(gap - 1) else 0
  }

  // Counted from an arbitrary instant, the switch-off too can be noticed late.
  function InstantSlack(engine: int, enclosure: int, gap: int): int {
    if engine > 0 && enclosure > 0 then 2 * Lasting(gap - 1)
    else if engine > 0 || enclosure > 0 then Lasting(gap - 1)
    else 0
  }

  ghost predicate Timed(run: seq<Inputs>, gap: int) {
    forall k :: 0 < k < |run| ==> run[k - 1].time <= run[k].time <= run[k - 1].time + gap
  }

  ghost predicate MasterOffFrom(run: seq<Inputs>, k: nat) {
    forall m :: k <= m < |run| ==> !run[m].Master()
  }

  // One settling never moves the change instant past the update's own time, and
  // a change of node puts it there.
  lemma {:induction false} ChangedByVisiting(p: Params, i: Inputs, s: State, n: nat)
    ensures var t := LastOr(s, Visited(p, i, s, n)); t == s || t.changed == i.time
    ensures Visited(p, i, s, n) != [] ==> LastOr(s, Visited(p, i, s, n)).changed == i.time
    decreases n
  {
    hide IoCheck, OutputCheck;
    var t := ComputeState(p, i, s);
    if n > 0 && t != s {
      ChangedByVisiting(p, i, t, n - 1);
    }
  }

  lemma {:induction false} ChangedInThePast(p: Params, node: Node, run: seq<Inputs>, gap: int, k: nat)
    requires k < |run| && Timed(run, gap)
    ensures Before(p, node, run, k).changed <= run[k].time
    ensures Rest(p, node, run, k).changed <= run[k].time
  {
    hide IoCheck, OutputCheck;
    if k > 0 {
      ChangedInThePast(p, node, run, gap, k - 1);
    }
    ChangedByVisiting(p, run[k], Before(p, node, run, k), MAX_ITERATIONS);
  }

  // Under a master switch that is off, engine cool-down is entered only from producing.
  lemma {:induction false} NoNewEngineCoolDown(p: Params, i: Inputs, s: State, n: nat)
    requires !i.Master() && s.node != Producing
    ensures var t := LastOr(s, Visited(p, i, s, n)); t.node == EngineCoolDown ==> t == s
    decreases n
  {
    hide IoCheck, OutputCheck;
    var t := ComputeState(p, i, s);
    if n > 0 && t != s {
      NoNewEngineCoolDown(p, i, t, n - 1);
    }
  }

  // How long after the first update that sees the switch off the enclosure
  // cool-down can begin.
  function EngineDelay(p: Params, gap: int): int {
    if p.engineCoolDownTimeout > 0 && gap > 0 then p.engineCoolDownTimeout + gap - 1
      else Lasting(p.engineCoolDownTimeout)
  }

  // Quiet, or in a cool-down that began in time; start is when the switch-off was first seen.
  predicate ShuttingDown(p: Params, gap: int, start: int, s: State) {
    || Quiet(s.node)
    || (s.node == EngineCoolDown && s.changed <= start)
    || (s.node == EnclosureCoolDown && s.changed <= start + EngineDelay(p, gap))
  }

  lemma {:induction false} ShutdownInvariant(p: Params, node: Node, run: seq<Inputs>, gap: int, k: nat, m: nat)
    requires k <= m < |run| && Timed(run, gap) && MasterOffFrom(run, k) && CoolDownValid(p)
    ensures ShuttingDown(p, gap, run[k].time, Rest(p, node, run, m))
  {
    hide Settle, HoldsStill, AtRest, ShuttingDown, CoolDownValid;
    if m == k {
      RestIsAtRest(p, node, run, k);
      ChangedInThePast(p, node, run, gap, k);
      ShutdownBegins(p, run[k], Rest(p, node, run, k), gap);
    } else {
      ShutdownInvariant(p, node, run, gap, k, m - 1);
      RestIsAtRest(p, node, run, m - 1);
      ChangedInThePast(p, node, run, gap, m - 1);
      ShutdownContinues(p, run[k].time, run[m - 1], Rest(p, node, run, m - 1), run[m], gap);
    }
  }

  lemma GapNotNegative(run: seq<Inputs>, gap: int)
    requires Timed(run, gap)
    ensures |run| <= 1 || gap >= 0
  {
    if |run| > 1 {
      assert run[1 - 1].time <= run[1].time <= run[1 - 1].time + gap;
    }
  }

  lemma ShutdownBegins(p: Params, i: Inputs, s: State, gap: int)
    requires !i.Master() && HoldsStill(p, i, s) && s.changed <= i.time
    ensures ShuttingDown(p, gap, i.time, s)
  {
    hide IoCheck, OutputCheck;
  }

  lemma ShutdownContinues(p: Params, start: int, before: Inputs, s: State, i: Inputs, gap: int)
    requires CoolDownValid(p) && !i.Master() && !before.Master()
    requires before.time <= i.time <= before.time + gap
    requires HoldsStill(p, before, s) && s.changed <= before.time
    requires ShuttingDown(p, gap, start, s)
    ensures ShuttingDown(p, gap, start, Settle(p, i, s))
  {
    hide IoCheck, OutputCheck, Visited;
    Convergence(p, i, s);
    AtRestIff(p, i, Settle(p, i, s));
    NoNewEngineCoolDown(p, i, s, MAX_ITERATIONS);
    ChangedByVisiting(p, i, s, MAX_ITERATIONS);
    if s.node != EngineCoolDown {
      NoNewEnclosureCoolDown(p, i, s, MAX_ITERATIONS);
    }
  }

  // Under a master switch that is off, enclosure cool-down is not entered from itself or a quiet node.
  lemma {:induction false} NoNewEnclosureCoolDown(p: Params, i: Inputs, s: State, n: nat)
    requires !i.Master() && (s.node == EnclosureCoolDown || Quiet(s.node))
    ensures var t := LastOr(s, Visited(p, i, s, n)); t == s || Quiet(t.node)
    decreases n
  {
    hide IoCheck, OutputCheck;
    var t := ComputeState(p, i, s);
    if n > 0 && t != s {
      NoNewEnclosureCoolDown(p, i, t, n - 1);
    }
  }

  // If the master switch is off from update k on, then after every update that
  // lies both cool-downs and the slack later, everything is off.
  lemma BoundedShutdown(p: Params, node: Node, run: seq<Inputs>, gap: int, k: nat, m: nat)
    requires k <= m < |run| && Timed(run, gap) && MasterOffFrom(run, k) && CoolDownValid(p)
    requires run[m].time >= run[k].time + CoolDowns(p)
      + UpdateSlack(p.engineCoolDownTimeout, p.enclosureCoolDownTimeout, gap)
    ensures Quiet(Rest(p, node, run, m).node)
    ensures !ComputeOutputs(p, run[m], Rest(p, node, run, m)).ActuatorOn()
  {
    hide IoCheck, OutputCheck;
    ShutdownInvariant(p, node, run, gap, k, m);
    RestIsAtRest(p, node, run, m);
    ChangedInThePast(p, node, run, gap, m);
    hide Settle, Rest;
  }

  // The same counted from an arbitrary instant t1.
  lemma BoundedShutdownFromInstant(p: Params, node: Node, run: seq<Inputs>, gap: int, t1: int, m: nat)
    requires m < |run| && Timed(run, gap) && CoolDownValid(p)
    requires run[0].time <= t1 && MasterOffSince(run, t1)
    requires run[m].time >= t1 + CoolDowns(p) + InstantSlack(p.engineCoolDownTimeout, p.enclosureCoolDownTimeout, gap)
    ensures Quiet(Rest(p, node, run, m).node)
    ensures !ComputeOutputs(p, run[m], Rest(p, node, run, m)).ActuatorOn()
  {
    hide IoCheck, OutputCheck;
    var k := 0;
    while run[k].time < t1
      invariant 0 <= k <= m
      invariant k == 0 || run[k].time <= t1 - 1 + gap
      invariant forall j :: 0 <= j < k ==> run[j].time < t1
      decreases m - k
    {
      k := k + 1;
    }
    TimesOrdered(run, gap, k);
    GapNotNegative(run, gap);
    BoundedShutdown(p, node, run, gap, k, m);
  }

  ghost predicate MasterOffSince(run: seq<Inputs>, t1: int) {
    forall k :: 0 <= k < |run| && run[k].time >= t1 ==> !run[k].Master()
  }

  lemma {:induction false} TimesOrdered(run: seq<Inputs>, gap: int, k: nat)
    requires Timed(run, gap)
    ensures forall m :: k <= m < |run| ==> run[k].time <= run[m].time
  {
    hide IoCheck, OutputCheck;
    forall m | k <= m < |run|
      ensures run[k].time <= run[m].time
    {
      var j := k;
      while j < m
        invariant k <= j <= m
        invariant run[k].time <= run[j].time
      {
        j := j + 1;
      }
    }
  }

  lemma StaysAfterOne(p: Params, i: Inputs, s: State)
    requires AtRest(p, i, ComputeState(p, i, s))
    ensures Settle(p, i, s) == ComputeState(p, i, s)
  {
    hide IoCheck, OutputCheck;
    assert Visited(p, i, ComputeState(p, i, s), MAX_ITERATIONS - 1) == [];
  }

  // One update during a healthy shutdown whose cool-downs end by their timeouts only.
  lemma ShutdownStep(p: Params, i: Inputs, s: State)
    requires IoCheck(p, i) && OutputCheck(p, i) && !i.resetSwitch && !i.Master()
    requires p.engineCoolDownTimeout == p.engineCoolDownMinTime
    requires p.enclosureCoolDownTimeout == p.enclosureCoolDownMinTime
    requires p.engineCoolDownTimeout > 0 || p.enclosureCoolDownTimeout > 0
    ensures s.node == Producing && p.engineCoolDownTimeout > 0 ==> Settle(p, i, s) == State(EngineCoolDown, i.time)
    ensures s.node == Producing && p.engineCoolDownTimeout <= 0 ==> Settle(p, i, s) == State(EnclosureCoolDown, i.time)
    ensures s.node == EngineCoolDown && i.time - s.changed < p.engineCoolDownTimeout ==> Settle(p, i, s) == s
    ensures (&& s.node == EngineCoolDown && i.time - s.changed >= p.engineCoolDownTimeout
             && p.enclosureCoolDownTimeout > 0) ==>
      Settle(p, i, s) == State(EnclosureCoolDown, i.time)
    ensures s.node == EnclosureCoolDown && i.time - s.changed < p.enclosureCoolDownTimeout ==> Settle(p, i, s) == s
  {
    hide IoCheck, OutputCheck, Visited, Settle;
    var t := ComputeState(p, i, s);
    if AtRest(p, i, t) {
      StaysAfterOne(p, i, s);
    } else if AtRest(p, i, ComputeState(p, i, t)) {
      StaysAfterTwo(p, i, s);
    }
  }

  lemma StaysAfterTwo(p: Params, i: Inputs, s: State)
    requires var t := ComputeState(p, i, s); t != s && AtRest(p, i, ComputeState(p, i, t))
    ensures Settle(p, i, s) == ComputeState(p, i, ComputeState(p, i, s))
  {
    hide IoCheck, OutputCheck, ComputeStateNode;
    var t := ComputeState(p, i, s);
    VisitedUnfolds(p, i, s, MAX_ITERATIONS);
    VisitedUnfolds(p, i, t, MAX_ITERATIONS - 1);
    VisitedUnfolds(p, i, ComputeState(p, i, t), MAX_ITERATIONS - 2);
  }

  // One gap is not enough when counting from an arbitrary instant t1: with both
  // cool-downs at 10 and gaps of 7, updates at 6, 13, 20 and 27 leave the fan on
  // at 27 = t1 + 10 + 10 + 7 for t1 = 0.
  lemma OneGapAfterInstantIsTooShort() returns (p: Params, run: seq<Inputs>, t1: int)
    ensures Timed(run, 7) && CoolDownValid(p) && |run| == 5 && run[0].time <= t1
    ensures forall k :: 0 <= k < |run| && run[k].time >= t1 ==> !run[k].Master()
    ensures run[4].time >= t1 + p.engineCoolDownTimeout + p.enclosureCoolDownTimeout + 7
    ensures ComputeOutputs(p, run[4], Rest(p, Producing, run, 4)).fan
  {
    hide Settle, ComputeState;
    p := Params(0, 1, 0, 0, 0.0, 10, 10, 0.0, 10, 10, 0.0, 0.0, 0.0, 0.0, 0.0, 0.0, 0.0, true, 0.0, 0.0, 0.0, 0.0,
      0.0, 0.0);
    t1 := 0;
    var on := Inputs(-1, true, true, false, true, false, 0.0, 0.0, 0.0, true, 0.0, 0.0, 0.0, 0.0, 0.0, 0.0, 0.0);
    var off := on.(commandSwitch := false);
    run := [on, off.(time := 6), off.(time := 13), off.(time := 20), off.(time := 27)];
    ProducingStays(p, on, State(Producing, -1));
    ShutdownStep(p, run[1], State(Producing, -1));
    ShutdownStep(p, run[2], State(EngineCoolDown, 6));
    ShutdownStep(p, run[3], State(EngineCoolDown, 6));
    ShutdownStep(p, run[4], State(EnclosureCoolDown, 20));
    assert Rest(p, Producing, run, 0) == State(Producing, -1);
    assert Rest(p, Producing, run, 1) == State(EngineCoolDown, 6);
    assert Rest(p, Producing, run, 2) == State(EngineCoolDown, 6);
    assert Rest(p, Producing, run, 3) == State(EnclosureCoolDown, 20);
    assert Rest(p, Producing, run, 4) == State(EnclosureCoolDown, 20);
  }

  lemma ProducingStays(p: Params, i: Inputs, s: State)
    requires IoCheck(p, i) && OutputCheck(p, i) && !i.resetSwitch && i.Master() && s.node == Producing
    ensures Settle(p, i, s) == s
  {
    hide IoCheck, OutputCheck;
    StaysAfterOne(p, i, s);
  }
}
