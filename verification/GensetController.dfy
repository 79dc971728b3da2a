/** The controller object: it keeps inputs, state and outputs, recomputes them
    after every change of the inputs and reports every new state and output. */
module GensetController {
  import opened Genset
  import opened GensetRuns

  // The controller's fields as a value; the last two are what the update
  // callbacks have been handed so far.
  datatype Snapshot = Snapshot(
    inputs: Inputs,
    state: State,
    outputs: Outputs,
    stateUpdates: seq<State>,
    outputUpdates: seq<Outputs>)

  // One more transition would change nothing, and the outputs are those of the
  // state and safe for the inputs.
  ghost predicate Consistent(p: Params, c: Snapshot) {
    && AtRest(p, c.inputs, c.state)
    && c.outputs == ComputeOutputs(p, c.inputs, c.state)
    && SafeOutputs(p, c.inputs, c.outputs)
  }

  function Recomputed(p: Params, c: Snapshot): Snapshot {
    var s := Settle(p, c.inputs, c.state);
    var o := ComputeOutputs(p, c.inputs, s);
    Snapshot(
      c.inputs, s, o,
      c.stateUpdates + Visited(p, c.inputs, c.state, MAX_ITERATIONS),
      c.outputUpdates + if o == c.outputs then [] else [o])
  }

  // The change applied and everything recomputed, whether the inputs differ or not.
  function Changed(p: Params, c: Snapshot, change: Inputs -> Inputs): Snapshot {
    Recomputed(p, c.(inputs := change(c.inputs)))
  }

  // The main loop: the initial values are reported, computed once, and then the
  // changes are applied in order.
  function Ran(p: Params, c: Snapshot, changes: seq<Inputs -> Inputs>): Snapshot {
    if changes == [] then
      Recomputed(p, c.(stateUpdates := c.stateUpdates + [c.state], outputUpdates := c.outputUpdates + [c.outputs]))
    else
      Changed(p, Ran(p, c, changes[..|changes| - 1]), changes[|changes| - 1])
  }

  lemma RecomputedIsConsistent(p: Params, c: Snapshot)
    ensures Consistent(p, Recomputed(p, c))
  {
    hide IoCheck, OutputCheck, ComputeState;
    Convergence(p, c.inputs, c.state);
    SafeAfterSettle(p, c.inputs, c.state);
  }

  lemma RanIsConsistent(p: Params, c: Snapshot, changes: seq<Inputs -> Inputs>)
    ensures Consistent(p, Ran(p, c, changes))
  {
    hide Consistent, Recomputed;
    if changes == [] {
      RecomputedIsConsistent(p, c.(stateUpdates := c.stateUpdates + [c.state],
        outputUpdates := c.outputUpdates + [c.outputs]));
    } else {
      var earlier := Ran(p, c, changes[..|changes| - 1]);
      RecomputedIsConsistent(p, earlier.(inputs := changes[|changes| - 1](earlier.inputs)));
    }
  }

  // A change that leaves the inputs as they are can be skipped unnoticed: no
  // field would change and no callback would be called.
  lemma SkippingIsUnobservable(p: Params, c: Snapshot, change: Inputs -> Inputs)
    requires Consistent(p, c) && change(c.inputs) == c.inputs
    ensures Changed(p, c, change) == c
  {
    hide IoCheck, OutputCheck, ComputeState, SafeOutputs;
    assert Visited(p, c.inputs, c.state, MAX_ITERATIONS) == [];
  }

  lemma LastOrExtends(s: State, visited: seq<State>, t: State)
    ensures LastOr(s, visited + [t]) == t
  {
  }

  lemma LastOrNone(s: State)
    ensures LastOr(s, []) == s
  {
  }

  class Controller {
    const params: Params
    var inputs: Inputs
    var state: State
    var outputs: Outputs
    var stateUpdates: seq<State>
    var outputUpdates: seq<Outputs>

    function Now(): Snapshot
      reads this
    {
      Snapshot(inputs, state, outputs, stateUpdates, outputUpdates)
    }

    constructor (params: Params, initialNode: Node, initialInputs: Inputs)
      ensures this.params == params
      ensures var s := Initial(initialNode, initialInputs);
        Now() == Snapshot(initialInputs, s, ComputeOutputs(params, initialInputs, s), [], [])
    {
      this.params := params;
      inputs := initialInputs;
      state := State(initialNode, initialInputs.time);
      outputs := ComputeOutputs(params, initialInputs, State(initialNode, initialInputs.time));
      stateUpdates := [];
      outputUpdates := [];
    }

    // Recomputes the state in at most eight iterations and then the outputs.
    method Compute()
      modifies this
      ensures Now() == Recomputed(params, old(Now()))
    {
      hide IoCheck, OutputCheck, ComputeState, ComputeOutputs, Visited, LastOr;
      ghost var start := Now();
      ghost var entered: seq<State> := [];
      LastOrNone(state);
      var i := 0;
      while i < MAX_ITERATIONS
        invariant 0 <= i <= MAX_ITERATIONS
        invariant Now() == start.(state := LastOr(start.state, entered), stateUpdates := start.stateUpdates + entered)
        invariant Visited(params, inputs, start.state, MAX_ITERATIONS)
          == entered + Visited(params, inputs, state, MAX_ITERATIONS - i)
      {
        VisitedUnfolds(params, inputs, state, MAX_ITERATIONS - i);
        var nextState := ComputeState(params, inputs, state);
        if nextState == state {
          break;
        }
        state := nextState;
        stateUpdates := stateUpdates + [state];
        LastOrExtends(start.state, entered, state);
        assert entered + ([state] + Visited(params, inputs, state, MAX_ITERATIONS - i - 1))
            == entered + [state] + Visited(params, inputs, state, MAX_ITERATIONS - i - 1);
        entered := entered + [state];
        i := i + 1;
      }
      VisitedUnfolds(params, inputs, state, MAX_ITERATIONS - i);
      assert entered + [] == entered;
      var nextOutput := ComputeOutputs(params, inputs, state);
      if nextOutput != outputs {
        outputs := nextOutput;
        outputUpdates := outputUpdates + [outputs];
      }
    }

    // One pass of the main loop; a change that leaves the inputs as they are is skipped.
    method ApplyChange(change: Inputs -> Inputs)
      requires Consistent(params, Now())
      modifies this
      ensures Now() == Changed(params, old(Now()), change)
    {
      hide Consistent, Recomputed;
      var nextI := change(inputs);
      if nextI != inputs {
        inputs := nextI;
        Compute();
      } else {
        SkippingIsUnobservable(params, Now(), change);
      }
    }

    method Run(changes: seq<Inputs -> Inputs>)
      modifies this
      ensures Now() == Ran(params, old(Now()), changes)
      ensures Consistent(params, Now())
    {
      hide Consistent, Recomputed, Changed;
      stateUpdates := stateUpdates + [state];
      outputUpdates := outputUpdates + [outputs];

      Compute();

      var k := 0;
      assert changes[..0] == [];
      while k < |changes|
        invariant 0 <= k <= |changes|
        invariant Now() == Ran(params, old(Now()), changes[..k])
      {
        RanIsConsistent(params, old(Now()), changes[..k]);
        ApplyChange(changes[k]);
        assert changes[..k + 1][..k] == changes[..k];
        k := k + 1;
      }
      assert changes[..k] == changes;
      RanIsConsistent(params, old(Now()), changes);
    }
  }

  // ---- the controller's main loop produces the runs ----

  // The inputs of every update when each change is applied to the inputs the
  // previous one left.
  function InputsOf(initial: Inputs, changes: seq<Inputs -> Inputs>): (run: seq<Inputs>)
    ensures |run| == |changes| + 1
    ensures run[0] == initial
    ensures forall k :: 0 <= k < |changes| ==> run[k + 1] == changes[k](run[k])
  {
    if changes == [] then [initial]
    else
      var earlier := InputsOf(initial, changes[..|changes| - 1]);
      earlier + [changes[|changes| - 1](earlier[|earlier| - 1])]
  }

  function States(es: seq<Entry>): (ss: seq<State>)
    ensures |ss| == |es|
    ensures forall k :: 0 <= k < |es| ==> ss[k] == es[k].AsState()
  {
    seq(|es|, k requires 0 <= k < |es| => es[k].AsState())
  }

  lemma {:induction false} VisitedAreEntries(p: Params, i: Inputs, s: State, n: nat)
    ensures States(Entries(Visited(p, i, s, n), i)) == Visited(p, i, s, n)
    decreases n
  {
    hide IoCheck, OutputCheck;
    var t := ComputeState(p, i, s);
    if n > 0 && t != s {
      VisitedAreEntries(p, i, t, n - 1);
      forall k | 0 <= k < |Visited(p, i, s, n)|
        ensures Visited(p, i, s, n)[k].changed == i.time
      {
        if k > 0 {
          var rest := Visited(p, i, t, n - 1);
          assert States(Entries(rest, i))[k - 1] == rest[k - 1];
        }
      }
    }
  }

  // The state is that of the run, and the state callback has been handed exactly
  // the run's history, the initial state first.
  ghost predicate OnRun(p: Params, node: Node, run: seq<Inputs>, k: nat, c: Snapshot)
    requires k < |run|
  {
    && c.inputs == run[k]
    && c.state == Rest(p, node, run, k)
    && c.stateUpdates == States(History(p, node, run, k))
    && c.outputUpdates != [] && c.outputUpdates[|c.outputUpdates| - 1] == c.outputs
  }

  lemma OnRunStarts(p: Params, node: Node, run: seq<Inputs>, c: Snapshot)
    requires run != [] && c.inputs == run[0] && c.state == Initial(node, run[0])
    requires c.stateUpdates == [c.state] && c.outputUpdates == [c.outputs]
    ensures OnRun(p, node, run, 0, Recomputed(p, c))
  {
    hide IoCheck, OutputCheck, ComputeState, ComputeOutputs, Visited;
    VisitedAreEntries(p, run[0], c.state, MAX_ITERATIONS);
  }

  lemma OnRunContinues(p: Params, node: Node, run: seq<Inputs>, k: nat, c: Snapshot)
    requires k + 1 < |run| && OnRun(p, node, run, k, c)
    ensures OnRun(p, node, run, k + 1, Recomputed(p, c.(inputs := run[k + 1])))
  {
    hide IoCheck, OutputCheck, ComputeState, ComputeOutputs, Visited;
    VisitedAreEntries(p, run[k + 1], c.state, MAX_ITERATIONS);
  }

  lemma {:induction false} RanFollowsRun(p: Params, node: Node, c: Snapshot, changes: seq<Inputs -> Inputs>, k: nat)
    requires k <= |changes|
    requires c.state == Initial(node, c.inputs) && c.stateUpdates == [] && c.outputUpdates == []
    ensures OnRun(p, node, InputsOf(c.inputs, changes), k, Ran(p, c, changes[..k]))
  {
    hide Recomputed, Rest, History, States;
    var run := InputsOf(c.inputs, changes);
    if k == 0 {
      assert changes[..0] == [] && c.stateUpdates + [c.state] == [c.state];
      assert c.outputUpdates + [c.outputs] == [c.outputs];
      OnRunStarts(p, node, run, c.(stateUpdates := [c.state], outputUpdates := [c.outputs]));
    } else {
      RanFollowsRun(p, node, c, changes, k - 1);
      assert changes[..k][..k - 1] == changes[..k - 1];
      OnRunContinues(p, node, run, k - 1, Ran(p, c, changes[..k - 1]));
    }
  }
}
