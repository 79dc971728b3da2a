/** The value storage as the object it is: a map and a list of subscriptions,
    both changed in place, each subscription with a channel of its own. */
module ValueStorage {
  import opened Dataflow
  import opened Sequences
  import opened StorageSpec
  import opened Channels

  datatype ValueSubscription = ValueSubscription(out: Channel<Value>, filter: ValueFilter)

  class ValueStorage {
    var state: Store
    var subscriptions: seq<ValueSubscription>

    ghost function Channels(): set<Channel<Value>>
      reads this
    {
      set i | 0 <= i < |subscriptions| :: subscriptions[i].out
    }

    ghost predicate Valid()
      reads this, Channels()
    {
      && WellKeyed(state)
      && (forall i :: 0 <= i < |subscriptions| ==> !subscriptions[i].out.closed)
      && (forall i, j :: 0 <= i < j < |subscriptions| ==> subscriptions[i].out != subscriptions[j].out)
    }

    constructor ()
      ensures Valid() && state == map[] && subscriptions == []
    {
      state := map[];
      subscriptions := [];
    }

    method UpdateState(newValue: Value) returns (updated: bool)
      requires WellKeyed(state)
      modifies this`state
      ensures updated == Changes(old(state), newValue)
      ensures state == After(old(state), newValue) && WellKeyed(state)
    {
      var k := StateKey(newValue.deviceName, newValue.register.name);
      if k in state && state[k].Equals(newValue) {
        return false;
      }
      if newValue.Null? {
        state := state - {k};
      } else {
        state := state[k := newValue];
      }
      return true;
    }

    // Sends the value to every subscription whose filter lets it through.
    method ForwardToSubscriptions(newValue: Value)
      requires Valid()
      modifies Channels()
      ensures Valid()
      ensures forall i :: 0 <= i < |subscriptions| ==>
        subscriptions[i].out.queue == old(subscriptions[i].out.queue) + Matching(subscriptions[i].filter, [newValue])
    {
      var e := 0;
      while e < |subscriptions|
        invariant 0 <= e <= |subscriptions|
        invariant Valid()
        invariant forall i :: 0 <= i < e ==>
          subscriptions[i].out.queue == old(subscriptions[i].out.queue) + Matching(subscriptions[i].filter, [newValue])
        invariant forall i :: e <= i < |subscriptions| ==>
          subscriptions[i].out.queue == old(subscriptions[i].out.queue)
      {
        var s := subscriptions[e];
        if s.filter(newValue) {
          s.out.Send(newValue);
        }
        e := e + 1;
      }
    }

    // One value taken from the input channel, handled under the lock.
    method Process(newValue: Value)
      requires Valid()
      modifies this`state, Channels()
      ensures Valid() && state == After(old(state), newValue)
      ensures forall i :: 0 <= i < |subscriptions| ==>
        subscriptions[i].out.queue == old(subscriptions[i].out.queue)
          + Matching(subscriptions[i].filter, if Changes(old(state), newValue) then [newValue] else [])
    {
      var updated := UpdateState(newValue);
      if updated {
        ForwardToSubscriptions(newValue);
      }
    }

    // The main routine over the values that arrive before it is stopped.
    method MainStorageRoutine(inputs: seq<Value>)
      requires Valid()
      modifies this`state, Channels()
      ensures Valid() && state == Fold(old(state), inputs)
      ensures forall i :: 0 <= i < |subscriptions| ==>
        subscriptions[i].out.queue == old(subscriptions[i].out.queue)
          + Matching(subscriptions[i].filter, Forwarded(old(state), inputs))
    {
      hide Changes, After, Matching, Fold, Forwarded;
      var n := 0;
      ProcessNone(state, inputs);
      while n < |inputs|
        invariant 0 <= n <= |inputs|
        invariant Valid() && state == Fold(old(state), inputs[..n])
        invariant forall i :: 0 <= i < |subscriptions| ==>
          subscriptions[i].out.queue == old(subscriptions[i].out.queue)
            + Matching(subscriptions[i].filter, Forwarded(old(state), inputs[..n]))
      {
        Process(inputs[n]);
        ProcessOneMore(old(state), inputs, n);
        n := n + 1;
      }
      assert inputs[..n] == inputs;
    }

    // The entries that pass the filter, in whatever order the map yields them.
    method GetStateFilteredUnlocked(filter: ValueFilter) returns (result: seq<Value>)
      requires WellKeyed(state)
      ensures IsListing(result, Filtered(state, filter))
    {
      result := [];
      var keys := state.Keys;
      while keys != {}
        invariant keys <= state.Keys
        invariant forall i :: 0 <= i < |result| ==>
          result[i].Key() in state && result[i].Key() !in keys && state[result[i].Key()] == result[i]
            && filter(result[i])
        invariant forall i, j :: 0 <= i < j < |result| ==> result[i].Key() != result[j].Key()
        invariant forall k :: k in state && k !in keys && filter(state[k]) ==> state[k] in result
        decreases keys
      {
        var k :| k in keys;
        if filter(state[k]) {
          result := result + [state[k]];
        }
        keys := keys - {k};
      }
    }

    method NewSubscription(filter: ValueFilter) returns (initial: seq<Value>, subscription: ValueSubscription)
      requires Valid()
      modifies this`subscriptions
      ensures Valid() && IsListing(initial, Filtered(state, filter))
      ensures fresh(subscription.out) && subscription.out.queue == [] && subscription.filter == filter
      ensures subscriptions == old(subscriptions) + [subscription]
    {
      initial := GetStateFilteredUnlocked(filter);
      var c := new Channel<Value>();
      subscription := ValueSubscription(c, filter);
      subscriptions := subscriptions + [subscription];
    }

    // The subscription's own routine when it runs undisturbed: it sends as much of
    // the snapshot as it gets to before the cancellation, leaves the list, and
    // only then closes the channel.
    method SendInitialAndCleanup(initial: seq<Value>, at: nat, beforeCancel: nat)
      requires Valid() && at < |subscriptions| && beforeCancel <= |initial|
      modifies this`subscriptions, subscriptions[at].out
      ensures Valid()
      ensures subscriptions == old(subscriptions[..at]) + old(subscriptions[at + 1..])
      ensures old(subscriptions[at].out) !in Channels()
      ensures var c := old(subscriptions[at].out);
        c.closed && c.queue == old(subscriptions[at].out.queue) + initial[..beforeCancel]
    {
      var c := subscriptions[at].out;
      var n := 0;
      while n < beforeCancel
        invariant 0 <= n <= beforeCancel
        invariant subscriptions == old(subscriptions) && Valid()
        invariant c.queue == old(c.queue) + initial[..n]
      {
        c.Send(initial[n]);
        n := n + 1;
      }
      subscriptions := subscriptions[..at] + subscriptions[at + 1..];
      c.Close();
    }
  }

  lemma ProcessNone(st: Store, vs: seq<Value>)
    ensures Fold(st, vs[..0]) == st
    ensures forall f: ValueFilter :: Matching(f, Forwarded(st, vs[..0])) == []
  {
  }

  lemma ProcessOneMore(st: Store, vs: seq<Value>, n: nat)
    requires n < |vs|
    ensures Fold(st, vs[..n + 1]) == After(Fold(st, vs[..n]), vs[n])
    ensures var more := if Changes(Fold(st, vs[..n]), vs[n]) then [vs[n]] else [];
      forall f: ValueFilter ::
        Matching(f, Forwarded(st, vs[..n + 1])) == Matching(f, Forwarded(st, vs[..n])) + Matching(f, more)
  {
    hide Changes, After;
    assert vs[..n + 1] == vs[..n] + [vs[n]];
    FoldExtends(st, vs[..n], vs[n]);
    var more := if Changes(Fold(st, vs[..n]), vs[n]) then [vs[n]] else [];
    forall f: ValueFilter
      ensures Matching(f, Forwarded(st, vs[..n + 1])) == Matching(f, Forwarded(st, vs[..n])) + Matching(f, more)
    {
      MatchingSplits(f, Forwarded(st, vs[..n]), more);
    }
  }

  // A subscriber that was returned its snapshot and has received everything sent
  // since holds the filtered state, whatever the storage processed in between.
  method SubscribeAndFollow(vs: ValueStorage, filter: ValueFilter, inputs: seq<Value>) returns (rebuilt: Store)
    requires vs.Valid() && KeyClosed(filter)
    modifies vs, vs.Channels()
    ensures rebuilt == Filtered(vs.state, filter)
  {
    var initial, subscription := vs.NewSubscription(filter);
    ghost var start := vs.state;
    ghost var last := |vs.subscriptions| - 1;
    assert vs.subscriptions[last] == subscription;
    vs.MainStorageRoutine(inputs);
    var received := subscription.out.queue;
    assert received == Matching(filter, Forwarded(start, inputs));
    rebuilt := Replay(MapOf(initial), received);
    ListingGivesMap(initial, Filtered(start, filter));
    KeyClosedTracks(filter, start, inputs);
  }
}
