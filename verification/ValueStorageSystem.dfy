/** The value storage with everything that runs beside it, as one system of
    interleaved steps: producers that fill the input channel, the main routine
    that applies and forwards, and the subscriptions. */
module ValueStorageSystem {
  import opened Dataflow
  import opened Sequences
  import opened StorageSpec
  import B = Broadcast

  // Where the main routine stands: waiting for a value, holding one without the
  // lock, or at work under the lock.
  datatype Main = Idle | Holding(value: Value) | Working

  datatype System = System(
    store: Store,
    bus: B.Sys<Value>,
    main: Main,
    input: seq<Value>,         // the buffered input channel
    adding: nat,               // Fill calls that have added to the wait group but not yet sent
    waitGroup: int,
    filled: seq<Value>,        // everything ever sent to the input channel
    processed: seq<Value>,     // everything applied so far
    marks: seq<nat>,           // per subscription: how much had been processed at registration
    snapshots: seq<seq<Value>>) // per subscription: the filtered state it was given

  const INPUT_CAP: nat := 32
  const SUBSCRIPTION_CAP: nat := 128

  datatype Step =
    | FillAdd                  // Fill: add to the wait group
    | FillSend(value: Value)   // Fill: send; Fill returns
    | Take                     // main routine receives a value
    | Apply                    // main routine locks and updates the state
    | Finish                   // main routine has unlocked; done with the value
    | SubscribeReturnInitial(filter: ValueFilter, listing: seq<Value>)
    | SubscribeSendInitial(filter: ValueFilter, listing: seq<Value>)
    | Subscription(step: B.Step<Value>)

  ghost function Init(): System {
    System(map[], B.Init(SUBSCRIPTION_CAP), Idle, [], 0, 0, [], [], [], [])
  }

  ghost predicate Enabled(s: System, step: Step) {
    match step
    case FillAdd => true
    case FillSend(_) => 0 < s.adding && |s.input| < INPUT_CAP
    case Take => s.main.Idle? && s.input != []
    case Apply => s.main.Holding? && s.bus.busy.None?
    case Finish => s.main.Working? && s.bus.busy.None?
    case SubscribeReturnInitial(f, listing) => s.bus.busy.None? && IsListing(listing, Filtered(s.store, f))
    case SubscribeSendInitial(f, listing) => s.bus.busy.None? && IsListing(listing, Filtered(s.store, f))
    case Subscription(b) => !b.Publish? && !b.Subscribe? && B.Enabled(s.bus, b)
  }

  ghost function Next(s: System, step: Step): System
    requires Enabled(s, step)
  {
    match step
    case FillAdd => s.(adding := s.adding + 1, waitGroup := s.waitGroup + 1)
    case FillSend(v) => s.(adding := s.adding - 1, input := s.input + [v], filled := s.filled + [v])
    case Take => s.(main := Holding(s.input[0]), input := s.input[1..])
    case Apply =>
      var v := s.main.value;
      s.(main := Working,
         processed := s.processed + [v],
         store := After(s.store, v),
         bus := if Changes(s.store, v) then B.Next(s.bus, B.Publish(v)) else s.bus)
    case Finish => s.(main := Idle, waitGroup := s.waitGroup - 1)
    case SubscribeReturnInitial(f, listing) => Registered(s, f, listing, [])
    case SubscribeSendInitial(f, listing) => Registered(s, f, listing, listing)
    case Subscription(b) => s.(bus := B.Next(s.bus, b))
  }

  ghost function Registered(s: System, f: ValueFilter, listing: seq<Value>, toSend: seq<Value>): System
    requires s.bus.busy.None?
  {
    s.(bus := B.Next(s.bus, B.Subscribe(f, toSend, false)),
       marks := s.marks + [|s.processed|],
       snapshots := s.snapshots + [listing])
  }

  ghost predicate Reaches(s: System, steps: seq<Step>, t: System)
    decreases |steps|
  {
    if steps == [] then s == t
    else Enabled(s, steps[0]) && Reaches(Next(s, steps[0]), steps[1..], t)
  }

  // ---- the invariant ----

  ghost function Held(m: Main): seq<Value> {
    if m.Holding? then [m.value] else []
  }

  ghost predicate StoreInv(s: System) {
    && s.store == Fold(map[], s.processed)
    && s.bus.log == Forwarded(map[], s.processed)
  }

  ghost predicate InputInv(s: System) {
    && s.filled == s.processed + Held(s.main) + s.input
    && s.waitGroup == s.adding + |s.input| + (if s.main.Idle? then 0 else 1)
    && (s.bus.busy.Some? ==> s.main.Working?)
  }

  // Each subscription was registered when a known part of the processed values
  // had been applied, and was given the filtered state of that moment.
  ghost predicate MarkInv(s: System, id: nat)
    requires id < |s.bus.subs|
  {
    && id < |s.marks| && id < |s.snapshots|
    && s.marks[id] <= |s.processed|
    && var base := s.processed[..s.marks[id]];
      && s.bus.subs[id].since == |Forwarded(map[], base)|
      && IsListing(s.snapshots[id], Filtered(Fold(map[], base), s.bus.subs[id].filter))
  }

  ghost predicate Inv(s: System) {
    && B.Inv(s.bus) && StoreInv(s) && InputInv(s)
    && |s.marks| == |s.snapshots| == |s.bus.subs|
    && forall id :: 0 <= id < |s.bus.subs| ==> MarkInv(s, id)
  }

  // A bus step other than registering leaves filters and registration marks alone.
  lemma BusStepKeepsMarks(s: B.Sys<Value>, b: B.Step<Value>)
    requires B.Inv(s) && B.Enabled(s, b) && !b.Subscribe?
    ensures var t := B.Next(s, b);
      && |t.subs| == |s.subs|
      && (forall id :: 0 <= id < |s.subs| ==>
            t.subs[id].filter == s.subs[id].filter && t.subs[id].since == s.subs[id].since)
      && (!b.Publish? ==> t.log == s.log)
      && (!b.Publish? && t.busy.Some? ==> s.busy.Some?)
  {
  }

  lemma InvApply(s: System)
    requires Inv(s) && Enabled(s, Apply)
    ensures Inv(Next(s, Apply))
  {
    hide Fold, Forwarded, Filtered, IsListing, B.Inv, After, Changes;
    var v := s.main.value;
    var t := Next(s, Apply);
    FoldExtends(map[], s.processed, v);
    assert Forwarded(map[], s.processed) + [] == Forwarded(map[], s.processed);
    if Changes(s.store, v) {
      B.InvNext(s.bus, B.Publish(v));
    }
    forall id | 0 <= id < |t.bus.subs|
      ensures MarkInv(t, id)
    {
      assert MarkInv(s, id);
      assert t.processed[..t.marks[id]] == s.processed[..s.marks[id]];
    }
  }

  lemma InvRegistered(s: System, f: ValueFilter, listing: seq<Value>, toSend: seq<Value>)
    requires Inv(s) && s.bus.busy.None? && IsListing(listing, Filtered(s.store, f))
    ensures Inv(Registered(s, f, listing, toSend))
  {
    hide Fold, Forwarded, Filtered, IsListing, B.Inv;
    var t := Registered(s, f, listing, toSend);
    B.InvNext(s.bus, B.Subscribe(f, toSend, false));
    forall id | 0 <= id < |t.bus.subs|
      ensures MarkInv(t, id)
    {
      if id < |s.bus.subs| {
        assert MarkInv(s, id);
      } else {
        assert s.processed[..|s.processed|] == s.processed;
      }
    }
  }

  lemma InvBus(s: System, b: B.Step<Value>)
    requires Inv(s) && Enabled(s, Subscription(b))
    ensures Inv(Next(s, Subscription(b)))
  {
    var t := Next(s, Subscription(b));
    B.InvNext(s.bus, b);
    BusStepKeepsMarks(s.bus, b);
    hide Fold, Forwarded, Filtered, IsListing, B.Inv, B.Next, B.Enabled;
    forall id | 0 <= id < |t.bus.subs|
      ensures MarkInv(t, id)
    {
      assert MarkInv(s, id);
    }
  }

  lemma InvFeed(s: System, step: Step)
    requires Inv(s) && Enabled(s, step) && (step.FillAdd? || step.FillSend? || step.Take? || step.Finish?)
    ensures Inv(Next(s, step))
  {
    hide Fold, Forwarded, Filtered, IsListing, B.Inv;
    var t := Next(s, step);
    forall id | 0 <= id < |t.bus.subs|
      ensures MarkInv(t, id)
    {
      assert MarkInv(s, id);
    }
  }

  lemma InvNext(s: System, step: Step)
    requires Inv(s) && Enabled(s, step)
    ensures Inv(Next(s, step))
  {
    hide Inv;
    match step
    case Apply => InvApply(s);
    case SubscribeReturnInitial(f, listing) => InvRegistered(s, f, listing, []);
    case SubscribeSendInitial(f, listing) => InvRegistered(s, f, listing, listing);
    case Subscription(b) => InvBus(s, b);
    case _ => InvFeed(s, step);
  }

  lemma {:induction false} InvReached(s: System, steps: seq<Step>, t: System)
    requires Inv(s) && Reaches(s, steps, t)
    ensures Inv(t)
    decreases |steps|
  {
    if steps != [] {
      InvNext(s, steps[0]);
      InvReached(Next(s, steps[0]), steps[1..], t);
    }
  }

  lemma InitInv()
    ensures Inv(Init())
  {
  }

  // ---- the subscriptions of a run ----

  // What a step of the storage does to the subscriptions.
  ghost function BusStep(s: System, step: Step): Option<B.Step<Value>>
    requires Enabled(s, step)
  {
    match step
    case Apply => if Changes(s.store, s.main.value) then Some(B.Publish(s.main.value)) else None
    case SubscribeReturnInitial(f, _) => Some(B.Subscribe(f, [], false))
    case SubscribeSendInitial(f, listing) => Some(B.Subscribe(f, listing, false))
    case Subscription(b) => Some(b)
    case _ => None
  }

  lemma BusMoves(s: System, step: Step)
    requires Enabled(s, step)
    ensures var b := BusStep(s, step);
      if b.None? then Next(s, step).bus == s.bus
      else B.Enabled(s.bus, b.value) && Next(s, step).bus == B.Next(s.bus, b.value)
  {
    hide Changes, B.Next;
  }

  // The subscriptions of every run of the storage run as those of a broadcast.
  lemma {:induction false} Projected(s: System, steps: seq<Step>, t: System) returns (bs: seq<B.Step<Value>>)
    requires Reaches(s, steps, t)
    ensures B.Reaches(s.bus, bs, t.bus)
    decreases |steps|
  {
    hide Enabled, Next, BusStep, B.Enabled, B.Next;
    if steps == [] {
      bs := [];
    } else {
      BusMoves(s, steps[0]);
      bs := Projected(Next(s, steps[0]), steps[1..], t);
      var b := BusStep(s, steps[0]);
      if b.Some? {
        B.OneMore(s.bus, b.value, bs, t.bus);
        bs := [b.value] + bs;
      }
    }
  }

  // In every interleaving of the storage no step sends on a closed channel, a
  // channel is closed only when its subscription has left the list, and a
  // closed channel is neither sent on nor closed again.
  lemma Lifecycle(steps: seq<Step>, s: System, more: seq<Step>, t: System, step: Step, id: nat)
    requires Reaches(Init(), steps, s) && Reaches(s, more, t) && Enabled(t, step)
    ensures var b := BusStep(t, step);
      b.Some? ==>
        && B.Enabled(t.bus, b.value)
        && (B.Target(t.bus, b.value) == Some(id) ==> id < |t.bus.subs| && t.bus.subs[id].phase != B.Closed)
        && (b.value == B.Close(id) ==> id !in t.bus.list)
        && (id < |s.bus.subs| && s.bus.subs[id].phase == B.Closed ==>
              B.Target(t.bus, b.value) != Some(id) && b.value != B.Close(id))
  {
    hide Enabled, Next, BusStep, B.Inv, B.Enabled, B.Next, B.Target, B.Reaches;
    var bs := Projected(Init(), steps, s);
    var cs := Projected(s, more, t);
    B.ReachesThrough(Init().bus, bs, s.bus, cs, t.bus);
    B.InvReached(Init().bus, bs, s.bus) by { InitInv(); }
    var b := BusStep(t, step);
    BusMoves(t, step);
    if b.Some? {
      B.NoSendOnClosed(SUBSCRIPTION_CAP, bs + cs, t.bus, b.value);
      if id < |s.bus.subs| && s.bus.subs[id].phase == B.Closed {
        B.ClosedForGood(s.bus, cs, t.bus, b.value, id);
      }
    }
  }

  // In every interleaving of the storage a subscription is sent the first part
  // of its snapshot and the matching changes since its registration, each once.
  lemma DeliveryInEveryRun(steps: seq<Step>, s: System, id: nat)
    requires Reaches(Init(), steps, s) && id < |s.bus.subs|
    ensures var sub := s.bus.subs[id];
      && sub.since <= B.Offered(s.bus, id) <= |s.bus.log| && sub.next <= |sub.initial|
      && multiset(B.Values(sub.sent)) == multiset(sub.initial[..sub.next])
         + multiset(Matching(sub.filter, s.bus.log[sub.since..B.Offered(s.bus, id)]))
      && (sub.Listed() && s.bus.busy.None? ==> B.Offered(s.bus, id) == |s.bus.log|)
  {
    hide B.Reaches, B.Offered, Matching, B.Values;
    var bs := Projected(Init(), steps, s);
    B.Delivery(SUBSCRIPTION_CAP, bs, s.bus, id);
  }

  // ---- what every interleaving guarantees ----

  // The map is the last-write-wins view of everything processed, holds no null,
  // and only changes have been forwarded.
  lemma StorageInEveryRun(steps: seq<Step>, s: System)
    requires Reaches(Init(), steps, s)
    ensures WellKeyed(s.store) && forall k :: HoldsLast(s.store, s.processed, k)
    ensures ChangeOnly(s.bus.log)
  {
    InvReached(Init(), steps, s);
    LastWriteWins(s.processed);
    ForwardsOnlyChanges(s.processed);
  }

  // When the wait group is at zero, every value whose Fill has returned has been
  // applied, and every matching change has been sent to every listed
  // subscription.
  lemma WaitMeansDone(steps: seq<Step>, s: System)
    requires Reaches(Init(), steps, s) && s.waitGroup == 0
    ensures s.processed == s.filled
    ensures s.store == Fold(map[], s.filled) && s.bus.log == Forwarded(map[], s.filled)
    ensures forall id :: 0 <= id < |s.bus.subs| && s.bus.subs[id].Listed() ==>
      s.bus.subs[id].since <= |s.bus.log|
      && B.Updates(s.bus.subs[id].sent) == Matching(s.bus.subs[id].filter, s.bus.log[s.bus.subs[id].since..])
  {
    hide Fold, Forwarded, IsListing, B.Inv;
    InvReached(Init(), steps, s) by { InitInv(); }
    assert s.processed == s.filled;
    forall id | 0 <= id < |s.bus.subs| && s.bus.subs[id].Listed()
      ensures s.bus.subs[id].since <= |s.bus.log|
      ensures B.Updates(s.bus.subs[id].sent) == Matching(s.bus.subs[id].filter, s.bus.log[s.bus.subs[id].since..])
    {
      NothingInFlight(s, id);
    }
  }

  lemma NothingInFlight(s: System, id: nat)
    requires B.Inv(s.bus) && s.bus.busy.None? && id < |s.bus.subs| && s.bus.subs[id].Listed()
    ensures s.bus.subs[id].since <= |s.bus.log|
    ensures B.Updates(s.bus.subs[id].sent) == Matching(s.bus.subs[id].filter, s.bus.log[s.bus.subs[id].since..])
  {
    assert B.SubInv(s.bus, id);
    assert s.bus.log[s.bus.subs[id].since..|s.bus.log|] == s.bus.log[s.bus.subs[id].since..];
  }

  lemma {:induction false} FilledGrows(s: System, steps: seq<Step>, t: System)
    requires Reaches(s, steps, t)
    ensures s.filled <= t.filled
    decreases |steps|
  {
    if steps != [] {
      FilledGrows(Next(s, steps[0]), steps[1..], t);
    }
  }

  lemma {:induction false} ReachesThrough(r: System, first: seq<Step>, s: System, second: seq<Step>, t: System)
    requires Reaches(r, first, s) && Reaches(s, second, t)
    ensures Reaches(r, first + second, t)
    decreases |first|
  {
    hide Enabled, Next;
    if first == [] {
      assert first + second == second;
    } else {
      ReachesThrough(Next(r, first[0]), first[1..], s, second, t);
      assert (first + second)[1..] == first[1..] + second && (first + second)[0] == first[0];
    }
  }

  // Wait is called in s and returns in t, where the wait group is at zero: every
  // value whose Fill had returned by s has been applied, in the order of arrival,
  // and no value of t is still being forwarded.
  lemma WaitCoversEarlierFills(before: seq<Step>, s: System, during: seq<Step>, t: System)
    requires Reaches(Init(), before, s) && Reaches(s, during, t) && t.waitGroup == 0
    ensures s.filled <= t.processed && t.store == Fold(map[], t.processed)
    ensures t.bus.log == Forwarded(map[], t.processed) && t.bus.busy.None?
  {
    ReachesThrough(Init(), before, s, during, t);
    FilledGrows(s, during, t);
    WaitMeansDone(before + during, t);
    InvReached(Init(), before + during, t) by { InitInv(); }
  }

  // What a subscription still has to be sent of the update in progress.
  ghost function InFlight(s: System, id: nat): seq<Value>
    requires id < |s.bus.subs| && (B.Pending(s.bus, id) ==> s.bus.log != [])
  {
    if B.Pending(s.bus, id) then Matching(s.bus.subs[id].filter, [s.bus.log[|s.bus.log| - 1]]) else []
  }

  // In every interleaving, while a subscription is on the list: its snapshot, the
  // updates sent on its channel in order and the update being forwarded right now
  // rebuild the filtered live map.
  lemma SnapshotPlusUpdates(steps: seq<Step>, s: System, id: nat)
    requires Reaches(Init(), steps, s) && id < |s.bus.subs| && s.bus.subs[id].Listed()
    ensures id < |s.marks| && id < |s.snapshots| && s.marks[id] <= |s.processed|
    ensures B.Pending(s.bus, id) ==> s.bus.log != []
    ensures var f := s.bus.subs[id].filter;
      AllUnhidden(f, Fold(map[], s.processed[..s.marks[id]]), s.processed[s.marks[id]..]) ==>
        Replay(MapOf(s.snapshots[id]), B.Updates(s.bus.subs[id].sent) + InFlight(s, id)) == Filtered(s.store, f)
  {
    hide AllUnhidden, IsListing, B.Inv, Inv, Replay, Filtered, Matching, Fold, Forwarded, MarkInv, InFlight;
    InvReached(Init(), steps, s) by { InitInv(); }
    StartsFromSnapshot(s, id);
    LogSinceRegistration(s, id);
    SentAndInFlight(s, id);
    var f, base, rest := s.bus.subs[id].filter, s.processed[..s.marks[id]], s.processed[s.marks[id]..];
    FoldSplits(map[], base, rest);
    assert base + rest == s.processed;
    if AllUnhidden(f, Fold(map[], base), rest) {
      TracksIff(f, Fold(map[], base), rest);
      assert Tracks(f, Fold(map[], base), rest);
    }
  }

  // A subscription that was returned its snapshot is sent updates only, so that
  // is everything sent on its channel.
  lemma SnapshotPlusStream(steps: seq<Step>, s: System, id: nat)
    requires Reaches(Init(), steps, s) && id < |s.bus.subs|
    requires s.bus.subs[id].Listed() && s.bus.subs[id].initial == []
    ensures id < |s.marks| && id < |s.snapshots| && s.marks[id] <= |s.processed|
    ensures B.Pending(s.bus, id) ==> s.bus.log != []
    ensures var f := s.bus.subs[id].filter;
      AllUnhidden(f, Fold(map[], s.processed[..s.marks[id]]), s.processed[s.marks[id]..]) ==>
        Replay(MapOf(s.snapshots[id]), B.Values(s.bus.subs[id].sent) + InFlight(s, id)) == Filtered(s.store, f)
  {
    hide AllUnhidden, IsListing, B.Inv, Inv, Replay, Filtered, Matching, Fold, Forwarded, MarkInv, InFlight;
    InvReached(Init(), steps, s) by { InitInv(); }
    SentAndInFlight(s, id);
    SnapshotPlusUpdates(steps, s, id);
  }

  lemma StartsFromSnapshot(s: System, id: nat)
    requires Inv(s) && id < |s.bus.subs|
    ensures id < |s.marks| && id < |s.snapshots| && s.marks[id] <= |s.processed|
    ensures WellKeyed(Fold(map[], s.processed[..s.marks[id]]))
    ensures MapOf(s.snapshots[id]) == Filtered(Fold(map[], s.processed[..s.marks[id]]), s.bus.subs[id].filter)
  {
    assert MarkInv(s, id);
    var st := Fold(map[], s.processed[..s.marks[id]]);
    FoldKeepsKeyed(map[], s.processed[..s.marks[id]]);
    ListingGivesMap(s.snapshots[id], Filtered(st, s.bus.subs[id].filter));
  }

  lemma LogSinceRegistration(s: System, id: nat)
    requires Inv(s) && id < |s.bus.subs|
    ensures id < |s.marks| && s.marks[id] <= |s.processed| && s.bus.subs[id].since <= |s.bus.log|
    ensures s.store == Fold(map[], s.processed)
    ensures s.bus.log[s.bus.subs[id].since..]
         == Forwarded(Fold(map[], s.processed[..s.marks[id]]), s.processed[s.marks[id]..])
  {
    assert MarkInv(s, id);
    var base, rest := s.processed[..s.marks[id]], s.processed[s.marks[id]..];
    assert base + rest == s.processed;
    FoldSplits(map[], base, rest);
  }

  lemma SentAndInFlight(s: System, id: nat)
    requires Inv(s) && id < |s.bus.subs| && s.bus.subs[id].Listed()
    ensures s.bus.subs[id].since <= |s.bus.log|
    ensures B.Pending(s.bus, id) ==> s.bus.log != []
    ensures Matching(s.bus.subs[id].filter, s.bus.log[s.bus.subs[id].since..])
         == B.Updates(s.bus.subs[id].sent) + InFlight(s, id)
    ensures s.bus.subs[id].initial == [] ==> B.Values(s.bus.subs[id].sent) == B.Updates(s.bus.subs[id].sent)
  {
    hide MarkInv, StoreInv, InputInv, Matching, B.Values, B.Updates, B.Snapshots, B.Pending;
    assert B.SubInv(s.bus, id) && B.ListInv(s.bus);
    var sub, log := s.bus.subs[id], s.bus.log;
    if sub.initial == [] {
      assert sub.initial[..sub.next] == [];
      B.OnlyUpdates(sub.sent);
    }
    PendingHasLog(s.bus, id);
    if B.Pending(s.bus, id) {
      MatchingTail(sub.filter, log, sub.since);
    } else {
      assert log[sub.since..] == log[sub.since..|log|];
      assert B.Updates(sub.sent) + [] == B.Updates(sub.sent);
    }
  }

  lemma PendingHasLog(s: B.Sys<Value>, id: nat)
    requires B.ListInv(s)
    ensures B.Pending(s, id) ==> s.log != []
  {
  }

  lemma MatchingTail(f: ValueFilter, log: seq<Value>, since: nat)
    requires since <= |log| - 1
    ensures Matching(f, log[since..]) == Matching(f, log[since..|log| - 1]) + Matching(f, [log[|log| - 1]])
  {
    assert log[since..] == log[since..|log| - 1] + [log[|log| - 1]];
    MatchingSplits(f, log[since..|log| - 1], [log[|log| - 1]]);
  }

  // For a key-closed filter this needs no condition on the run.
  lemma SnapshotPlusStreamKeyClosed(steps: seq<Step>, s: System, id: nat)
    requires Reaches(Init(), steps, s) && id < |s.bus.subs|
    requires s.bus.subs[id].Listed() && s.bus.subs[id].initial == [] && s.bus.busy.None?
    requires KeyClosed(s.bus.subs[id].filter)
    ensures id < |s.snapshots|
    ensures Replay(MapOf(s.snapshots[id]), B.Values(s.bus.subs[id].sent)) == Filtered(s.store, s.bus.subs[id].filter)
  {
    SnapshotPlusStream(steps, s, id);
    FoldKeepsKeyed(map[], s.processed[..s.marks[id]]);
    KeyClosedTracks(s.bus.subs[id].filter, Fold(map[], s.processed[..s.marks[id]]), s.processed[s.marks[id]..]);
    assert B.Values(s.bus.subs[id].sent) + [] == B.Values(s.bus.subs[id].sent);
  }

  // ---- building runs ----

  lemma OneMore(s: System, step: Step, rest: seq<Step>, t: System)
    requires Enabled(s, step) && Reaches(Next(s, step), rest, t)
    ensures Reaches(s, [step] + rest, t)
  {
    hide Enabled, Next;
    assert ([step] + rest)[1..] == rest;
  }

  lemma StaysPut(s: System)
    ensures Reaches(s, [], s)
  {
  }

  // Steps of the subscriptions alone.
  ghost function Lift(bs: seq<B.Step<Value>>): (steps: seq<Step>)
    ensures |steps| == |bs| && forall i :: 0 <= i < |bs| ==> steps[i] == Subscription(bs[i])
  {
    seq(|bs|, i requires 0 <= i < |bs| => Subscription(bs[i]))
  }

  lemma {:induction false} Lifted(s: System, bs: seq<B.Step<Value>>, bus: B.Sys<Value>)
    requires B.Reaches(s.bus, bs, bus) && forall i :: 0 <= i < |bs| ==> !bs[i].Publish? && !bs[i].Subscribe?
    ensures Reaches(s, Lift(bs), s.(bus := bus))
    decreases |bs|
  {
    hide B.Enabled, B.Next;
    if bs != [] {
      Lifted(s.(bus := B.Next(s.bus, bs[0])), bs[1..], bus);
      assert Lift(bs)[1..] == Lift(bs[1..]) && Lift(bs)[0] == Subscription(bs[0]);
    }
  }
}
