/** Which value of a key a subscription that is sent its snapshot receives last:
    in one run, and whatever the interleaving. */
module CurrentValues {
  import opened Dataflow
  import opened Sequences
  import opened StorageSpec
  import opened ValueStorageSystem
  import opened ValueStorageRuns
  import B = Broadcast
  import L = LateSnapshot

  lemma {:induction false} LastForIsLastOf(vs: seq<Value>, k: StateKey)
    ensures LastFor(vs, k) == B.LastOf(vs, ForKey(k))
  {
    if vs != [] {
      LastForIsLastOf(vs[..|vs| - 1], k);
    }
  }

  // What a replay has for a key is the last value replayed for it.
  lemma {:induction false} ReplayAt(st: Store, vs: seq<Value>, k: StateKey)
    ensures var last, now := LastFor(vs, k), Replay(st, vs);
      if last.None? then (k in now <==> k in st) && (k in st ==> now[k] == st[k])
      else if last.value.Null? then k !in now
      else k in now && now[k] == last.value
  {
    if vs != [] {
      ReplayAt(st, vs[..|vs| - 1], k);
    }
  }

  // Everything sent passes the filter, and no snapshot value is a null.
  lemma SentPasses(s: System, id: nat)
    requires Inv(s) && id < |s.bus.subs| && s.bus.subs[id].Listed() && s.bus.subs[id].initial == s.snapshots[id]
    ensures forall v :: v in B.Values(s.bus.subs[id].sent) ==> s.bus.subs[id].filter(v)
    ensures forall v :: v in B.Snapshots(s.bus.subs[id].sent) ==> !v.Null?
  {
    hide Fold, Forwarded, Matching, B.Values, B.Updates, B.Snapshots;
    assert B.SubInv(s.bus, id) && MarkInv(s, id);
    var sub := s.bus.subs[id];
    FoldKeepsKeyed(map[], s.processed[..s.marks[id]]);
    B.SentIsUnion(sub.sent);
    MatchingMembers(sub.filter, s.bus.log[sub.since..B.Offered(s.bus, id)]);
    forall v | v in B.Values(sub.sent)
      ensures sub.filter(v)
    {
      assert v in multiset(B.Values(sub.sent));
    }
  }

  // What is stored for a key against what was sent for it.
  lemma LastAgainstStored(sent: seq<B.Sent<Value>>, snapshot: Store, listing: seq<Value>, shown: Store, k: StateKey)
    requires B.Snapshots(sent) == listing && IsListing(listing, snapshot) && WellKeyed(snapshot)
    requires Replay(snapshot, B.Updates(sent)) == shown && k in shown
    requires forall v :: v in listing ==> !v.Null?
    ensures var last, p := B.LastSent(sent, ForKey(k)), ForKey(k);
      && last.Some? && LastFor(B.Values(sent), k) == Some(last.value.value) && !last.value.value.Null?
      && (!B.Outdated(sent, p) ==> last.value.value == shown[k])
  {
    hide B.LastSent, B.LastOf, B.Values, B.Updates, B.Snapshots, Replay, LastFor;
    var p := ForKey(k);
    B.LastSentIs(sent, p);
    LastForIsLastOf(B.Values(sent), k);
    LastForIsLastOf(B.Updates(sent), k);
    ReplayAt(snapshot, B.Updates(sent), k);
    B.LastOfMember(listing, p);
    if k in snapshot {
      assert snapshot[k] in listing && p(snapshot[k]);
    }
  }

  lemma WholeSnapshot(s: System, id: nat)
    requires Inv(s) && s.bus.busy.None? && id < |s.bus.subs| && s.bus.subs[id].next == |s.bus.subs[id].initial|
    ensures id < |s.marks| && id < |s.snapshots| && s.marks[id] <= |s.processed|
    ensures B.Snapshots(s.bus.subs[id].sent) == s.bus.subs[id].initial
    ensures var snapshot := Filtered(Fold(map[], s.processed[..s.marks[id]]), s.bus.subs[id].filter);
      IsListing(s.snapshots[id], snapshot) && WellKeyed(snapshot)
  {
    hide Fold, Forwarded, B.Snapshots;
    assert B.SubInv(s.bus, id) && MarkInv(s, id);
    var sub := s.bus.subs[id];
    assert sub.initial[..sub.next] == sub.initial;
    FoldKeepsKeyed(map[], s.processed[..s.marks[id]]);
  }

  // The listing has a value of this key with the payload of v.
  ghost predicate Lists(listing: seq<Value>, k: StateKey, v: Value) {
    exists x :: x in listing && x.Key() == k && v.Equals(x)
  }

  // In every interleaving, once the snapshot has been sent: of the values sent of
  // a visible key, the last has the stored payload exactly if none of the snapshot
  // was sent after an update or the snapshot has that payload.
  lemma CurrentUnlessOutdated(steps: seq<Step>, s: System, id: nat, k: StateKey)
    requires Reaches(Init(), steps, s) && id < |s.bus.subs| && s.bus.busy.None?
    requires id < |s.marks| && id < |s.snapshots| && s.marks[id] <= |s.processed|
    requires var sub := s.bus.subs[id]; sub.Listed() && sub.initial == s.snapshots[id] && sub.next == |sub.initial|
    requires AllUnhidden(s.bus.subs[id].filter, Fold(map[], s.processed[..s.marks[id]]), s.processed[s.marks[id]..])
    requires k in Filtered(s.store, s.bus.subs[id].filter)
    ensures var sent := s.bus.subs[id].sent;
      var last := LastFor(B.Values(sent), k);
      && k in s.store && s.store[k].Key() == k
      && last.Some? && last.value.Key() == k && !last.value.Null?
      && (s.store[k].Equals(last.value) <==> (B.Outdated(sent, ForKey(k)) ==> Lists(s.snapshots[id], k, s.store[k])))
  {
    hide B.Inv, Fold, Forwarded, AllUnhidden, Replay, Matching, MarkInv;
    hide B.Values, B.Updates, B.Snapshots, B.LastSent, B.LastOf, LastFor;
    var sub := s.bus.subs[id];
    var sent, snapshot := sub.sent, Filtered(Fold(map[], s.processed[..s.marks[id]]), sub.filter);
    InvReached(Init(), steps, s) by { InitInv(); }
    FoldKeepsKeyed(map[], s.processed);
    SentPasses(s, id);
    WholeSnapshot(s, id);
    SnapshotPlusUpdates(steps, s, id);
    StartsFromSnapshot(s, id);
    assert B.Updates(sent) + [] == B.Updates(sent);
    LastAgainstStored(sent, snapshot, s.snapshots[id], Filtered(s.store, sub.filter), k);
    LastForHasKey(B.Values(sent), k);
    EqualsItself(s.store[k]);
    B.LastSentIs(sent, ForKey(k));
    B.LastOfMember(s.snapshots[id], ForKey(k));
    OneListed(s.snapshots[id], snapshot);
  }

  lemma OneListed(listing: seq<Value>, st: Store)
    requires IsListing(listing, st)
    ensures forall x, y :: x in listing && y in listing && x.Key() == y.Key() ==> x == y
  {
  }

  lemma EqualsItself(v: Value)
    ensures v.Equals(v)
  {
  }

  lemma {:induction false} LastForHasKey(vs: seq<Value>, k: StateKey)
    ensures LastFor(vs, k).Some? ==> LastFor(vs, k).value.Key() == k
  {
    if vs != [] {
      LastForHasKey(vs[..|vs| - 1], k);
    }
  }

  // ---- every interleaving ----

  // What a subscription meets when these values have been processed before it and
  // these after it, its snapshot has been sent and the lock is free.
  ghost predicate SentAfter(
    before: seq<Value>, more: seq<Value>, f: ValueFilter, listing: seq<Value>, s: System, id: nat)
  {
    && id < |s.bus.subs| && s.bus.busy.None?
    && s.bus.subs[id].Listed() && s.bus.subs[id].next == |s.bus.subs[id].initial|
    && s.processed == before + more
    && exists first: seq<Step>, r: System, second: seq<Step> ::
      && Reaches(Init(), first, r) && r.processed == before && id == |r.bus.subs|
      && Enabled(r, SubscribeSendInitial(f, listing)) && Reaches(Next(r, SubscribeSendInitial(f, listing)), second, s)
  }

  ghost predicate EveryRunIsCurrent(
    before: seq<Value>, more: seq<Value>, f: ValueFilter, listing: seq<Value>, k: StateKey)
  {
    forall s: System, id: nat :: SentAfter(before, more, f, listing, s, id) ==>
      var last := LastFor(B.Values(s.bus.subs[id].sent), k);
      k in s.store && last.Some? && s.store[k].Equals(last.value)
  }

  // Every interleaving sends the stored payload of a key last exactly if the
  // snapshot holds no other payload for it.
  lemma EveryRunIsCurrentIff(
    before: seq<Value>, more: seq<Value>, f: ValueFilter, listing: seq<Value>, k: StateKey)
    requires k in Filtered(Fold(map[], before + more), f)
    requires IsListing(listing, Filtered(Fold(map[], before), f)) && AllUnhidden(f, Fold(map[], before), more)
    ensures EveryRunIsCurrent(before, more, f, listing, k)
      <==> forall x :: x in listing && x.Key() == k ==> Fold(map[], before + more)[k].Equals(x)
  {
    hide Fold, Forwarded, IsListing, Reaches, Enabled, Next, LastFor, AllUnhidden;
    if x :| x in listing && x.Key() == k && !Fold(map[], before + more)[k].Equals(x) {
      var s := StaleIsSentLast(before, more, f, listing, x);
      var steps := WholeRun(before, more, f, listing, s, 0);
      assert !EveryRunIsCurrent(before, more, f, listing, k);
    } else {
      forall s: System, id: nat | SentAfter(before, more, f, listing, s, id)
        ensures var last := LastFor(B.Values(s.bus.subs[id].sent), k);
          k in s.store && last.Some? && s.store[k].Equals(last.value)
      {
        OnePayloadIsCurrent(before, more, f, listing, s, id, k);
      }
    }
  }

  lemma OnePayloadIsCurrent(
    before: seq<Value>, more: seq<Value>, f: ValueFilter, listing: seq<Value>, s: System, id: nat, k: StateKey)
    requires SentAfter(before, more, f, listing, s, id)
    requires k in Filtered(Fold(map[], before + more), f) && AllUnhidden(f, Fold(map[], before), more)
    requires forall x :: x in listing && x.Key() == k ==> Fold(map[], before + more)[k].Equals(x)
    ensures var last := LastFor(B.Values(s.bus.subs[id].sent), k);
      k in s.store && last.Some? && s.store[k].Equals(last.value)
  {
    hide Fold, Forwarded, IsListing, Reaches, Enabled, Next, LastFor, AllUnhidden, B.LastSent, B.LastOf;
    var steps := WholeRun(before, more, f, listing, s, id);
    assert (before + more)[..|before|] == before && (before + more)[|before|..] == more;
    CurrentUnlessOutdated(steps, s, id, k);
    var sent, p := s.bus.subs[id].sent, ForKey(k);
    if B.Outdated(sent, p) {
      B.LastSentIs(sent, p);
      B.LastOfMember(B.Snapshots(sent), p);
    }
  }

  // The steps before and after the subscription as one run.
  lemma WholeRun(
    before: seq<Value>, more: seq<Value>, f: ValueFilter, listing: seq<Value>, s: System, id: nat)
    returns (steps: seq<Step>)
    requires SentAfter(before, more, f, listing, s, id)
    ensures Reaches(Init(), steps, s)
    ensures s.bus.subs[id].filter == f && s.bus.subs[id].initial == listing
    ensures id < |s.marks| && id < |s.snapshots| && s.marks[id] == |before| && s.snapshots[id] == listing
    ensures s.store == Fold(map[], before + more) && B.Snapshots(s.bus.subs[id].sent) == listing
  {
    var first: seq<Step>, r: System, second: seq<Step> :|
      && Reaches(Init(), first, r) && r.processed == before && id == |r.bus.subs|
      && Enabled(r, SubscribeSendInitial(f, listing)) && Reaches(Next(r, SubscribeSendInitial(f, listing)), second, s);
    hide Fold, Forwarded, Reaches, B.Inv, IsListing;
    InvReached(Init(), first, r) by { InitInv(); }
    var t := Next(r, SubscribeSendInitial(f, listing));
    assert t.bus.subs[id].filter == f && t.bus.subs[id].initial == listing;
    assert t.marks[id] == |before| && t.snapshots[id] == listing;
    hide Enabled, Next;
    InvNext(r, SubscribeSendInitial(f, listing));
    KeepsSubscription(t, second, s, id);
    OneMore(r, SubscribeSendInitial(f, listing), second, s);
    ReachesThrough(Init(), first, r, [SubscribeSendInitial(f, listing)] + second, s);
    steps := first + ([SubscribeSendInitial(f, listing)] + second);
    WholeSnapshot(s, id);
  }

  lemma {:induction false} KeepsSubscription(s: System, steps: seq<Step>, t: System, id: nat)
    requires Inv(s) && Reaches(s, steps, t) && id < |s.bus.subs|
    ensures Inv(t) && id < |t.bus.subs|
    ensures t.bus.subs[id].filter == s.bus.subs[id].filter && t.bus.subs[id].initial == s.bus.subs[id].initial
    ensures t.marks[id] == s.marks[id] && t.snapshots[id] == s.snapshots[id]
    decreases |steps|
  {
    if steps != [] {
      StepKeepsSubscription(s, steps[0], id);
      InvNext(s, steps[0]);
      hide B.Inv, StoreInv, InputInv, MarkInv, Enabled, Next;
      KeepsSubscription(Next(s, steps[0]), steps[1..], t, id);
    }
  }

  lemma StepKeepsSubscription(s: System, step: Step, id: nat)
    requires Inv(s) && Enabled(s, step) && id < |s.bus.subs|
    ensures var t := Next(s, step);
      && id < |t.bus.subs| && id < |t.marks| && id < |t.snapshots|
      && t.bus.subs[id].filter == s.bus.subs[id].filter && t.bus.subs[id].initial == s.bus.subs[id].initial
      && t.marks[id] == s.marks[id] && t.snapshots[id] == s.snapshots[id]
  {
    hide MarkInv, StoreInv, InputInv, Changes, After, IsListing;
    if step.Subscription? {
      BusStepKeepsMarks(s.bus, step.step);
    }
  }

  // ---- a run that sends a stale value last ----

  // Everything processed later is forwarded before the snapshot: whatever older
  // value the snapshot holds is sent last.
  lemma StaleIsSentLast(
    before: seq<Value>, more: seq<Value>, f: ValueFilter, listing: seq<Value>, stale: Value) returns (s: System)
    requires IsListing(listing, Filtered(Fold(map[], before), f)) && stale in listing
    ensures SentAfter(before, more, f, listing, s, 0)
    ensures LastFor(B.Values(s.bus.subs[0].sent), stale.Key()) == Some(stale)
  {
    hide Reaches, Fold, Forwarded, IsListing, Filtered, LastFor;
    var first, r := ProcessAll(Init(), before);
    assert [] + before == before;
    InvReached(Init(), first, r) by { InitInv(); }
    var t := Next(r, SubscribeSendInitial(f, listing));
    var second, u := ProcessAll(t, more);
    var bs := L.SendRest(u.bus);
    s := u.(bus := L.AfterSnapshot(u.bus));
    Lifted(u, bs, s.bus);
    ReachesThrough(t, second, u, Lift(bs), s);
    assert listing[0..] == listing;
    var sent := u.bus.subs[0].sent;
    L.SnapshotLast(sent, listing);
    LastForSplits(B.Values(sent), listing, stale.Key());
    ListedIsLast(listing, Filtered(Fold(map[], before), f), stale);
  }

  lemma {:induction false} LastForSplits(a: seq<Value>, b: seq<Value>, k: StateKey)
    ensures LastFor(a + b, k) == if LastFor(b, k).Some? then LastFor(b, k) else LastFor(a, k)
  {
    if b == [] {
      assert a + b == a;
    } else {
      assert (a + b)[..|a + b| - 1] == a + b[..|b| - 1];
      LastForSplits(a, b[..|b| - 1], k);
    }
  }

  lemma ListedIsLast(listing: seq<Value>, st: Store, v: Value)
    requires IsListing(listing, st) && v in listing
    ensures LastFor(listing, v.Key()) == Some(v)
  {
    hide B.LastOf, LastFor;
    LastForIsLastOf(listing, v.Key());
    B.LastOfMember(listing, ForKey(v.Key()));
    OneListed(listing, st);
  }
}
