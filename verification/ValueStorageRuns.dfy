/** Runs of the value storage that do happen: any values are brought in, whether
    nobody subscribes or somebody who receives everything at once. */
module ValueStorageRuns {
  import opened Dataflow
  import opened StorageSpec
  import opened ValueStorageSystem
  import B = Broadcast
  import C = ChannelCapacity
  import L = LateSnapshot

  // The main routine waits and nothing is on its way to it.
  ghost predicate AtRest(s: System) {
    && s.main.Idle? && s.input == [] && s.adding == 0 && s.waitGroup == 0
    && s.bus.busy.None? && L.Quiet(s.bus)
  }

  // Nothing but this value has been processed since.
  ghost predicate Processed(s: System, vs: seq<Value>, t: System) {
    && AtRest(t) && t.processed == s.processed + vs && L.SameSubscriber(s.bus, t.bus)
    && t.marks == s.marks && t.snapshots == s.snapshots
  }

  // One value through the storage.
  lemma ProcessOne(s: System, v: Value) returns (steps: seq<Step>, t: System)
    requires AtRest(s)
    ensures Reaches(s, steps, t) && Processed(s, [v], t)
  {
    hide Reaches, B.Reaches, Changes, After;
    var u := s.(waitGroup := 1, filled := s.filled + [v], main := Holding(v));
    TakenIn(s, v);
    var w := Next(u, Apply);
    var bs: seq<B.Step<Value>>, bus := [], w.bus;
    if Changes(s.store, v) {
      bs, bus := L.Settle(w.bus);
    } else {
      B.StaysPut(w.bus);
    }
    Lifted(w, bs, bus);
    var x := w.(bus := bus);
    t := x.(main := Idle, waitGroup := 0);
    StaysPut(t);
    hide L.Quiet, L.SameSubscriber;
    OneMore(x, Finish, [], t);
    ReachesThrough(w, Lift(bs), x, [Finish] + [], t);
    OneMore(u, Apply, Lift(bs) + ([Finish] + []), t);
    ReachesThrough(s, [FillAdd, FillSend(v), Take], u, [Apply] + (Lift(bs) + ([Finish] + [])), t);
    steps := [FillAdd, FillSend(v), Take] + ([Apply] + (Lift(bs) + ([Finish] + [])));
  }

  lemma TakenIn(s: System, v: Value)
    requires s.main.Idle? && s.input == [] && s.adding == 0 && s.waitGroup == 0
    ensures Reaches(s, [FillAdd, FillSend(v), Take], s.(waitGroup := 1, filled := s.filled + [v], main := Holding(v)))
  {
    hide Reaches;
    var s1 := s.(adding := 1, waitGroup := 1);
    var s2 := s.(waitGroup := 1, input := [v], filled := s.filled + [v]);
    var s3 := s.(waitGroup := 1, filled := s.filled + [v], main := Holding(v));
    assert s1.input + [v] == [v] && s2.input[1..] == [];
    StaysPut(s3);
    OneMore(s2, Take, [], s3);
    OneMore(s1, FillSend(v), [Take] + [], s3);
    OneMore(s, FillAdd, [FillSend(v)] + ([Take] + []), s3);
    assert [FillAdd] + ([FillSend(v)] + ([Take] + [])) == [FillAdd, FillSend(v), Take];
  }

  // Any values can be brought into the storage.
  lemma {:induction false} ProcessAll(s: System, vs: seq<Value>) returns (steps: seq<Step>, t: System)
    requires AtRest(s)
    ensures Reaches(s, steps, t) && Processed(s, vs, t)
    decreases |vs|
  {
    hide Reaches;
    if vs == [] {
      steps, t := [], s;
      StaysPut(s);
      assert s.processed + vs == s.processed;
    } else {
      var first, u := ProcessOne(s, vs[0]);
      var rest;
      rest, t := ProcessAll(u, vs[1..]);
      ReachesThrough(s, first, u, rest, t);
      steps := first + rest;
      assert s.processed + [vs[0]] + vs[1..] == s.processed + vs;
    }
  }

  // Whenever more than 128 stored values pass a filter, a subscriber that is to
  // be sent its snapshot can be left waiting with the snapshot half sent; until
  // it receives, not one more value is sent, whatever else happens.
  lemma SendingTheSnapshotBlocks(
    vs: seq<Value>, f: ValueFilter, listing: seq<Value>) returns (steps: seq<Step>, s: System)
    requires IsListing(listing, Filtered(Fold(map[], vs), f)) && |listing| > SUBSCRIPTION_CAP
    ensures Reaches(Init(), steps, s) && |s.bus.subs| == 1 && s.bus.subs[0].initial == listing && C.Blocked(s.bus, 0)
  {
    hide Reaches, IsListing, Filtered, Fold, Forwarded, B.Reaches;
    var first, r := ProcessAll(Init(), vs);
    assert [] + vs == vs;
    InvReached(Init(), first, r) by { InitInv(); }
    var subscribed := Next(r, SubscribeSendInitial(f, listing));
    StaysPut(subscribed);
    OneMore(r, SubscribeSendInitial(f, listing), [], subscribed);
    ReachesThrough(Init(), first, r, [SubscribeSendInitial(f, listing)] + [], subscribed);
    var bus := C.LongSnapshotBlocks(subscribed.bus, 0);
    var bs := C.SendInitials<Value>(0, SUBSCRIPTION_CAP);
    Lifted(subscribed, bs, bus);
    s := subscribed.(bus := bus);
    steps := first + ([SubscribeSendInitial(f, listing)] + []) + Lift(bs);
    ReachesThrough(Init(), first + ([SubscribeSendInitial(f, listing)] + []), subscribed, Lift(bs), s);
    C.AfterSends(subscribed.bus, 0, SUBSCRIPTION_CAP, bus);
  }
}
