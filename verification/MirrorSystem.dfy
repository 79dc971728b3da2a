/** From one instance's live storage to the other's: the immediate forwarder, the
    topics and the receiving device behind the interleaved storage. */
module MirrorSystem {
  import opened Dataflow
  import opened Sequences
  import opened StorageSpec
  import opened Topics
  import opened Mirror
  import opened RealtimeMirror
  import D = Realtime
  import B = Broadcast
  import S = ValueStorageSystem
  import R = RegisterDb
  import Current = CurrentValues

  lemma {:induction false} LastOfOneDevice(db: R.Db, vs: seq<Value>, k: StateKey)
    requires forall v :: v in vs ==> v.deviceName == k.deviceName
    ensures var last := LastFor(vs, k);
      last.Some? && Accepts(db, last.value) ==>
        LastAccepted(Arrivals(db, vs), k.registerName) == Some(Arrival(db, last.value))
  {
    hide Accepts;
    if vs != [] {
      LastOfOneDevice(db, vs[..|vs| - 1], k);
      assert Arrivals(db, vs)[..|vs| - 1] == Arrivals(db, vs[..|vs| - 1]);
    }
  }

  lemma SamePayloadEither(l: Value, received: Value, x: Value)
    requires SamePayload(l, received)
    ensures SamePayload(x, received) <==> SamePayload(x, l)
  {
  }

  // The receiver agrees on a key exactly if no snapshot value of it was sent after
  // an update, or the snapshot has the stored payload for it.
  //
  // In every interleaving of the sender's storage: the lock is free, the snapshot
  // has been sent, the forwarder has published everything sent to it, and the
  // receiver has handled that in order and accepts the values of this name.
  lemma StorageMirrored(
    steps: seq<S.Step>, s: S.System, id: nat,
    c: TopicConfig, from: string, to: string, db: R.Db, name: string)
    requires S.Reaches(S.Init(), steps, s) && id < |s.bus.subs| && s.bus.busy.None?
    requires id < |s.marks| && id < |s.snapshots| && s.marks[id] <= |s.processed|
    requires var sub := s.bus.subs[id]; sub.Listed() && sub.initial == s.snapshots[id] && sub.next == |sub.initial|
    requires forall v :: s.bus.subs[id].filter(v) ==> v.deviceName == from
    requires AllUnhidden(s.bus.subs[id].filter, Fold(map[], s.processed[..s.marks[id]]), s.processed[s.marks[id]..])
    requires RealtimeTemplate(c, from) && WellNamed(db)
    requires forall v :: v in B.Values(s.bus.subs[id].sent) && v.register.name == name && !v.Null? ==> Accepts(db, v)
    requires StateKey(from, name) in Filtered(s.store, s.bus.subs[id].filter)
    ensures var k, sent := StateKey(from, name), s.bus.subs[id].sent;
      var received := Mirrored(c, from, to, Arrivals(db, B.Values(sent)));
      && k in s.store
      && (Agrees(Fold(map[], received), to, name, Some(s.store[k]))
          <==> (B.Outdated(sent, ForKey(k)) ==> Current.Lists(s.snapshots[id], k, s.store[k])))
  {
    hide S.Inv, Fold, AllUnhidden, Mirrored, RealtimeTemplate, Accepts;
    hide B.Values, B.Outdated, SamePayload, LastFor, WellNamed, Current.Lists;
    var k, vs := StateKey(from, name), B.Values(s.bus.subs[id].sent);
    S.InvReached(S.Init(), steps, s) by { S.InitInv(); }
    Current.SentPasses(s, id);
    Current.CurrentUnlessOutdated(steps, s, id, k);
    var last := LastFor(vs, k).value;
    LastNamedForKey(vs, k);
    LastOfOneDevice(db, vs, k);
    StateMirror(c, from, to, Arrivals(db, vs), name);
    var st := Fold(map[], Mirrored(c, from, to, Arrivals(db, vs)));
    SamePayloadEither(last, st[StateKey(to, name)], s.store[k]);
    SamePayloadSelf(last);
    EqualsIsSamePayload(s.store[k], last);
  }

  lemma EqualsIsSamePayload(v: Value, w: Value)
    requires v.register.name == w.register.name
    ensures v.Equals(w) <==> SamePayload(v, w)
  {
  }

  // For the forwarder's own filter it is enough that no key changes its category
  // after the subscription.
  lemma ForwarderMirrored(
    steps: seq<S.Step>, s: S.System, id: nat,
    c: TopicConfig, from: string, conf: FilterConf, to: string, db: R.Db, name: string)
    requires S.Reaches(S.Init(), steps, s) && id < |s.bus.subs| && s.bus.busy.None?
    requires id < |s.marks| && id < |s.snapshots| && s.marks[id] <= |s.processed|
    requires var sub := s.bus.subs[id]; sub.Listed() && sub.initial == s.snapshots[id] && sub.next == |sub.initial|
    requires s.bus.subs[id].filter == DeviceAndRegisterValueFilter(from, conf)
    requires StableCategories(Fold(map[], s.processed[..s.marks[id]]), s.processed[s.marks[id]..])
    requires RealtimeTemplate(c, from) && WellNamed(db)
    requires forall v :: v in B.Values(s.bus.subs[id].sent) && v.register.name == name && !v.Null? ==> Accepts(db, v)
    requires StateKey(from, name) in Filtered(s.store, DeviceAndRegisterValueFilter(from, conf))
    ensures var k, sent := StateKey(from, name), s.bus.subs[id].sent;
      var received := Mirrored(c, from, to, Arrivals(db, B.Values(sent)));
      && k in s.store
      && (Agrees(Fold(map[], received), to, name, Some(s.store[k]))
          <==> (B.Outdated(sent, ForKey(k)) ==> Current.Lists(s.snapshots[id], k, s.store[k])))
  {
    hide Fold, AllUnhidden, Tracks, Mirrored, RealtimeTemplate, Accepts, StableCategories;
    hide B.Values, B.Outdated, WellNamed, Current.Lists, Agrees, S.Reaches;
    FoldKeepsKeyed(map[], s.processed[..s.marks[id]]);
    ForwarderFilterTracks(from, conf, Fold(map[], s.processed[..s.marks[id]]), s.processed[s.marks[id]..]);
    PassesOwnDevice(from, conf);
    StorageMirrored(steps, s, id, c, from, to, db, name);
  }

  // With the delayed forwarder in between the same holds after a tick, for values of
  // the kind of their registers.
  lemma DelayedStorageMirrored(
    steps: seq<S.Step>, s: S.System, id: nat, events: seq<D.Event>, published: seq<Value>,
    c: TopicConfig, from: string, to: string, db: R.Db, name: string)
    requires S.Reaches(S.Init(), steps, s) && id < |s.bus.subs| && s.bus.busy.None?
    requires id < |s.marks| && id < |s.snapshots| && s.marks[id] <= |s.processed|
    requires var sub := s.bus.subs[id]; sub.Listed() && sub.initial == s.snapshots[id] && sub.next == |sub.initial|
    requires forall v :: s.bus.subs[id].filter(v) ==> v.deviceName == from
    requires AllUnhidden(s.bus.subs[id].filter, Fold(map[], s.processed[..s.marks[id]]), s.processed[s.marks[id]..])
    requires D.ReceivedValues(events) == B.Values(s.bus.subs[id].sent)
    requires events != [] && events[|events| - 1].Tick?
    requires D.Named(published, name) == D.Tracked(events, name).published
    requires RealtimeTemplate(c, from) && WellNamed(db)
    requires forall v :: v in B.Values(s.bus.subs[id].sent) && v.register.name == name ==> Typed(db, v)
    requires StateKey(from, name) in Filtered(s.store, s.bus.subs[id].filter)
    ensures var k, sent := StateKey(from, name), s.bus.subs[id].sent;
      && k in s.store
      && (Agrees(Fold(map[], Mirrored(c, from, to, Arrivals(db, published))), to, name, Some(s.store[k]))
          <==> (B.Outdated(sent, ForKey(k)) ==> Current.Lists(s.snapshots[id], k, s.store[k])))
  {
    hide S.Inv, Fold, AllUnhidden, Mirrored, RealtimeTemplate, Typed, D.Named, D.Tracked;
    hide B.Values, B.Outdated, SamePayload, LastFor, WellNamed, Current.Lists;
    var k, vs := StateKey(from, name), B.Values(s.bus.subs[id].sent);
    S.InvReached(S.Init(), steps, s) by { S.InitInv(); }
    Current.SentPasses(s, id);
    Current.CurrentUnlessOutdated(steps, s, id, k);
    var last := LastFor(vs, k).value;
    LastNamedForKey(vs, k);
    LastOfName(vs, k);
    D.ReceivedForIsNamed(events, name);
    DelayedArrives(c, from, to, db, events, published, name);
    var st := Fold(map[], Mirrored(c, from, to, Arrivals(db, published)));
    SamePayloadEither(last, st[StateKey(to, name)], s.store[k]);
    SamePayloadSelf(last);
    EqualsIsSamePayload(s.store[k], last);
  }

  // For values of one device, the last of a key is the last of its name.
  lemma {:induction false} LastOfName(vs: seq<Value>, k: StateKey)
    requires forall v :: v in vs ==> v.deviceName == k.deviceName
    ensures D.Last(D.Named(vs, k.registerName)) == LastFor(vs, k)
  {
    hide D.Named;
    if vs == [] {
      NoneNamed(k.registerName);
    } else {
      var before, v := vs[..|vs| - 1], vs[|vs| - 1];
      LastOfName(before, k);
      assert before + [v] == vs;
      LastPublishedExtends(before, v, k.registerName);
    }
  }

  lemma PassesOwnDevice(deviceName: string, conf: FilterConf)
    ensures forall v :: DeviceAndRegisterValueFilter(deviceName, conf)(v) ==> v.deviceName == deviceName
  {
    forall v | DeviceAndRegisterValueFilter(deviceName, conf)(v)
      ensures v.deviceName == deviceName
    {
      assert DeviceNameValueFilter(deviceName)(v);
    }
  }

  lemma SamePayloadSelf(v: Value)
    ensures SamePayload(v, v)
  {
  }

  lemma {:induction false} LastNamedForKey(vs: seq<Value>, k: StateKey)
    ensures LastFor(vs, k).Some? ==> LastFor(vs, k).value in vs && LastFor(vs, k).value.register.name == k.registerName
  {
    if vs != [] {
      LastNamedForKey(vs[..|vs| - 1], k);
    }
  }
}
