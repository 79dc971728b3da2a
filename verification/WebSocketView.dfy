/** A websocket client of a live storage: the sender and the storage together. */
module WebSocketView {
  import opened Dataflow
  import opened StorageSpec
  import opened WebSocket
  import B = Broadcast
  import S = ValueStorageSystem

  // Once the channel is drained, the lock is free and a tick has flushed, what the
  // client has merged from all messages is the filtered storage, in every
  // interleaving of the storage and for every timing of the ticks.
  lemma ClientShowsStorage(steps: seq<S.Step>, s: S.System, id: nat, events: seq<Event>)
    requires S.Reaches(S.Init(), steps, s) && id < |s.bus.subs| && s.bus.busy.None?
    requires s.bus.subs[id].Listed() && s.bus.subs[id].initial == []
    requires id < |s.marks| && id < |s.snapshots| && s.marks[id] <= |s.processed|
    requires ReceivedValues(events) == B.Values(s.bus.subs[id].sent)
    requires events != [] && events[|events| - 1] == Tick(true) && !Sent(s.snapshots[id], events).stopped
    requires AllUnhidden(s.bus.subs[id].filter, Fold(map[], s.processed[..s.marks[id]]), s.processed[s.marks[id]..])
    ensures forall k ::
      Shown(Merged(ValueTables(Sent(s.snapshots[id], events).messages), k))
        == InStore(Filtered(s.store, s.bus.subs[id].filter), k)
  {
    hide B.Inv, Fold, Forwarded, AllUnhidden, Replay, Merged, IsListing, Sent, B.Values;
    var f, base := s.bus.subs[id].filter, Fold(map[], s.processed[..s.marks[id]]);
    S.InvReached(S.Init(), steps, s) by { S.InitInv(); }
    assert S.MarkInv(s, id);
    S.StartsFromSnapshot(s, id);
    S.SnapshotPlusStream(steps, s, id);
    assert B.Values(s.bus.subs[id].sent) + [] == B.Values(s.bus.subs[id].sent);
    TickFlushes(s.snapshots[id], Filtered(base, f), events);
  }

  // For a view, it is enough that no key changes its category after registration.
  lemma ViewClientShowsStorage(
    viewDevices: seq<ViewDevice>, steps: seq<S.Step>, s: S.System, id: nat, events: seq<Event>)
    requires S.Reaches(S.Init(), steps, s) && id < |s.bus.subs| && s.bus.busy.None?
    requires s.bus.subs[id].Listed() && s.bus.subs[id].initial == []
    requires s.bus.subs[id].filter == ViewValueFilter(viewDevices)
    requires id < |s.marks| && id < |s.snapshots| && s.marks[id] <= |s.processed|
    requires ReceivedValues(events) == B.Values(s.bus.subs[id].sent)
    requires events != [] && events[|events| - 1] == Tick(true) && !Sent(s.snapshots[id], events).stopped
    requires StableCategories(Fold(map[], s.processed[..s.marks[id]]), s.processed[s.marks[id]..])
    ensures forall k ::
      Shown(Merged(ValueTables(Sent(s.snapshots[id], events).messages), k))
        == InStore(Filtered(s.store, ViewValueFilter(viewDevices)), k)
  {
    hide Fold, AllUnhidden, StableCategories, ViewValueFilter, Sent, B.Values;
    FoldKeepsKeyed(map[], s.processed[..s.marks[id]]);
    ViewFilterTracks(viewDevices, Fold(map[], s.processed[..s.marks[id]]), s.processed[s.marks[id]..]);
    ClientShowsStorage(steps, s, id, events);
  }
}
