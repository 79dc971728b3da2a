/** A subscription alone on the list whose consumer receives everything at once:
    the snapshot is sent outside the lock, so any number of updates can be sent
    before it. */
module LateSnapshot {
  import opened Sequences
  import opened Dataflow
  import opened Broadcast

  ghost predicate Alone<T>(s: Sys<T>) {
    s.list == [0] && |s.subs| == 1 && s.subs[0].phase == Sending && s.subs[0].Buffered() == 0 && s.cap > 0
  }

  ghost predicate NoEntry<T>(steps: seq<Step<T>>) {
    forall i :: 0 <= i < |steps| ==> !steps[i].Publish? && !steps[i].Subscribe?
  }

  // What has been sent and received after one more value.
  function Taking<T>(sub: Sub<T>, x: Sent<T>): Sub<T> { sub.(sent := sub.sent + [x], received := sub.received + 1) }

  ghost function AfterForward<T>(s: Sys<T>): Sys<T>
    requires Alone(s) && s.log != []
  {
    var sub, v := s.subs[0], s.log[|s.log| - 1];
    s.(busy := None, subs := if sub.filter(v) then [Taking(sub, Update(v))] else s.subs)
  }

  lemma ForwardToIt<T>(s: Sys<T>)
    requires Alone(s) && s.busy == Some(0) && s.log != []
    ensures var sub, v := s.subs[0], s.log[|s.log| - 1];
      && Enabled(s, Forward)
      && Next(s, Forward)
        == s.(busy := Some(1), subs := if sub.filter(v) then [sub.(sent := sub.sent + [Update(v)])] else s.subs)
  {
    assert forall x :: s.subs[0 := x] == [x];
  }

  lemma ReceiveByIt<T>(s: Sys<T>, sub: Sub<T>)
    requires s.subs == [sub] && sub.received < |sub.sent|
    ensures Enabled(s, Receive(0)) && Next(s, Receive(0)) == s.(subs := [sub.(received := sub.received + 1)])
  {
    assert s.subs[0 := sub.(received := sub.received + 1)] == [sub.(received := sub.received + 1)];
  }

  lemma SendToIt<T>(s: Sys<T>, sub: Sub<T>)
    requires s.subs == [sub] && Alone(s) && sub.next < |sub.initial|
    ensures Enabled(s, SendInitial(0))
    ensures Next(s, SendInitial(0))
      == s.(subs := [sub.(next := sub.next + 1, sent := sub.sent + [Snapshot(sub.initial[sub.next])])])
  {
    assert forall x :: s.subs[0 := x] == [x];
  }

  // The update in progress is forwarded and received.
  lemma ForwardOne<T>(s: Sys<T>) returns (steps: seq<Step<T>>)
    requires Alone(s) && s.busy == Some(0) && s.log != []
    ensures Reaches(s, steps, AfterForward(s)) && NoEntry(steps) && Alone(AfterForward(s))
  {
    hide Reaches;
    var t := AfterForward(s);
    var u := t.(busy := Some(1));
    StaysPut(t);
    OneMore(u, Unlock, [], t);
    steps := [Unlock] + [];
    ForwardToIt(s);
    if s.subs[0].filter(s.log[|s.log| - 1]) {
      var w := Next(s, Forward);
      ReceiveByIt(w, w.subs[0]);
      OneMore(w, Receive(0), steps, t);
      steps := [Receive(0)] + steps;
      OneMore(s, Forward, steps, t);
    } else {
      OneMore(s, Forward, steps, t);
    }
    steps := [Forward] + steps;
  }

  // Nobody subscribes, or one who receives everything at once.
  ghost predicate Quiet<T>(s: Sys<T>) { s.cap > 0 && ((s.list == [] && s.subs == []) || Alone(s)) }

  ghost predicate OnlyUpdatesSince<T>(was: seq<Sent<T>>, now: seq<Sent<T>>) {
    was <= now && forall j :: |was| <= j < |now| ==> now[j].Update?
  }

  // Neither has come or gone, and the one has been sent nothing but updates.
  ghost predicate SameSubscriber<T>(s: Sys<T>, t: Sys<T>) {
    && s.cap == t.cap && |s.subs| == |t.subs|
    && forall i :: 0 <= i < |s.subs| ==>
      && t.subs[i].filter == s.subs[i].filter && t.subs[i].initial == s.subs[i].initial
      && t.subs[i].next == s.subs[i].next && OnlyUpdatesSince(s.subs[i].sent, t.subs[i].sent)
  }

  // An update that has just been published is forwarded and received.
  lemma Settle<T>(s: Sys<T>) returns (steps: seq<Step<T>>, t: Sys<T>)
    requires Quiet(s) && s.busy == Some(0) && s.log != []
    ensures Reaches(s, steps, t) && NoEntry(steps)
    ensures Quiet(t) && t.busy.None? && t.log == s.log && SameSubscriber(s, t)
  {
    if s.subs == [] {
      t := s.(busy := None);
      StaysPut(t);
      hide Reaches;
      OneMore(s, Unlock, [], t);
      steps := [Unlock] + [];
    } else {
      steps := ForwardOne(s);
      t := AfterForward(s);
    }
  }

  function Snapshotted<T>(vs: seq<T>): (sent: seq<Sent<T>>)
    ensures |sent| == |vs| && forall i :: 0 <= i < |vs| ==> sent[i] == Snapshot(vs[i])
  {
    seq(|vs|, i requires 0 <= i < |vs| => Snapshot(vs[i]))
  }

  ghost function AfterSnapshot<T>(s: Sys<T>): Sys<T>
    requires Alone(s) && s.subs[0].next <= |s.subs[0].initial|
  {
    var sub := s.subs[0];
    s.(subs := [sub.(
      next := |sub.initial|,
      sent := sub.sent + Snapshotted(sub.initial[sub.next..]),
      received := sub.received + (|sub.initial| - sub.next))])
  }

  // After one more value of the snapshot.
  ghost function AfterSend<T>(s: Sys<T>): Sys<T>
    requires Alone(s) && s.subs[0].next < |s.subs[0].initial|
  {
    var sub := s.subs[0];
    s.(subs := [Taking(sub.(next := sub.next + 1), Snapshot(sub.initial[sub.next]))])
  }

  lemma SendOne<T>(s: Sys<T>)
    requires Alone(s) && s.subs[0].next < |s.subs[0].initial|
    ensures Enabled(s, SendInitial(0)) && Enabled(Next(s, SendInitial(0)), Receive(0))
    ensures Next(Next(s, SendInitial(0)), Receive(0)) == AfterSend(s) && Alone(AfterSend(s))
  {
    SendToIt(s, s.subs[0]);
    var sending := Next(s, SendInitial(0));
    ReceiveByIt(sending, sending.subs[0]);
  }

  lemma SendFirst<T>(s: Sys<T>)
    requires Alone(s) && s.subs[0].next < |s.subs[0].initial|
    ensures AfterSnapshot(AfterSend(s)) == AfterSnapshot(s)
  {
    var sub := s.subs[0];
    assert sub.initial[sub.next..] == [sub.initial[sub.next]] + sub.initial[sub.next + 1..];
    assert sub.sent + Snapshotted(sub.initial[sub.next..])
      == sub.sent + [Snapshot(sub.initial[sub.next])] + Snapshotted(sub.initial[sub.next + 1..]);
  }

  // The rest of the snapshot is sent and received.
  lemma {:induction false} SendRest<T>(s: Sys<T>) returns (steps: seq<Step<T>>)
    requires Alone(s) && s.subs[0].next <= |s.subs[0].initial|
    ensures Reaches(s, steps, AfterSnapshot(s)) && NoEntry(steps) && Alone(AfterSnapshot(s))
    decreases |s.subs[0].initial| - s.subs[0].next
  {
    hide Reaches;
    if s.subs[0].next == |s.subs[0].initial| {
      steps := [];
      NothingLeft(s);
      StaysPut(s);
    } else {
      SendOne(s);
      SendFirst(s);
      steps := SendRest(AfterSend(s));
      hide Enabled, Next, AfterSnapshot;
      OneMore(Next(s, SendInitial(0)), Receive(0), steps, AfterSnapshot(s));
      steps := [Receive(0)] + steps;
      OneMore(s, SendInitial(0), steps, AfterSnapshot(s));
      steps := [SendInitial(0)] + steps;
    }
  }

  lemma NothingLeft<T>(s: Sys<T>)
    requires Alone(s) && s.subs[0].next == |s.subs[0].initial|
    ensures AfterSnapshot(s) == s
  {
    var sub := s.subs[0];
    assert sub.sent + Snapshotted(sub.initial[sub.next..]) == sub.sent;
    assert s.subs == [sub];
  }

  // ---- what was sent ----

  lemma {:induction false} SnapshotLast<T>(sent: seq<Sent<T>>, vs: seq<T>)
    ensures Values(sent + Snapshotted(vs)) == Values(sent) + vs
  {
    if vs == [] {
      assert sent + Snapshotted(vs) == sent;
    } else {
      var n := |vs| - 1;
      SnapshotLast(sent, vs[..n]);
      assert sent + Snapshotted(vs) == sent + Snapshotted(vs[..n]) + [Snapshot(vs[n])];
      SendExtends(sent + Snapshotted(vs[..n]), Snapshot(vs[n]));
      assert vs == vs[..n] + [vs[n]];
    }
  }

  // With the snapshot first nothing is outdated.
  lemma {:induction false} NotOutdated<T>(vs: seq<T>, sent: seq<Sent<T>>, p: T -> bool)
    requires OnlyUpdatesSince(Snapshotted(vs), sent)
    ensures LastSent(sent, p).Some? && LastSent(sent, p).value.Snapshot? ==> LastOf(Updates(sent), p).None?
    decreases |sent|
  {
    var n := |sent| - 1;
    if |sent| == |vs| {
      NoUpdates(sent);
    } else {
      NotOutdated(vs, sent[..n], p);
      assert sent[n].Update?;
      assert (Updates(sent[..n]) + [sent[n].value])[..|Updates(sent[..n])|] == Updates(sent[..n]);
    }
  }

  lemma {:induction false} NoUpdates<T>(sent: seq<Sent<T>>)
    requires forall i :: 0 <= i < |sent| ==> sent[i].Snapshot?
    ensures Updates(sent) == []
  {
    if sent != [] {
      NoUpdates(sent[..|sent| - 1]);
    }
  }
}
