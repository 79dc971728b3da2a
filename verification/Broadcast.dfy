/** The subscriptions of a storage as a system of interleaved steps: a publisher
    that forwards each update to a list of channels one at a time under a lock,
    one goroutine per subscription that sends the snapshot and later leaves the
    list and closes the channel, and a consumer per channel. */
module Broadcast {
  import opened Sequences
  import opened Dataflow

  datatype Sent<T> = Snapshot(value: T) | Update(value: T)

  // Where a subscription's goroutine stands: sending the snapshot or waiting for
  // the cancellation, about to leave the list, about to close, done.
  datatype Phase = Sending | Leaving | Removed | Closed

  datatype Sub<!T> = Sub(
    filter: T -> bool,
    initial: seq<T>,     // the snapshot to be sent
    patient: bool,       // sends the whole snapshot before looking at the cancellation
    next: nat,           // how much of the snapshot has been sent
    cancelled: bool,
    phase: Phase,
    since: nat,          // how many updates had been published at registration
    until: nat,          // how many had been published when it left the list
    sent: seq<Sent<T>>,
    received: nat)
  {
    predicate Listed() { phase == Sending || phase == Leaving }
    function Buffered(): int { |sent| - received }
  }

  // subs is indexed by subscription; list is the storage's list of them; busy
  // says which element of the list the lock holder forwards to next.
  datatype Sys<!T> = Sys(
    cap: nat,
    log: seq<T>,
    busy: Option<nat>,
    list: seq<nat>,
    subs: seq<Sub<T>>)

  datatype Step<!T> =
    | Publish(value: T)
    | Forward
    | Unlock
    | Subscribe(filter: T -> bool, initial: seq<T>, patient: bool)
    | SendInitial(id: nat)
    | Cancel(id: nat)
    | StopSending(id: nat)
    | Remove(pos: nat)
    | Close(id: nat)
    | Receive(id: nat)

  ghost function Init<T>(cap: nat): Sys<T> {
    Sys(cap, [], None, [], [])
  }

  ghost predicate Enabled<T>(s: Sys<T>, step: Step<T>) {
    match step
    case Publish(_) => s.busy.None?
    case Forward =>
      && s.busy.Some? && s.busy.value < |s.list| && s.log != []
      && s.list[s.busy.value] < |s.subs|
      && var sub := s.subs[s.list[s.busy.value]];
         sub.filter(s.log[|s.log| - 1]) ==> sub.Buffered() < s.cap
    case Unlock => s.busy == Some(|s.list|)
    case Subscribe(_, _, _) => s.busy.None?
    case SendInitial(id) =>
      id < |s.subs| && s.subs[id].phase == Sending && s.subs[id].next < |s.subs[id].initial|
        && s.subs[id].Buffered() < s.cap
    case Cancel(id) => id < |s.subs|
    case StopSending(id) =>
      && id < |s.subs| && s.subs[id].phase == Sending && s.subs[id].cancelled
      && (s.subs[id].patient ==> s.subs[id].next == |s.subs[id].initial|)
    case Remove(pos) =>
      s.busy.None? && pos < |s.list| && s.list[pos] < |s.subs| && s.subs[s.list[pos]].phase == Leaving
    case Close(id) => id < |s.subs| && s.subs[id].phase == Removed
    case Receive(id) => id < |s.subs| && s.subs[id].received < |s.subs[id].sent|
  }

  ghost function Next<T>(s: Sys<T>, step: Step<T>): Sys<T>
    requires Enabled(s, step)
  {
    match step
    case Publish(v) => s.(log := s.log + [v], busy := Some(0))
    case Forward =>
      var id := s.list[s.busy.value];
      var v := s.log[|s.log| - 1];
      var sub := s.subs[id];
      s.(busy := Some(s.busy.value + 1),
         subs := if sub.filter(v) then s.subs[id := sub.(sent := sub.sent + [Update(v)])] else s.subs)
    case Unlock => s.(busy := None)
    case Subscribe(f, initial, patient) =>
      s.(list := s.list + [|s.subs|],
         subs := s.subs + [Sub(f, initial, patient, 0, false, Sending, |s.log|, |s.log|, [], 0)])
    case SendInitial(id) =>
      var sub := s.subs[id];
      s.(subs := s.subs[id := sub.(next := sub.next + 1, sent := sub.sent + [Snapshot(sub.initial[sub.next])])])
    case Cancel(id) => s.(subs := s.subs[id := s.subs[id].(cancelled := true)])
    case StopSending(id) => s.(subs := s.subs[id := s.subs[id].(phase := Leaving)])
    case Remove(pos) =>
      var id := s.list[pos];
      s.(list := s.list[..pos] + s.list[pos + 1..],
         subs := s.subs[id := s.subs[id].(phase := Removed, until := |s.log|)])
    case Close(id) => s.(subs := s.subs[id := s.subs[id].(phase := Closed)])
    case Receive(id) => s.(subs := s.subs[id := s.subs[id].(received := s.subs[id].received + 1)])
  }

  ghost predicate Reaches<T>(s: Sys<T>, steps: seq<Step<T>>, t: Sys<T>)
    decreases |steps|
  {
    if steps == [] then s == t
    else Enabled(s, steps[0]) && Reaches(Next(s, steps[0]), steps[1..], t)
  }

  // ---- what was sent ----

  function Values<T>(sent: seq<Sent<T>>): seq<T> {
    if sent == [] then [] else Values(sent[..|sent| - 1]) + [sent[|sent| - 1].value]
  }

  function Snapshots<T>(sent: seq<Sent<T>>): seq<T> {
    if sent == [] then []
    else Snapshots(sent[..|sent| - 1]) + if sent[|sent| - 1].Snapshot? then [sent[|sent| - 1].value] else []
  }

  function Updates<T>(sent: seq<Sent<T>>): seq<T> {
    if sent == [] then []
    else Updates(sent[..|sent| - 1]) + if sent[|sent| - 1].Update? then [sent[|sent| - 1].value] else []
  }

  lemma SendExtends<T>(sent: seq<Sent<T>>, x: Sent<T>)
    ensures Values(sent + [x]) == Values(sent) + [x.value]
    ensures Snapshots(sent + [x]) == Snapshots(sent) + if x.Snapshot? then [x.value] else []
    ensures Updates(sent + [x]) == Updates(sent) + if x.Update? then [x.value] else []
  {
    assert (sent + [x])[..|sent|] == sent;
  }

  lemma {:induction false} SentIsUnion<T>(sent: seq<Sent<T>>)
    ensures multiset(Values(sent)) == multiset(Snapshots(sent)) + multiset(Updates(sent))
  {
    if sent != [] {
      SentIsUnion(sent[..|sent| - 1]);
    }
  }

  lemma {:induction false} OnlyUpdates<T>(sent: seq<Sent<T>>)
    requires Snapshots(sent) == []
    ensures Values(sent) == Updates(sent)
  {
    if sent != [] {
      OnlyUpdates(sent[..|sent| - 1]);
    }
  }

  // ---- the invariant ----

  // The lock holder has not yet reached this subscription with the last update.
  ghost predicate Pending<T>(s: Sys<T>, id: nat) {
    s.busy.Some? && exists m :: s.busy.value <= m < |s.list| && s.list[m] == id
  }

  // How many of the published updates have been offered to this subscription.
  ghost function Offered<T>(s: Sys<T>, id: nat): int
    requires id < |s.subs|
  {
    if !s.subs[id].Listed() then s.subs[id].until
    else if Pending(s, id) then |s.log| - 1
    else |s.log|
  }

  ghost predicate ListInv<T>(s: Sys<T>) {
    && (forall m, n :: 0 <= m < n < |s.list| ==> s.list[m] != s.list[n])
    && (forall m :: 0 <= m < |s.list| ==> s.list[m] < |s.subs| && s.subs[s.list[m]].Listed())
    && (forall id :: 0 <= id < |s.subs| && s.subs[id].Listed() ==> id in s.list)
    && (s.busy.Some? ==> s.busy.value <= |s.list| && s.log != [])
  }

  // Each subscription has been sent the first next elements of its snapshot and
  // the matching part of the updates offered since it registered.
  ghost predicate SubInv<T>(s: Sys<T>, id: nat)
    requires id < |s.subs|
  {
    var sub := s.subs[id];
    && sub.since <= Offered(s, id) <= |s.log|
    && sub.next <= |sub.initial| && sub.received <= |sub.sent|
    && Snapshots(sub.sent) == sub.initial[..sub.next]
    && Updates(sub.sent) == Matching(sub.filter, s.log[sub.since..Offered(s, id)])
    && (sub.phase != Sending ==> sub.cancelled)
    && (sub.phase != Sending && sub.patient ==> sub.next == |sub.initial|)
  }

  ghost predicate Inv<T>(s: Sys<T>) {
    ListInv(s) && forall id :: 0 <= id < |s.subs| ==> SubInv(s, id)
  }

  // The record of a subscription and what it has been offered are as before, and
  // it has at most moved on after its snapshot.
  lemma SubInvKept<T>(s: Sys<T>, t: Sys<T>, id: nat)
    requires id < |s.subs| && id < |t.subs| && SubInv(s, id)
    requires var a, b := s.subs[id], t.subs[id];
      && b == a.(phase := b.phase, until := b.until)
      && (b.phase == a.phase || (a.phase != Sending && b.phase != Sending))
    requires s.log <= t.log && Offered(t, id) == Offered(s, id)
    ensures SubInv(t, id)
  {
    var sub, n := s.subs[id], Offered(s, id);
    assert t.log[sub.since..n] == s.log[sub.since..n];
  }

  lemma InvPublish<T>(s: Sys<T>, v: T)
    requires Inv(s) && Enabled(s, Publish(v))
    ensures Inv(Next(s, Publish(v)))
  {
    hide SubInv;
    var t := Next(s, Publish(v));
    forall id | 0 <= id < |t.subs|
      ensures SubInv(t, id)
    {
      if s.subs[id].Listed() {
        var m :| 0 <= m < |s.list| && s.list[m] == id;
        assert t.busy.value <= m && t.list[m] == id;
        assert Pending(t, id);
      }
      SubInvKept(s, t, id);
    }
  }

  // Forwarding settles the next element of the list and no other.
  lemma PendingMoves<T>(s: Sys<T>)
    requires ListInv(s) && Enabled(s, Forward)
    ensures var id, t := s.list[s.busy.value], Next(s, Forward);
      && Pending(s, id) && !Pending(t, id) && s.subs[id].Listed()
      && forall other :: other != id ==> (Pending(t, other) <==> Pending(s, other))
  {
    var n := s.busy.value;
    var id, t := s.list[n], Next(s, Forward);
    assert s.list[n] == id;
    forall other | other != id && Pending(s, other)
      ensures Pending(t, other)
    {
      var m :| n <= m < |s.list| && s.list[m] == other;
      assert n + 1 <= m && t.list[m] == other;
    }
  }

  lemma InvForward<T>(s: Sys<T>)
    requires Inv(s) && Enabled(s, Forward)
    ensures Inv(Next(s, Forward))
  {
    hide Pending, SubInv;
    var t := Next(s, Forward);
    PendingMoves(s);
    forall id | 0 <= id < |t.subs|
      ensures SubInv(t, id)
    {
      if id == s.list[s.busy.value] {
        ForwardedTo(s, id);
      } else {
        SubInvKept(s, t, id);
      }
    }
  }

  lemma ForwardedTo<T>(s: Sys<T>, id: nat)
    requires ListInv(s) && Enabled(s, Forward) && id == s.list[s.busy.value] && SubInv(s, id)
    ensures SubInv(Next(s, Forward), id)
  {
    PendingMoves(s);
    hide Pending, ListInv, Snapshots, Updates, Values, Matching;
    var t := Next(s, Forward);
    var sub, v := s.subs[id], s.log[|s.log| - 1];
    OfferOne(sub, s.log, t.subs[id]);
    assert Offered(s, id) == |s.log| - 1 && Offered(t, id) == |s.log|;
  }

  // Offered the last update, a subscription is sent it exactly if it matches.
  lemma OfferOne<T>(sub: Sub<T>, log: seq<T>, then_: Sub<T>)
    requires log != [] && sub.since <= |log| - 1
    requires var v := log[|log| - 1];
      then_ == if sub.filter(v) then sub.(sent := sub.sent + [Update(v)]) else sub
    requires Updates(sub.sent) == Matching(sub.filter, log[sub.since..|log| - 1])
    ensures Snapshots(then_.sent) == Snapshots(sub.sent)
    ensures Updates(then_.sent) == Matching(sub.filter, log[sub.since..|log|])
  {
    hide Snapshots, Updates, Matching;
    var v, offered := log[|log| - 1], log[sub.since..|log| - 1];
    assert log[sub.since..|log|] == offered + [v];
    MatchingExtends(sub.filter, offered, v);
    SendExtends(sub.sent, Update(v));
    if !sub.filter(v) {
      assert Matching(sub.filter, offered) + [] == Matching(sub.filter, offered);
    } else {
      assert Snapshots(sub.sent) + [] == Snapshots(sub.sent);
    }
  }

  lemma InvUnlock<T>(s: Sys<T>)
    requires Inv(s) && Enabled(s, Unlock)
    ensures Inv(Next(s, Unlock))
  {
    hide SubInv;
    forall id | 0 <= id < |s.subs|
      ensures SubInv(Next(s, Unlock), id)
    {
      SubInvKept(s, Next(s, Unlock), id);
    }
  }

  lemma InvSubscribe<T>(s: Sys<T>, f: T -> bool, initial: seq<T>, patient: bool)
    requires Inv(s) && Enabled(s, Subscribe(f, initial, patient))
    ensures Inv(Next(s, Subscribe(f, initial, patient)))
  {
    var t := Next(s, Subscribe(f, initial, patient));
    forall id | 0 <= id < |t.subs|
      ensures SubInv(t, id)
    {
      if id < |s.subs| {
        hide SubInv;
        SubInvKept(s, t, id);
      } else {
        assert t.log[|t.log|..|t.log|] == [];
      }
    }
    hide SubInv;
    forall id | 0 <= id < |t.subs| && t.subs[id].Listed()
      ensures id in t.list
    {
      if id < |s.subs| {
        assert id in s.list;
      } else {
        assert t.list[|s.list|] == id;
      }
    }
  }

  lemma InvRemove<T>(s: Sys<T>, pos: nat)
    requires Inv(s) && Enabled(s, Remove(pos))
    ensures Inv(Next(s, Remove(pos)))
  {
    hide SubInv, Pending, ListInv;
    var t := Next(s, Remove(pos));
    ListInvRemove(s, pos);
    forall id | 0 <= id < |t.subs|
      ensures SubInv(t, id)
    {
      NothingPending(s, id);
      NothingPending(t, id);
      SubInvKept(s, t, id);
    }
  }

  lemma ListInvRemove<T>(s: Sys<T>, pos: nat)
    requires ListInv(s) && Enabled(s, Remove(pos))
    ensures ListInv(Next(s, Remove(pos)))
  {
    WithoutOne(s.list, pos);
    ListedMembers(s);
    hide ListInv;
    ListInvFrom(Next(s, Remove(pos)));
  }

  // The same in terms of membership.
  lemma ListedMembers<T>(s: Sys<T>)
    requires ListInv(s)
    ensures forall m, n :: 0 <= m < n < |s.list| ==> s.list[m] != s.list[n]
    ensures forall id: nat :: id in s.list <==> id < |s.subs| && s.subs[id].Listed()
  {
  }

  lemma ListInvFrom<T>(s: Sys<T>)
    requires s.busy.None? && forall m, n :: 0 <= m < n < |s.list| ==> s.list[m] != s.list[n]
    requires forall id: nat :: id in s.list <==> id < |s.subs| && s.subs[id].Listed()
    ensures ListInv(s)
  {
    assert forall m :: 0 <= m < |s.list| ==> s.list[m] in s.list;
  }

  lemma NothingPending<T>(s: Sys<T>, id: nat)
    requires s.busy.None?
    ensures !Pending(s, id)
  {
  }

  lemma WithoutOne(list: seq<nat>, pos: nat)
    requires pos < |list| && forall m, n :: 0 <= m < n < |list| ==> list[m] != list[n]
    ensures var rest := list[..pos] + list[pos + 1..];
      && (forall id :: id in rest <==> id in list && id != list[pos])
      && (forall m, n :: 0 <= m < n < |rest| ==> rest[m] != rest[n])
  {
    assert list == list[..pos] + [list[pos]] + list[pos + 1..];
  }

  // A step that only touches one subscription's own record.
  lemma InvOwn<T>(s: Sys<T>, id: nat, sub: Sub<T>)
    requires Inv(s) && id < |s.subs|
    requires sub.filter == s.subs[id].filter && sub.since == s.subs[id].since && sub.until == s.subs[id].until
    requires sub.initial == s.subs[id].initial && sub.patient == s.subs[id].patient
    requires sub.Listed() <==> s.subs[id].Listed()
    requires sub.next <= |sub.initial| && sub.received <= |sub.sent|
    requires Snapshots(sub.sent) == sub.initial[..sub.next] && Updates(sub.sent) == Updates(s.subs[id].sent)
    requires sub.phase != Sending ==> sub.cancelled
    requires sub.phase != Sending && sub.patient ==> sub.next == |sub.initial|
    ensures Inv(s.(subs := s.subs[id := sub]))
  {
    var t := s.(subs := s.subs[id := sub]);
    forall i | 0 <= i < |t.subs|
      ensures SubInv(t, i)
    {
      assert SubInv(s, i);
      assert Offered(t, i) == Offered(s, i);
    }
  }

  lemma InvNext<T>(s: Sys<T>, step: Step<T>)
    requires Inv(s) && Enabled(s, step)
    ensures Inv(Next(s, step))
  {
    hide Matching, Snapshots, Updates, Values;
    match step
    case Publish(v) => InvPublish(s, v);
    case Forward => InvForward(s);
    case Unlock => InvUnlock(s);
    case Subscribe(f, initial, patient) => InvSubscribe(s, f, initial, patient);
    case Remove(pos) => InvRemove(s, pos);
    case SendInitial(id) =>
      var sub := s.subs[id];
      assert SubInv(s, id);
      SendExtends(sub.sent, Snapshot(sub.initial[sub.next]));
      assert sub.initial[..sub.next + 1] == sub.initial[..sub.next] + [sub.initial[sub.next]];
      InvOwn(s, id, Next(s, step).subs[id]);
    case Cancel(id) => assert SubInv(s, id); InvOwn(s, id, Next(s, step).subs[id]);
    case StopSending(id) => assert SubInv(s, id); InvOwn(s, id, Next(s, step).subs[id]);
    case Close(id) => assert SubInv(s, id); InvOwn(s, id, Next(s, step).subs[id]);
    case Receive(id) => assert SubInv(s, id); InvOwn(s, id, Next(s, step).subs[id]);
  }

  lemma {:induction false} InvReached<T>(s: Sys<T>, steps: seq<Step<T>>, t: Sys<T>)
    requires Inv(s) && Reaches(s, steps, t)
    ensures Inv(t)
    decreases |steps|
  {
    if steps != [] {
      InvNext(s, steps[0]);
      InvReached(Next(s, steps[0]), steps[1..], t);
    }
  }

  // ---- lifecycle ----

  // The channel a step sends on.
  ghost function Target<T>(s: Sys<T>, step: Step<T>): Option<nat>
    requires Enabled(s, step)
  {
    match step
    case Forward =>
      if s.subs[s.list[s.busy.value]].filter(s.log[|s.log| - 1]) then Some(s.list[s.busy.value]) else None
    case SendInitial(id) => Some(id)
    case _ => None
  }

  // In every interleaving: no send on a closed channel, and a channel is closed
  // only when its subscription has left the list.
  lemma NoSendOnClosed<T>(cap: nat, steps: seq<Step<T>>, s: Sys<T>, step: Step<T>)
    requires Reaches(Init(cap), steps, s) && Enabled(s, step)
    ensures Target(s, step).Some? ==> Target(s, step).value < |s.subs| && s.subs[Target(s, step).value].phase != Closed
    ensures step.Close? ==> step.id !in s.list
  {
    InvReached(Init(cap), steps, s);
  }

  lemma ClosedStays<T>(s: Sys<T>, step: Step<T>, id: nat)
    requires ListInv(s) && id < |s.subs| && s.subs[id].phase == Closed && Enabled(s, step)
    ensures var t := Next(s, step);
      id < |t.subs| && t.subs[id].phase == Closed && t.subs[id].sent == s.subs[id].sent
    ensures Target(s, step) != Some(id) && step != Close(id)
  {
    assert id !in s.list;
  }

  // Once closed, a channel is neither sent on nor closed again.
  lemma {:induction false} ClosedForGood<T>(s: Sys<T>, steps: seq<Step<T>>, t: Sys<T>, step: Step<T>, id: nat)
    requires Inv(s) && id < |s.subs| && s.subs[id].phase == Closed
    requires Reaches(s, steps, t) && Enabled(t, step)
    ensures id < |t.subs| && t.subs[id].phase == Closed && t.subs[id].sent == s.subs[id].sent
    ensures Target(t, step) != Some(id) && step != Close(id)
    decreases |steps|
  {
    hide SubInv, ListInv, Enabled, Next, Target;
    if steps == [] {
      ClosedStays(s, step, id);
    } else {
      InvNext(s, steps[0]);
      ClosedStays(s, steps[0], id);
      ClosedForGood(Next(s, steps[0]), steps[1..], t, step, id);
    }
  }

  // In every interleaving: up to leaving the list, nothing is lost and nothing
  // is doubled. The values sent are the sent part of the snapshot together with
  // every matching update published since registration, and what has been
  // received plus what is buffered is what was sent.
  lemma Delivery<T>(cap: nat, steps: seq<Step<T>>, s: Sys<T>, id: nat)
    requires Reaches(Init(cap), steps, s) && id < |s.subs|
    ensures var sub := s.subs[id];
      && sub.since <= Offered(s, id) <= |s.log| && sub.next <= |sub.initial|
      && multiset(Values(sub.sent))
         == multiset(sub.initial[..sub.next]) + multiset(Matching(sub.filter, s.log[sub.since..Offered(s, id)]))
      && (sub.Listed() && s.busy.None? ==> Offered(s, id) == |s.log|)
      && (sub.patient && !sub.Listed() ==> sub.next == |sub.initial|)
      && (sub.initial == [] ==> Values(sub.sent) == Matching(sub.filter, s.log[sub.since..Offered(s, id)]))
  {
    InvReached(Init(cap), steps, s);
    assert SubInv(s, id);
    var sub := s.subs[id];
    SentIsUnion(sub.sent);
    if sub.initial == [] {
      OnlyUpdates(sub.sent);
    }
  }

  lemma OneMore<T>(s: Sys<T>, step: Step<T>, rest: seq<Step<T>>, t: Sys<T>)
    requires Enabled(s, step) && Reaches(Next(s, step), rest, t)
    ensures Reaches(s, [step] + rest, t)
  {
    hide Enabled, Next;
    assert ([step] + rest)[1..] == rest;
  }

  lemma StaysPut<T>(s: Sys<T>)
    ensures Reaches(s, [], s)
  {
  }

  lemma {:induction false} ReachesThrough<T>(r: Sys<T>, first: seq<Step<T>>, s: Sys<T>, second: seq<Step<T>>, t: Sys<T>)
    requires Reaches(r, first, s) && Reaches(s, second, t)
    ensures Reaches(r, first + second, t)
    decreases |first|
  {
    hide Enabled, Next;
    if first == [] {
      assert first + second == second;
    } else {
      ReachesThrough(Next(r, first[0]), first[1..], s, second, t);
      assert (first + second)[1..] == first[1..] + second && (first + second)[0] == first[0];
    }
  }

  // ---- which value of a kind came last ----

  function LastSent<T>(sent: seq<Sent<T>>, p: T -> bool): Option<Sent<T>> {
    if sent == [] then None
    else if p(sent[|sent| - 1].value) then Some(sent[|sent| - 1])
    else LastSent(sent[..|sent| - 1], p)
  }

  function LastOf<T>(vs: seq<T>, p: T -> bool): Option<T> {
    if vs == [] then None
    else if p(vs[|vs| - 1]) then Some(vs[|vs| - 1])
    else LastOf(vs[..|vs| - 1], p)
  }

  // A snapshot value was sent after an update of the same kind.
  predicate Outdated<T>(sent: seq<Sent<T>>, p: T -> bool) {
    LastSent(sent, p).Some? && LastSent(sent, p).value.Snapshot? && LastOf(Updates(sent), p).Some?
  }

  // The last value of a kind, of everything, of the updates and of the snapshot.
  lemma {:induction false} LastSentIs<T>(sent: seq<Sent<T>>, p: T -> bool)
    ensures var last, update, initial := LastSent(sent, p), LastOf(Updates(sent), p), LastOf(Snapshots(sent), p);
      && LastOf(Values(sent), p) == (if last.None? then None else Some(last.value.value))
      && (last.None? <==> update.None? && initial.None?)
      && (last.Some? && last.value.Update? ==> update == Some(last.value.value))
      && (last.Some? && last.value.Snapshot? ==> initial == Some(last.value.value))
  {
    if sent != [] {
      var before := sent[..|sent| - 1];
      LastSentIs(before, p);
      LastOfExtends(Values(before), sent[|sent| - 1].value, p);
      LastOfExtends(Updates(before), sent[|sent| - 1].value, p);
      LastOfExtends(Snapshots(before), sent[|sent| - 1].value, p);
      assert Updates(before) + [] == Updates(before) && Snapshots(before) + [] == Snapshots(before);
    }
  }

  lemma LastOfExtends<T>(vs: seq<T>, v: T, p: T -> bool)
    ensures LastOf(vs + [v], p) == if p(v) then Some(v) else LastOf(vs, p)
  {
    assert (vs + [v])[..|vs|] == vs;
  }

  lemma {:induction false} LastOfMember<T>(vs: seq<T>, p: T -> bool)
    ensures LastOf(vs, p).Some? ==> LastOf(vs, p).value in vs && p(LastOf(vs, p).value)
    ensures LastOf(vs, p).None? ==> forall v :: v in vs ==> !p(v)
  {
    if vs != [] {
      LastOfMember(vs[..|vs| - 1], p);
    }
  }
}
