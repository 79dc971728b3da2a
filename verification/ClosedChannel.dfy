/** When a consumer can receive from its closed channel: after the cancellation of
    its subscription, and then in some run always. */
module ClosedChannel {
  import opened Sequences
  import opened Dataflow
  import opened Broadcast

  // The channel is closed and nothing is left in it.
  ghost predicate AtEnd<T>(s: Sys<T>, id: nat) {
    id < |s.subs| && s.subs[id].phase == Closed && s.subs[id].Buffered() == 0
  }

  // A consumer whose subscription has not been cancelled cannot come to the end,
  // and at the end everything offered until the removal has been received.
  lemma EndMeansCancelled<T>(cap: nat, steps: seq<Step<T>>, s: Sys<T>, id: nat)
    requires Reaches(Init(cap), steps, s) && AtEnd(s, id)
    ensures s.subs[id].cancelled && s.subs[id].received == |s.subs[id].sent|
    ensures s.subs[id].since <= s.subs[id].until <= |s.log|
    ensures Updates(s.subs[id].sent) == Matching(s.subs[id].filter, s.log[s.subs[id].since..s.subs[id].until])
  {
    hide Reaches, Matching, Updates, Snapshots;
    InvReached(Init(cap), steps, s) by { InitInv<T>(cap); }
    assert SubInv(s, id);
  }

  lemma InitInv<T>(cap: nat)
    ensures Inv(Init<T>(cap))
  {
  }

  // Whenever the lock is free and the goroutine may stop sending, a cancellation
  // can be followed by the end, before the consumer does anything else.
  lemma EndCanCome<T>(cap: nat, steps: seq<Step<T>>, s: Sys<T>, id: nat) returns (more: seq<Step<T>>, t: Sys<T>)
    requires Reaches(Init(cap), steps, s) && id < |s.subs| && s.busy.None? && s.subs[id].phase == Sending
    requires s.subs[id].patient ==> s.subs[id].next == |s.subs[id].initial|
    ensures Reaches(s, more, t) && AtEnd(t, id) && t.subs[id].sent == s.subs[id].sent
  {
    InvReached(Init(cap), steps, s) by { InitInv<T>(cap); }
    assert SubInv(s, id) && ListInv(s);
    hide Reaches, SubInv;
    var s1 := Next(s, Cancel(id));
    var s2 := Next(s1, StopSending(id));
    assert id in s2.list;
    var pos :| 0 <= pos < |s2.list| && s2.list[pos] == id;
    hide ListInv;
    more, t := RemoveAndReceive(s2, id, pos);
    OneMore(s1, StopSending(id), more, t);
    more := [StopSending(id)] + more;
    OneMore(s, Cancel(id), more, t);
    more := [Cancel(id)] + more;
  }

  lemma RemoveAndReceive<T>(s: Sys<T>, id: nat, pos: nat) returns (steps: seq<Step<T>>, t: Sys<T>)
    requires s.busy.None? && pos < |s.list| && s.list[pos] == id
    requires id < |s.subs| && s.subs[id].phase == Leaving && s.subs[id].received <= |s.subs[id].sent|
    ensures Reaches(s, steps, t) && AtEnd(t, id) && t.subs[id].sent == s.subs[id].sent
  {
    hide Reaches;
    var s1 := Next(s, Remove(pos));
    var s2 := Next(s1, Close(id));
    steps, t := ReceiveAll(s2, id);
    OneMore(s1, Close(id), steps, t);
    steps := [Close(id)] + steps;
    OneMore(s, Remove(pos), steps, t);
    steps := [Remove(pos)] + steps;
  }

  lemma {:induction false} ReceiveAll<T>(s: Sys<T>, id: nat) returns (steps: seq<Step<T>>, t: Sys<T>)
    requires id < |s.subs| && s.subs[id].received <= |s.subs[id].sent|
    ensures Reaches(s, steps, t) && id < |t.subs| && t.subs[id] == s.subs[id].(received := |s.subs[id].sent|)
    decreases s.subs[id].Buffered()
  {
    hide Reaches;
    if s.subs[id].received == |s.subs[id].sent| {
      steps, t := [], s;
      StaysPut(s);
    } else {
      steps, t := ReceiveAll(Next(s, Receive(id)), id);
      OneMore(s, Receive(id), steps, t);
      steps := [Receive(id)] + steps;
    }
  }
}
