/** How full the channels of the subscriptions get, and when that holds up the
    sending of a snapshot. */
module ChannelCapacity {
  import opened Sequences
  import opened Broadcast

  ghost predicate WithinCapacity<T>(s: Sys<T>) {
    forall id :: 0 <= id < |s.subs| ==> 0 <= s.subs[id].Buffered() <= s.cap
  }

  lemma {:induction false} CapacityReached<T>(s: Sys<T>, steps: seq<Step<T>>, t: Sys<T>)
    requires WithinCapacity(s) && Reaches(s, steps, t)
    ensures WithinCapacity(t) && t.cap == s.cap
    decreases |steps|
  {
    if steps != [] {
      WithinCapacityNext(s, steps[0]);
      hide WithinCapacity, Enabled, Next;
      CapacityReached(Next(s, steps[0]), steps[1..], t);
    }
  }

  lemma WithinCapacityNext<T>(s: Sys<T>, step: Step<T>)
    requires WithinCapacity(s) && Enabled(s, step)
    ensures WithinCapacity(Next(s, step)) && Next(s, step).cap == s.cap
  {
  }

  // The goroutine has more of the snapshot to send and the channel is full.
  ghost predicate Blocked<T>(s: Sys<T>, id: nat) {
    id < |s.subs| && s.subs[id].phase == Sending && s.subs[id].next < |s.subs[id].initial|
      && s.subs[id].Buffered() == s.cap
  }

  // Whatever else happens, it stays so until the consumer receives.
  lemma {:induction false} BlockedUntilReceived<T>(s: Sys<T>, steps: seq<Step<T>>, t: Sys<T>, id: nat)
    requires id < |s.subs| && s.subs[id].Buffered() == s.cap && Reaches(s, steps, t)
    requires forall i :: 0 <= i < |steps| ==> steps[i] != Receive(id)
    ensures id < |t.subs| && t.subs[id].Buffered() == t.cap && t.subs[id].next == s.subs[id].next
    ensures !Enabled(t, SendInitial(id))
    decreases |steps|
  {
    if steps != [] {
      assert steps[0] != Receive(id);
      BlockedUntilReceived(Next(s, steps[0]), steps[1..], t, id);
    }
  }

  function SendInitials<T>(id: nat, n: nat): (steps: seq<Step<T>>)
    ensures |steps| == n && forall i :: 0 <= i < n ==> steps[i] == SendInitial(id)
  {
    seq(n, i => SendInitial(id))
  }

  ghost predicate CanRun<T>(s: Sys<T>, steps: seq<Step<T>>)
    decreases |steps|
  {
    steps == [] || (Enabled(s, steps[0]) && CanRun(Next(s, steps[0]), steps[1..]))
  }

  ghost function Ran<T>(s: Sys<T>, steps: seq<Step<T>>): (t: Sys<T>)
    requires CanRun(s, steps)
    ensures Reaches(s, steps, t)
    decreases |steps|
  {
    if steps == [] then s else Ran(Next(s, steps[0]), steps[1..])
  }

  // Steps that lead anywhere can be run.
  lemma {:induction false} ReachesRuns<T>(s: Sys<T>, steps: seq<Step<T>>, t: Sys<T>)
    requires Reaches(s, steps, t)
    ensures CanRun(s, steps) && Ran(s, steps) == t
    decreases |steps|
  {
    hide Enabled, Next;
    if steps != [] {
      ReachesRuns(Next(s, steps[0]), steps[1..], t);
    }
  }

  // Sending n values of the snapshot in a row can be done exactly if they are
  // there and fit into the channel.
  lemma {:induction false} SendsInARow<T>(s: Sys<T>, id: nat, n: nat)
    requires id < |s.subs| && s.subs[id].phase == Sending && s.subs[id].Buffered() <= s.cap
    requires s.subs[id].next <= |s.subs[id].initial|
    ensures CanRun(s, SendInitials(id, n))
      <==> s.subs[id].next + n <= |s.subs[id].initial| && s.subs[id].Buffered() + n <= s.cap
    decreases n
  {
    if n > 0 {
      var steps := SendInitials<T>(id, n);
      assert steps[0] == SendInitial(id) && steps[1..] == SendInitials(id, n - 1);
      if Enabled(s, SendInitial(id)) {
        SendsInARow(Next(s, SendInitial(id)), id, n - 1);
      }
    }
  }

  lemma {:induction false} AfterSends<T>(s: Sys<T>, id: nat, n: nat, t: Sys<T>)
    requires Reaches(s, SendInitials(id, n), t) && id < |s.subs| && s.subs[id].phase == Sending
    ensures |t.subs| == |s.subs| && t.cap == s.cap
    ensures t.subs[id].next == s.subs[id].next + n && t.subs[id].Buffered() == s.subs[id].Buffered() + n
    ensures t.subs[id].phase == Sending && t.subs[id].initial == s.subs[id].initial
    decreases n
  {
    if n > 0 {
      var steps := SendInitials<T>(id, n);
      assert steps[0] == SendInitial(id) && steps[1..] == SendInitials(id, n - 1);
      AfterSends(Next(s, SendInitial(id)), id, n - 1, t);
    }
  }

  lemma {:induction false} SentCount<T>(sent: seq<Sent<T>>)
    ensures |sent| == |Snapshots(sent)| + |Updates(sent)|
  {
    if sent != [] {
      SentCount(sent[..|sent| - 1]);
    }
  }

  // In every interleaving: the rest of the snapshot can be sent without anything
  // being received exactly if the whole snapshot and the updates sent, less what
  // has been received, fit into the channel.
  lemma SnapshotFitsIff<T>(cap: nat, steps: seq<Step<T>>, s: Sys<T>, id: nat)
    requires Reaches(Init(cap), steps, s) && id < |s.subs| && s.subs[id].phase == Sending
    ensures var sub := s.subs[id];
      && sub.next <= |sub.initial|
      && (CanRun(s, SendInitials(id, |sub.initial| - sub.next))
          <==> |sub.initial| + |Updates(sub.sent)| - sub.received <= cap)
  {
    CapacityReached(Init(cap), steps, s);
    SnapshotSoFar(cap, steps, s, id);
    hide Reaches, Snapshots, Updates, CanRun, SendInitials;
    var sub := s.subs[id];
    SentCount(sub.sent);
    SendsInARow(s, id, |sub.initial| - sub.next);
  }

  lemma SnapshotSoFar<T>(cap: nat, steps: seq<Step<T>>, s: Sys<T>, id: nat)
    requires Reaches(Init(cap), steps, s) && id < |s.subs|
    ensures s.subs[id].next <= |s.subs[id].initial| && |Snapshots(s.subs[id].sent)| == s.subs[id].next
  {
    hide Reaches, Matching, Snapshots, Updates, ListInv;
    InvReached(Init(cap), steps, s) by { InitInv<T>(cap); }
    assert SubInv(s, id);
  }

  lemma InitInv<T>(cap: nat)
    ensures Inv(Init<T>(cap))
  {
  }

  // A snapshot longer than the channel does block it.
  lemma LongSnapshotBlocks<T>(s: Sys<T>, id: nat) returns (t: Sys<T>)
    requires id < |s.subs| && s.subs[id].phase == Sending && s.subs[id].next == 0 && s.subs[id].sent == []
    requires s.subs[id].received == 0
    requires |s.subs[id].initial| > s.cap
    ensures Reaches(s, SendInitials(id, s.cap), t) && Blocked(t, id)
  {
    hide Reaches, CanRun;
    SendsInARow(s, id, s.cap);
    t := Ran(s, SendInitials(id, s.cap));
    AfterSends(s, id, s.cap, t);
  }
}
