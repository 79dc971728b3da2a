/** The register database with its subscriptions as interleaved steps. Adding is
    taken register by register; the database holds its lock over a whole call,
    which only leaves out some of these interleavings. */
module RegisterDbSystem {
  import opened Dataflow
  import opened Sequences
  import opened RegisterDb
  import B = Broadcast

  datatype System = System(db: Db, added: seq<Register>, bus: B.Sys<Register>)

  const SUBSCRIPTION_CAP: nat := 16

  datatype Step =
    | AddOne(reg: Register)
    | Subscribe(filter: RegisterFilterFunc, listing: seq<Register>)
    | Subscription(step: B.Step<Register>)

  ghost predicate IsListing(listing: seq<Register>, db: Db) {
    && (forall r :: r in listing ==> r.name in db && db[r.name] == r)
    && (forall n :: n in db ==> db[n] in listing)
  }

  ghost function Init(): System {
    System(map[], [], B.Init(SUBSCRIPTION_CAP))
  }

  ghost predicate Enabled(s: System, step: Step) {
    match step
    case AddOne(_) => s.bus.busy.None?
    case Subscribe(f, listing) => s.bus.busy.None? && IsListing(listing, Filtered(s.db, f))
    case Subscription(b) => !b.Publish? && !b.Subscribe? && B.Enabled(s.bus, b)
  }

  ghost function Next(s: System, step: Step): System
    requires Enabled(s, step)
  {
    match step
    case AddOne(r) =>
      System(After(s.db, r), s.added + [r], if IsNew(s.db, r) then B.Next(s.bus, B.Publish(r)) else s.bus)
    case Subscribe(f, listing) => s.(bus := B.Next(s.bus, B.Subscribe(f, listing, true)))
    case Subscription(b) => s.(bus := B.Next(s.bus, b))
  }

  ghost predicate Reaches(s: System, steps: seq<Step>, t: System)
    decreases |steps|
  {
    if steps == [] then s == t
    else Enabled(s, steps[0]) && Reaches(Next(s, steps[0]), steps[1..], t)
  }

  lemma {:induction false} ReachesThrough(r: System, first: seq<Step>, s: System, second: seq<Step>, t: System)
    requires Reaches(r, first, s) && Reaches(s, second, t)
    ensures Reaches(r, first + second, t)
    decreases |first|
  {
    hide Enabled, Next;
    if first == [] {
      assert first + second == second;
    } else {
      ReachesThrough(Next(r, first[0]), first[1..], s, second, t);
      assert (first + second)[1..] == first[1..] + second && (first + second)[0] == first[0];
    }
  }

  lemma OneMore(s: System, step: Step, rest: seq<Step>, t: System)
    requires Enabled(s, step) && Reaches(Next(s, step), rest, t)
    ensures Reaches(s, [step] + rest, t)
  {
    hide Enabled, Next;
    assert ([step] + rest)[1..] == rest;
  }

  lemma StaysPut(s: System)
    ensures Reaches(s, [], s)
  {
  }

  // Steps of the subscriptions alone.
  ghost function Lift(bs: seq<B.Step<Register>>): (steps: seq<Step>)
    ensures |steps| == |bs| && forall i :: 0 <= i < |bs| ==> steps[i] == Subscription(bs[i])
  {
    seq(|bs|, i requires 0 <= i < |bs| => Subscription(bs[i]))
  }

  lemma {:induction false} Lifted(s: System, bs: seq<B.Step<Register>>, bus: B.Sys<Register>)
    requires B.Reaches(s.bus, bs, bus) && forall i :: 0 <= i < |bs| ==> !bs[i].Publish? && !bs[i].Subscribe?
    ensures Reaches(s, Lift(bs), s.(bus := bus))
    decreases |bs|
  {
    hide B.Enabled, B.Next;
    if bs != [] {
      Lifted(s.(bus := B.Next(s.bus, bs[0])), bs[1..], bus);
      assert Lift(bs)[1..] == Lift(bs[1..]) && Lift(bs)[0] == Subscription(bs[0]);
    }
  }

  // Every register of the database that passes the filter was in the snapshot or
  // has been published since, and the snapshot holds the versions of its time.
  ghost predicate Covered(s: System, id: nat)
    requires id < |s.bus.subs|
  {
    var sub := s.bus.subs[id];
    && sub.patient && sub.since <= |s.bus.log|
    && (forall n :: n in s.db && sub.filter(s.db[n]) ==> s.db[n] in sub.initial || s.db[n] in s.bus.log[sub.since..])
    && (forall r :: r in sub.initial ==> LastNamed(s.bus.log[..sub.since], r.name) == Some(r))
  }

  ghost predicate Inv(s: System) {
    && B.Inv(s.bus)
    && s.db == Fold(map[], s.added) && s.bus.log == Forwarded(map[], s.added)
    && forall id :: 0 <= id < |s.bus.subs| ==> Covered(s, id)
  }

  lemma InvAdd(s: System, r: Register)
    requires Inv(s) && Enabled(s, AddOne(r))
    ensures Inv(Next(s, AddOne(r)))
  {
    hide IsNew, B.Inv, Fold, Forwarded;
    var t := Next(s, AddOne(r));
    FoldExtends(map[], s.added, r);
    if IsNew(s.db, r) {
      B.InvNext(s.bus, B.Publish(r));
    }
    forall id | 0 <= id < |t.bus.subs|
      ensures Covered(t, id)
    {
      assert Covered(s, id);
      CoveredAfterAdd(s, r, id);
    }
  }

  lemma CoveredAfterAdd(s: System, r: Register, id: nat)
    requires Enabled(s, AddOne(r)) && id < |s.bus.subs| && Covered(s, id)
    ensures Covered(Next(s, AddOne(r)), id)
  {
    hide IsNew;
    if IsNew(s.db, r) {
      var sub, log := s.bus.subs[id], s.bus.log;
      assert (log + [r])[sub.since..] == log[sub.since..] + [r] && (log + [r])[..sub.since] == log[..sub.since];
    }
  }

  // The stored version of a register is the last one forwarded.
  lemma {:induction false} LastForwarded(rs: seq<Register>, name: string)
    ensures name in Fold(map[], rs) ==> LastNamed(Forwarded(map[], rs), name) == Some(Fold(map[], rs)[name])
  {
    hide RegisterEquals;
    if rs != [] {
      var before, r := rs[..|rs| - 1], rs[|rs| - 1];
      LastForwarded(before, name);
      assert before + [r] == rs;
      FoldExtends(map[], before, r);
      var log := Forwarded(map[], before);
      assert (log + [r])[..|log|] == log && log + [] == log;
    }
  }

  lemma InvSubscribe(s: System, f: RegisterFilterFunc, listing: seq<Register>)
    requires Inv(s) && Enabled(s, Subscribe(f, listing))
    ensures Inv(Next(s, Subscribe(f, listing)))
  {
    hide B.Inv, Fold, Forwarded;
    var t := Next(s, Subscribe(f, listing));
    B.InvNext(s.bus, B.Subscribe(f, listing, true));
    forall id | 0 <= id < |t.bus.subs|
      ensures Covered(t, id)
    {
      if id < |s.bus.subs| {
        assert Covered(s, id);
      } else {
        forall n | n in s.db && f(s.db[n])
          ensures s.db[n] in listing
        {
          assert n in Filtered(s.db, f);
        }
        assert s.bus.log[..|s.bus.log|] == s.bus.log;
        forall r | r in listing
          ensures LastNamed(s.bus.log, r.name) == Some(r)
        {
          LastForwarded(s.added, r.name);
        }
      }
    }
  }

  lemma BusStepKeeps(s: B.Sys<Register>, b: B.Step<Register>)
    requires B.Inv(s) && B.Enabled(s, b) && !b.Subscribe? && !b.Publish?
    ensures var t := B.Next(s, b);
      && |t.subs| == |s.subs| && t.log == s.log
      && forall id :: 0 <= id < |s.subs| ==>
        t.subs[id].filter == s.subs[id].filter && t.subs[id].since == s.subs[id].since
        && t.subs[id].initial == s.subs[id].initial && t.subs[id].patient == s.subs[id].patient
  {
  }

  lemma InvBus(s: System, b: B.Step<Register>)
    requires Inv(s) && Enabled(s, Subscription(b))
    ensures Inv(Next(s, Subscription(b)))
  {
    B.InvNext(s.bus, b);
    BusStepKeeps(s.bus, b);
    hide B.Inv, B.Next, B.Enabled, Fold, Forwarded;
    var t := Next(s, Subscription(b));
    forall id | 0 <= id < |t.bus.subs|
      ensures Covered(t, id)
    {
      assert Covered(s, id);
    }
  }

  lemma InvNext(s: System, step: Step)
    requires Inv(s) && Enabled(s, step)
    ensures Inv(Next(s, step))
  {
    hide Inv;
    match step
    case AddOne(r) => InvAdd(s, r);
    case Subscribe(f, listing) => InvSubscribe(s, f, listing);
    case Subscription(b) => InvBus(s, b);
  }

  lemma {:induction false} InvReached(s: System, steps: seq<Step>, t: System)
    requires Inv(s) && Reaches(s, steps, t)
    ensures Inv(t)
    decreases |steps|
  {
    if steps != [] {
      InvNext(s, steps[0]);
      InvReached(Next(s, steps[0]), steps[1..], t);
    }
  }

  lemma InitInv()
    ensures Inv(Init())
  {
  }

  // ---- the subscriptions of a run ----

  ghost function BusStep(s: System, step: Step): Option<B.Step<Register>>
    requires Enabled(s, step)
  {
    match step
    case AddOne(r) => if IsNew(s.db, r) then Some(B.Publish(r)) else None
    case Subscribe(f, listing) => Some(B.Subscribe(f, listing, true))
    case Subscription(b) => Some(b)
  }

  lemma BusMoves(s: System, step: Step)
    requires Enabled(s, step)
    ensures var b := BusStep(s, step);
      if b.None? then Next(s, step).bus == s.bus
      else B.Enabled(s.bus, b.value) && Next(s, step).bus == B.Next(s.bus, b.value)
  {
    hide IsNew, B.Next;
  }

  // The subscriptions of every run of the database run as those of a broadcast.
  lemma {:induction false} Projected(s: System, steps: seq<Step>, t: System) returns (bs: seq<B.Step<Register>>)
    requires Reaches(s, steps, t)
    ensures B.Reaches(s.bus, bs, t.bus)
    decreases |steps|
  {
    hide Enabled, Next, BusStep, B.Enabled, B.Next;
    if steps == [] {
      bs := [];
    } else {
      BusMoves(s, steps[0]);
      bs := Projected(Next(s, steps[0]), steps[1..], t);
      var b := BusStep(s, steps[0]);
      if b.Some? {
        B.OneMore(s.bus, b.value, bs, t.bus);
        bs := [b.value] + bs;
      }
    }
  }

  // In every interleaving of the database no step sends on a closed channel, a
  // channel is closed only when its subscription has left the list, and a
  // closed channel is neither sent on nor closed again.
  lemma Lifecycle(steps: seq<Step>, s: System, more: seq<Step>, t: System, step: Step, id: nat)
    requires Reaches(Init(), steps, s) && Reaches(s, more, t) && Enabled(t, step)
    ensures var b := BusStep(t, step);
      b.Some? ==>
        && B.Enabled(t.bus, b.value)
        && (B.Target(t.bus, b.value) == Some(id) ==> id < |t.bus.subs| && t.bus.subs[id].phase != B.Closed)
        && (b.value == B.Close(id) ==> id !in t.bus.list)
        && (id < |s.bus.subs| && s.bus.subs[id].phase == B.Closed ==>
              B.Target(t.bus, b.value) != Some(id) && b.value != B.Close(id))
  {
    hide Enabled, Next, BusStep, B.Inv, B.Enabled, B.Next, B.Target, B.Reaches;
    var bs := Projected(Init(), steps, s);
    var cs := Projected(s, more, t);
    B.ReachesThrough(Init().bus, bs, s.bus, cs, t.bus);
    B.InvReached(Init().bus, bs, s.bus) by { InitInv(); }
    var b := BusStep(t, step);
    BusMoves(t, step);
    if b.Some? {
      B.NoSendOnClosed(SUBSCRIPTION_CAP, bs + cs, t.bus, b.value);
      if id < |s.bus.subs| && s.bus.subs[id].phase == B.Closed {
        B.ClosedForGood(s.bus, cs, t.bus, b.value, id);
      }
    }
  }

  // In every interleaving of the database a subscription is sent the first part
  // of its snapshot and the matching changes since its registration, each once,
  // and the whole snapshot before it leaves the list.
  lemma DeliveryInEveryRun(steps: seq<Step>, s: System, id: nat)
    requires Reaches(Init(), steps, s) && id < |s.bus.subs|
    ensures var sub := s.bus.subs[id];
      && sub.since <= B.Offered(s.bus, id) <= |s.bus.log| && sub.next <= |sub.initial|
      && multiset(B.Values(sub.sent)) == multiset(sub.initial[..sub.next])
         + multiset(Matching(sub.filter, s.bus.log[sub.since..B.Offered(s.bus, id)]))
      && (sub.Listed() && s.bus.busy.None? ==> B.Offered(s.bus, id) == |s.bus.log|)
      && (!sub.Listed() ==> sub.next == |sub.initial|)
  {
    hide B.Reaches, B.Offered, Matching, B.Values;
    InvReached(Init(), steps, s) by { InitInv(); }
    assert Covered(s, id);
    var bs := Projected(Init(), steps, s);
    B.Delivery(SUBSCRIPTION_CAP, bs, s.bus, id);
  }

  lemma SentInFull(s: B.Sys<Register>, id: nat)
    requires B.Inv(s) && s.busy.None? && id < |s.subs| && s.subs[id].Listed() && s.subs[id].next == |s.subs[id].initial|
    ensures var sub := s.subs[id];
      && sub.since <= |s.log|
      && B.Snapshots(sub.sent) == sub.initial
      && B.Updates(sub.sent) == Matching(sub.filter, s.log[sub.since..])
  {
    hide Matching, B.Snapshots, B.Updates;
    assert B.SubInv(s, id) && B.Offered(s, id) == |s.log|;
    var sub := s.subs[id];
    assert sub.initial[..sub.next] == sub.initial && s.log[sub.since..|s.log|] == s.log[sub.since..];
  }

  // In every interleaving: once the lock is free and a listed subscription has
  // sent its snapshot, the current version of every register that passes its
  // filter has been sent to it, and in total it has been sent exactly its
  // snapshot and the matching registers published since.
  lemma NoRegisterMissed(steps: seq<Step>, s: System, id: nat, name: string)
    requires Reaches(Init(), steps, s) && id < |s.bus.subs| && s.bus.busy.None?
    requires s.bus.subs[id].Listed() && s.bus.subs[id].next == |s.bus.subs[id].initial|
    requires name in s.db && s.bus.subs[id].filter(s.db[name])
    ensures s.db[name] in B.Values(s.bus.subs[id].sent)
    ensures s.bus.subs[id].since <= |s.bus.log|
    ensures multiset(B.Values(s.bus.subs[id].sent))
         == multiset(s.bus.subs[id].initial)
            + multiset(Matching(s.bus.subs[id].filter, s.bus.log[s.bus.subs[id].since..]))
  {
    hide Fold, Forwarded, Matching;
    InvReached(Init(), steps, s) by { InitInv(); }
    assert Covered(s, id);
    AllSent(s.bus, id);
    var sub, r := s.bus.subs[id], s.db[name];
    if r in s.bus.log[sub.since..] {
      MatchingMembers(sub.filter, s.bus.log[sub.since..]);
    }
    assert r in multiset(B.Values(sub.sent));
  }

  lemma AllSent(s: B.Sys<Register>, id: nat)
    requires B.Inv(s) && id < |s.subs| && s.busy.None?
    requires s.subs[id].Listed() && s.subs[id].next == |s.subs[id].initial|
    ensures s.subs[id].since <= |s.log|
    ensures multiset(B.Values(s.subs[id].sent))
         == multiset(s.subs[id].initial) + multiset(Matching(s.subs[id].filter, s.log[s.subs[id].since..]))
  {
    hide Matching, B.Inv;
    SentInFull(s, id);
    B.SentIsUnion(s.subs[id].sent);
  }
}
