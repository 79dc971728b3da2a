/** Which version of a register a subscription is sent last: in one run, and
    whatever the interleaving. */
module CurrentRegisters {
  import opened Dataflow
  import opened Sequences
  import opened RegisterDb
  import opened RegisterDbSystem
  import B = Broadcast
  import L = LateSnapshot

  function IsNamed(name: string): Register -> bool { (r: Register) => r.name == name }

  lemma {:induction false} LastNamedIsLastOf(rs: seq<Register>, name: string)
    ensures LastNamed(rs, name) == B.LastOf(rs, IsNamed(name))
  {
    if rs != [] {
      LastNamedIsLastOf(rs[..|rs| - 1], name);
    }
  }

  // A last version that matches is the last of the matching ones.
  lemma {:induction false} LastMatching(f: RegisterFilterFunc, rs: seq<Register>, name: string)
    ensures var last := LastNamed(rs, name);
      && (last.None? ==> LastNamed(Matching(f, rs), name).None?)
      && (last.Some? && f(last.value) ==> LastNamed(Matching(f, rs), name) == last)
  {
    if rs != [] {
      var before, r := rs[..|rs| - 1], rs[|rs| - 1];
      LastMatching(f, before, name);
      var m := Matching(f, before);
      assert (m + [r])[..|m|] == m && m + [] == m;
    }
  }

  // What was published before and since the registration, and what was sent of it.
  lemma CurrentIff(
    sent: seq<B.Sent<Register>>, before: seq<Register>, since: seq<Register>, f: RegisterFilterFunc,
    current: Register)
    requires LastNamed(before + since, current.name) == Some(current) && f(current)
    requires B.Updates(sent) == Matching(f, since)
    requires forall r :: r in B.Snapshots(sent) ==> LastNamed(before, r.name) == Some(r)
    requires current in B.Snapshots(sent) || current in since
    ensures var p := IsNamed(current.name);
      && B.LastSent(sent, p).Some?
      && (LastNamed(B.Values(sent), current.name) == Some(current)
          <==> (B.Outdated(sent, p) ==> current in B.Snapshots(sent)))
  {
    hide Matching, LastNamed, B.LastSent, B.LastOf, B.Updates, B.Snapshots, B.Values;
    var p := IsNamed(current.name);
    assert p(current);
    LastNamedSplits(before, since, current.name);
    LastMatching(f, since, current.name);
    B.LastSentIs(sent, p);
    LastNamedIsLastOf(B.Values(sent), current.name);
    LastNamedIsLastOf(B.Updates(sent), current.name);
    LastNamedIsLastOf(since, current.name);
    B.LastOfMember(since, p);
    B.LastOfMember(B.Snapshots(sent), p);
  }

  // In every interleaving, once the snapshot has been sent: of the versions sent
  // of a register that matches, the last is the stored one exactly if none of the
  // snapshot was sent after an update or the snapshot has the stored one.
  lemma CurrentUnlessOutdated(steps: seq<Step>, s: System, id: nat, name: string)
    requires Reaches(Init(), steps, s) && id < |s.bus.subs| && s.bus.busy.None?
    requires s.bus.subs[id].Listed() && s.bus.subs[id].next == |s.bus.subs[id].initial|
    requires name in s.db && s.bus.subs[id].filter(s.db[name])
    ensures var sent, p := s.bus.subs[id].sent, IsNamed(name);
      && s.db[name].name == name
      && B.LastSent(sent, p).Some?
      && (LastNamed(B.Values(sent), name) == Some(s.db[name])
          <==> (B.Outdated(sent, p) ==> s.db[name] in s.bus.subs[id].initial))
  {
    hide Fold, Forwarded, Matching, B.Inv, B.LastSent, B.LastOf, LastNamed, B.Outdated;
    InvReached(Init(), steps, s) by { InitInv(); }
    assert Covered(s, id);
    SentInFull(s.bus, id);
    var sub, log := s.bus.subs[id], s.bus.log;
    LastForwarded(s.added, name);
    LastNamedIsLastOf(log, name);
    B.LastOfMember(log, IsNamed(name));
    assert log == log[..sub.since] + log[sub.since..];
    CurrentIff(sub.sent, log[..sub.since], log[sub.since..], sub.filter, s.db[name]);
  }

  // ---- every interleaving ----

  // What a subscription meets when these registers have been added before it and
  // these after it, its snapshot has been sent and the lock is free.
  ghost predicate SentAfter(
    before: seq<Register>, more: seq<Register>, f: RegisterFilterFunc, listing: seq<Register>, s: System, id: nat)
  {
    && id < |s.bus.subs| && s.bus.busy.None?
    && s.bus.subs[id].Listed() && s.bus.subs[id].next == |s.bus.subs[id].initial|
    && s.added == before + more
    && exists first: seq<Step>, r: System, second: seq<Step> ::
      && Reaches(Init(), first, r) && r.added == before && id == |r.bus.subs|
      && Enabled(r, Subscribe(f, listing)) && Reaches(Next(r, Subscribe(f, listing)), second, s)
  }

  ghost predicate EveryRunIsCurrent(
    before: seq<Register>, more: seq<Register>, f: RegisterFilterFunc, listing: seq<Register>, name: string)
  {
    forall s: System, id: nat :: SentAfter(before, more, f, listing, s, id) ==>
      name in s.db && LastNamed(B.Values(s.bus.subs[id].sent), name) == Some(s.db[name])
  }

  // Every interleaving sends the stored version of a register last exactly if the
  // snapshot holds no other version of it.
  lemma EveryRunIsCurrentIff(
    before: seq<Register>, more: seq<Register>, f: RegisterFilterFunc, listing: seq<Register>, name: string)
    requires var db := Fold(map[], before + more); name in db && f(db[name])
    requires IsListing(listing, Filtered(Fold(map[], before), f))
    ensures EveryRunIsCurrent(before, more, f, listing, name)
      <==> forall r :: r in listing && r.name == name ==> r == Fold(map[], before + more)[name]
  {
    hide Fold, Forwarded, IsListing, Reaches, Enabled, Next, LastNamed, Filtered;
    var current := Fold(map[], before + more)[name];
    if r :| r in listing && r.name == name && r != current {
      var s := StaleIsSentLast(before, more, f, listing, r);
      var steps := WholeRun(before, more, f, listing, s, 0);
      assert !EveryRunIsCurrent(before, more, f, listing, name);
    } else {
      forall s: System, id: nat | SentAfter(before, more, f, listing, s, id)
        ensures name in s.db && LastNamed(B.Values(s.bus.subs[id].sent), name) == Some(s.db[name])
      {
        OneVersionIsCurrent(before, more, f, listing, s, id, name);
      }
    }
  }

  lemma OneVersionIsCurrent(
    before: seq<Register>, more: seq<Register>, f: RegisterFilterFunc, listing: seq<Register>,
    s: System, id: nat, name: string)
    requires SentAfter(before, more, f, listing, s, id)
    requires var db := Fold(map[], before + more);
      name in db && f(db[name]) && forall r :: r in listing && r.name == name ==> r == db[name]
    ensures name in s.db && LastNamed(B.Values(s.bus.subs[id].sent), name) == Some(s.db[name])
  {
    hide Fold, Forwarded, IsListing, Reaches, Enabled, Next, LastNamed, Filtered, B.LastSent, B.LastOf;
    var steps := WholeRun(before, more, f, listing, s, id);
    CurrentUnlessOutdated(steps, s, id, name);
    var sent, p := s.bus.subs[id].sent, IsNamed(name);
    if B.Outdated(sent, p) {
      B.LastSentIs(sent, p);
      B.LastOfMember(B.Snapshots(sent), p);
    }
  }

  // The steps before and after the subscription as one run.
  lemma WholeRun(
    before: seq<Register>, more: seq<Register>, f: RegisterFilterFunc, listing: seq<Register>, s: System, id: nat)
    returns (steps: seq<Step>)
    requires SentAfter(before, more, f, listing, s, id)
    ensures Reaches(Init(), steps, s)
    ensures s.bus.subs[id].filter == f && s.bus.subs[id].initial == listing
    ensures s.db == Fold(map[], before + more) && B.Snapshots(s.bus.subs[id].sent) == listing
    ensures B.Updates(s.bus.subs[id].sent) == Matching(f, Forwarded(Fold(map[], before), more))
  {
    var first: seq<Step>, r: System, second: seq<Step> :|
      && Reaches(Init(), first, r) && r.added == before && id == |r.bus.subs|
      && Enabled(r, Subscribe(f, listing)) && Reaches(Next(r, Subscribe(f, listing)), second, s);
    hide Fold, Forwarded, Reaches, B.Inv;
    var t := Next(r, Subscribe(f, listing));
    assert t.bus.subs[id].filter == f && t.bus.subs[id].initial == listing && t.bus.subs[id].since == |r.bus.log|;
    hide Enabled, Next;
    InvReached(Init(), first, r) by { InitInv(); }
    InvNext(r, Subscribe(f, listing));
    KeepsSubscription(t, second, s, id);
    OneMore(r, Subscribe(f, listing), second, s);
    ReachesThrough(Init(), first, r, [Subscribe(f, listing)] + second, s);
    steps := first + ([Subscribe(f, listing)] + second);
    SentInFull(s.bus, id);
    ForwardedSplits(map[], before, more);
    var log := Forwarded(map[], before);
    assert (log + Forwarded(Fold(map[], before), more))[|log|..] == Forwarded(Fold(map[], before), more);
  }

  lemma {:induction false} KeepsSubscription(s: System, steps: seq<Step>, t: System, id: nat)
    requires Inv(s) && Reaches(s, steps, t) && id < |s.bus.subs|
    ensures Inv(t) && id < |t.bus.subs|
    ensures t.bus.subs[id].filter == s.bus.subs[id].filter && t.bus.subs[id].initial == s.bus.subs[id].initial
    ensures t.bus.subs[id].since == s.bus.subs[id].since
    decreases |steps|
  {
    if steps != [] {
      StepKeepsSubscription(s, steps[0], id);
      hide Inv, Enabled, Next;
      InvNext(s, steps[0]);
      KeepsSubscription(Next(s, steps[0]), steps[1..], t, id);
    }
  }

  lemma StepKeepsSubscription(s: System, step: Step, id: nat)
    requires Inv(s) && Enabled(s, step) && id < |s.bus.subs|
    ensures var t := Next(s, step);
      && id < |t.bus.subs| && t.bus.subs[id].since == s.bus.subs[id].since
      && t.bus.subs[id].filter == s.bus.subs[id].filter && t.bus.subs[id].initial == s.bus.subs[id].initial
  {
    if step.Subscription? {
      BusStepKeeps(s.bus, step.step);
    }
  }

  // ---- a run that sends a stale version last ----

  // Registers added one after the other, each forwarded and received at once.
  lemma {:induction false} AddAll(s: System, more: seq<Register>) returns (steps: seq<Step>, t: System)
    requires L.Quiet(s.bus) && s.bus.busy.None?
    ensures Reaches(s, steps, t) && t.added == s.added + more
    ensures L.Quiet(t.bus) && t.bus.busy.None? && L.SameSubscriber(s.bus, t.bus)
    decreases |more|
  {
    hide Reaches, IsNew;
    if more == [] {
      steps, t := [], s;
      StaysPut(s);
      assert s.added + more == s.added;
    } else {
      var first, u := AddAndSettle(s, more[0]);
      var rest;
      rest, t := AddAll(u, more[1..]);
      hide L.Quiet, Enabled, Next;
      ReachesThrough(s, first, u, rest, t);
      steps := first + rest;
      assert s.added + [more[0]] + more[1..] == s.added + more;
    }
  }

  lemma AddAndSettle(s: System, r: Register) returns (steps: seq<Step>, t: System)
    requires L.Quiet(s.bus) && s.bus.busy.None?
    ensures Reaches(s, steps, t) && t.added == s.added + [r]
    ensures L.Quiet(t.bus) && t.bus.busy.None? && L.SameSubscriber(s.bus, t.bus)
  {
    hide Reaches, B.Reaches, IsNew;
    var u := Next(s, AddOne(r));
    if IsNew(s.db, r) {
      var bs, bus := L.Settle(u.bus);
      t := u.(bus := bus);
      Lifted(u, bs, bus);
      steps := Lift(bs);
    } else {
      t, steps := u, [];
      StaysPut(t);
    }
    hide L.Quiet;
    OneMore(s, AddOne(r), steps, t);
    steps := [AddOne(r)] + steps;
  }

  // Everything added later is forwarded before the snapshot: whatever older
  // version the snapshot holds is sent last.
  lemma StaleIsSentLast(
    before: seq<Register>, more: seq<Register>, f: RegisterFilterFunc, listing: seq<Register>, stale: Register)
    returns (s: System)
    requires IsListing(listing, Filtered(Fold(map[], before), f)) && stale in listing
    ensures SentAfter(before, more, f, listing, s, 0)
    ensures LastNamed(B.Values(s.bus.subs[0].sent), stale.name) == Some(stale)
  {
    hide Reaches, Fold, Forwarded, IsListing, Filtered, LastNamed;
    var first, r := AddAll(Init(), before);
    assert [] + before == before;
    InvReached(Init(), first, r) by { InitInv(); }
    var t := Next(r, Subscribe(f, listing));
    var second, u := AddAll(t, more);
    var bs := L.SendRest(u.bus);
    s := u.(bus := L.AfterSnapshot(u.bus));
    Lifted(u, bs, s.bus);
    ReachesThrough(t, second, u, Lift(bs), s);
    assert listing[0..] == listing;
    var sent := u.bus.subs[0].sent;
    L.SnapshotLast(sent, listing);
    LastNamedSplits(B.Values(sent), listing, stale.name);
    ListedIsLast(listing, Filtered(Fold(map[], before), f), stale);
  }

  lemma ListedIsLast(listing: seq<Register>, db: Db, r: Register)
    requires IsListing(listing, db) && r in listing
    ensures LastNamed(listing, r.name) == Some(r)
  {
    LastNamedMember(listing, r.name);
  }

  // The snapshot can just as well be sent before everything added later.
  lemma StoredIsSentLast(
    before: seq<Register>, more: seq<Register>, f: RegisterFilterFunc, listing: seq<Register>, name: string)
    returns (s: System)
    requires IsListing(listing, Filtered(Fold(map[], before), f))
    requires var db := Fold(map[], before + more); name in db && f(db[name])
    ensures SentAfter(before, more, f, listing, s, 0)
    ensures LastNamed(B.Values(s.bus.subs[0].sent), name) == Some(Fold(map[], before + more)[name])
  {
    hide Reaches, Fold, Forwarded, IsListing, Filtered, LastNamed;
    var first, r := AddAll(Init(), before);
    assert [] + before == before;
    InvReached(Init(), first, r) by { InitInv(); }
    var t := Next(r, Subscribe(f, listing));
    var bs := L.SendRest(t.bus);
    var u := t.(bus := L.AfterSnapshot(t.bus));
    Lifted(t, bs, u.bus);
    var second;
    second, s := AddAll(u, more);
    ReachesThrough(t, Lift(bs), u, second, s);
    assert listing[0..] == listing && [] + L.Snapshotted(listing) == L.Snapshotted(listing);
    assert L.OnlyUpdatesSince(u.bus.subs[0].sent, s.bus.subs[0].sent);
    L.NotOutdated(listing, s.bus.subs[0].sent, IsNamed(name));
    var steps := WholeRun(before, more, f, listing, s, 0);
    CurrentUnlessOutdated(steps, s, 0, name);
  }

  // What is sent in every interleaving.
  lemma AllVersionsSent(
    before: seq<Register>, more: seq<Register>, f: RegisterFilterFunc, listing: seq<Register>, s: System, id: nat)
    requires SentAfter(before, more, f, listing, s, id)
    ensures forall v ::
      v in B.Values(s.bus.subs[id].sent) <==> v in listing || v in Matching(f, Forwarded(Fold(map[], before), more))
  {
    hide Reaches, Fold, Forwarded, Matching;
    var steps := WholeRun(before, more, f, listing, s, id);
    var sent := s.bus.subs[id].sent;
    B.SentIsUnion(sent);
    forall v
      ensures v in B.Values(sent) <==> v in B.Snapshots(sent) || v in B.Updates(sent)
    {
      assert v in B.Values(sent) <==> v in multiset(B.Values(sent));
      assert v in B.Snapshots(sent) <==> v in multiset(B.Snapshots(sent));
      assert v in B.Updates(sent) <==> v in multiset(B.Updates(sent));
    }
  }
}
