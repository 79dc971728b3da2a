/** Registers from one instance to the other, end to end: the sender's live
    register database, the on-update forwarder, the messages, and the receiver's
    routines. */
module RegisterMirrorSystem {
  import opened Dataflow
  import opened Sequences
  import opened Structure
  import opened Mirror
  import A = RegisterDbSystem
  import Current = CurrentRegisters
  import B = Broadcast
  import Rx = StructureReceiver
  import R = RegisterDb

  // The messages on the wire, one per message of the forwarder.
  function OnWire(
    cf: RegisterFilterFunc, rt: string, ct: string, messages: seq<seq<Register>>): (ms: seq<StructureMessage>)
    ensures |ms| == |messages| && forall i :: 0 <= i < |ms| ==> ms[i] == Structured(cf, rt, ct, messages[i])
  {
    seq(|messages|, i requires 0 <= i < |messages| => Structured(cf, rt, ct, messages[i]))
  }

  lemma MatchingNothing(f: RegisterFilterFunc)
    ensures Matching(f, []) == []
  {
  }

  // What the receiver gets is the forwarder's registers, filtered, with the
  // writable flag recomputed.
  lemma {:induction false} WireCarries(
    cf: RegisterFilterFunc, filter: RegisterFilterFunc, rt: string, ct: string, messages: seq<seq<Register>>)
    ensures AllAccepted(filter, OnWire(cf, rt, ct, messages)) == Matching(filter, Rewritten(cf, Flat(messages)))
  {
    hide Matching, Rewritten;
    if messages == [] {
      assert Rewritten(cf, []) == [];
      assert Matching(filter, []) == [] by { MatchingNothing(filter); }
    } else {
      var n := |messages| - 1;
      WireCarries(cf, filter, rt, ct, messages[..n]);
      var ms := OnWire(cf, rt, ct, messages);
      assert ms[..n] == OnWire(cf, rt, ct, messages[..n]);
      WireKeepsRegisters(cf, messages[n]);
      RewrittenSplits(cf, Flat(messages[..n]), messages[n]);
      MatchingSplits(filter, Rewritten(cf, Flat(messages[..n])), Rewritten(cf, messages[n]));
    }
  }

  lemma RewrittenSplits(cf: RegisterFilterFunc, a: seq<Register>, b: seq<Register>)
    ensures Rewritten(cf, a + b) == Rewritten(cf, a) + Rewritten(cf, b)
  {
  }

  // The last version sent, if the receiver's filter accepts it as it arrives, is
  // the last one accepted.
  lemma {:induction false} LastPasses(
    cf: RegisterFilterFunc, filter: RegisterFilterFunc, rs: seq<Register>, name: string)
    requires R.LastNamed(rs, name).Some?
    ensures var r := R.LastNamed(rs, name).value;
      var sent := r.(writable := cf(r));
      filter(sent) ==> R.LastNamed(Matching(filter, Rewritten(cf, rs)), name) == Some(sent)
  {
    var n := |rs| - 1;
    var accepted := Matching(filter, Rewritten(cf, rs[..n]));
    var last := rs[n].(writable := cf(rs[n]));
    assert Rewritten(cf, rs) == Rewritten(cf, rs[..n]) + [last];
    MatchingExtends(filter, Rewritten(cf, rs[..n]), last);
    LastNamedExtends(accepted, last);
    assert accepted + [] == accepted;
    if rs[n].name != name {
      LastPasses(cf, filter, rs[..n], name);
    }
  }

  // The sender's side up to the wire: the forwarder has taken everything sent to
  // it, and a tick has come after that.
  ghost predicate Forwarded(a: A.System, id: nat, events: seq<Event>, messages: seq<seq<Register>>) {
    && id < |a.bus.subs| && a.bus.busy.None?
    && a.bus.subs[id].Listed() && a.bus.subs[id].next == |a.bus.subs[id].initial|
    && ReceivedRegisters(events) == B.Values(a.bus.subs[id].sent)
    && events != [] && events[|events| - 1].Tick?
    && Publishes(events, messages)
  }

  // The stored register was the last version sent of its name.
  ghost predicate SentLast(a: A.System, id: nat, name: string)
    requires id < |a.bus.subs| && name in a.db
  {
    R.LastNamed(B.Values(a.bus.subs[id].sent), name) == Some(a.db[name])
  }

  // The newest version on the wire is the sender's stored register.
  lemma NewestOnWire(
    a: A.System, id: nat, events: seq<Event>, messages: seq<seq<Register>>,
    cf: RegisterFilterFunc, filter: RegisterFilterFunc, rt: string, ct: string, name: string)
    requires Forwarded(a, id, events, messages) && name in a.db && name != AVAILABILITY && SentLast(a, id, name)
    ensures var sent := a.db[name].(writable := cf(a.db[name]));
      filter(sent) ==> Newest(filter, OnWire(cf, rt, ct, messages), name) == Some(sent)
  {
    hide R.LastNamed, Matching, Rewritten, AllAccepted, B.Values;
    PublishedLast(events, messages, name);
    TickPublishesNewest(events, messages, name);
    LatestIsLastReceived(events, name);
    LastPasses(cf, filter, Flat(messages), name);
    WireCarries(cf, filter, rt, ct, messages);
  }

  // In every interleaving of the sender's database and of the receiver's routines:
  // the receiver's register of a name is the sender's, with the writable flag
  // recomputed, if the receiver's filter accepts it, the snapshot has that version
  // or none was sent from it after an update, and the messages were handled in
  // order or carry only versions of it that compare equal.
  lemma RegistersMirrored(
    asteps: seq<A.Step>, a: A.System, id: nat, events: seq<Event>, messages: seq<seq<Register>>,
    commandDevice: Option<FilterConf>, rt: string, ct: string,
    bsteps: seq<Rx.Step>, b: Rx.Device, filter: RegisterFilterFunc, name: string)
    requires A.Reaches(A.Init(), asteps, a) && Forwarded(a, id, events, messages)
    requires Rx.Reaches(Rx.Init(), bsteps, b) && b.Idle()
    requires b.received == OnWire(CommandFilter(commandDevice), rt, ct, messages)
    requires name in a.db && name != AVAILABILITY && a.bus.subs[id].filter(a.db[name])
    requires B.Outdated(a.bus.subs[id].sent, Current.IsNamed(name)) ==> a.db[name] in a.bus.subs[id].initial
    ensures var r := a.db[name].(writable := CommandFilter(commandDevice)(a.db[name]));
      filter(r) && (b.applied == b.received || Rx.AllCompareEqual(filter, b.received, r)) ==>
        && Knows(Updated(filter, b.applied), name, r)
        && (b.applied == b.received && NoEmptyLabel(r) ==> Updated(filter, b.applied)[name] == r)
  {
    hide A.Reaches, Rx.Reaches, R.LastNamed, R.RegisterEquals, Matching, AllAccepted, Updated, B.Values, B.Outdated,
      B.LastSent;
    hide CommandFilter, NoEmptyLabel, Accepted, Tracked;
    Current.CurrentUnlessOutdated(asteps, a, id, name);
    var cf := CommandFilter(commandDevice);
    var r := a.db[name].(writable := cf(a.db[name]));
    NewestOnWire(a, id, events, messages, cf, filter, rt, ct, name);
    Rx.AppliedInSomeOrder(bsteps, b);
    if filter(r) {
      RegisterMirror(filter, b.received, name);
      if Rx.AllCompareEqual(filter, b.received, r) {
        Rx.EqualVersionsAreLeft(filter, b.received, b.applied, r);
      }
    }
  }

  // Nothing is made up: every register the receiver has is a version the sender
  // sent, with the writable flag recomputed.
  lemma NothingInvented(
    a: A.System, id: nat, events: seq<Event>, messages: seq<seq<Register>>,
    cf: RegisterFilterFunc, rt: string, ct: string,
    bsteps: seq<Rx.Step>, b: Rx.Device, filter: RegisterFilterFunc, name: string)
    requires Forwarded(a, id, events, messages)
    requires Rx.Reaches(Rx.Init(), bsteps, b) && b.Idle() && b.received == OnWire(cf, rt, ct, messages)
    requires name in Updated(filter, b.applied)
    ensures exists v :: v in B.Values(a.bus.subs[id].sent) && Updated(filter, b.applied)[name] == v.(writable := cf(v))
  {
    hide Rx.Reaches, Matching, AllAccepted, Updated, B.Values, R.Fold, Tracked, R.LastNamed, Rewritten,
      ReceivedRegisters, Flat;
    Rx.AppliedInSomeOrder(bsteps, b);
    UpdatedIsFold(filter, b.applied);
    R.FoldMember(AllAccepted(filter, b.applied), name);
    Rx.SameAccepted(filter, b.received, b.applied);
    WireCarries(cf, filter, rt, ct, messages);
    RewrittenMember(filter, cf, Flat(messages), Updated(filter, b.applied)[name]);
    PublishedWasReceived(events, messages);
  }

  lemma RewrittenMember(filter: RegisterFilterFunc, cf: RegisterFilterFunc, rs: seq<Register>, x: Register)
    requires x in Matching(filter, Rewritten(cf, rs))
    ensures exists v :: v in rs && x == v.(writable := cf(v))
  {
    MatchingMembers(filter, Rewritten(cf, rs));
    var i :| 0 <= i < |rs| && Rewritten(cf, rs)[i] == x;
    assert rs[i] in rs;
  }
}
