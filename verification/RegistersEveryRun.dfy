/** Registers from one instance to the other, over all interleavings of both sides
    and all placements of the forwarder's ticks. */
module RegistersEveryRun {
  import opened Dataflow
  import opened Sequences
  import opened Structure
  import opened Mirror
  import opened RegisterMirrorSystem
  import B = Broadcast
  import A = RegisterDbSystem
  import Current = CurrentRegisters
  import Rx = StructureReceiver
  import R = RegisterDb

  // How a register arrives.
  function Rewrite(cf: RegisterFilterFunc, r: Register): Register { r.(writable := cf(r)) }

  // The forwarder has been sent these registers, with ticks anywhere in between and
  // one at the end, and the receiver has handled the messages.
  ghost predicate Handled(rs: seq<Register>, cf: RegisterFilterFunc, rt: string, ct: string, b: Rx.Device) {
    exists events: seq<Event>, messages: seq<seq<Register>>, steps: seq<Rx.Step> ::
      && ReceivedRegisters(events) == rs && events != [] && events[|events| - 1].Tick?
      && Publishes(events, messages)
      && Rx.Reaches(Rx.Init(), steps, b) && b.Idle() && b.received == OnWire(cf, rt, ct, messages)
  }

  ghost predicate AlwaysKnown(
    rs: seq<Register>, cf: RegisterFilterFunc, rt: string, ct: string, filter: RegisterFilterFunc, r: Register)
  {
    forall b: Rx.Device :: Handled(rs, cf, rt, ct, b) ==> Knows(Updated(filter, b.applied), r.name, r)
  }

  // Every version that is sent and that the receiver accepts compares equal to r.
  ghost predicate AllEqual(rs: seq<Register>, cf: RegisterFilterFunc, filter: RegisterFilterFunc, r: Register) {
    forall v :: v in rs && v.name == r.name && filter(Rewrite(cf, v)) ==> R.RegisterEquals(r, Rewrite(cf, v))
  }

  // ---- the good case ----

  lemma AcceptedWasSent(
    rs: seq<Register>, cf: RegisterFilterFunc, rt: string, ct: string, filter: RegisterFilterFunc,
    events: seq<Event>, messages: seq<seq<Register>>, x: Register)
    requires ReceivedRegisters(events) == rs && Publishes(events, messages)
    requires x in AllAccepted(filter, OnWire(cf, rt, ct, messages))
    ensures filter(x) && exists v :: v in rs && x == Rewrite(cf, v)
  {
    hide Matching, Rewritten, AllAccepted, ReceivedRegisters, Flat, Publishes;
    WireCarries(cf, filter, rt, ct, messages);
    MatchingMembers(filter, Rewritten(cf, Flat(messages)));
    RewrittenMember(filter, cf, Flat(messages), x);
    PublishedWasReceived(events, messages);
  }

  lemma EqualIsKnown(
    rs: seq<Register>, cf: RegisterFilterFunc, rt: string, ct: string, filter: RegisterFilterFunc, r: Register,
    b: Rx.Device)
    requires Handled(rs, cf, rt, ct, b) && r.name != AVAILABILITY && AllEqual(rs, cf, filter, r)
    requires var last := R.LastNamed(rs, r.name); last.Some? && filter(Rewrite(cf, last.value))
    ensures Knows(Updated(filter, b.applied), r.name, r)
  {
    var events: seq<Event>, messages: seq<seq<Register>>, steps: seq<Rx.Step> :|
      && ReceivedRegisters(events) == rs && events != [] && events[|events| - 1].Tick?
      && Publishes(events, messages)
      && Rx.Reaches(Rx.Init(), steps, b) && b.Idle() && b.received == OnWire(cf, rt, ct, messages);
    hide Rx.Reaches, Publishes, ReceivedRegisters, R.LastNamed, AllAccepted, Updated, R.RegisterEquals, Accepted,
      Matching, Rewritten;
    PublishedLast(events, messages, r.name);
    TickPublishesNewest(events, messages, r.name);
    LatestIsLastReceived(events, r.name);
    LastPasses(cf, filter, Flat(messages), r.name);
    WireCarries(cf, filter, rt, ct, messages);
    Rx.AppliedInSomeOrder(steps, b);
    var ms := OnWire(cf, rt, ct, messages);
    Rx.AcceptedMembers(filter, ms);
    forall m, v | m in ms && v in Accepted(filter, m) && v.name == r.name
      ensures R.RegisterEquals(r, v)
    {
      AcceptedWasSent(rs, cf, rt, ct, filter, events, messages, v);
    }
    Rx.EqualVersionsAreLeft(filter, ms, b.applied, r);
  }

  // ---- one tick at the end ----

  lemma {:induction false} Without(message: seq<Register>, name: string) returns (rest: seq<Register>)
    requires OneEach(message)
    ensures OneEach(rest) && forall x :: x in rest ==> x in message
    ensures forall n :: R.LastNamed(rest, n) == if n == name then None else R.LastNamed(message, n)
  {
    if message == [] {
      rest := [];
    } else {
      var n := |message| - 1;
      rest := Without(message[..n], name);
      if message[n].name != name {
        assert forall x :: x in rest ==> x in message[..n] && x.name != message[n].name;
        LastNamedExtends(rest, message[n]);
        rest := rest + [message[n]];
      }
    }
  }

  // There is a message for whatever waits.
  lemma {:induction false} SomeMessage(events: seq<Event>) returns (message: seq<Register>)
    ensures IsMessage(message, events)
  {
    hide R.LastNamed;
    if events == [] || events[|events| - 1].Tick? {
      message := [];
      forall name
        ensures R.LastNamed(message, name) == Tracked(events, name).pending == None
      {
        NothingNamed(name);
      }
    } else {
      var before, e := events[..|events| - 1], events[|events| - 1];
      var earlier := SomeMessage(before);
      if e.reg.name == AVAILABILITY {
        message := earlier;
      } else {
        var rest := Without(earlier, e.reg.name);
        forall x | x in rest
          ensures x.name != e.reg.name
        {
          OneNamed(rest, x);
        }
        message := rest + [e.reg];
        LastNamedExtends(rest, e.reg);
      }
    }
  }

  function Receiving(rs: seq<Register>): (events: seq<Event>)
    ensures |events| == |rs| && forall i :: 0 <= i < |rs| ==> events[i] == Received(rs[i])
  {
    seq(|rs|, i requires 0 <= i < |rs| => Received(rs[i]))
  }

  lemma {:induction false} ReceivingReceives(rs: seq<Register>)
    ensures ReceivedRegisters(Receiving(rs)) == rs && Publishes(Receiving(rs), [])
  {
    if rs != [] {
      var n := |rs| - 1;
      ReceivingReceives(rs[..n]);
      assert Receiving(rs)[..n] == Receiving(rs[..n]);
      assert rs[..n] + [rs[n]] == rs;
    }
  }

  // Everything in one message.
  lemma OneMessage(rs: seq<Register>, name: string) returns (events: seq<Event>, message: seq<Register>)
    requires name != AVAILABILITY
    ensures ReceivedRegisters(events) == rs && events != [] && events[|events| - 1].Tick?
    ensures Publishes(events, [message]) && OneEach(message)
    ensures R.LastNamed(message, name) == R.LastNamed(rs, name)
  {
    var before := Receiving(rs);
    message := SomeMessage(before);
    events := before + [Tick];
    ReceivingReceives(rs);
    NewestIsKept(before, name);
    NothingOut(before, name);
    LatestIsLastReceived(before, name);
    hide R.LastNamed, Tracked;
    assert events[..|before|] == before && [message][..0] == [];
    assert ReceivedRegisters(events) == rs + [] == rs;
  }

  lemma {:induction false} NothingOut(events: seq<Event>, name: string)
    requires forall i :: 0 <= i < |events| ==> events[i].Received?
    ensures Tracked(events, name).published == None
  {
    if events != [] {
      NothingOut(events[..|events| - 1], name);
    }
  }

  lemma HandledInOrder(
    rs: seq<Register>, cf: RegisterFilterFunc, rt: string, ct: string, events: seq<Event>, messages: seq<seq<Register>>)
    returns (b: Rx.Device)
    requires ReceivedRegisters(events) == rs && events != [] && events[|events| - 1].Tick?
    requires Publishes(events, messages)
    ensures Handled(rs, cf, rt, ct, b) && b.applied == OnWire(cf, rt, ct, messages)
  {
    hide Rx.Reaches, Publishes, ReceivedRegisters;
    var ms := OnWire(cf, rt, ct, messages);
    var steps;
    steps, b := Rx.AnyOrderHappens(ms, ms);
  }

  // With one tick, only the last version of a name is sent; if the receiver does
  // not accept that, it does not know the name.
  lemma OneTick(
    rs: seq<Register>, cf: RegisterFilterFunc, rt: string, ct: string, filter: RegisterFilterFunc, name: string)
    returns (b: Rx.Device)
    requires R.LastNamed(rs, name).Some? && !filter(Rewrite(cf, R.LastNamed(rs, name).value)) && name != AVAILABILITY
    ensures Handled(rs, cf, rt, ct, b) && name !in Updated(filter, b.applied)
  {
    hide R.LastNamed, AllAccepted, Updated, Handled, ReceivedRegisters, Publishes, OneEach;
    var events, message := OneMessage(rs, name);
    b := HandledInOrder(rs, cf, rt, ct, events, [message]);
    var ms := OnWire(cf, rt, ct, [message]);
    forall x | x in AllAccepted(filter, ms)
      ensures x.name != name
    {
      OnlyLast(message, cf, filter, rt, ct, x, name);
    }
    NotNamed(AllAccepted(filter, ms), name);
    RegisterMirror(filter, ms, name);
  }

  lemma OnlyLast(
    message: seq<Register>, cf: RegisterFilterFunc, filter: RegisterFilterFunc, rt: string, ct: string,
    x: Register, name: string)
    requires OneEach(message) && x in AllAccepted(filter, OnWire(cf, rt, ct, [message]))
    requires R.LastNamed(message, name).Some? && !filter(Rewrite(cf, R.LastNamed(message, name).value))
    ensures x.name != name
  {
    hide R.LastNamed, AllAccepted, Matching, Rewritten, Flat, OneEach;
    WireCarries(cf, filter, rt, ct, [message]);
    FlatOfOne(message);
    MatchingMembers(filter, Rewritten(cf, message));
    RewrittenMember(filter, cf, message, x);
    var v :| v in message && x == v.(writable := cf(v));
    OneNamed(message, v);
  }

  lemma FlatOfOne(message: seq<Register>)
    ensures Flat([message]) == message
  {
    assert [message][..0] == [] && Flat([]) == [] && [] + message == message;
  }

  lemma NotNamed(rs: seq<Register>, name: string)
    requires forall x :: x in rs ==> x.name != name
    ensures R.LastNamed(rs, name) == None
  {
    R.LastNamedMember(rs, name);
  }

  // ---- a tick after each register ----

  function Ticking(rs: seq<Register>): seq<Event> {
    if rs == [] then [] else Ticking(rs[..|rs| - 1]) + [Received(rs[|rs| - 1])] + [Tick]
  }

  function Single(rs: seq<Register>): (messages: seq<seq<Register>>)
    ensures |messages| == |rs|
    ensures forall i :: 0 <= i < |rs| ==> messages[i] == if rs[i].name == AVAILABILITY then [] else [rs[i]]
  {
    seq(|rs|, i requires 0 <= i < |rs| => if rs[i].name == AVAILABILITY then [] else [rs[i]])
  }

  // These registers are received, these messages published, and nothing waits.
  ghost predicate Sends(events: seq<Event>, rs: seq<Register>, messages: seq<seq<Register>>) {
    && ReceivedRegisters(events) == rs && Publishes(events, messages)
    && forall name :: Tracked(events, name).pending == None
  }

  lemma {:induction false} TickingPublishesEach(rs: seq<Register>)
    ensures Sends(Ticking(rs), rs, Single(rs))
  {
    if rs != [] {
      hide Sends;
      var n := |rs| - 1;
      TickingPublishesEach(rs[..n]);
      TickOnce(Ticking(rs[..n]), rs[..n], Single(rs[..n]), rs[n]);
      SingleExtends(rs);
      assert rs == rs[..n] + [rs[n]];
    }
  }

  lemma SingleExtends(rs: seq<Register>)
    requires rs != []
    ensures var r := rs[|rs| - 1];
      Single(rs) == Single(rs[..|rs| - 1]) + [if r.name == AVAILABILITY then [] else [r]]
  {
  }

  lemma TickOnce(before: seq<Event>, rs: seq<Register>, messages: seq<seq<Register>>, r: Register)
    requires Sends(before, rs, messages)
    ensures var message := if r.name == AVAILABILITY then [] else [r];
      Sends(before + [Received(r)] + [Tick], rs + [r], messages + [message])
  {
    var message := if r.name == AVAILABILITY then [] else [r];
    OneWaits(before, r);
    hide IsMessage, Publishes, ReceivedRegisters, Tracked;
    OneReceived(before, messages, r);
    OneTicked(before + [Received(r)], messages, message);
  }

  lemma OneReceived(before: seq<Event>, messages: seq<seq<Register>>, r: Register)
    requires Publishes(before, messages)
    ensures Publishes(before + [Received(r)], messages)
    ensures ReceivedRegisters(before + [Received(r)]) == ReceivedRegisters(before) + [r]
  {
    assert (before + [Received(r)])[..|before|] == before;
  }

  lemma OneTicked(events: seq<Event>, messages: seq<seq<Register>>, message: seq<Register>)
    requires Publishes(events, messages) && IsMessage(message, events)
    ensures Publishes(events + [Tick], messages + [message])
    ensures ReceivedRegisters(events + [Tick]) == ReceivedRegisters(events)
    ensures forall name :: Tracked(events + [Tick], name).pending == None
  {
    hide IsMessage;
    assert (events + [Tick])[..|events|] == events && (messages + [message])[..|messages|] == messages;
  }

  lemma OneWaits(before: seq<Event>, r: Register)
    requires forall name :: Tracked(before, name).pending == None
    ensures IsMessage(if r.name == AVAILABILITY then [] else [r], before + [Received(r)])
  {
    assert (before + [Received(r)])[..|before|] == before;
    forall name
      ensures R.LastNamed(if r.name == AVAILABILITY then [] else [r], name)
        == Tracked(before + [Received(r)], name).pending
    {
      NothingNamed(name);
      LastNamedExtends([], r);
      assert [] + [r] == [r];
    }
  }

  // Any accepted version can be the one that the receiver is left with.
  lemma EachTick(
    rs: seq<Register>, cf: RegisterFilterFunc, rt: string, ct: string, filter: RegisterFilterFunc, v: Register)
    returns (b: Rx.Device)
    requires v in rs && v.name != AVAILABILITY && filter(Rewrite(cf, v)) && NoEmptyLabel(Rewrite(cf, v))
    ensures Handled(rs, cf, rt, ct, b)
    ensures v.name in Updated(filter, b.applied) && Updated(filter, b.applied)[v.name] == Rewrite(cf, v)
  {
    hide AllAccepted, Updated, Rx.Reaches, NoEmptyLabel;
    TickingPublishesEach(rs);
    var ms := OnWire(cf, rt, ct, Single(rs));
    var i :| 0 <= i < |rs| && rs[i] == v;
    CarriesOne(cf, rt, ct, filter, v);
    assert ms[i] == Structured(cf, rt, ct, [v]);
    hide Accepted, R.LastNamed;
    var order := Rx.HandledLast(filter, ms, i, Rewrite(cf, v));
    var steps;
    steps, b := Rx.AnyOrderHappens(ms, order);
    assert Ticking(rs)[|Ticking(rs)| - 1].Tick?;
  }

  lemma CarriesOne(cf: RegisterFilterFunc, rt: string, ct: string, filter: RegisterFilterFunc, v: Register)
    requires filter(Rewrite(cf, v))
    ensures R.LastNamed(Accepted(filter, Structured(cf, rt, ct, [v])), v.name) == Some(Rewrite(cf, v))
  {
    AcceptedOf(cf, rt, ct, filter, [v]);
    hide Accepted, Structured, Matching;
    var x := Rewrite(cf, v);
    assert Rewritten(cf, [v]) == [x] + [];
    MatchingFirst(filter, x, []);
    MatchingNothing(filter);
    LastNamedExtends([], x);
    assert [] + [x] == [x] + [] == [x];
  }

  // What the receiver accepts of one message.
  lemma AcceptedOf(cf: RegisterFilterFunc, rt: string, ct: string, filter: RegisterFilterFunc, rs: seq<Register>)
    ensures Accepted(filter, Structured(cf, rt, ct, rs)) == Matching(filter, Rewritten(cf, rs))
  {
    WireKeepsRegisters(cf, rs);
    hide Matching, Rewritten;
  }

  // ---- one sequence of registers sent ----

  // The receiver always ends with r exactly if it accepts the last version sent
  // and every version that it accepts compares equal to r; a version that does not
  // is meant to have no empty label.
  lemma AlwaysKnownIff(
    rs: seq<Register>, cf: RegisterFilterFunc, rt: string, ct: string, filter: RegisterFilterFunc, r: Register)
    requires R.LastNamed(rs, r.name).Some? && r.name != AVAILABILITY
    requires forall v :: v in rs && v.name == r.name && filter(Rewrite(cf, v)) ==>
      R.RegisterEquals(r, Rewrite(cf, v)) || NoEmptyLabel(Rewrite(cf, v))
    ensures AlwaysKnown(rs, cf, rt, ct, filter, r)
      <==> filter(Rewrite(cf, R.LastNamed(rs, r.name).value)) && AllEqual(rs, cf, filter, r)
  {
    hide Handled, Updated, R.RegisterEquals, NoEmptyLabel, R.LastNamed;
    if !filter(Rewrite(cf, R.LastNamed(rs, r.name).value)) {
      var b := OneTick(rs, cf, rt, ct, filter, r.name);
      assert !Knows(Updated(filter, b.applied), r.name, r);
    } else if !AllEqual(rs, cf, filter, r) {
      var v :| v in rs && v.name == r.name && filter(Rewrite(cf, v)) && !R.RegisterEquals(r, Rewrite(cf, v));
      var b := EachTick(rs, cf, rt, ct, filter, v);
      assert !Knows(Updated(filter, b.applied), r.name, r);
    } else {
      forall b: Rx.Device | Handled(rs, cf, rt, ct, b)
        ensures Knows(Updated(filter, b.applied), r.name, r)
      {
        EqualIsKnown(rs, cf, rt, ct, filter, r, b);
      }
    }
  }

  // ---- both sides ----

  // The versions of a name that a subscription can be sent.
  ghost predicate CanBeSent(
    before: seq<Register>, more: seq<Register>, f: RegisterFilterFunc, listing: seq<Register>, v: Register)
  {
    v in listing || v in Matching(f, R.Forwarded(R.Fold(map[], before), more))
  }

  // In every interleaving of the sender's database, for all placements of the ticks
  // and in every interleaving of the receiver's routines, the receiver knows r.
  ghost predicate AlwaysMirrored(
    before: seq<Register>, more: seq<Register>, f: RegisterFilterFunc, listing: seq<Register>,
    cf: RegisterFilterFunc, rt: string, ct: string, filter: RegisterFilterFunc, r: Register)
  {
    forall a: A.System, id: nat :: Current.SentAfter(before, more, f, listing, a, id) ==>
      id < |a.bus.subs| && AlwaysKnown(B.Values(a.bus.subs[id].sent), cf, rt, ct, filter, r)
  }

  // That is so for the sender's stored register exactly if the receiver accepts it
  // and every version in the snapshot, and all versions sent that it accepts
  // compare equal to it.
  lemma AlwaysMirroredIff(
    before: seq<Register>, more: seq<Register>, f: RegisterFilterFunc, listing: seq<Register>,
    cf: RegisterFilterFunc, rt: string, ct: string, filter: RegisterFilterFunc, name: string)
    requires var db := R.Fold(map[], before + more); name in db && f(db[name]) && name != AVAILABILITY
    requires A.IsListing(listing, R.Filtered(R.Fold(map[], before), f))
    requires var r := Rewrite(cf, R.Fold(map[], before + more)[name]);
      forall v :: CanBeSent(before, more, f, listing, v) && v.name == name && filter(Rewrite(cf, v)) ==>
        R.RegisterEquals(r, Rewrite(cf, v)) || NoEmptyLabel(Rewrite(cf, v))
    ensures var r := Rewrite(cf, R.Fold(map[], before + more)[name]);
      AlwaysMirrored(before, more, f, listing, cf, rt, ct, filter, r) <==>
        && filter(r)
        && (forall v :: v in listing && v.name == name ==> filter(Rewrite(cf, v)))
        && (forall v :: CanBeSent(before, more, f, listing, v) && v.name == name && filter(Rewrite(cf, v)) ==>
              R.RegisterEquals(r, Rewrite(cf, v)))
  {
    hide R.Fold, R.Forwarded, A.IsListing, R.Filtered, AlwaysKnown, R.RegisterEquals, NoEmptyLabel, CanBeSent,
      Current.SentAfter, R.LastNamed, B.Values;
    var r := Rewrite(cf, R.Fold(map[], before + more)[name]);
    StoredHasName(before + more, name);
    if AlwaysMirrored(before, more, f, listing, cf, rt, ct, filter, r) {
      var s := Current.StoredIsSentLast(before, more, f, listing, name);
      OneRun(before, more, f, listing, s, 0, cf, rt, ct, filter, r);
      forall v | v in listing && v.name == name
        ensures filter(Rewrite(cf, v))
      {
        var t := Current.StaleIsSentLast(before, more, f, listing, v);
        OneRun(before, more, f, listing, t, 0, cf, rt, ct, filter, r);
      }
    } else {
      var a: A.System, id: nat :| Current.SentAfter(before, more, f, listing, a, id)
        && !(id < |a.bus.subs| && AlwaysKnown(B.Values(a.bus.subs[id].sent), cf, rt, ct, filter, r));
      LastOfRun(before, more, f, listing, a, id, name);
      OneRun(before, more, f, listing, a, id, cf, rt, ct, filter, r);
    }
  }

  // The last version sent in a run is the stored one or one of the snapshot.
  lemma LastOfRun(
    before: seq<Register>, more: seq<Register>, f: RegisterFilterFunc, listing: seq<Register>,
    a: A.System, id: nat, name: string)
    requires Current.SentAfter(before, more, f, listing, a, id)
    requires var db := R.Fold(map[], before + more); name in db && f(db[name])
    ensures id < |a.bus.subs|
    ensures var last := R.LastNamed(B.Values(a.bus.subs[id].sent), name);
      && last.Some?
      && (last.value == R.Fold(map[], before + more)[name] || (last.value in listing && last.value.name == name))
  {
    hide R.Fold, R.Forwarded, A.Reaches, R.LastNamed, B.Values, B.LastSent, B.LastOf, Matching;
    var steps := Current.WholeRun(before, more, f, listing, a, id);
    Current.CurrentUnlessOutdated(steps, a, id, name);
    var sent, p := a.bus.subs[id].sent, Current.IsNamed(name);
    B.LastSentIs(sent, p);
    Current.LastNamedIsLastOf(B.Values(sent), name);
    B.LastOfMember(B.Snapshots(sent), p);
    B.LastOfMember(B.Values(sent), p);
  }

  // One run of the sender: the receiver always ends with r exactly if it accepts
  // the last version sent and all versions that it accepts compare equal.
  lemma OneRun(
    before: seq<Register>, more: seq<Register>, f: RegisterFilterFunc, listing: seq<Register>,
    a: A.System, id: nat,
    cf: RegisterFilterFunc, rt: string, ct: string, filter: RegisterFilterFunc, r: Register)
    requires Current.SentAfter(before, more, f, listing, a, id) && r.name != AVAILABILITY
    requires var db := R.Fold(map[], before + more); r.name in db && f(db[r.name])
    requires forall v :: CanBeSent(before, more, f, listing, v) && v.name == r.name && filter(Rewrite(cf, v)) ==>
      R.RegisterEquals(r, Rewrite(cf, v)) || NoEmptyLabel(Rewrite(cf, v))
    ensures id < |a.bus.subs|
    ensures var rs := B.Values(a.bus.subs[id].sent);
      && R.LastNamed(rs, r.name).Some?
      && (AlwaysKnown(rs, cf, rt, ct, filter, r) <==>
            && filter(Rewrite(cf, R.LastNamed(rs, r.name).value))
            && (forall v :: CanBeSent(before, more, f, listing, v) && v.name == r.name && filter(Rewrite(cf, v)) ==>
                  R.RegisterEquals(r, Rewrite(cf, v))))
  {
    hide R.Fold, R.Forwarded, Current.SentAfter, R.LastNamed, B.Values, Matching, AlwaysKnown, R.RegisterEquals,
      NoEmptyLabel;
    LastOfRun(before, more, f, listing, a, id, r.name);
    Current.AllVersionsSent(before, more, f, listing, a, id);
    AlwaysKnownIff(B.Values(a.bus.subs[id].sent), cf, rt, ct, filter, r);
  }

  lemma StoredHasName(rs: seq<Register>, name: string)
    requires name in R.Fold(map[], rs)
    ensures R.Fold(map[], rs)[name].name == name
  {
    R.FoldMember(rs, name);
  }
}
