/** The receiving device's handling of structure messages: one routine per message,
    in any interleaving, each looking at the set-up flag, maybe setting up the
    subscriptions, and then adding the message's registers. */
module StructureReceiver {
  import opened Dataflow
  import opened Sequences
  import opened Mirror
  import opened Commands
  import R = RegisterDb

  datatype Device = Device(
    received: seq<StructureMessage>,
    started: multiset<StructureMessage>,     // routines that have not looked at the flag yet
    settingUp: multiset<StructureMessage>, // routines that found the flag unset
    ready: multiset<StructureMessage>,     // routines about to add their registers
    setUps: seq<StructureMessage>,         // the messages that set up subscriptions
    applied: seq<StructureMessage>)        // the messages whose registers were added
  {
    // The flag is set with the first set-up.
    predicate SubscriptionSetup() { setUps != [] }

    ghost predicate Idle() { started == settingUp == ready == multiset{} }
  }

  datatype Step =
    | Receive(msg: StructureMessage)
    | Check(msg: StructureMessage)
    | SetUp(msg: StructureMessage)
    | Apply(msg: StructureMessage)

  function Init(): Device {
    Device([], multiset{}, multiset{}, multiset{}, [], [])
  }

  predicate Enabled(s: Device, step: Step) {
    match step
    case Receive(_) => true
    case Check(m) => m in s.started
    case SetUp(m) => m in s.settingUp
    case Apply(m) => m in s.ready
  }

  function Next(s: Device, step: Step): Device
    requires Enabled(s, step)
  {
    match step
    case Receive(m) => s.(received := s.received + [m], started := s.started + multiset{m})
    case Check(m) =>
      if s.SubscriptionSetup() then s.(started := s.started - multiset{m}, ready := s.ready + multiset{m})
      else s.(started := s.started - multiset{m}, settingUp := s.settingUp + multiset{m})
    case SetUp(m) =>
      s.(settingUp := s.settingUp - multiset{m}, ready := s.ready + multiset{m}, setUps := s.setUps + [m])
    case Apply(m) => s.(ready := s.ready - multiset{m}, applied := s.applied + [m])
  }

  predicate Reaches(s: Device, steps: seq<Step>, t: Device)
    decreases |steps|
  {
    if steps == [] then s == t
    else Enabled(s, steps[0]) && Reaches(Next(s, steps[0]), steps[1..], t)
  }

  lemma {:induction false} ReachesThrough(r: Device, first: seq<Step>, s: Device, second: seq<Step>, t: Device)
    requires Reaches(r, first, s) && Reaches(s, second, t)
    ensures Reaches(r, first + second, t)
    decreases |first|
  {
    hide Enabled, Next;
    if first == [] {
      assert first + second == second;
    } else {
      ReachesThrough(Next(r, first[0]), first[1..], s, second, t);
      assert (first + second)[1..] == first[1..] + second && (first + second)[0] == first[0];
    }
  }

  // ---- every message is applied once, in some order ----

  // Each message received is in the hands of one routine or has been applied.
  ghost predicate Accounted(s: Device, m: StructureMessage) {
    multiset(s.received)[m] == s.started[m] + s.settingUp[m] + s.ready[m] + multiset(s.applied)[m]
  }

  ghost predicate SetUpFirst(s: Device) { s.ready != multiset{} || s.applied != [] ==> s.setUps != [] }

  ghost predicate Inv(s: Device) {
    (forall m :: Accounted(s, m)) && SetUpFirst(s)
  }

  lemma CountExtends(ms: seq<StructureMessage>, n: StructureMessage, m: StructureMessage)
    ensures multiset(ms + [n])[m] == multiset(ms)[m] + if n == m then 1 else 0
  {
  }

  lemma AccountedNext(s: Device, step: Step, m: StructureMessage)
    requires Accounted(s, m) && Enabled(s, step)
    ensures Accounted(Next(s, step), m)
  {
    CountExtends(s.received, step.msg, m);
    CountExtends(s.applied, step.msg, m);
  }

  lemma SetUpFirstNext(s: Device, step: Step)
    requires SetUpFirst(s) && Enabled(s, step)
    ensures SetUpFirst(Next(s, step))
  {
  }

  lemma InvNext(s: Device, step: Step)
    requires Inv(s) && Enabled(s, step)
    ensures Inv(Next(s, step))
  {
    hide Accounted, SetUpFirst, Enabled, Next;
    SetUpFirstNext(s, step);
    forall m
      ensures Accounted(Next(s, step), m)
    {
      AccountedNext(s, step, m);
    }
  }

  lemma {:induction false} InvReached(s: Device, steps: seq<Step>, t: Device)
    requires Inv(s) && Reaches(s, steps, t)
    ensures Inv(t)
    decreases |steps|
  {
    hide Inv, Enabled, Next;
    if steps != [] {
      InvNext(s, steps[0]);
      InvReached(Next(s, steps[0]), steps[1..], t);
    }
  }

  lemma AppliedInSomeOrder(steps: seq<Step>, s: Device)
    requires Reaches(Init(), steps, s) && s.Idle()
    ensures multiset(s.applied) == multiset(s.received)
    ensures s.received != [] ==> s.setUps != []
  {
    InvReached(Init(), steps, s);
    forall m
      ensures multiset(s.applied)[m] == multiset(s.received)[m]
    {
      assert Accounted(s, m);
    }
    if s.received != [] {
      assert s.received[0] in multiset(s.applied);
    }
  }

  // ---- and any order happens ----

  lemma OneMore(s: Device, step: Step, rest: seq<Step>, t: Device)
    requires Enabled(s, step) && Reaches(Next(s, step), rest, t)
    ensures Reaches(s, [step] + rest, t)
  {
    hide Enabled, Next;
    assert ([step] + rest)[1..] == rest;
  }

  lemma StaysPut(s: Device)
    ensures Reaches(s, [], s)
  {
  }

  lemma {:induction false} ReceiveAll(s: Device, ms: seq<StructureMessage>) returns (steps: seq<Step>)
    ensures Reaches(s, steps, s.(received := s.received + ms, started := s.started + multiset(ms)))
    decreases |ms|
  {
    hide Reaches;
    if ms == [] {
      steps := [];
      assert s.received + ms == s.received && s.started + multiset(ms) == s.started;
      StaysPut(s);
    } else {
      var t := Next(s, Receive(ms[0]));
      var rest := ReceiveAll(t, ms[1..]);
      assert ms == [ms[0]] + ms[1..];
      assert t.received + ms[1..] == s.received + ms;
      assert t.started + multiset(ms[1..]) == s.started + multiset(ms);
      steps := [Receive(ms[0])] + rest;
      OneMore(s, Receive(ms[0]), rest, s.(received := s.received + ms, started := s.started + multiset(ms)));
    }
  }

  // One routine after the other, in the given order.
  lemma {:induction false} OneAfterTheOther(
    s: Device, order: seq<StructureMessage>) returns (steps: seq<Step>, t: Device)
    requires s.started == multiset(order) && s.settingUp == s.ready == multiset{}
    ensures Reaches(s, steps, t) && t.Idle() && t.received == s.received && t.applied == s.applied + order
    ensures t.setUps == if s.setUps == [] && order != [] then [order[0]] else s.setUps
    decreases |order|
  {
    hide Reaches;
    if order == [] {
      steps, t := [], s;
      assert s.applied + order == s.applied;
      StaysPut(s);
    } else {
      hide Enabled, Next;
      var m, later := order[0], order[1..];
      WithoutFirst(order);
      var first, u := OneRoutine(s, m);
      var rest;
      rest, t := OneAfterTheOther(u, later);
      steps := first + rest;
      ReachesThrough(s, first, u, rest, t);
      assert u.applied + later == s.applied + order;
    }
  }

  lemma WithoutFirst(order: seq<StructureMessage>)
    requires order != []
    ensures multiset(order) - multiset{order[0]} == multiset(order[1..]) && order[0] in multiset(order)
  {
    assert order == [order[0]] + order[1..];
  }

  lemma OneRoutine(s: Device, m: StructureMessage) returns (steps: seq<Step>, t: Device)
    requires m in s.started && s.settingUp == s.ready == multiset{}
    ensures Reaches(s, steps, t)
    ensures t == s.(
      started := s.started - multiset{m},
      applied := s.applied + [m],
      setUps := if s.setUps == [] then [m] else s.setUps)
  {
    hide Reaches;
    var u := s.(
      started := s.started - multiset{m}, ready := multiset{m}, setUps := if s.setUps == [] then [m] else s.setUps);
    t := u.(ready := multiset{}, applied := s.applied + [m]);
    StaysPut(t);
    assert Next(u, Apply(m)) == t;
    OneMore(u, Apply(m), [], t);
    steps := [Apply(m)] + [];
    if s.SubscriptionSetup() {
      assert Next(s, Check(m)) == u;
      OneMore(s, Check(m), steps, t);
    } else {
      var waiting := s.(started := s.started - multiset{m}, settingUp := multiset{m});
      assert s.setUps + [m] == [m];
      assert Next(waiting, SetUp(m)) == u;
      OneMore(waiting, SetUp(m), steps, t);
      steps := [SetUp(m)] + steps;
      assert Next(s, Check(m)) == waiting;
      OneMore(s, Check(m), steps, t);
    }
    steps := [Check(m)] + steps;
  }

  lemma AnyOrderHappens(ms: seq<StructureMessage>, order: seq<StructureMessage>) returns (steps: seq<Step>, s: Device)
    requires multiset(order) == multiset(ms)
    ensures Reaches(Init(), steps, s) && s.Idle() && s.received == ms && s.applied == order
  {
    hide Reaches;
    var first := ReceiveAll(Init(), ms);
    var t := Init().(received := [] + ms, started := multiset{} + multiset(ms));
    assert [] + ms == ms && [] + order == order;
    var rest;
    rest, s := OneAfterTheOther(t, order);
    steps := first + rest;
    ReachesThrough(Init(), first, t, rest, s);
  }

  // ---- the newest version of a register ----

  // However the routines are interleaved, in the end the database knows r.
  ghost predicate EveryRunLeaves(filter: RegisterFilterFunc, ms: seq<StructureMessage>, name: string, r: Register) {
    forall steps: seq<Step>, s: Device ::
      Reaches(Init(), steps, s) && s.Idle() && s.received == ms ==> Knows(Updated(filter, s.applied), name, r)
  }

  // In whatever order the messages are applied, it does.
  ghost predicate EveryOrderLeaves(filter: RegisterFilterFunc, ms: seq<StructureMessage>, name: string, r: Register) {
    forall order :: multiset(order) == multiset(ms) ==> Knows(Updated(filter, order), name, r)
  }

  lemma EveryRunIsEveryOrder(filter: RegisterFilterFunc, ms: seq<StructureMessage>, name: string, r: Register)
    ensures EveryRunLeaves(filter, ms, name, r) <==> EveryOrderLeaves(filter, ms, name, r)
  {
    hide Reaches, Updated, Knows;
    if EveryRunLeaves(filter, ms, name, r) {
      forall order | multiset(order) == multiset(ms)
        ensures Knows(Updated(filter, order), name, r)
      {
        var steps, s := AnyOrderHappens(ms, order);
      }
    }
    if EveryOrderLeaves(filter, ms, name, r) {
      forall steps: seq<Step>, s: Device | Reaches(Init(), steps, s) && s.Idle() && s.received == ms
        ensures Knows(Updated(filter, s.applied), name, r)
      {
        AppliedInSomeOrder(steps, s);
      }
    }
  }

  // Every version the messages carry and the filter accepts compares equal.
  ghost predicate AllCompareEqual(filter: RegisterFilterFunc, ms: seq<StructureMessage>, r: Register) {
    forall m, v :: m in ms && v in Accepted(filter, m) && v.name == r.name ==> R.RegisterEquals(r, v)
  }

  lemma {:induction false} AcceptedMembers(filter: RegisterFilterFunc, ms: seq<StructureMessage>)
    ensures forall v :: v in AllAccepted(filter, ms) <==> exists m :: m in ms && v in Accepted(filter, m)
  {
    hide Accepted;
    if ms != [] {
      var before, last := ms[..|ms| - 1], ms[|ms| - 1];
      AcceptedMembers(filter, before);
      assert ms == before + [last];
      assert forall m :: m in ms <==> m in before || m == last;
    }
  }

  // The order of the messages does not change which registers they carry.
  lemma SameAccepted(filter: RegisterFilterFunc, ms: seq<StructureMessage>, order: seq<StructureMessage>)
    requires multiset(order) == multiset(ms)
    ensures forall v :: v in AllAccepted(filter, order) <==> v in AllAccepted(filter, ms)
  {
    hide Accepted, AllAccepted;
    AcceptedMembers(filter, ms);
    AcceptedMembers(filter, order);
    assert forall m :: m in order <==> m in multiset(order);
    assert forall m :: m in ms <==> m in multiset(ms);
  }

  // In whatever order they are handled, messages whose versions compare equal leave that version.
  lemma EqualVersionsAreLeft(
    filter: RegisterFilterFunc, ms: seq<StructureMessage>, order: seq<StructureMessage>, r: Register)
    requires multiset(order) == multiset(ms) && AllCompareEqual(filter, ms, r)
    requires Newest(filter, ms, r.name).Some?
    ensures Knows(Updated(filter, order), r.name, r)
  {
    hide Accepted, AllAccepted, Updated, R.RegisterEquals, R.Fold, R.LastNamed;
    AcceptedMembers(filter, ms);
    SameAccepted(filter, ms, order);
    UpdatedIsFold(filter, order);
    R.LastNamedMember(AllAccepted(filter, ms), r.name);
    R.LastNamedMember(AllAccepted(filter, order), r.name);
    R.FoldMember(AllAccepted(filter, order), r.name);
  }

  // A message whose version differs loses the newest if it is handled last.
  lemma HandledLast(
    filter: RegisterFilterFunc, ms: seq<StructureMessage>, i: nat, v: Register) returns (order: seq<StructureMessage>)
    requires i < |ms| && R.LastNamed(Accepted(filter, ms[i]), v.name) == Some(v) && NoEmptyLabel(v)
    ensures multiset(order) == multiset(ms)
    ensures v.name in Updated(filter, order) && Updated(filter, order)[v.name] == v
  {
    hide Accepted, R.LastNamed, R.RegisterEquals, NoEmptyLabel;
    order := ms[..i] + ms[i + 1..] + [ms[i]];
    assert ms == ms[..i] + [ms[i]] + ms[i + 1..];
    var before := ms[..i] + ms[i + 1..];
    assert order[..|order| - 1] == before;
    R.LastNamedSplits(AllAccepted(filter, before), Accepted(filter, ms[i]), v.name);
    RegisterMirror(filter, order, v.name);
  }

  // Each message carries a name at most once, as the sender builds it.
  ghost predicate OneVersionEach(filter: RegisterFilterFunc, ms: seq<StructureMessage>, name: string) {
    forall m, v :: m in ms && v in Accepted(filter, m) && v.name == name ==>
      R.LastNamed(Accepted(filter, m), name) == Some(v)
  }

  // Every run leaves the newest version of a register exactly if all versions in
  // the messages compare equal to it; a version that does not is meant to have
  // no empty label, because such labels can hide a difference.
  lemma EveryRunLeavesNewestIff(filter: RegisterFilterFunc, ms: seq<StructureMessage>, newest: Register)
    requires Newest(filter, ms, newest.name) == Some(newest) && OneVersionEach(filter, ms, newest.name)
    requires forall m, v ::
      m in ms && v in Accepted(filter, m) && v.name == newest.name ==> R.RegisterEquals(newest, v) || NoEmptyLabel(v)
    ensures EveryRunLeaves(filter, ms, newest.name, newest) <==> AllCompareEqual(filter, ms, newest)
  {
    hide Accepted, Reaches, Newest, Updated, R.RegisterEquals, NoEmptyLabel, R.LastNamed;
    if AllCompareEqual(filter, ms, newest) {
      forall steps: seq<Step>, s: Device | Reaches(Init(), steps, s) && s.Idle() && s.received == ms
        ensures Knows(Updated(filter, s.applied), newest.name, newest)
      {
        AppliedInSomeOrder(steps, s);
        EqualVersionsAreLeft(filter, ms, s.applied, newest);
      }
    } else {
      var m, v :| m in ms && v in Accepted(filter, m) && v.name == newest.name && !R.RegisterEquals(newest, v);
      var i :| 0 <= i < |ms| && ms[i] == m;
      var order := HandledLast(filter, ms, i, v);
      var steps, s := AnyOrderHappens(ms, order);
      assert !Knows(Updated(filter, s.applied), newest.name, newest);
    }
  }

  // A name that only one message carries is left by every run.
  lemma OnlyOneMessage(filter: RegisterFilterFunc, ms: seq<StructureMessage>, newest: Register)
    requires Newest(filter, ms, newest.name) == Some(newest)
    requires forall m, v :: m in ms && v in Accepted(filter, m) && v.name == newest.name ==> v == newest
    ensures EveryRunLeaves(filter, ms, newest.name, newest)
  {
    hide Accepted, Reaches, Newest, Updated, R.LastNamed;
    R.SelfEqual(newest.labels);
    assert AllCompareEqual(filter, ms, newest);
    forall steps: seq<Step>, s: Device | Reaches(Init(), steps, s) && s.Idle() && s.received == ms
      ensures Knows(Updated(filter, s.applied), newest.name, newest)
    {
      AppliedInSomeOrder(steps, s);
      EqualVersionsAreLeft(filter, ms, s.applied, newest);
    }
  }

  function Described(description: string): StructureMessage {
    StructureMessage("", "", [StructRegister("", "r", description, "number", map[], "", 0, false)])
  }

  // The newest version is lost: two messages received in order, a register
  // described as "a" in the first and as "b" in the second, added the other way.
  lemma NewestCanBeLost() returns (steps: seq<Step>, s: Device, newest: Register)
    ensures Reaches(Init(), steps, s) && s.Idle() && s.received == [Described("a"), Described("b")]
    ensures Newest((r: Register) => true, s.received, "r") == Some(newest) && newest.description == "b"
    ensures var db := Updated((r: Register) => true, s.applied); "r" in db && db["r"].description == "a"
  {
    var filter: RegisterFilterFunc := (r: Register) => true;
    var first, second := Described("a"), Described("b");
    var a, b := first.registers[0].AsRegister(), second.registers[0].AsRegister();
    OneRegister(filter, first);
    OneRegister(filter, second);
    TwoMessages(filter, first, second);
    LastOfTwo(a, b);
    newest := b;
    assert newest.description == "b" && a.description == "a" && NoEmptyLabel(a);
    hide Accepted, AllAccepted, Updated, Reaches, R.LastNamed;
    var order := HandledLast(filter, [first, second], 0, a);
    steps, s := AnyOrderHappens([first, second], order);
  }

  lemma TwoMessages(filter: RegisterFilterFunc, first: StructureMessage, second: StructureMessage)
    ensures AllAccepted(filter, [first, second]) == Accepted(filter, first) + Accepted(filter, second)
  {
    hide Accepted;
    assert [first, second][..1] == [first] && [first][..0] == [];
    assert AllAccepted(filter, [first]) == [] + Accepted(filter, first);
  }

  lemma LastOfTwo(a: Register, b: Register)
    ensures R.LastNamed([a] + [b], b.name) == Some(b)
  {
  }

  lemma OneRegister(filter: RegisterFilterFunc, m: StructureMessage)
    requires |m.registers| == 1 && filter(m.registers[0].AsRegister())
    ensures Accepted(filter, m) == [m.registers[0].AsRegister()]
    ensures R.LastNamed(Accepted(filter, m), m.registers[0].name) == Some(m.registers[0].AsRegister())
  {
    var r := m.registers[0].AsRegister();
    assert AsRegisters(m.registers) == [] + [r];
    MatchingExtends(filter, [], r);
  }

  function Labelled(labels: map<int, string>): StructureMessage {
    StructureMessage("", "", [StructRegister("", "r", "", "enum", labels, "", 0, false)])
  }

  // With empty labels a version that compares different can be harmless: the
  // newest replaces it when it comes after it, and absorbs it when before.
  lemma AbsorbedIsHarmless() returns (ms: seq<StructureMessage>, newest: Register)
    ensures var all := (r: Register) => true;
      Newest(all, ms, "r") == Some(newest) && !AllCompareEqual(all, ms, newest) && EveryRunLeaves(all, ms, "r", newest)
  {
    var all: RegisterFilterFunc := (r: Register) => true;
    var first, second := Labelled(map[5 := ""]), Labelled(map[1 := "x"]);
    var a, b := first.registers[0].AsRegister(), second.registers[0].AsRegister();
    ms, newest := [first, second], b;
    assert a.labels == map[5 := ""] && b.labels == map[1 := "x"] && 1 in b.labels;
    assert !R.RegisterEquals(b, a) && R.RegisterEquals(a, b);
    hide R.RegisterEquals, AllAccepted, Accepted, R.LastNamed, Updated, Reaches;
    OneRegister(all, first);
    OneRegister(all, second);
    TwoMessages(all, first, second);
    LastOfTwo(a, b);
    assert first in ms && a in Accepted(all, first);
    AbsorbedVersion(all, first, second, a, b);
  }

  lemma AbsorbedVersion(
    filter: RegisterFilterFunc, first: StructureMessage, second: StructureMessage, a: Register, b: Register)
    requires Accepted(filter, first) == [a] && Accepted(filter, second) == [b]
    requires a.name == b.name && !R.RegisterEquals(b, a) && R.RegisterEquals(a, b)
    ensures EveryRunLeaves(filter, [first, second], b.name, b)
  {
    TwoMessages(filter, first, second);
    TwoMessages(filter, second, first);
    R.SelfEqual(b.labels);
    assert R.RegisterEquals(b, b);
    hide Accepted, AllAccepted, Updated, Reaches, R.RegisterEquals, R.Fold;
    AbsorbedEitherWay(a, b);
    UpdatedIsFold(filter, [first, second]);
    UpdatedIsFold(filter, [second, first]);
    BothOrders(filter, first, second, b);
  }

  lemma BothOrders(filter: RegisterFilterFunc, first: StructureMessage, second: StructureMessage, r: Register)
    requires Knows(Updated(filter, [first, second]), r.name, r) && Knows(Updated(filter, [second, first]), r.name, r)
    ensures EveryRunLeaves(filter, [first, second], r.name, r)
  {
    hide Updated, Reaches, Knows;
    forall order: seq<StructureMessage> | multiset(order) == multiset([first, second])
      ensures Knows(Updated(filter, order), r.name, r)
    {
      OrderOfTwo(order, first, second);
    }
    EveryRunIsEveryOrder(filter, [first, second], r.name, r);
  }

  lemma AbsorbedEitherWay(a: Register, b: Register)
    requires a.name == b.name && !R.RegisterEquals(b, a) && R.RegisterEquals(a, b)
    ensures R.Fold(map[], [a] + [b]) == R.Fold(map[], [b] + [a]) == map[b.name := b]
  {
    FirstAdded(a);
    FirstAdded(b);
    hide R.RegisterEquals, R.Fold;
    R.FoldExtends(map[], [a], b);
    R.FoldExtends(map[], [b], a);
  }

  lemma FirstAdded(r: Register)
    ensures R.Fold(map[], [r]) == map[r.name := r]
  {
    assert [] + [r] == [r];
    R.FoldExtends(map[], [], r);
  }

  lemma OrderOfTwo(order: seq<StructureMessage>, a: StructureMessage, b: StructureMessage)
    requires multiset(order) == multiset([a, b])
    ensures order == [a, b] || order == [b, a]
  {
    assert |order| == |multiset(order)| == |multiset([a, b])| == 2;
    assert order == [order[0], order[1]];
    assert order[0] in multiset([a, b]) && order[1] in multiset([a, b]);
  }
}
