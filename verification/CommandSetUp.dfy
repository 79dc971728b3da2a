/** Which structure messages set up a command forwarder on the receiving device,
    and how often a command is published in consequence. */
module CommandSetUp {
  import opened Dataflow
  import opened Sequences
  import opened Mirror
  import opened Commands
  import opened StructureReceiver

  // What the command forwarders that were set up publish of the device's commands.
  function Published(setUps: seq<StructureMessage>, d: string, vs: seq<Value>): seq<CommandDelivery> {
    if setUps == [] then []
    else
      var m := setUps[|setUps| - 1];
      Published(setUps[..|setUps| - 1], d, vs)
        + if ForwarderOf(m).None? then []
          else Commanded(m.commandTopic, Matching(CommandValueFilter(d, WritableNames(m.registers)), vs))
  }

  predicate Carries(m: StructureMessage, name: string) { m.commandTopic != "" && name in WritableNames(m.registers) }

  function Carriers(setUps: seq<StructureMessage>, name: string): nat {
    if setUps == [] then 0
    else Carriers(setUps[..|setUps| - 1], name) + if Carries(setUps[|setUps| - 1], name) then 1 else 0
  }

  // A command is published once for each set-up message that carries a command
  // topic and lists its register as writable.
  lemma {:induction false} PublishedPerCarrier(setUps: seq<StructureMessage>, d: string, v: Value)
    requires v.deviceName == d && !v.Null?
    ensures |Published(setUps, d, [v])| == Carriers(setUps, v.register.name)
  {
    if setUps != [] {
      PublishedPerCarrier(setUps[..|setUps| - 1], d, v);
      var m := setUps[|setUps| - 1];
      var f := CommandValueFilter(d, WritableNames(m.registers));
      assert [v][..0] == [] && Matching(f, []) == [];
      assert Matching(f, [v]) == if f(v) then [] + [v] else [];
      assert Commanded(m.commandTopic, []) == [];
      OneCommanded(m.commandTopic, v);
    }
  }

  lemma OneCommanded(template: string, v: Value)
    requires !v.Null?
    ensures |Commanded(template, [v])| == 1
  {
    assert [v][..0] == [] && Commanded(template, []) == [];
  }

  // ---- which messages set up ----

  // The messages that set up, look at the flag or have not yet done so, are
  // different ones of those received.
  ghost predicate SetUpOnce(s: Device, m: StructureMessage) {
    multiset(s.setUps)[m] + s.settingUp[m] + s.started[m] <= multiset(s.received)[m]
  }

  lemma SetUpOnceNext(s: Device, step: Step, m: StructureMessage)
    requires SetUpOnce(s, m) && Enabled(s, step)
    ensures SetUpOnce(Next(s, step), m)
  {
    CountExtends(s.received, step.msg, m);
    CountExtends(s.setUps, step.msg, m);
  }

  lemma {:induction false} SetUpOnceReached(s: Device, steps: seq<Step>, t: Device, m: StructureMessage)
    requires SetUpOnce(s, m) && Reaches(s, steps, t)
    ensures SetUpOnce(t, m)
    decreases |steps|
  {
    hide SetUpOnce, Enabled, Next;
    if steps != [] {
      SetUpOnceNext(s, steps[0], m);
      SetUpOnceReached(Next(s, steps[0]), steps[1..], t, m);
    }
  }

  // No message sets up twice.
  lemma SetUpsAreReceived(steps: seq<Step>, s: Device)
    requires Reaches(Init(), steps, s)
    ensures multiset(s.setUps) <= multiset(s.received)
  {
    forall m
      ensures multiset(s.setUps)[m] <= multiset(s.received)[m]
    {
      SetUpOnceReached(Init(), steps, s, m);
    }
  }

  // Some interleaving handles these messages to the end, and those set up, in this order.
  ghost predicate CanSetUp(ms: seq<StructureMessage>, ups: seq<StructureMessage>) {
    exists steps: seq<Step>, s: Device ::
      Reaches(Init(), steps, s) && s.Idle() && s.received == ms && s.setUps == ups
  }

  // Any selection of the messages can set up, in any order, but not none of them.
  lemma CanSetUpIff(ms: seq<StructureMessage>, ups: seq<StructureMessage>)
    ensures CanSetUp(ms, ups) <==> multiset(ups) <= multiset(ms) && (ups == [] ==> ms == [])
  {
    if CanSetUp(ms, ups) {
      var steps: seq<Step>, s: Device :|
        Reaches(Init(), steps, s) && s.Idle() && s.received == ms && s.setUps == ups;
      SetUpsAreReceived(steps, s);
      AppliedInSomeOrder(steps, s);
    } else if multiset(ups) <= multiset(ms) && (ups == [] ==> ms == []) {
      var steps, s := TheseSetUp(ms, ups);
    }
  }

  lemma {:induction false} AsSequence(ms: multiset<StructureMessage>) returns (order: seq<StructureMessage>)
    ensures multiset(order) == ms
    decreases ms
  {
    order := [];
    if m :| m in ms {
      order := AsSequence(ms - multiset{m});
      order := order + [m];
    }
  }

  lemma TakeOne(rest: multiset<StructureMessage>, ups: seq<StructureMessage>)
    requires ups != []
    ensures rest + multiset(ups) - multiset{ups[0]} == rest + multiset(ups[1..]) && ups[0] in rest + multiset(ups)
    ensures rest + multiset{ups[0]} + multiset(ups[1..]) == rest + multiset(ups)
  {
    WithoutFirst(ups);
  }

  // All of them look at the flag before the first of them sets it.
  lemma {:induction false} CheckAll(
    s: Device, rest: multiset<StructureMessage>, ups: seq<StructureMessage>) returns (steps: seq<Step>)
    requires s.setUps == [] && s.started == rest + multiset(ups)
    ensures Reaches(s, steps, s.(started := rest, settingUp := s.settingUp + multiset(ups)))
    decreases |ups|
  {
    hide Reaches;
    var t := s.(started := rest, settingUp := s.settingUp + multiset(ups));
    if ups == [] {
      steps := [];
      assert t == s;
      StaysPut(s);
    } else {
      TakeOne(rest, ups);
      TakeOne(s.settingUp, ups);
      steps := CheckAll(Next(s, Check(ups[0])), rest, ups[1..]);
      OneMore(s, Check(ups[0]), steps, t);
      steps := [Check(ups[0])] + steps;
    }
  }

  lemma {:induction false} SetUpAll(s: Device, ups: seq<StructureMessage>) returns (steps: seq<Step>)
    requires s.settingUp == multiset(ups)
    ensures Reaches(s, steps, s.(
      settingUp := multiset{}, ready := s.ready + multiset(ups), setUps := s.setUps + ups))
    decreases |ups|
  {
    hide Reaches;
    var t := s.(settingUp := multiset{}, ready := s.ready + multiset(ups), setUps := s.setUps + ups);
    if ups == [] {
      steps := [];
      assert s.setUps + ups == s.setUps;
      assert t == s;
      StaysPut(s);
    } else {
      SetUpFirstOf(s, ups);
      TakeOne(s.ready, ups);
      hide Next, Enabled;
      assert s.setUps + [ups[0]] + ups[1..] == s.setUps + ups;
      steps := SetUpAll(Next(s, SetUp(ups[0])), ups[1..]);
      OneMore(s, SetUp(ups[0]), steps, t);
      steps := [SetUp(ups[0])] + steps;
    }
  }

  lemma SetUpFirstOf(s: Device, ups: seq<StructureMessage>)
    requires s.settingUp == multiset(ups) && ups != []
    ensures Enabled(s, SetUp(ups[0]))
    ensures Next(s, SetUp(ups[0])) == s.(
      settingUp := multiset(ups[1..]), ready := s.ready + multiset{ups[0]}, setUps := s.setUps + [ups[0]])
  {
    WithoutFirst(ups);
  }

  lemma {:induction false} ApplyAll(s: Device, order: seq<StructureMessage>) returns (steps: seq<Step>)
    requires s.ready == multiset(order)
    ensures Reaches(s, steps, s.(ready := multiset{}, applied := s.applied + order))
    decreases |order|
  {
    hide Reaches;
    var t := s.(ready := multiset{}, applied := s.applied + order);
    if order == [] {
      steps := [];
      assert s.applied + order == s.applied;
      StaysPut(s);
    } else {
      WithoutFirst(order);
      assert s.applied + [order[0]] + order[1..] == s.applied + order;
      steps := ApplyAll(Next(s, Apply(order[0])), order[1..]);
      OneMore(s, Apply(order[0]), steps, t);
      steps := [Apply(order[0])] + steps;
    }
  }

  lemma TheseSetUp(ms: seq<StructureMessage>, ups: seq<StructureMessage>) returns (steps: seq<Step>, s: Device)
    requires multiset(ups) <= multiset(ms) && (ups == [] ==> ms == [])
    ensures Reaches(Init(), steps, s) && s.Idle() && s.received == ms && s.setUps == ups
  {
    hide Reaches, Enabled, Next;
    var none: multiset<StructureMessage> := multiset{};
    var left := multiset(ms) - multiset(ups);
    steps := AllReady(ms, ups, left);
    var s3 := Device(ms, left, none, multiset(ups), ups, []);
    var s4 := Device(ms, left, none, none, ups, ups);
    assert [] + ups == ups;
    var applying := ApplyAll(s3, ups);
    ReachesThrough(Init(), steps, s3, applying, s4);
    steps := steps + applying;
    NoneLeft(ms, ups);
    var rest := AsSequence(left);
    var others;
    others, s := OneAfterTheOther(s4, rest);
    ReachesThrough(Init(), steps, s4, others, s);
    steps := steps + others;
  }

  lemma AllReady(ms: seq<StructureMessage>, ups: seq<StructureMessage>, left: multiset<StructureMessage>)
    returns (steps: seq<Step>)
    requires multiset(ms) == left + multiset(ups)
    ensures Reaches(Init(), steps, Device(ms, left, multiset{}, multiset(ups), ups, []))
  {
    hide Reaches, Enabled, Next;
    var none: multiset<StructureMessage> := multiset{};
    var s1 := Device(ms, multiset(ms), none, none, [], []);
    var s2 := Device(ms, left, multiset(ups), none, [], []);
    var s3 := Device(ms, left, none, multiset(ups), ups, []);
    assert [] + ms == ms && [] + ups == ups;
    assert none + multiset(ms) == multiset(ms) && none + multiset(ups) == multiset(ups);
    steps := ReceiveAll(Init(), ms);
    var checking := CheckAll(s1, left, ups);
    ReachesThrough(Init(), steps, s1, checking, s2);
    steps := steps + checking;
    var settingUp := SetUpAll(s2, ups);
    ReachesThrough(Init(), steps, s2, settingUp, s3);
    steps := steps + settingUp;
  }

  lemma NoneLeft(ms: seq<StructureMessage>, ups: seq<StructureMessage>)
    requires ups == [] ==> ms == []
    ensures ups == [] ==> multiset(ms) - multiset(ups) == multiset{}
  {
  }

  // ---- how often a command is published ----

  lemma {:induction false} CarriersSplit(a: seq<StructureMessage>, b: seq<StructureMessage>, name: string)
    ensures Carriers(a + b, name) == Carriers(a, name) + Carriers(b, name)
  {
    hide Carries;
    if b == [] {
      assert a + b == a;
    } else {
      assert (a + b)[..|a + b| - 1] == a + b[..|b| - 1];
      CarriersSplit(a, b[..|b| - 1], name);
    }
  }

  lemma CarriersWithout(ms: seq<StructureMessage>, i: nat, name: string)
    requires i < |ms|
    ensures Carriers(ms, name) == Carriers(ms[..i] + ms[i + 1..], name) + if Carries(ms[i], name) then 1 else 0
  {
    hide Carries;
    assert ms == ms[..i] + [ms[i]] + ms[i + 1..] && [ms[i]][..0] == [];
    assert Carriers([ms[i]], name) == if Carries(ms[i], name) then 1 else 0;
    hide Carriers;
    CarriersSplit(ms[..i], ms[i + 1..], name);
    CarriersSplit(ms[..i], [ms[i]], name);
    CarriersSplit(ms[..i] + [ms[i]], ms[i + 1..], name);
  }

  // A selection has no more carriers than the whole.
  lemma {:induction false} FewerCarriers(ups: seq<StructureMessage>, ms: seq<StructureMessage>, name: string)
    requires multiset(ups) <= multiset(ms)
    ensures Carriers(ups, name) <= Carriers(ms, name)
  {
    hide Carries;
    if ups != [] {
      var n := |ups| - 1;
      assert ups[n] in multiset(ups) && ups[n] in multiset(ms);
      var i :| 0 <= i < |ms| && ms[i] == ups[n];
      WithoutBoth(ups, ms, i);
      FewerCarriers(ups[..n], ms[..i] + ms[i + 1..], name);
      CarriersWithout(ms, i, name);
    }
  }

  lemma WithoutBoth(ups: seq<StructureMessage>, ms: seq<StructureMessage>, i: nat)
    requires ups != [] && multiset(ups) <= multiset(ms) && i < |ms| && ms[i] == ups[|ups| - 1]
    ensures multiset(ups[..|ups| - 1]) <= multiset(ms[..i] + ms[i + 1..])
  {
    var n := |ups| - 1;
    assert ups == ups[..n] + [ups[n]];
    assert ms == ms[..i] + [ms[i]] + ms[i + 1..];
    var a, b, x := multiset(ups[..n]), multiset(ms[..i] + ms[i + 1..]), multiset{ms[i]};
    assert multiset(ms) == b + x && multiset(ups) == a + x;
    forall m
      ensures a[m] <= b[m]
    {
      assert (a + x)[m] <= (b + x)[m];
    }
  }

  // The messages that carry a command for the name.
  lemma {:induction false} SomeCarriers(ms: seq<StructureMessage>, name: string, k: nat)
    returns (ups: seq<StructureMessage>)
    requires k <= Carriers(ms, name)
    ensures multiset(ups) <= multiset(ms) && |ups| == k && Carriers(ups, name) == k
  {
    hide Carries;
    if ms == [] {
      ups := [];
    } else {
      var n := |ms| - 1;
      assert ms == ms[..n] + [ms[n]];
      if k <= Carriers(ms[..n], name) {
        ups := SomeCarriers(ms[..n], name, k);
      } else {
        var before := SomeCarriers(ms[..n], name, k - 1);
        ups := before + [ms[n]];
        assert ups[..|ups| - 1] == before;
      }
    }
  }

  lemma {:induction false} NoneCarry(ups: seq<StructureMessage>, name: string)
    ensures Carriers(ups, name) == 0 <==> forall i :: 0 <= i < |ups| ==> !Carries(ups[i], name)
  {
    hide Carries;
    if ups != [] {
      var before := ups[..|ups| - 1];
      NoneCarry(before, name);
      assert forall i :: 0 <= i < |before| ==> before[i] == ups[i];
    }
  }

  lemma {:induction false} AllCarry(ups: seq<StructureMessage>, name: string)
    ensures Carriers(ups, name) <= |ups|
    ensures Carriers(ups, name) == |ups| <==> forall i :: 0 <= i < |ups| ==> Carries(ups[i], name)
  {
    hide Carries;
    if ups != [] {
      var before := ups[..|ups| - 1];
      AllCarry(before, name);
      assert forall i :: 0 <= i < |before| ==> before[i] == ups[i];
    }
  }

  // Some interleaving of these messages leads to the command being published this often.
  ghost predicate CanBePublished(ms: seq<StructureMessage>, d: string, v: Value, times: nat) {
    exists ups :: CanSetUp(ms, ups) && |Published(ups, d, [v])| == times
  }

  // How often a command can be published: not at all if some message does not
  // carry it, and any number of times up to the number of those that do.
  lemma CanBePublishedIff(ms: seq<StructureMessage>, d: string, v: Value, times: nat)
    requires v.deviceName == d && !v.Null?
    ensures CanBePublished(ms, d, v, times) <==>
      if times == 0 then ms == [] || exists m :: m in ms && !Carries(m, v.register.name)
      else times <= Carriers(ms, v.register.name)
  {
    hide CanSetUp, Published, Carries;
    var name := v.register.name;
    if CanBePublished(ms, d, v, times) {
      var ups :| CanSetUp(ms, ups) && |Published(ups, d, [v])| == times;
      CanSetUpIff(ms, ups);
      PublishedPerCarrier(ups, d, v);
      FewerCarriers(ups, ms, name);
      NoneCarry(ups, name);
      if times == 0 && ms != [] {
        assert ups[0] in multiset(ups) && !Carries(ups[0], name);
      }
    }
    if times != 0 && times <= Carriers(ms, name) {
      var ups := SomeCarriers(ms, name, times);
      CanSetUpIff(ms, ups);
      PublishedPerCarrier(ups, d, v);
    } else if times == 0 && ms == [] {
      CanSetUpIff(ms, []);
      PublishedPerCarrier([], d, v);
    } else if m :| times == 0 && m in ms && !Carries(m, name) {
      CanSetUpIff(ms, [m]);
      PublishedPerCarrier([m], d, v);
      NoneCarry([m], name);
      assert m in multiset(ms);
    }
  }

  lemma PublishedTimes(ms: seq<StructureMessage>, d: string, v: Value, times: nat)
    returns (steps: seq<Step>, s: Device)
    requires CanBePublished(ms, d, v, times)
    ensures Reaches(Init(), steps, s) && s.Idle() && s.received == ms && |Published(s.setUps, d, [v])| == times
  {
    var ups :| CanSetUp(ms, ups) && |Published(ups, d, [v])| == times;
    steps, s :| Reaches(Init(), steps, s) && s.Idle() && s.received == ms && s.setUps == ups;
  }

  ghost predicate AlwaysAtMost(ms: seq<StructureMessage>, d: string, v: Value, n: nat) {
    forall steps: seq<Step>, s: Device ::
      Reaches(Init(), steps, s) && s.Idle() && s.received == ms ==> |Published(s.setUps, d, [v])| <= n
  }

  ghost predicate AlwaysAtLeastOnce(ms: seq<StructureMessage>, d: string, v: Value) {
    forall steps: seq<Step>, s: Device ::
      Reaches(Init(), steps, s) && s.Idle() && s.received == ms ==> |Published(s.setUps, d, [v])| >= 1
  }

  // A command is published at most so often in every interleaving exactly if no
  // more messages carry it.
  lemma AlwaysAtMostIff(ms: seq<StructureMessage>, d: string, v: Value, n: nat)
    requires v.deviceName == d && !v.Null?
    ensures AlwaysAtMost(ms, d, v, n) <==> Carriers(ms, v.register.name) <= n
  {
    hide Published, Reaches, Carries;
    var most := Carriers(ms, v.register.name);
    forall steps: seq<Step>, s: Device | Reaches(Init(), steps, s) && s.Idle() && s.received == ms
      ensures |Published(s.setUps, d, [v])| <= most
    {
      SetUpsAreReceived(steps, s);
      PublishedPerCarrier(s.setUps, d, v);
      FewerCarriers(s.setUps, ms, v.register.name);
    }
    if n < most {
      CanBePublishedIff(ms, d, v, most);
      var steps, s := PublishedTimes(ms, d, v, most);
      assert !(|Published(s.setUps, d, [v])| <= n);
    }
  }

  // And at least once exactly if all of them do.
  lemma AlwaysAtLeastOnceIff(ms: seq<StructureMessage>, d: string, v: Value)
    requires v.deviceName == d && !v.Null?
    ensures AlwaysAtLeastOnce(ms, d, v) <==> ms != [] && forall m :: m in ms ==> Carries(m, v.register.name)
  {
    hide Published, Reaches, Carries;
    CanBePublishedIff(ms, d, v, 0);
    if CanBePublished(ms, d, v, 0) {
      var steps, s := PublishedTimes(ms, d, v, 0);
      assert !(|Published(s.setUps, d, [v])| >= 1);
    } else {
      forall steps: seq<Step>, s: Device | Reaches(Init(), steps, s) && s.Idle() && s.received == ms
        ensures |Published(s.setUps, d, [v])| >= 1
      {
        assert CanSetUp(ms, s.setUps);
      }
    }
  }

  // So it is published exactly once whatever the interleaving only if there is a
  // single message, and that carries it.
  lemma ExactlyOnceIff(ms: seq<StructureMessage>, d: string, v: Value)
    requires v.deviceName == d && !v.Null?
    ensures AlwaysAtMost(ms, d, v, 1) && AlwaysAtLeastOnce(ms, d, v) <==> |ms| == 1 && Carries(ms[0], v.register.name)
  {
    hide Published, Reaches, Carries, Carriers, AlwaysAtMost, AlwaysAtLeastOnce;
    AlwaysAtMostIff(ms, d, v, 1);
    AlwaysAtLeastOnceIff(ms, d, v);
    AllCarry(ms, v.register.name);
  }

  // ---- without a race ----

  // No routine looks at the flag between another's look and its set-up.
  ghost predicate NoRace(s: Device, steps: seq<Step>)
    decreases |steps|
  {
    steps == []
    || (Enabled(s, steps[0]) && (steps[0].Check? ==> s.settingUp == multiset{})
      && NoRace(Next(s, steps[0]), steps[1..]))
  }

  // The message whose routine looks at the flag first.
  function FirstChecked(steps: seq<Step>): Option<StructureMessage> {
    if steps == [] then None
    else if steps[0].Check? then Some(steps[0].msg)
    else FirstChecked(steps[1..])
  }

  ghost predicate Undecided(s: Device) { s.setUps == [] && s.settingUp == multiset{} && s.ready == multiset{} }

  ghost predicate DecidedFor(s: Device, m: StructureMessage) {
    (s.setUps == [] && s.settingUp == multiset{m} && s.ready == multiset{})
      || (s.setUps == [m] && s.settingUp == multiset{})
  }

  lemma {:induction false} MoreThanOne(s: Device, steps: seq<Step>, t: Device)
    requires |s.setUps| + |s.settingUp| >= 2 && Reaches(s, steps, t)
    ensures |t.setUps| + |t.settingUp| >= 2
    decreases |steps|
  {
    if steps != [] {
      MoreThanOne(Next(s, steps[0]), steps[1..], t);
    }
  }

  lemma {:induction false} StaysDecided(s: Device, steps: seq<Step>, t: Device, m: StructureMessage)
    requires DecidedFor(s, m) && Reaches(s, steps, t)
    ensures NoRace(s, steps) <==> |t.setUps| + |t.settingUp| < 2
    ensures NoRace(s, steps) ==> DecidedFor(t, m)
    decreases |steps|
  {
    if steps != [] {
      if steps[0].Check? && s.settingUp != multiset{} {
        MoreThanOne(Next(s, steps[0]), steps[1..], t);
      } else {
        StepKeepsDecision(s, steps[0], m);
        hide DecidedFor;
        StaysDecided(Next(s, steps[0]), steps[1..], t, m);
      }
    }
  }

  lemma StepKeepsDecision(s: Device, step: Step, m: StructureMessage)
    requires DecidedFor(s, m) && Enabled(s, step) && (step.Check? ==> s.settingUp == multiset{})
    ensures DecidedFor(Next(s, step), m)
  {
  }

  lemma {:induction false} FirstDecides(s: Device, steps: seq<Step>, t: Device)
    requires Undecided(s) && Reaches(s, steps, t)
    ensures FirstChecked(steps).None? ==> Undecided(t)
    ensures NoRace(s, steps) <==> |t.setUps| + |t.settingUp| < 2
    ensures NoRace(s, steps) && FirstChecked(steps).Some? ==> DecidedFor(t, FirstChecked(steps).value)
    decreases |steps|
  {
    if steps != [] {
      if steps[0].Check? {
        StaysDecided(Next(s, steps[0]), steps[1..], t, steps[0].msg);
      } else {
        FirstDecides(Next(s, steps[0]), steps[1..], t);
      }
    }
  }

  // One message sets up exactly if there is no such race, and then it is the one
  // handled first: a command is forwarded if that message carries it, once, and
  // for good. What later messages say does not matter.
  lemma FirstMessageDecides(steps: seq<Step>, s: Device, d: string, v: Value)
    requires Reaches(Init(), steps, s) && s.Idle() && s.received != []
    requires v.deviceName == d && !v.Null?
    ensures FirstChecked(steps).Some? && (NoRace(Init(), steps) <==> |s.setUps| == 1)
    ensures NoRace(Init(), steps) ==>
      && s.setUps == [FirstChecked(steps).value]
      && |Published(s.setUps, d, [v])| == if Carries(FirstChecked(steps).value, v.register.name) then 1 else 0
  {
    hide Published, Reaches, NoRace, Carries;
    AppliedInSomeOrder(steps, s);
    FirstDecides(Init(), steps, s);
    PublishedPerCarrier(s.setUps, d, v);
    if |s.setUps| == 1 {
      assert s.setUps[..0] == [];
    }
  }
}
