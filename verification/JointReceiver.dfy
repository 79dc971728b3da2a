/** Structure and realtime messages at the receiver in any interleaving: values that
    come before their register is known, or of another kind, are dropped. */
module JointReceiver {
  import opened Dataflow
  import opened StorageSpec
  import opened Topics
  import opened Mirror
  import opened RealtimeMirror
  import Rx = StructureReceiver
  import R = RegisterDb

  // How the two sides are configured.
  datatype Setting = Setting(c: TopicConfig, from: string, to: string, filter: RegisterFilterFunc) {
    function Template(): string { PublishedTemplate(c, from) }
  }

  datatype System = System(device: Rx.Device, arrivals: seq<Arrival>)

  datatype Step = Structure(step: Rx.Step) | Realtime(value: Value)

  function Init(): System { System(Rx.Init(), []) }

  // Values come once a message with the topic has set up the subscription.
  ghost predicate Enabled(g: Setting, s: System, step: Step) {
    match step
    case Structure(x) => Rx.Enabled(s.device, x)
    case Realtime(_) => exists m :: m in s.device.setUps && m.realtimeTopic == g.Template()
  }

  ghost function Next(g: Setting, s: System, step: Step): System
    requires Enabled(g, s, step)
  {
    match step
    case Structure(x) => s.(device := Rx.Next(s.device, x))
    case Realtime(v) => s.(arrivals := s.arrivals + [Arrival(Updated(g.filter, s.device.applied), v)])
  }

  ghost predicate Reaches(g: Setting, s: System, steps: seq<Step>, t: System)
    decreases |steps|
  {
    if steps == [] then s == t
    else Enabled(g, s, steps[0]) && Reaches(g, Next(g, s, steps[0]), steps[1..], t)
  }

  // The receiver's state storage.
  function StoreOf(g: Setting, s: System): Store { Fold(map[], Mirrored(g.c, g.from, g.to, s.arrivals)) }

  // ---- what every run keeps ----

  // The database at an arrival is that of some part of the messages applied.
  ghost predicate Dated(g: Setting, s: System, a: Arrival) {
    exists j :: 0 <= j <= |s.device.applied| && a.db == Updated(g.filter, s.device.applied[..j])
  }

  ghost predicate Inv(g: Setting, s: System) {
    Rx.Inv(s.device) && forall i :: 0 <= i < |s.arrivals| ==> Dated(g, s, s.arrivals[i])
  }

  lemma InvNext(g: Setting, s: System, step: Step)
    requires Inv(g, s) && Enabled(g, s, step)
    ensures Inv(g, Next(g, s, step))
  {
    hide Rx.Inv, Updated;
    var t := Next(g, s, step);
    if step.Structure? {
      Rx.InvNext(s.device, step.step);
    }
    forall i | 0 <= i < |t.arrivals|
      ensures Dated(g, t, t.arrivals[i])
    {
      if i < |s.arrivals| {
        var j :| 0 <= j <= |s.device.applied| && s.arrivals[i].db == Updated(g.filter, s.device.applied[..j]);
        assert t.device.applied[..j] == s.device.applied[..j];
      } else {
        assert t.device.applied[..|t.device.applied|] == t.device.applied;
      }
    }
  }

  lemma {:induction false} InvReached(g: Setting, s: System, steps: seq<Step>, t: System)
    requires Inv(g, s) && Reaches(g, s, steps, t)
    ensures Inv(g, t)
    decreases |steps|
  {
    hide Inv, Enabled, Next;
    if steps != [] {
      InvNext(g, s, steps[0]);
      InvReached(g, Next(g, s, steps[0]), steps[1..], t);
    }
  }

  lemma InitInv(g: Setting)
    ensures Inv(g, Init())
  {
  }

  lemma UpdatedWellNamed(filter: RegisterFilterFunc, ms: seq<StructureMessage>)
    ensures WellNamed(Updated(filter, ms))
  {
    hide Updated, AllAccepted, R.Fold, R.LastNamed;
    UpdatedIsFold(filter, ms);
    forall n | n in Updated(filter, ms)
      ensures Updated(filter, ms)[n].name == n
    {
      R.FoldMember(AllAccepted(filter, ms), n);
    }
  }

  // ---- agreement ----

  // In every interleaving the receiver has, of each name, the payload of the last
  // value that it accepted with the register it had when the value came.
  lemma JointStateMirror(g: Setting, steps: seq<Step>, s: System, name: string)
    requires Reaches(g, Init(), steps, s) && RealtimeTemplate(g.c, g.from)
    ensures Agrees(StoreOf(g, s), g.to, name, ValueOf(LastAccepted(s.arrivals, name)))
  {
    hide Reaches, RealtimeTemplate, Agrees, LastAccepted, WellNamed, Updated, Rx.Inv;
    InvReached(g, Init(), steps, s) by { InitInv(g); }
    forall i | 0 <= i < |s.arrivals|
      ensures WellNamed(s.arrivals[i].db)
    {
      assert Dated(g, s, s.arrivals[i]);
      var j :| 0 <= j <= |s.device.applied| && s.arrivals[i].db == Updated(g.filter, s.device.applied[..j]);
      UpdatedWellNamed(g.filter, s.device.applied[..j]);
    }
    StateMirror(g.c, g.from, g.to, s.arrivals, name);
  }

  // The last value published of a name is a, and these came before.
  ghost predicate LastOfName(arrivals: seq<Arrival>, before: seq<Arrival>, a: Arrival, name: string) {
    && a.value.register.name == name
    && before + [a] <= arrivals
    && forall i :: |before| < i < |arrivals| ==> arrivals[i].value.register.name != name
  }

  // In every interleaving: the receiver has the payload of the last value exactly
  // if it was accepted when it came, or the one accepted before it is the same.
  lemma LastArrivalIff(g: Setting, steps: seq<Step>, s: System, before: seq<Arrival>, a: Arrival, name: string)
    requires Reaches(g, Init(), steps, s) && RealtimeTemplate(g.c, g.from)
    requires LastOfName(s.arrivals, before, a, name) && !a.value.Null?
    ensures Agrees(StoreOf(g, s), g.to, name, Some(a.value)) <==>
      || Accepts(a.db, a.value)
      || (LastAccepted(before, name).Some? && SamePayload(a.value, LastAccepted(before, name).value.value))
  {
    hide Reaches, RealtimeTemplate, Accepts;
    JointStateMirror(g, steps, s, name);
    OnlyBefore(s.arrivals, before, a, name);
    var st, k := StoreOf(g, s), StateKey(g.to, name);
    hide LastAccepted, StoreOf;
    var last := if Accepts(a.db, a.value) then Some(a) else LastAccepted(before, name);
    if last.Some? {
      EitherPayload(last.value.value, st[k], a.value);
    }
    EitherPayload(a.value, a.value, a.value);
  }

  lemma EitherPayload(l: Value, received: Value, x: Value)
    ensures SamePayload(l, received) ==> (SamePayload(x, received) <==> SamePayload(x, l))
    ensures SamePayload(x, x)
  {
  }

  lemma {:induction false} OnlyBefore(arrivals: seq<Arrival>, before: seq<Arrival>, a: Arrival, name: string)
    requires LastOfName(arrivals, before, a, name)
    ensures LastAccepted(arrivals, name) == if Accepts(a.db, a.value) then Some(a) else LastAccepted(before, name)
    decreases |arrivals|
  {
    hide Accepts;
    var n := |arrivals| - 1;
    if n == |before| {
      assert arrivals == before + [a] && arrivals[..n] == before;
    } else {
      assert before + [a] <= arrivals[..n];
      OnlyBefore(arrivals[..n], before, a, name);
    }
  }

  // ---- when a value is accepted ----

  // All versions of the name that the messages carry and the device accepts are of
  // the kind of v.
  ghost predicate OneKind(g: Setting, ms: seq<StructureMessage>, v: Value) {
    forall m, r :: m in ms && r in Accepted(g.filter, m) && r.name == v.register.name ==> Fits(r.registerType, v)
  }

  // Then it is accepted exactly if some version is known when it comes.
  lemma AcceptedIffKnown(g: Setting, steps: seq<Step>, s: System, a: Arrival)
    requires Reaches(g, Init(), steps, s) && a in s.arrivals && OneKind(g, s.device.received, a.value)
    requires IsName(a.value.register.name) && Plain(a.value.register.name)
    ensures Accepts(a.db, a.value) <==> a.value.register.name in a.db
  {
    hide Reaches, Updated, AllAccepted, Accepted, IsName, Plain, R.Fold, R.LastNamed, Fits;
    InvReached(g, Init(), steps, s) by { InitInv(g); }
    var n := a.value.register.name;
    assert Dated(g, s, a);
    var j :| 0 <= j <= |s.device.applied| && a.db == Updated(g.filter, s.device.applied[..j]);
    if n in a.db {
      var ms := s.device.applied[..j];
      UpdatedIsFold(g.filter, ms);
      R.FoldMember(AllAccepted(g.filter, ms), n);
      Rx.AcceptedMembers(g.filter, ms);
      var m :| m in ms && a.db[n] in Accepted(g.filter, m);
      assert m in s.device.applied;
      AppliedIsReceived(s.device, m);
    }
  }

  lemma AppliedIsReceived(s: Rx.Device, m: StructureMessage)
    requires Rx.Inv(s) && m in s.applied
    ensures m in s.received
  {
    assert Rx.Accounted(s, m);
    assert m in multiset(s.applied) && multiset(s.received)[m] > 0;
    assert m in multiset(s.received);
  }

  // ---- values that come too early ----

  lemma {:induction false} ReachesThrough(
    g: Setting, r: System, first: seq<Step>, s: System, second: seq<Step>, t: System)
    requires Reaches(g, r, first, s) && Reaches(g, s, second, t)
    ensures Reaches(g, r, first + second, t)
    decreases |first|
  {
    hide Enabled, Next;
    if first == [] {
      assert first + second == second;
    } else {
      ReachesThrough(g, Next(g, r, first[0]), first[1..], s, second, t);
      assert (first + second)[1..] == first[1..] + second && (first + second)[0] == first[0];
    }
  }

  function Lift(xs: seq<Rx.Step>): (steps: seq<Step>)
    ensures |steps| == |xs| && forall i :: 0 <= i < |xs| ==> steps[i] == Structure(xs[i])
  {
    seq(|xs|, i requires 0 <= i < |xs| => Structure(xs[i]))
  }

  lemma {:induction false} Lifted(g: Setting, s: System, xs: seq<Rx.Step>, device: Rx.Device)
    requires Rx.Reaches(s.device, xs, device)
    ensures Reaches(g, s, Lift(xs), s.(device := device))
    decreases |xs|
  {
    hide Rx.Enabled, Rx.Next;
    if xs != [] {
      Lifted(g, s.(device := Rx.Next(s.device, xs[0])), xs[1..], device);
      assert Lift(xs)[1..] == Lift(xs[1..]) && Lift(xs)[0] == Structure(xs[0]);
    }
  }

  function Realtimes(vs: seq<Value>): (steps: seq<Step>)
    ensures |steps| == |vs| && forall i :: 0 <= i < |vs| ==> steps[i] == Realtime(vs[i])
  {
    seq(|vs|, i requires 0 <= i < |vs| => Realtime(vs[i]))
  }

  lemma {:induction false} AllArrive(g: Setting, s: System, vs: seq<Value>)
    requires exists m :: m in s.device.setUps && m.realtimeTopic == g.Template()
    ensures Reaches(g, s, Realtimes(vs),
      s.(arrivals := s.arrivals + Arrivals(Updated(g.filter, s.device.applied), vs)))
    decreases |vs|
  {
    hide Updated;
    var db := Updated(g.filter, s.device.applied);
    if vs == [] {
      assert s.arrivals + Arrivals(db, vs) == s.arrivals;
    } else {
      var t := Next(g, s, Realtime(vs[0]));
      AllArrive(g, t, vs[1..]);
      assert t.arrivals + Arrivals(db, vs[1..]) == s.arrivals + Arrivals(db, vs);
      assert Realtimes(vs)[1..] == Realtimes(vs[1..]);
    }
  }

  // However many messages with the topic and whatever values: all values can come
  // after the subscription is set up and before the first registers are added.
  // Then none of them is filled in.
  lemma AllCanBeDropped(g: Setting, ms: seq<StructureMessage>, m: StructureMessage, vs: seq<Value>)
    returns (steps: seq<Step>, s: System)
    requires m in ms && m.realtimeTopic == g.Template()
    ensures Reaches(g, Init(), steps, s) && s.device.Idle() && s.device.received == ms
    ensures |s.arrivals| == |vs| && forall i :: 0 <= i < |vs| ==> s.arrivals[i].value == vs[i]
    ensures Mirrored(g.c, g.from, g.to, s.arrivals) == [] && StoreOf(g, s) == map[]
  {
    hide Reaches, Rx.Reaches, Updated, Mirrored;
    var xs, up := FirstSetsUp(ms, m);
    var s1 := Init().(device := up);
    Lifted(g, Init(), xs, up);
    var s2 := s1.(arrivals := s1.arrivals + Arrivals(Updated(g.filter, []), vs));
    assert m in up.setUps;
    AllArrive(g, s1, vs);
    assert s2.arrivals == Arrivals(Updated(g.filter, []), vs);
    ReachesThrough(g, Init(), Lift(xs), s1, Realtimes(vs), s2);
    var ys, done := TheRest(ms, m);
    Lifted(g, s2, ys, done);
    s := s2.(device := done);
    ReachesThrough(g, Init(), Lift(xs) + Realtimes(vs), s2, Lift(ys), s);
    steps := Lift(xs) + Realtimes(vs) + Lift(ys);
    NothingKnown(g.filter);
    NoneAccepted(g, vs);
  }

  // One message has set up and added nothing, the others have not been looked at.
  function SetUpBy(ms: seq<StructureMessage>, m: StructureMessage): Rx.Device {
    Rx.Device(ms, multiset(ms) - multiset{m}, multiset{}, multiset{m}, [m], [])
  }

  lemma FirstSetsUp(ms: seq<StructureMessage>, m: StructureMessage) returns (xs: seq<Rx.Step>, up: Rx.Device)
    requires m in ms
    ensures Rx.Reaches(Rx.Init(), xs, up) && up == SetUpBy(ms, m)
  {
    hide Rx.Reaches;
    up := SetUpBy(ms, m);
    var all := Rx.Device(ms, multiset(ms), multiset{}, multiset{}, [], []);
    xs := Rx.ReceiveAll(Rx.Init(), ms);
    assert [] + ms == ms && multiset{} + multiset(ms) == multiset(ms) && m in multiset(ms);
    var looked := LooksFirst(ms, m);
    hide Rx.Next, Rx.Enabled;
    Rx.StaysPut(up);
    Rx.OneMore(looked, Rx.SetUp(m), [], up);
    Rx.OneMore(all, Rx.Check(m), [Rx.SetUp(m)] + [], up);
    Rx.ReachesThrough(Rx.Init(), xs, all, [Rx.Check(m)] + ([Rx.SetUp(m)] + []), up);
    xs := xs + ([Rx.Check(m)] + ([Rx.SetUp(m)] + []));
  }

  lemma LooksFirst(ms: seq<StructureMessage>, m: StructureMessage) returns (looked: Rx.Device)
    requires m in multiset(ms)
    ensures var all := Rx.Device(ms, multiset(ms), multiset{}, multiset{}, [], []);
      && Rx.Enabled(all, Rx.Check(m)) && Rx.Next(all, Rx.Check(m)) == looked
      && Rx.Enabled(looked, Rx.SetUp(m)) && Rx.Next(looked, Rx.SetUp(m)) == SetUpBy(ms, m)
  {
    looked := Rx.Device(ms, multiset(ms) - multiset{m}, multiset{m}, multiset{}, [], []);
    assert [] + [m] == [m];
  }

  lemma TheRest(ms: seq<StructureMessage>, m: StructureMessage) returns (ys: seq<Rx.Step>, done: Rx.Device)
    requires m in ms
    ensures Rx.Reaches(SetUpBy(ms, m), ys, done) && done.Idle() && done.received == ms
  {
    hide Rx.Reaches;
    var others := TheOthers(ms, m);
    var added := Rx.Device(ms, multiset(others), multiset{}, multiset{}, [m], [m]);
    AddsFirst(ms, m);
    ys, done := Rx.OneAfterTheOther(added, others);
    hide Rx.Next, Rx.Enabled;
    Rx.OneMore(SetUpBy(ms, m), Rx.Apply(m), ys, done);
    ys := [Rx.Apply(m)] + ys;
  }

  lemma TheOthers(ms: seq<StructureMessage>, m: StructureMessage) returns (others: seq<StructureMessage>)
    requires m in ms
    ensures multiset(ms) - multiset{m} == multiset(others)
  {
    var i :| 0 <= i < |ms| && ms[i] == m;
    others := ms[..i] + ms[i + 1..];
    assert ms == ms[..i] + [m] + ms[i + 1..];
  }

  lemma AddsFirst(ms: seq<StructureMessage>, m: StructureMessage)
    ensures var s := SetUpBy(ms, m);
      && Rx.Enabled(s, Rx.Apply(m))
      && Rx.Next(s, Rx.Apply(m)) == Rx.Device(ms, multiset(ms) - multiset{m}, multiset{}, multiset{}, [m], [m])
  {
    assert [] + [m] == [m];
  }

  lemma NothingKnown(filter: RegisterFilterFunc)
    ensures Updated(filter, []) == map[]
  {
  }

  lemma {:induction false} NoneAccepted(g: Setting, vs: seq<Value>)
    ensures Mirrored(g.c, g.from, g.to, Arrivals(map[], vs)) == []
    ensures Fold(map[], []) == map[]
  {
    hide ParseTopic, PublishedTemplate, CreateMatcher, PublishRealtime, Taken;
    if vs != [] {
      NoneAccepted(g, vs[..|vs| - 1]);
      assert Arrivals(map[], vs)[..|vs| - 1] == Arrivals(map[], vs[..|vs| - 1]);
    }
  }

  // So whatever the messages and the values, no name is sure to be right: the
  // receiver has its last payload in every interleaving only if there is none.
  lemma NeverCertain(g: Setting, ms: seq<StructureMessage>, m: StructureMessage, vs: seq<Value>, v: Value)
    requires m in ms && m.realtimeTopic == g.Template() && !v.Null?
    ensures !forall steps: seq<Step>, s: System ::
      Reaches(g, Init(), steps, s) && s.device.Idle() && s.device.received == ms && ValuesOf(s.arrivals) == vs ==>
        Agrees(StoreOf(g, s), g.to, v.register.name, Some(v))
  {
    hide Reaches, Mirrored;
    var steps, s := AllCanBeDropped(g, ms, m, vs);
    assert ValuesOf(s.arrivals) == vs;
    assert !Agrees(StoreOf(g, s), g.to, v.register.name, Some(v));
  }

  function ValuesOf(arrivals: seq<Arrival>): (vs: seq<Value>)
    ensures |vs| == |arrivals| && forall i :: 0 <= i < |vs| ==> vs[i] == arrivals[i].value
  {
    seq(|arrivals|, i requires 0 <= i < |arrivals| => arrivals[i].value)
  }
}
