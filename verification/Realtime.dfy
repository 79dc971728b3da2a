/** The realtime forwarder: immediate mode publishes every value it receives,
    delayed mode keeps the newest value of each number register until a tick. */
module Realtime {
  import opened Dataflow
  import opened Sequences

  datatype Event = Received(value: Value) | Tick

  predicate IsNumber(v: Value) { v.register.registerType == NumberRegister }

  function Publish(published: seq<Value>, v: Value): seq<Value> { published + [v] }

  // Values published for one register name, in order.
  function Named(vs: seq<Value>, name: string): seq<Value> {
    Matching((v: Value) => v.register.name == name, vs)
  }

  // ---- what happens to one register name ----

  datatype Track = Track(published: seq<Value>, pending: Option<Value>)

  function TrackOne(t: Track, e: Event, name: string): Track {
    match e
    case Tick => if t.pending.Some? then Track(t.published + [t.pending.value], None) else t
    case Received(v) =>
      if v.register.name != name then t
      else if IsNumber(v) then t.(pending := Some(v))
      else t.(published := t.published + [v])
  }

  function Tracked(events: seq<Event>, name: string): Track {
    if events == [] then Track([], None)
    else TrackOne(Tracked(events[..|events| - 1], name), events[|events| - 1], name)
  }

  lemma TrackedExtends(events: seq<Event>, e: nat)
    requires e < |events|
    ensures forall name :: Tracked(events[..e + 1], name) == TrackOne(Tracked(events[..e], name), events[e], name)
  {
    assert events[..e + 1][..e] == events[..e];
  }

  // Everything received for the name.
  function ReceivedFor(events: seq<Event>, name: string): seq<Value> {
    if events == [] then []
    else
      ReceivedFor(events[..|events| - 1], name)
        + match events[|events| - 1]
          case Tick => []
          case Received(v) => if v.register.name == name then [v] else []
  }

  // Everything received, in order.
  function ReceivedValues(events: seq<Event>): seq<Value> {
    if events == [] then []
    else
      var e := events[|events| - 1];
      ReceivedValues(events[..|events| - 1]) + if e.Received? then [e.value] else []
  }

  // What the routine's two variables say about one name.
  function TrackOf(published: seq<Value>, updates: map<string, Value>, name: string): Track {
    Track(Named(published, name), if name in updates then Some(updates[name]) else None)
  }

  // ---- the routines ----

  method RealtimeImmediateMode(received: seq<Value>) returns (published: seq<Value>)
    ensures published == received
  {
    published := [];
    var n := 0;
    while n < |received|
      invariant 0 <= n <= |received|
      invariant published == received[..n]
    {
      published := Publish(published, received[n]);
      n := n + 1;
    }
  }

  // What the routine's loop is given next: an event, the cancellation, or a
  // receive from the closed channel, which gives no value.
  datatype Choice = Take(event: Event) | Cancelled | FromClosed

  // The events before the routine ends.
  function EventsOf(choices: seq<Choice>): seq<Event> {
    if choices == [] || !choices[0].Take? then [] else [choices[0].event] + EventsOf(choices[1..])
  }

  // The closed channel is chosen before the cancellation.
  predicate EndsProgram(choices: seq<Choice>) {
    choices != [] && (choices[0].FromClosed? || (choices[0].Take? && EndsProgram(choices[1..])))
  }

  // The order in which a tick publishes different names is that of a map
  // iteration, so the contract fixes what is published name by name. A value that
  // is none is asked for its register, which ends the program.
  method RealtimeDelayedUpdateMode(choices: seq<Choice>) returns (published: seq<Value>, crashed: bool)
    ensures forall name :: Named(published, name) == Tracked(EventsOf(choices), name).published
    ensures crashed <==> EndsProgram(choices)
  {
    published, crashed := [], false;
    var updates: map<string, Value> := map[];
    ghost var events: seq<Event> := EventsOf(choices);
    var e := 0;
    while e < |choices|
      invariant 0 <= e <= |choices| && e <= |events|
      invariant events[e..] == EventsOf(choices[e..]) && (EndsProgram(choices) <==> EndsProgram(choices[e..]))
      invariant forall name :: name in updates ==> updates[name].register.name == name
      invariant forall name :: TrackOf(published, updates, name) == Tracked(events[..e], name)
    {
      if !choices[e].Take? {
        crashed := choices[e].FromClosed?;
        break;
      }
      NextEvent(choices, events, e);
      ghost var was, waiting := published, updates;
      match choices[e].event {
        case Received(value) =>
          if IsNumber(value) {
            updates := updates[value.register.name := value];
          } else {
            NamedExtends(published, value);
            published := Publish(published, value);
          }
        case Tick =>
          published := FlushUpdates(published, updates);
          updates := map[];
      }
      TrackedExtends(events, e);
      forall name
        ensures TrackOf(published, updates, name) == Tracked(events[..e + 1], name)
      {
        hide Named, Tracked;
        assert TrackOf(published, updates, name) == TrackOne(TrackOf(was, waiting, name), events[e], name);
      }
      e := e + 1;
    }
    assert events[..e] == events;
    forall name
      ensures Named(published, name) == Tracked(events, name).published
    {
      assert TrackOf(published, updates, name) == Tracked(events[..e], name);
    }
  }

  lemma NextEvent(choices: seq<Choice>, events: seq<Event>, e: nat)
    requires e < |choices| && e <= |events| && events[e..] == EventsOf(choices[e..]) && choices[e].Take?
    ensures e < |events| && events[e] == choices[e].event && events[e + 1..] == EventsOf(choices[e + 1..])
    ensures EndsProgram(choices[e..]) <==> EndsProgram(choices[e + 1..])
  {
    assert choices[e..][1..] == choices[e + 1..];
    assert events[e..] == [choices[e].event] + EventsOf(choices[e + 1..]) && events[e..][1..] == events[e + 1..];
    assert events[e..][0] == events[e];
  }

  method FlushUpdates(earlier: seq<Value>, updates: map<string, Value>) returns (published: seq<Value>)
    requires forall name :: name in updates ==> updates[name].register.name == name
    ensures forall name ::
      Named(published, name) == Named(earlier, name) + if name in updates then [updates[name]] else []
  {
    hide Named;
    published := earlier;
    var left := updates.Keys;
    while left != {}
      invariant left <= updates.Keys
      invariant forall name ::
        Named(published, name) == Named(earlier, name) + if name in updates.Keys - left then [updates[name]] else []
      decreases left
    {
      var k :| k in left;
      ghost var was, remaining := published, left;
      NamedExtends(published, updates[k]);
      published := Publish(published, updates[k]);
      left := left - {k};
      forall name
        ensures Named(published, name)
          == Named(earlier, name) + if name in updates.Keys - left then [updates[name]] else []
      {
        assert Named(was, name)
          == Named(earlier, name) + if name in updates.Keys - remaining then [updates[name]] else [];
      }
    }
  }

  lemma NamedExtends(vs: seq<Value>, v: Value)
    ensures forall name :: Named(vs + [v], name) == Named(vs, name) + if v.register.name == name then [v] else []
  {
    forall name
      ensures Named(vs + [v], name) == Named(vs, name) + if v.register.name == name then [v] else []
    {
      MatchingExtends((w: Value) => w.register.name == name, vs, v);
    }
  }

  lemma {:induction false} ReceivedForIsNamed(events: seq<Event>, name: string)
    ensures ReceivedFor(events, name) == Named(ReceivedValues(events), name)
    ensures forall e :: e in events && e.Received? ==> e.value in ReceivedValues(events)
  {
    if events != [] {
      var before, e := events[..|events| - 1], events[|events| - 1];
      ReceivedForIsNamed(before, name);
      if e.Received? {
        NamedExtends(ReceivedValues(before), e.value);
      } else {
        assert ReceivedValues(before) + [] == ReceivedValues(before);
      }
    }
  }

  // ---- delayed mode against immediate mode ----

  function Last(vs: seq<Value>): Option<Value> {
    if vs == [] then None else Some(vs[|vs| - 1])
  }

  predicate Subsequence(a: seq<Value>, b: seq<Value>) {
    a == []
    || (b != [] && ((a[|a| - 1] == b[|b| - 1] && Subsequence(a[..|a| - 1], b[..|b| - 1]))
      || Subsequence(a, b[..|b| - 1])))
  }

  lemma SubsequenceExtends(a: seq<Value>, b: seq<Value>, v: Value)
    requires Subsequence(a, b)
    ensures Subsequence(a + [v], b + [v]) && Subsequence(a, b + [v])
  {
    assert (a + [v])[..|a|] == a && (b + [v])[..|b|] == b;
  }

  lemma {:induction false} SubsequenceDrops(a: seq<Value>, v: Value, b: seq<Value>)
    requires Subsequence(a + [v], b)
    ensures Subsequence(a, b)
    decreases |b|
  {
    assert (a + [v])[..|a|] == a;
    var b' := b[..|b| - 1];
    assert b' + [b[|b| - 1]] == b;
    if Subsequence(a + [v], b') {
      SubsequenceDrops(a, v, b');
    }
    SubsequenceExtends(a, b', b[|b| - 1]);
  }

  // All values received for the name agree on being numbers or not.
  predicate StableType(events: seq<Event>, name: string, number: bool) {
    forall e :: e in events && e.Received? && e.value.register.name == name ==> IsNumber(e.value) == number
  }

  // A register that is never a number is published as in immediate mode; a
  // number register's published values, with the pending one, form a
  // subsequence of the received ones that ends with the last.
  lemma {:induction false} DelayedFollows(events: seq<Event>, name: string, number: bool)
    requires StableType(events, name, number)
    ensures var t, received := Tracked(events, name), ReceivedFor(events, name);
      if !number then t == Track(received, None)
      else
        var all := t.published + (if t.pending.Some? then [t.pending.value] else []);
        Subsequence(all, received) && Last(all) == Last(received)
  {
    if events != [] {
      var before, e := events[..|events| - 1], events[|events| - 1];
      DelayedFollows(before, name, number);
      var t, received := Tracked(before, name), ReceivedFor(before, name);
      if e.Received? && e.value.register.name == name {
        assert e in events;
        if number {
          NumberFollows(t, received, e.value);
        }
      } else {
        assert ReceivedFor(events, name) == received;
        assert Tracked(events, name).published + [] == Tracked(events, name).published;
      }
    }
  }

  // A newer number replaces the pending one.
  lemma NumberFollows(t: Track, received: seq<Value>, v: Value)
    requires Subsequence(t.published + (if t.pending.Some? then [t.pending.value] else []), received)
    ensures Subsequence(t.published + [v], received + [v]) && Last(t.published + [v]) == Last(received + [v])
  {
    if t.pending.Some? {
      SubsequenceDrops(t.published, t.pending.value, received);
    }
    assert t.published + [] == t.published;
    SubsequenceExtends(t.published, received, v);
  }

  // After a tick, the last published value of each name is the last received one,
  // and the published values are a subsequence of the received ones.
  lemma DelayedRefinesImmediate(events: seq<Event>, name: string, number: bool)
    requires StableType(events, name, number)
    requires events != [] && events[|events| - 1].Tick?
    ensures Tracked(events, name).pending.None?
    ensures Last(Tracked(events, name).published) == Last(ReceivedFor(events, name))
    ensures Subsequence(Tracked(events, name).published, ReceivedFor(events, name))
  {
    DelayedFollows(events, name, number);
    var t := Tracked(events, name);
    assert t.published + [] == t.published;
    if !number {
      SubsequenceOfSelf(t.published);
    }
  }

  lemma {:induction false} SubsequenceOfSelf(a: seq<Value>)
    ensures Subsequence(a, a)
  {
    if a != [] {
      SubsequenceOfSelf(a[..|a| - 1]);
    }
  }

  function Ticks(events: seq<Event>): nat {
    if events == [] then 0 else Ticks(events[..|events| - 1]) + if events[|events| - 1].Tick? then 1 else 0
  }

  // How many values received for the name are no numbers and so published at once.
  function PassedOn(events: seq<Event>, name: string): nat {
    if events == [] then 0
    else
      PassedOn(events[..|events| - 1], name)
        + match events[|events| - 1]
          case Tick => 0
          case Received(v) => if v.register.name == name && !IsNumber(v) then 1 else 0
  }

  // Between any two positions of a run a name is published at most once per tick
  // and once per value that is no number; nothing published is taken back.
  lemma {:induction false} PublishedBetween(events: seq<Event>, more: seq<Event>, name: string)
    ensures var was, now := Tracked(events, name).published, Tracked(events + more, name).published;
      was <= now && |now| <= |was| + Ticks(more) + PassedOn(more, name)
  {
    if more == [] {
      assert events + more == events;
    } else {
      PublishedBetween(events, more[..|more| - 1], name);
      assert (events + more)[..|events + more| - 1] == events + more[..|more| - 1];
    }
  }

  // So a number register is published at most once per tick, over any part of a run.
  lemma {:induction false} OncePerTick(events: seq<Event>, more: seq<Event>, name: string)
    requires StableType(more, name, true)
    ensures |Tracked(events + more, name).published| <= |Tracked(events, name).published| + Ticks(more)
  {
    PublishedBetween(events, more, name);
    NothingPassedOn(more, name);
  }

  lemma {:induction false} NothingPassedOn(events: seq<Event>, name: string)
    requires StableType(events, name, true)
    ensures PassedOn(events, name) == 0
  {
    if events != [] {
      assert events[|events| - 1] in events;
      NothingPassedOn(events[..|events| - 1], name);
    }
  }

  // ---- without stable types ----

  // A number for the name has been received since the last tick.
  predicate NumberSinceTick(events: seq<Event>, name: string) {
    if events == [] then false
    else
      match events[|events| - 1]
      case Tick => false
      case Received(v) => (v.register.name == name && IsNumber(v)) || NumberSinceTick(events[..|events| - 1], name)
  }

  // The last value received for the name is not a number, and a number for it
  // had been received earlier with no tick in between.
  predicate Overtaken(events: seq<Event>, name: string) {
    if events == [] then false
    else
      var before := events[..|events| - 1];
      match events[|events| - 1]
      case Tick => Overtaken(before, name)
      case Received(v) =>
        if v.register.name != name then Overtaken(before, name)
        else !IsNumber(v) && NumberSinceTick(before, name)
  }

  lemma {:induction false} OvertakenInvariant(events: seq<Event>, name: string)
    ensures var t, last := Tracked(events, name), Last(ReceivedFor(events, name));
      && (t.pending.Some? <==> NumberSinceTick(events, name))
      && (t.pending.Some? ==> IsNumber(t.pending.value) && last.Some?)
      && (if t.pending.None? then Last(t.published) == last <==> !Overtaken(events, name)
          else if IsNumber(last.value) then last == t.pending && !Overtaken(events, name)
          else Overtaken(events, name))
  {
    if events != [] {
      var before, e := events[..|events| - 1], events[|events| - 1];
      OvertakenInvariant(before, name);
      assert e.Tick? || e.value.register.name != name ==> ReceivedFor(events, name) == ReceivedFor(before, name);
    }
  }

  // For any events ending in a tick: the last published value is the last
  // received one exactly when no non-number value overtook a waiting number.
  lemma LastPublishedIffNotOvertaken(events: seq<Event>, name: string)
    requires events != [] && events[|events| - 1].Tick?
    ensures Last(Tracked(events, name).published) == Last(ReceivedFor(events, name)) <==> !Overtaken(events, name)
  {
    OvertakenInvariant(events, name);
  }

  // Overtaking needs a name whose register type changes.
  lemma {:induction false} StableTypeIsNotOvertaken(events: seq<Event>, name: string, number: bool)
    requires StableType(events, name, number)
    ensures !Overtaken(events, name)
    ensures NumberSinceTick(events, name) ==> number
  {
    if events != [] {
      assert events[|events| - 1] in events;
      StableTypeIsNotOvertaken(events[..|events| - 1], name, number);
    }
  }

  // It shows in what is published: under the name there are then numbers and others.
  lemma {:induction false} OvertakenShows(events: seq<Event>, name: string, number: bool)
    requires var t := Tracked(events, name);
      && (forall i :: 0 <= i < |t.published| ==> IsNumber(t.published[i]) == number)
      && (t.pending.Some? ==> number)
    ensures !Overtaken(events, name)
  {
    if events != [] {
      var before, e := events[..|events| - 1], events[|events| - 1];
      var was, now := Tracked(before, name), Tracked(events, name);
      assert forall i :: 0 <= i < |was.published| ==> was.published[i] == now.published[i];
      OvertakenInvariant(before, name);
      OvertakenInvariant(events, name);
      if e.Tick? && was.pending.Some? {
        assert now.published[|was.published|] == was.pending.value;
      }
      if e.Received? && e.value.register.name == name {
        if !IsNumber(e.value) {
          assert now.published[|was.published|] == e.value;
        }
      } else {
        OvertakenShows(before, name, number);
      }
    }
  }

  // ---- the message of a value ----

  datatype RealtimeMessage = RealtimeMessage(numericValue: Option<real>, textValue: Option<string>,
    enumIdx: Option<int>)

  function ConvertValueToRealtimeMessage(v: Value): RealtimeMessage {
    match v
    case Numeric(_, _, n) => RealtimeMessage(Some(n), None, None)
    case Text(_, _, t) => RealtimeMessage(None, Some(t), None)
    case Enum(_, _, i) => RealtimeMessage(None, None, Some(i))
    case Null(_, _) => RealtimeMessage(None, None, None)
  }
}
