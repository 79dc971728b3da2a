/** The structure forwarder in on-update mode: it collects the newest version of
    each register and publishes the collection a moment after the first arrived. */
module Structure {
  import opened Dataflow
  import R = RegisterDb

  datatype Event = Received(reg: Register) | Tick

  // ---- what happens to one register name ----

  datatype Track = Track(published: Option<Register>, pending: Option<Register>)

  function TrackOne(t: Track, e: Event, name: string): Track {
    match e
    case Tick => if t.pending.Some? then Track(t.pending, None) else t
    case Received(r) => if r.name == name && name != AVAILABILITY then t.(pending := Some(r)) else t
  }

  function Tracked(events: seq<Event>, name: string): Track {
    if events == [] then Track(None, None)
    else TrackOne(Tracked(events[..|events| - 1], name), events[|events| - 1], name)
  }

  // The last version received; availability is not sent as a register.
  function Latest(events: seq<Event>, name: string): Option<Register> {
    if events == [] then None
    else
      var e := events[|events| - 1];
      if e.Received? && e.reg.name == name && name != AVAILABILITY then Some(e.reg)
      else Latest(events[..|events| - 1], name)
  }

  // Everything received, in order.
  function ReceivedRegisters(events: seq<Event>): seq<Register> {
    if events == [] then []
    else
      var e := events[|events| - 1];
      ReceivedRegisters(events[..|events| - 1]) + if e.Received? then [e.reg] else []
  }

  function PendingIn(registers: map<string, Register>, name: string): Option<Register> {
    if name in registers then Some(registers[name]) else None
  }

  lemma LastNamedExtends(rs: seq<Register>, r: Register)
    ensures forall name :: R.LastNamed(rs + [r], name) == if r.name == name then Some(r) else R.LastNamed(rs, name)
  {
    assert (rs + [r])[..|rs|] == rs;
  }

  // The registers of all messages, one message after the other.
  function Flat(messages: seq<seq<Register>>): seq<Register> {
    if messages == [] then [] else Flat(messages[..|messages| - 1]) + messages[|messages| - 1]
  }

  ghost predicate OneEach(rs: seq<Register>) {
    forall i, j :: 0 <= i < j < |rs| ==> rs[i].name != rs[j].name
  }

  lemma FlatExtends(messages: seq<seq<Register>>, message: seq<Register>, name: string)
    ensures var last := R.LastNamed(message, name);
      R.LastNamed(Flat(messages + [message]), name) == if last.Some? then last else R.LastNamed(Flat(messages), name)
  {
    assert (messages + [message])[..|messages|] == messages;
    R.LastNamedSplits(Flat(messages), message, name);
  }

  // ---- the routine ----

  // The registers of one message, each once, in any order.
  method MessageOf(registers: map<string, Register>) returns (message: seq<Register>)
    requires forall name :: name in registers ==> registers[name].name == name
    ensures OneEach(message) && forall name :: R.LastNamed(message, name) == PendingIn(registers, name)
    ensures forall r :: r in message ==> r in registers.Values
  {
    message := [];
    var left := registers.Keys;
    while left != {}
      invariant left <= registers.Keys
      invariant OneEach(message) && forall i :: 0 <= i < |message| ==> message[i].name !in left
      invariant forall r :: r in message ==> r in registers.Values
      invariant forall name ::
        R.LastNamed(message, name) == if name in registers.Keys - left then Some(registers[name]) else None
      decreases left
    {
      var k :| k in left;
      LastNamedExtends(message, registers[k]);
      message := message + [registers[k]];
      left := left - {k};
    }
  }

  // What the routine's loop is given next: an event, the cancellation, or a
  // receive from the closed channel, which gives an empty register.
  datatype Choice = Take(event: Event) | Cancelled | FromClosed

  function NoRegister(): Register { Register("", "", "", UndefinedRegister, map[], "", 0, false) }

  // The events before the routine ends.
  function EventsOf(choices: seq<Choice>): seq<Event> {
    if choices == [] then []
    else
      match choices[0]
      case Take(event) => [event] + EventsOf(choices[1..])
      case FromClosed => [Received(NoRegister())] + EventsOf(choices[1..])
      case Cancelled => []
  }

  // A message of the registers that wait, each once, in any order.
  ghost predicate IsMessage(message: seq<Register>, events: seq<Event>) {
    OneEach(message) && forall name :: R.LastNamed(message, name) == Tracked(events, name).pending
  }

  // One such message for each tick.
  ghost predicate Publishes(events: seq<Event>, messages: seq<seq<Register>>) {
    if events == [] then messages == []
    else
      var before := events[..|events| - 1];
      match events[|events| - 1]
      case Tick =>
        messages != [] && IsMessage(messages[|messages| - 1], before)
          && Publishes(before, messages[..|messages| - 1])
      case Received(_) => Publishes(before, messages)
  }

  // The messages published, what is still pending, and whether the ticker that
  // will publish it runs.
  method StructureOnUpdateMode(choices: seq<Choice>)
    returns (messages: seq<seq<Register>>, registers: map<string, Register>, tickerRunning: bool)
    ensures Publishes(EventsOf(choices), messages)
    ensures forall name :: PendingIn(registers, name) == Tracked(EventsOf(choices), name).pending
    ensures registers != map[] ==> tickerRunning
  {
    messages, registers, tickerRunning := [], map[], false;
    ghost var events: seq<Event> := EventsOf(choices);
    var e := 0;
    while e < |choices|
      invariant 0 <= e <= |choices| && e <= |events|
      invariant events[e..] == EventsOf(choices[e..])
      invariant forall name :: name in registers ==> registers[name].name == name
      invariant Waits(registers, events[..e]) && Publishes(events[..e], messages)
      invariant registers != map[] ==> tickerRunning
    {
      hide Waits, Publishes;
      if choices[e].Cancelled? {
        break;
      }
      var event := if choices[e].Take? then choices[e].event else Received(NoRegister());
      NextEvent(choices, events, e, event);
      ghost var before := events[..e];
      e := e + 1;
      match event {
        case Received(reg) =>
          WaitsLonger(registers, before, reg, messages);
          if registers == map[] {
            tickerRunning := true;
          }
          if reg.name == AVAILABILITY {
            continue;
          }
          registers := registers[reg.name := reg];
        case Tick =>
          tickerRunning := false;
          var message := MessageOf(registers);
          MessageGoesOut(registers, before, messages, message);
          messages := messages + [message];
          registers := map[];
      }
    }
    assert events[..e] == events;
  }

  // The map holds what waits.
  ghost predicate Waits(registers: map<string, Register>, events: seq<Event>) {
    forall name :: PendingIn(registers, name) == Tracked(events, name).pending
  }

  lemma NextEvent(choices: seq<Choice>, events: seq<Event>, e: nat, event: Event)
    requires e < |choices| && e <= |events| && events[e..] == EventsOf(choices[e..])
    requires !choices[e].Cancelled?
    requires event == if choices[e].Take? then choices[e].event else Received(NoRegister())
    ensures e < |events| && events[e + 1..] == EventsOf(choices[e + 1..]) && events[..e + 1] == events[..e] + [event]
  {
    assert choices[e..][1..] == choices[e + 1..];
    assert events[e..] == [event] + EventsOf(choices[e + 1..]) && events[e..][1..] == events[e + 1..];
    assert events[e..][0] == events[e];
  }

  lemma WaitsLonger(
    registers: map<string, Register>, before: seq<Event>, reg: Register, messages: seq<seq<Register>>)
    requires Waits(registers, before) && Publishes(before, messages)
    ensures var now := before + [Received(reg)];
      && Waits(if reg.name == AVAILABILITY then registers else registers[reg.name := reg], now)
      && Publishes(now, messages)
  {
    var now := before + [Received(reg)];
    assert now[..|before|] == before;
    forall name
      ensures PendingIn(if reg.name == AVAILABILITY then registers else registers[reg.name := reg], name)
        == Tracked(now, name).pending
    {
      assert PendingIn(registers, name) == Tracked(before, name).pending;
    }
  }

  lemma MessageGoesOut(
    registers: map<string, Register>, before: seq<Event>, messages: seq<seq<Register>>, message: seq<Register>)
    requires Waits(registers, before) && Publishes(before, messages) && OneEach(message)
    requires forall name :: R.LastNamed(message, name) == PendingIn(registers, name)
    ensures Waits(map[], before + [Tick]) && Publishes(before + [Tick], messages + [message])
  {
    hide R.LastNamed;
    assert (before + [Tick])[..|before|] == before && (messages + [message])[..|messages|] == messages;
    assert IsMessage(message, before);
  }

  // ---- what has been published ----

  lemma {:induction false} PublishedLast(events: seq<Event>, messages: seq<seq<Register>>, name: string)
    requires Publishes(events, messages)
    ensures R.LastNamed(Flat(messages), name) == Tracked(events, name).published
  {
    hide R.LastNamed;
    if events == [] {
      NothingNamed(name);
    } else {
      var before := events[..|events| - 1];
      if events[|events| - 1].Tick? {
        var n := |messages| - 1;
        PublishedLast(before, messages[..n], name);
        assert messages[..n] + [messages[n]] == messages;
        FlatExtends(messages[..n], messages[n], name);
      } else {
        PublishedLast(before, messages, name);
      }
    }
  }

  lemma NothingNamed(name: string)
    ensures R.LastNamed([], name) == None
  {
  }

  // Nothing is made up, and each message has a name at most once.
  lemma {:induction false} PublishedWasReceived(events: seq<Event>, messages: seq<seq<Register>>)
    requires Publishes(events, messages)
    ensures forall r :: r in Flat(messages) ==> r in ReceivedRegisters(events)
    ensures forall i :: 0 <= i < |messages| ==> OneEach(messages[i])
  {
    if events != [] {
      var before := events[..|events| - 1];
      if events[|events| - 1].Tick? {
        var n := |messages| - 1;
        PublishedWasReceived(before, messages[..n]);
        forall r | r in messages[n]
          ensures r in ReceivedRegisters(before)
        {
          OneNamed(messages[n], r);
          PendingWasReceived(before, r.name);
        }
      } else {
        PublishedWasReceived(before, messages);
      }
    }
  }

  lemma {:induction false} OneNamed(message: seq<Register>, r: Register)
    requires OneEach(message) && r in message
    ensures R.LastNamed(message, r.name) == Some(r)
  {
    var n := |message| - 1;
    if message[n] != r {
      var i :| 0 <= i < |message| && message[i] == r;
      assert message[i].name != message[n].name;
      assert message[..n][i] == r;
      OneNamed(message[..n], r);
    }
  }

  lemma {:induction false} PendingWasReceived(events: seq<Event>, name: string)
    ensures var t := Tracked(events, name);
      && (t.pending.Some? ==> t.pending.value in ReceivedRegisters(events) && t.pending.value.name == name)
  {
    if events != [] {
      PendingWasReceived(events[..|events| - 1], name);
    }
  }

  // An empty register taken from the closed channel is published with the next tick.
  lemma EmptyRegisterPublished(choices: seq<Choice>, messages: seq<seq<Register>>)
    requires Publishes(EventsOf(choices), messages) && Received(NoRegister()) in EventsOf(choices)
    requires var events := EventsOf(choices); events[|events| - 1].Tick?
    ensures R.LastNamed(Flat(messages), "").Some?
  {
    var events := EventsOf(choices);
    PublishedLast(events, messages, "");
    TickPublishesNewest(events, messages, "");
    WasReceived(events, NoRegister());
  }

  lemma {:induction false} WasReceived(events: seq<Event>, r: Register)
    requires Received(r) in events && r.name != AVAILABILITY
    ensures Latest(events, r.name).Some?
  {
    var n := |events| - 1;
    if events[n] != Received(r) {
      assert Received(r) in events[..n];
      WasReceived(events[..n], r);
    }
  }

  // ---- nothing newer is lost ----

  // The newest version is pending or, if nothing is, published.
  lemma {:induction false} NewestIsKept(events: seq<Event>, name: string)
    ensures var t := Tracked(events, name);
      Latest(events, name) == if t.pending.Some? then t.pending else t.published
  {
    if events != [] {
      NewestIsKept(events[..|events| - 1], name);
    }
  }

  // After a tick the newest version of each register has been published.
  lemma TickPublishesNewest(events: seq<Event>, messages: seq<seq<Register>>, name: string)
    requires R.LastNamed(Flat(messages), name) == Tracked(events, name).published
    requires events != [] && events[|events| - 1].Tick?
    ensures R.LastNamed(Flat(messages), name) == Latest(events, name)
  {
    NewestIsKept(events, name);
  }

  lemma {:induction false} LatestIsLastReceived(events: seq<Event>, name: string)
    ensures Latest(events, name) == if name == AVAILABILITY then None else R.LastNamed(ReceivedRegisters(events), name)
  {
    if events != [] {
      var before, e := events[..|events| - 1], events[|events| - 1];
      LatestIsLastReceived(before, name);
      if e.Received? {
        LastNamedExtends(ReceivedRegisters(before), e.reg);
      } else {
        assert ReceivedRegisters(before) + [] == ReceivedRegisters(before);
      }
    }
  }
}
