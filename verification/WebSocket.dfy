/** The websocket value sender: an initial message with everything, then updates
    collected and sent on a ticker that is stopped while there is nothing to send. */
module WebSocket {
  import opened Dataflow
  import opened StorageSpec

  datatype Payload = NumberPayload(number: real) | TextPayload(text: string) | IndexPayload(idx: int) | NullPayload

  function GenericValue(v: Value): Payload {
    match v
    case Numeric(_, _, n) => NumberPayload(n)
    case Text(_, _, t) => TextPayload(t)
    case Enum(_, _, i) => IndexPayload(i)
    case Null(_, _) => NullPayload
  }

  datatype RegisterResponse = RegisterResponse(
    category: string, name: string, description: string, registerType: string,
    labels: map<int, string>, unit: string, sort: int, writable: bool)

  function CreateRegisterResponse(r: Register): RegisterResponse {
    RegisterResponse(r.category, r.name, r.description, TypeName(r.registerType), r.labels, r.unit, r.sort, r.writable)
  }

  // Device name first, register name second.
  type Table<T> = map<string, map<string, T>>

  datatype Message = Message(operation: string, registers: Table<RegisterResponse>, values: Table<Payload>)

  function Lookup<T>(t: Table<T>, k: StateKey): Option<T> {
    if k.deviceName in t && k.registerName in t[k.deviceName] then Some(t[k.deviceName][k.registerName]) else None
  }

  function Put<T>(t: Table<T>, k: StateKey, x: T): (t': Table<T>)
    ensures t' != map[]
    ensures forall j :: Lookup(t', j) == if j == k then Some(x) else Lookup(t, j)
  {
    var row := if k.deviceName in t then t[k.deviceName] else map[];
    var t' := t[k.deviceName := row[k.registerName := x]];
    assert k.deviceName in t';
    t'
  }

  function AppendValue(t: Table<Payload>, v: Value): Table<Payload> {
    Put(t, v.Key(), GenericValue(v))
  }

  function AppendRegister(t: Table<RegisterResponse>, v: Value): Table<RegisterResponse> {
    if Lookup(t, v.Key()).Some? then t else Put(t, v.Key(), CreateRegisterResponse(v.register))
  }

  function CompileValues(vs: seq<Value>): Table<Payload> {
    if vs == [] then map[] else AppendValue(CompileValues(vs[..|vs| - 1]), vs[|vs| - 1])
  }

  function CompileRegisters(vs: seq<Value>): Table<RegisterResponse> {
    if vs == [] then map[] else AppendRegister(CompileRegisters(vs[..|vs| - 1]), vs[|vs| - 1])
  }

  // ---- the sender ----

  // A tick carries whether the message it may send gets through.
  datatype Event = Tick(ok: bool) | Received(value: Value) | Shutdown

  datatype Sender = Sender(
    messages: seq<Message>,
    registers: Table<RegisterResponse>,
    newRegisters: Table<RegisterResponse>,
    newValues: Table<Payload>,
    tickerRunning: bool,
    stopped: bool)

  function Started(initial: seq<Value>): Sender {
    var registers := CompileRegisters(initial);
    Sender([Message("init", registers, CompileValues(initial))], registers, map[], map[], true, false)
  }

  function Flushed(s: Sender): Sender {
    var inc := Message("inc", s.newRegisters, s.newValues);
    s.(messages := s.messages + [inc], newRegisters := map[], newValues := map[])
  }

  function OnEvent(s: Sender, e: Event): Sender {
    match e
    case Tick(ok) =>
      if s.newValues == map[] then s.(tickerRunning := false)
      else if !ok then s.(stopped := true)
      else Flushed(s)
    case Received(v) =>
      s.(registers := AppendRegister(s.registers, v),
         newRegisters :=
           if Lookup(s.registers, v.Key()).None? then AppendRegister(s.newRegisters, v) else s.newRegisters,
         newValues := AppendValue(s.newValues, v),
         tickerRunning := true)
    case Shutdown => s.(stopped := true)
  }

  function Sent(initial: seq<Value>, events: seq<Event>): Sender {
    if events == [] then Started(initial)
    else
      var s := Sent(initial, events[..|events| - 1]);
      if s.stopped then s else OnEvent(s, events[|events| - 1])
  }

  method Append2DRegisterResponse(
    m: Table<RegisterResponse>, value: Value) returns (m': Table<RegisterResponse>, created: bool)
    ensures m' == AppendRegister(m, value)
    ensures created <==> Lookup(m, value.Key()).None?
  {
    var d0, d1 := value.deviceName, value.register.name;
    m' := m;
    if d0 !in m' {
      m' := m'[d0 := map[]];
    }
    if d1 !in m'[d0] {
      m' := m'[d0 := m'[d0][d1 := CreateRegisterResponse(value.register)]];
      assert m' == m[d0 := (if d0 in m then m[d0] else map[])[d1 := CreateRegisterResponse(value.register)]];
      created := true;
    } else {
      created := false;
    }
  }

  method Append2DValueResponse(response: Table<Payload>, value: Value) returns (response': Table<Payload>)
    ensures response' == AppendValue(response, value)
  {
    var d0, d1 := value.deviceName, value.register.name;
    response' := response;
    if d0 !in response' {
      response' := response'[d0 := map[]];
    }
    response' := response'[d0 := response'[d0][d1 := GenericValue(value)]];
    assert response' == response[d0 := (if d0 in response then response[d0] else map[])[d1 := GenericValue(value)]];
  }

  method Compile2DRegisterResponse(values: seq<Value>) returns (response: Table<RegisterResponse>)
    ensures response == CompileRegisters(values)
  {
    response := map[];
    var n := 0;
    while n < |values|
      invariant 0 <= n <= |values|
      invariant response == CompileRegisters(values[..n])
    {
      assert values[..n + 1][..n] == values[..n];
      var created;
      response, created := Append2DRegisterResponse(response, values[n]);
      n := n + 1;
    }
    assert values[..n] == values;
  }

  method Compile2DValueResponse(values: seq<Value>) returns (response: Table<Payload>)
    ensures response == CompileValues(values)
  {
    response := map[];
    var n := 0;
    while n < |values|
      invariant 0 <= n <= |values|
      invariant response == CompileValues(values[..n])
    {
      assert values[..n + 1][..n] == values[..n];
      response := Append2DValueResponse(response, values[n]);
      n := n + 1;
    }
    assert values[..n] == values;
  }

  lemma SentExtends(initial: seq<Value>, events: seq<Event>, e: nat)
    requires e < |events| && !Sent(initial, events[..e]).stopped
    ensures Sent(initial, events[..e + 1]) == OnEvent(Sent(initial, events[..e]), events[e])
  {
    assert events[..e + 1][..e] == events[..e];
  }

  lemma NothingSent(initial: seq<Value>, events: seq<Event>)
    ensures Sent(initial, events[..0]) == Started(initial)
  {
  }

  // The sender's loop over its events; it ends at the first failed send, the
  // initial message included, or when the subscription is shut down. Returns the
  // messages that got through.
  method WsValuesSender(initial: seq<Value>, initialOk: bool, events: seq<Event>)
    returns (messages: seq<Message>, tickerRunning: bool)
    ensures messages == if initialOk then Sent(initial, events).messages else []
    ensures tickerRunning <==> initialOk && Sent(initial, events).tickerRunning
  {
    hide Sent, AppendRegister, AppendValue, CompileRegisters, CompileValues, Lookup;
    var registers := Compile2DRegisterResponse(initial);
    var values := Compile2DValueResponse(initial);
    if !initialOk {
      return [], false;
    }
    messages := [Message("init", registers, values)];
    tickerRunning := true;
    var newRegisters: Table<RegisterResponse> := map[];
    var newValues: Table<Payload> := map[];
    var e := 0;
    NothingSent(initial, events);
    while e < |events|
      invariant 0 <= e <= |events|
      invariant Sent(initial, events[..e]) == Sender(messages, registers, newRegisters, newValues, tickerRunning, false)
    {
      SentExtends(initial, events, e);
      match events[e] {
        case Tick(ok) =>
          if newValues != map[] {
            if !ok {
              StoppedStays(initial, events, e + 1);
              return;
            }
            messages := messages + [Message("inc", newRegisters, newValues)];
            newRegisters := map[];
            newValues := map[];
          } else {
            tickerRunning := false;
          }
        case Received(v) =>
          var created, again;
          registers, created := Append2DRegisterResponse(registers, v);
          if created {
            newRegisters, again := Append2DRegisterResponse(newRegisters, v);
          }
          newValues := Append2DValueResponse(newValues, v);
          if !tickerRunning {
            tickerRunning := true;
          }
        case Shutdown =>
          StoppedStays(initial, events, e + 1);
          return;
      }
      e := e + 1;
    }
    assert events[..e] == events;
  }

  lemma {:induction false} StoppedStays(initial: seq<Value>, events: seq<Event>, n: nat)
    requires n <= |events| && Sent(initial, events[..n]).stopped
    ensures Sent(initial, events) == Sent(initial, events[..n])
    decreases |events| - n
  {
    if n == |events| {
      assert events[..n] == events;
    } else {
      assert events[..n + 1][..n] == events[..n];
      StoppedStays(initial, events, n + 1);
    }
  }

  // ---- what the client sees ----

  // The client keeps, per key, what the latest message with an entry says.
  function Merged<T>(tables: seq<Table<T>>, k: StateKey): Option<T> {
    if tables == [] then None
    else
      var last := Lookup(tables[|tables| - 1], k);
      if last.Some? then last else Merged(tables[..|tables| - 1], k)
  }

  function ValueTables(ms: seq<Message>): (ts: seq<Table<Payload>>)
    ensures |ts| == |ms| && forall i :: 0 <= i < |ts| ==> ts[i] == ms[i].values
  {
    seq(|ms|, i requires 0 <= i < |ms| => ms[i].values)
  }

  function RegisterTables(ms: seq<Message>): (ts: seq<Table<RegisterResponse>>)
    ensures |ts| == |ms| && forall i :: 0 <= i < |ts| ==> ts[i] == ms[i].registers
  {
    seq(|ms|, i requires 0 <= i < |ms| => ms[i].registers)
  }

  // A null shown means the value is absent.
  function Shown(p: Option<Payload>): Option<Payload> {
    if p == Some(NullPayload) then None else p
  }

  function InStore(st: Store, k: StateKey): Option<Payload> {
    if k in st then Some(GenericValue(st[k])) else None
  }

  lemma MergedExtends<T>(tables: seq<Table<T>>, t: Table<T>, k: StateKey)
    ensures Merged(tables + [t], k) == if Lookup(t, k).Some? then Lookup(t, k) else Merged(tables, k)
  {
    assert (tables + [t])[..|tables|] == tables;
  }

  // ---- the sender's invariant ----

  // Messages so far together with the pending entries show the store.
  ghost predicate Shows(s: Sender, st: Store) {
    forall k :: Shown(Merged(ValueTables(s.messages) + [s.newValues], k)) == InStore(st, k)
  }

  // The known registers are exactly those in the messages and the pending ones,
  // a pending one is in no message yet, and every pending value has one.
  ghost predicate RegistersKnown(s: Sender) {
    && (forall k :: Lookup(s.registers, k) == Merged(RegisterTables(s.messages) + [s.newRegisters], k))
    && (forall k :: Lookup(s.newRegisters, k).Some? ==> Merged(RegisterTables(s.messages), k).None?)
    && (forall k :: Lookup(s.newValues, k).Some? ==> Lookup(s.registers, k).Some?)
  }

  // In the first n messages every value has its register in the same or an
  // earlier message, and no register is sent twice.
  ghost predicate RegistersFirst(ms: seq<Message>, n: nat)
    requires n <= |ms|
  {
    && (forall m, k :: 0 <= m < n && Lookup(ms[m].values, k).Some? ==>
          Merged(RegisterTables(ms[..m + 1]), k).Some?)
    && (forall m, k :: 0 <= m < n && Lookup(ms[m].registers, k).Some? ==>
          Merged(RegisterTables(ms[..m]), k).None?)
  }

  ghost predicate PendingTicks(s: Sender) {
    (s.newValues != map[] ==> s.tickerRunning) && (s.newValues == map[] ==> s.newRegisters == map[])
  }

  lemma {:induction false} CompileShows(vs: seq<Value>, k: StateKey)
    requires forall i, j :: 0 <= i < j < |vs| ==> vs[i].Key() != vs[j].Key()
    ensures Lookup(CompileValues(vs), k) == InStore(MapOf(vs), k)
    ensures Lookup(CompileRegisters(vs), k).Some? <==> k in MapOf(vs)
  {
    if vs != [] {
      CompileShows(vs[..|vs| - 1], k);
    }
  }

  lemma TablesExtend(ms: seq<Message>, m: Message)
    ensures ValueTables(ms + [m]) == ValueTables(ms) + [m.values]
    ensures RegisterTables(ms + [m]) == RegisterTables(ms) + [m.registers]
  {
  }

  lemma StartShows(initial: seq<Value>, st: Store)
    requires IsListing(initial, st) && WellKeyed(st)
    ensures Shows(Started(initial), st)
  {
    var s := Started(initial);
    ListingGivesMap(initial, st);
    forall k
      ensures Shown(Merged(ValueTables(s.messages) + [s.newValues], k)) == InStore(st, k)
    {
      CompileShows(initial, k);
      assert ValueTables(s.messages) == [] + [s.messages[0].values];
      MergedExtends([], s.messages[0].values, k);
      MergedExtends(ValueTables(s.messages), s.newValues, k);
    }
  }

  lemma ReceiveShows(s: Sender, st: Store, v: Value)
    requires Shows(s, st)
    ensures Shows(OnEvent(s, Received(v)), ReplayOne(st, v))
  {
    hide Merged, AppendRegister;
    var t := OnEvent(s, Received(v));
    forall k
      ensures Shown(Merged(ValueTables(t.messages) + [t.newValues], k)) == InStore(ReplayOne(st, v), k)
    {
      assert Shown(Merged(ValueTables(s.messages) + [s.newValues], k)) == InStore(st, k);
      MergedExtends(ValueTables(s.messages), s.newValues, k);
      MergedExtends(ValueTables(s.messages), t.newValues, k);
    }
  }

  lemma FlushShows(s: Sender, st: Store)
    requires Shows(s, st)
    ensures Shows(Flushed(s), st)
  {
    hide Merged;
    var m := Message("inc", s.newRegisters, s.newValues);
    TablesExtend(s.messages, m);
    forall k
      ensures Shown(Merged(ValueTables(s.messages + [m]) + [map[]], k)) == InStore(st, k)
    {
      MergedExtends(ValueTables(s.messages + [m]), map[], k);
    }
  }

  lemma EventShows(s: Sender, st: Store, e: Event)
    requires Shows(s, st)
    ensures Shows(OnEvent(s, e), if e.Received? then ReplayOne(st, e.value) else st)
  {
    if e.Received? {
      ReceiveShows(s, st, e.value);
    } else if e == Tick(true) && s.newValues != map[] {
      FlushShows(s, st);
    } else {
      hide Merged, InStore, Shown;
    }
  }

  function ReceivedValues(events: seq<Event>): seq<Value> {
    if events == [] then []
    else
      var e := events[|events| - 1];
      ReceivedValues(events[..|events| - 1]) + if e.Received? then [e.value] else []
  }

  // Messages and pending entries together always show the snapshot replayed with
  // everything received.
  lemma {:induction false} AlwaysShows(initial: seq<Value>, st: Store, events: seq<Event>)
    requires IsListing(initial, st) && WellKeyed(st) && !Sent(initial, events).stopped
    ensures Shows(Sent(initial, events), Replay(st, ReceivedValues(events)))
  {
    hide Shows, OnEvent, Started, IsListing;
    if events == [] {
      StartShows(initial, st);
    } else {
      var before, e := events[..|events| - 1], events[|events| - 1];
      var s := Sent(initial, before);
      AlwaysShows(initial, st, before);
      EventShows(s, Replay(st, ReceivedValues(before)), e);
      if e.Received? {
        ReplayExtends(st, ReceivedValues(before), e.value);
      } else {
        assert ReceivedValues(before) + [] == ReceivedValues(before);
      }
    }
  }

  // After a tick that got through nothing is pending, and what the client has
  // merged from the messages alone is the replayed map, null meaning absent.
  lemma TickFlushes(initial: seq<Value>, st: Store, events: seq<Event>)
    requires IsListing(initial, st) && WellKeyed(st)
    requires events != [] && events[|events| - 1] == Tick(true) && !Sent(initial, events).stopped
    ensures var s := Sent(initial, events);
      && s.newValues == map[]
      && forall k :: Shown(Merged(ValueTables(s.messages), k)) == InStore(Replay(st, ReceivedValues(events)), k)
  {
    AlwaysShows(initial, st, events);
    var s := Sent(initial, events);
    forall k
      ensures Shown(Merged(ValueTables(s.messages), k)) == InStore(Replay(st, ReceivedValues(events)), k)
    {
      MergedExtends(ValueTables(s.messages), s.newValues, k);
    }
  }

  // ---- ticker and registers ----

  ghost predicate Sound(s: Sender) {
    PendingTicks(s) && RegistersKnown(s) && RegistersFirst(s.messages, |s.messages|)
  }

  lemma RegistersFirstExtends(ms: seq<Message>, m: Message)
    requires RegistersFirst(ms, |ms|)
    requires forall k :: Lookup(m.values, k).Some? ==> Merged(RegisterTables(ms + [m]), k).Some?
    requires forall k :: Lookup(m.registers, k).Some? ==> Merged(RegisterTables(ms), k).None?
    ensures RegistersFirst(ms + [m], |ms| + 1)
  {
    hide Lookup, Merged;
    var all := ms + [m];
    assert all[..|ms|] == ms && all[..|ms| + 1] == all;
    forall i, k | 0 <= i < |all| && Lookup(all[i].values, k).Some?
      ensures Merged(RegisterTables(all[..i + 1]), k).Some?
    {
      if i < |ms| {
        assert all[..i + 1] == ms[..i + 1];
      }
    }
    forall i, k | 0 <= i < |all| && Lookup(all[i].registers, k).Some?
      ensures Merged(RegisterTables(all[..i]), k).None?
    {
      if i < |ms| {
        assert all[..i] == ms[..i];
      }
    }
  }

  lemma StartSound(initial: seq<Value>, st: Store)
    requires IsListing(initial, st)
    ensures Sound(Started(initial))
  {
    hide Merged, CompileRegisters, CompileValues, RegistersFirst;
    var s := Started(initial);
    var m := s.messages[0];
    assert RegisterTables(s.messages) == [] + [m.registers];
    forall k
      ensures Lookup(m.values, k).Some? <==> Lookup(m.registers, k).Some?
      ensures Merged(RegisterTables(s.messages), k) == Lookup(m.registers, k)
      ensures Merged(RegisterTables(s.messages) + [map[]], k) == Lookup(m.registers, k)
      ensures Merged(RegisterTables([]), k).None?
    {
      CompileShows(initial, k);
      NothingMerged(k);
      MergedExtends([], m.registers, k);
      MergedExtends(RegisterTables(s.messages), map[], k);
    }
    assert RegistersFirst([], 0) by { NothingFirst(); }
    assert [] + [m] == s.messages;
    RegistersFirstExtends([], m);
  }

  lemma NothingMerged(k: StateKey)
    ensures Merged<RegisterResponse>([], k).None? && Merged(RegisterTables([]), k).None?
  {
  }

  lemma NothingFirst()
    ensures RegistersFirst([], 0)
  {
  }

  lemma FlushSound(s: Sender)
    requires Sound(s)
    ensures Sound(Flushed(s))
  {
    hide Merged, RegistersFirst;
    var m := Message("inc", s.newRegisters, s.newValues);
    TablesExtend(s.messages, m);
    forall k
      ensures Merged(RegisterTables(s.messages + [m]) + [map[]], k) == Merged(RegisterTables(s.messages + [m]), k)
    {
      MergedExtends(RegisterTables(s.messages + [m]), map[], k);
    }
    assert RegisterTables(s.messages + [m]) == RegisterTables(s.messages) + [s.newRegisters];
    RegistersFirstExtends(s.messages, m);
  }

  lemma ReceiveSound(s: Sender, v: Value)
    requires Sound(s)
    ensures Sound(OnEvent(s, Received(v)))
  {
    hide RegistersFirst, CreateRegisterResponse, GenericValue, Merged;
    var t := OnEvent(s, Received(v));
    var tables := RegisterTables(s.messages);
    forall k
      ensures Lookup(t.registers, k) == Merged(tables + [t.newRegisters], k)
      ensures Lookup(t.newRegisters, k).Some? ==> Merged(tables, k).None?
    {
      assert Lookup(s.registers, k) == Merged(tables + [s.newRegisters], k);
      MergedExtends(tables, s.newRegisters, k);
      MergedExtends(tables, t.newRegisters, k);
    }
  }

  // At all times: pending values imply a running ticker; every value sent has its
  // register in the same or an earlier message; no register is sent twice.
  lemma {:induction false} AlwaysSound(initial: seq<Value>, st: Store, events: seq<Event>)
    requires IsListing(initial, st)
    ensures Sound(Sent(initial, events))
  {
    hide IsListing, RegistersFirst, RegistersKnown, Started;
    if events == [] {
      StartSound(initial, st);
    } else {
      var s, e := Sent(initial, events[..|events| - 1]), events[|events| - 1];
      AlwaysSound(initial, st, events[..|events| - 1]);
      if !s.stopped {
        EventSound(s, e);
      }
    }
  }

  lemma EventSound(s: Sender, e: Event)
    requires Sound(s)
    ensures Sound(OnEvent(s, e))
  {
    if e.Received? {
      ReceiveSound(s, e.value);
    } else if e == Tick(true) && s.newValues != map[] {
      FlushSound(s);
    } else {
      hide Merged, Lookup;
      assert RegistersKnown(OnEvent(s, e));
    }
  }
}
