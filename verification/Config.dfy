/** The references inside a configuration: buses, devices, bindings, the devices
    an MQTT client feeds and forwards, and views. Every check that concerns no
    reference is represented by the errors it found, the field others. */
module Config {
  import opened Ordering
  import opened Bindings
  import opened Sequences

  datatype Error = Error(text: string)

  // ---- as read ----

  datatype PlainRead = PlainRead(others: seq<Error>)
  datatype ModbusDeviceRead = ModbusDeviceRead(bus: string, others: seq<Error>)
  datatype GensetRead = GensetRead(inputBindings: BindingMap, outputBindings: BindingMap, others: seq<Error>)
  datatype ClientDeviceRead = ClientDeviceRead(mqttTopics: seq<string>)
  datatype DeviceSectionRead = DeviceSectionRead(hasFilter: bool)
  datatype SectionRead = SectionRead(devices: map<string, DeviceSectionRead>, others: seq<Error>)
  datatype ClientRead = ClientRead(
    mqttDevices: map<string, ClientDeviceRead>,
    availabilityClient: SectionRead,
    availabilityDevice: SectionRead,
    structure: SectionRead,
    telemetry: SectionRead,
    realtime: SectionRead,
    homeassistantDiscovery: SectionRead,
    command: SectionRead,
    others: seq<Error>)
  datatype ViewRead = ViewRead(name: string, devices: seq<string>, others: seq<Error>)
  datatype ConfigRead = ConfigRead(
    modbus: map<string, PlainRead>,
    victronDevices: map<string, PlainRead>,
    modbusDevices: map<string, ModbusDeviceRead>,
    gpioDevices: map<string, PlainRead>,
    httpDevices: map<string, PlainRead>,
    mqttDevices: map<string, PlainRead>,
    gensetDevices: map<string, GensetRead>,
    mqttClients: map<string, ClientRead>,
    views: seq<ViewRead>,
    others: seq<Error>)

  // ---- as accepted ----

  datatype ModbusDevice = ModbusDevice(name: string, bus: string)
  datatype Genset = Genset(name: string, inputBindings: seq<Binding>, outputBindings: seq<Binding>)
  datatype Client = Client(
    name: string,
    mqttDevices: seq<string>,
    availabilityClient: seq<string>,
    availabilityDevice: seq<string>,
    structure: seq<string>,
    telemetry: seq<string>,
    realtime: seq<string>,
    homeassistantDiscovery: seq<string>,
    command: seq<string>)
  {
    predicate ListedOutgoing(d: string) {
      || d in availabilityClient || d in availabilityDevice || d in structure || d in telemetry
      || d in realtime || d in homeassistantDiscovery || d in command
    }
  }
  datatype View = View(name: string, devices: seq<string>)
  datatype Config = Config(
    modbus: seq<string>,
    modbusDevices: seq<ModbusDevice>,
    mqttDevices: seq<string>,
    sourceDevices: seq<string>, // every device but the gensets
    devices: seq<string>,
    gensetDevices: seq<Genset>,
    mqttClients: seq<Client>,
    views: seq<View>)

  // Reserving a list with a negative capacity ends the program.
  datatype Outcome = Panicked | Finished(config: Config, errors: seq<Error>)

  // ---- the generic loops ----

  method ExistsByName(needle: string, haystack: seq<string>) returns (found: bool)
    ensures found <==> needle in haystack
  {
    var i := 0;
    while i < |haystack|
      invariant 0 <= i <= |haystack|
      invariant needle !in haystack[..i]
    {
      if needle == haystack[i] {
        return true;
      }
      i := i + 1;
    }
    return false;
  }

  // Transforms the entries in the order of their names and collects all errors.
  method MapToList<I, O>(
    inp: map<string, I>, transformer: (I, string) -> (O, seq<Error>)) returns (ret: seq<O>, err: seq<Error>)
    ensures var keys := SortedKeys(inp.Keys);
      |ret| == |keys| && forall i :: 0 <= i < |ret| ==> ret[i] == transformer(inp[keys[i]], keys[i]).0
    ensures err == [] <==> forall k :: k in inp ==> transformer(inp[k], k).1 == []
  {
    hide SortedKeys, Less;
    var keys := SortedKeys(inp.Keys);
    assert forall j :: 0 <= j < |keys| ==> keys[j] in inp.Keys;
    ret, err := [], [];
    var i := 0;
    while i < |keys|
      invariant 0 <= i <= |keys| && |ret| == i
      invariant forall j :: 0 <= j < i ==> ret[j] == transformer(inp[keys[j]], keys[j]).0
      invariant err == [] <==> forall k :: k in keys[..i] ==> transformer(inp[k], k).1 == []
    {
      var (o, e) := transformer(inp[keys[i]], keys[i]);
      ret := ret + [o];
      err := err + e;
      assert keys[..i + 1] == keys[..i] + [keys[i]];
      i := i + 1;
    }
    assert keys[..i] == keys;
  }

  function Names(vs: seq<View>): seq<string> { seq(|vs|, i requires 0 <= i < |vs| => vs[i].name) }

  ghost predicate Distinct(vs: seq<View>) { forall i, j :: 0 <= i < j < |vs| ==> vs[i].name != vs[j].name }

  lemma DistinctExtends(vs: seq<View>, v: View)
    ensures Distinct(vs + [v]) <==> Distinct(vs) && v.name !in Names(vs)
  {
    if Distinct(vs + [v]) {
      forall i, j | 0 <= i < j < |vs|
        ensures vs[i].name != vs[j].name
      {
        assert (vs + [v])[i] == vs[i] && (vs + [v])[j] == vs[j];
      }
      forall i | 0 <= i < |vs|
        ensures vs[i].name != v.name
      {
        assert (vs + [v])[i] == vs[i] && (vs + [v])[|vs|] == v;
      }
    } else {
      var i, j :| 0 <= i < j < |vs| + 1 && (vs + [v])[i].name == (vs + [v])[j].name;
      assert Names(vs)[i] == vs[i].name;
    }
  }

  // Transforms the list in order; each result is checked against those before it.
  method ListUnique<I>(inp: seq<I>, transformer: I -> (View, seq<Error>)) returns (ret: seq<View>, err: seq<Error>)
    ensures |ret| == |inp| && forall i :: 0 <= i < |ret| ==> ret[i] == transformer(inp[i]).0
    ensures err == [] <==> Distinct(ret) && forall i :: 0 <= i < |inp| ==> transformer(inp[i]).1 == []
  {
    hide Names, Distinct;
    ret, err := [], [];
    assert Distinct(ret) by { NoneDistinct(); }
    var n := 0;
    while n < |inp|
      invariant 0 <= n <= |inp| && |ret| == n
      invariant forall i :: 0 <= i < n ==> ret[i] == transformer(inp[i]).0
      invariant err == [] <==> Distinct(ret) && forall i :: 0 <= i < n ==> transformer(inp[i]).1 == []
    {
      var (r, e) := transformer(inp[n]);
      var duplicate := ExistsByName(r.name, Names(ret));
      DistinctExtends(ret, r);
      if duplicate {
        err := err + [Error("duplicate name")];
      }
      ret := ret + [r];
      err := err + e;
      n := n + 1;
    }
  }

  lemma NoneDistinct()
    ensures Distinct([])
  {
  }

  // ---- the transformers ----

  function Plain(inp: PlainRead, name: string): (string, seq<Error>) { (name, inp.others) }

  function Unless(ok: bool, text: string): (e: seq<Error>)
    ensures e == [] <==> ok
  {
    if ok then [] else [Error(text)]
  }

  // The errors of several checks, one after the other.
  function Collect(es: seq<seq<Error>>): (e: seq<Error>)
    ensures e == [] <==> forall i :: 0 <= i < |es| ==> es[i] == []
  {
    if es == [] then [] else es[0] + Collect(es[1..])
  }

  lemma CollectedNine(a: seq<Error>, b: seq<Error>, c: seq<Error>, d: seq<Error>, e: seq<Error>,
    f: seq<Error>, g: seq<Error>, h: seq<Error>, i: seq<Error>)
    ensures Collect([a, b, c, d, e, f, g, h, i]) == []
      <==> a == [] && b == [] && c == [] && d == [] && e == [] && f == [] && g == [] && h == [] && i == []
  {
    hide Collect;
    var es := [a, b, c, d, e, f, g, h, i];
    assert es[0] == a && es[1] == b && es[2] == c && es[3] == d && es[4] == e;
    assert es[5] == f && es[6] == g && es[7] == h && es[8] == i;
  }

  function TransformModbusDevice(inp: ModbusDeviceRead, name: string, modbus: seq<string>): (ModbusDevice, seq<Error>) {
    (ModbusDevice(name, inp.bus), inp.others + Unless(inp.bus in modbus, "bus is not defined"))
  }

  // The errors of one kind of binding; their order is that of a map iteration.
  function UndefinedIn(names: seq<string>, devices: seq<string>): (e: seq<Error>)
    ensures e == [] <==> forall d :: d in names ==> d in devices
  {
    if names == [] then []
    else Unless(names[0] in devices, "device is not defined") + UndefinedIn(names[1..], devices)
  }

  function DeviceBindings(m: map<string, string>, deviceName: string, registers: seq<string>): (bs: seq<Binding>)
    requires forall r :: r in registers ==> r in m
    ensures |bs| == |registers|
    ensures forall i :: 0 <= i < |bs| ==> bs[i] == Binding(deviceName, registers[i], m[registers[i]])
  {
    seq(|registers|, i requires 0 <= i < |registers| =>
      assert registers[i] in registers; Binding(deviceName, registers[i], m[registers[i]]))
  }

  // The sorted binding list, built in sorted order.
  function SortedBindings(c: BindingMap, devices: seq<string>): seq<Binding>
    requires forall d :: d in devices ==> d in c
  {
    if devices == [] then []
    else
      DeviceBindings(c[devices[0]], devices[0], SortedKeys(c[devices[0]].Keys)) + SortedBindings(c, devices[1..])
  }

  function BindingList(c: BindingMap): seq<Binding> { SortedBindings(c, SortedKeys(c.Keys)) }

  lemma {:induction false} SortedBindingsSorted(c: BindingMap, devices: seq<string>)
    requires forall d :: d in devices ==> d in c
    requires forall i, j :: 0 <= i < j < |devices| ==> Less(devices[i], devices[j])
    ensures Increasing(SortedBindings(c, devices))
    ensures forall b :: b in SortedBindings(c, devices) <==> InMap(b, c) && b.deviceName in devices
  {
    if devices != [] {
      var d := devices[0];
      var registers := SortedKeys(c[d].Keys);
      var own, rest := DeviceBindings(c[d], d, registers), SortedBindings(c, devices[1..]);
      SortedBindingsSorted(c, devices[1..]);
      OwnBindings(c, d);
      assert forall b :: b in own + rest <==> b in own || b in rest;
      assert forall e :: e in devices <==> e == d || e in devices[1..];
      forall i, j | 0 <= i < |own| && 0 <= j < |rest|
        ensures Before(own[i], rest[j]) && !SameSlot(own[i], rest[j])
      {
        assert rest[j] in rest;
        var k :| 0 <= k < |devices[1..]| && devices[1..][k] == rest[j].deviceName;
        assert Less(devices[0], devices[k + 1]);
        LessTotal(d, d);
      }
    }
  }

  lemma OwnBindings(c: BindingMap, d: string)
    requires d in c
    ensures var own := DeviceBindings(c[d], d, SortedKeys(c[d].Keys));
      Increasing(own) && forall b :: b in own <==> InMap(b, c) && b.deviceName == d
  {
    var registers := SortedKeys(c[d].Keys);
    var own := DeviceBindings(c[d], d, registers);
    forall i, j | 0 <= i < j < |own|
      ensures Before(own[i], own[j]) && !SameSlot(own[i], own[j])
    {
      LessTotal(registers[i], registers[i]);
    }
    forall b
      ensures b in own <==> InMap(b, c) && b.deviceName == d
    {
      if InMap(b, c) && b.deviceName == d {
        assert b.registerName in registers;
        var i :| 0 <= i < |registers| && registers[i] == b.registerName;
        assert own[i] == b;
      }
      if b in own {
        var i :| 0 <= i < |own| && own[i] == b;
        assert registers[i] in registers;
      }
    }
  }

  // It is the list that collecting in any order and sorting gives.
  lemma BindingListIsTransform(c: BindingMap, bs: seq<Binding>)
    requires Increasing(bs) && Lists(bs, c)
    ensures BindingList(c) == bs
  {
    SortedBindingsSorted(c, SortedKeys(c.Keys));
    OnlyOneList(BindingList(c), bs);
  }

  function TransformGenset(inp: GensetRead, name: string, devices: seq<string>): (Genset, seq<Error>) {
    (Genset(name, BindingList(inp.inputBindings), BindingList(inp.outputBindings)),
     inp.others
       + UndefinedIn(SortedKeys(inp.inputBindings.Keys), devices)
       + UndefinedIn(SortedKeys(inp.outputBindings.Keys), devices))
  }

  function TransformSectionDevice(inp: DeviceSectionRead, name: string, devices: seq<string>,
    allowFilter: bool): (string, seq<Error>) {
    (name, Unless(name in devices, "device is not defined or is an MqttDevice")
      + Unless(allowFilter || !inp.hasFilter, "filter must not be set"))
  }

  function SectionDeviceErrors(
    names: seq<string>, given: map<string, DeviceSectionRead>, devices: seq<string>, allowFilter: bool): (e: seq<Error>)
    requires forall n :: n in names ==> n in given
    ensures e == [] <==> forall n :: n in names ==> n in devices && (allowFilter || !given[n].hasFilter)
  {
    if names == [] then []
    else
      TransformSectionDevice(given[names[0]], names[0], devices, allowFilter).1
        + SectionDeviceErrors(names[1..], given, devices, allowFilter)
  }

  // The devices a section forwards: those given, or all allowed ones.
  function TransformSection(inp: SectionRead, devices: seq<string>, allowDevices: bool,
    allowFilter: bool): (seq<string>, seq<Error>) {
    if !allowDevices then ([], inp.others + Unless(inp.devices == map[], "devices must not be set"))
    else
      var given := if inp.devices == map[] then map d | d in devices :: DeviceSectionRead(false) else inp.devices;
      var names := SortedKeys(given.Keys);
      (names, inp.others + SectionDeviceErrors(names, given, devices, allowFilter))
  }

  function ClientDeviceErrors(
    names: seq<string>, given: map<string, ClientDeviceRead>, mqttDevices: seq<string>): (e: seq<Error>)
    requires forall n :: n in names ==> n in given
    ensures e == [] <==> forall n :: n in names ==> n in mqttDevices && given[n].mqttTopics != []
  {
    if names == [] then []
    else
      Unless(names[0] in mqttDevices, "mqtt device is not defined")
        + Unless(given[names[0]].mqttTopics != [], "topics must not be empty")
        + ClientDeviceErrors(names[1..], given, mqttDevices)
  }

  // The devices that are not fed by this client.
  function NonLoop(devices: seq<string>, fed: seq<string>): (r: seq<string>)
    ensures forall d :: d in r <==> d in devices && d !in fed
  {
    if devices == [] then []
    else (if devices[0] in fed then [] else [devices[0]]) + NonLoop(devices[1..], fed)
  }

  function TransformClient(
    inp: ClientRead, name: string, devices: seq<string>, mqttDevices: seq<string>): (Client, seq<Error>)
  {
    var fed := SortedKeys(inp.mqttDevices.Keys);
    var nonLoop := NonLoop(devices, fed);
    var a := TransformSection(inp.availabilityClient, nonLoop, false, false);
    var b := TransformSection(inp.availabilityDevice, nonLoop, true, false);
    var c := TransformSection(inp.structure, nonLoop, true, true);
    var d := TransformSection(inp.telemetry, nonLoop, true, true);
    var e := TransformSection(inp.realtime, nonLoop, true, true);
    var f := TransformSection(inp.homeassistantDiscovery, nonLoop, true, true);
    var g := TransformSection(inp.command, nonLoop, true, true);
    (Client(name, fed, a.0, b.0, c.0, d.0, e.0, f.0, g.0),
     Collect([inp.others, ClientDeviceErrors(fed, inp.mqttDevices, mqttDevices), a.1, b.1, c.1, d.1, e.1, f.1, g.1]))
  }

  // The capacity reserved for the devices not fed by the client is negative.
  predicate ReservesNegative(inp: ClientRead, devices: seq<string>) {
    |devices| - |inp.mqttDevices| < 0
  }

  function ViewDeviceErrors(names: seq<string>, n: nat, devices: seq<string>): (e: seq<Error>)
    requires n <= |names|
    ensures e == [] <==> forall i :: 0 <= i < n ==> names[i] in devices && names[i] !in names[..i]
  {
    if n == 0 then []
    else
      ViewDeviceErrors(names, n - 1, devices)
        + Unless(names[n - 1] !in names[..n - 1], "duplicate name")
        + Unless(names[n - 1] in devices, "device is not defined")
  }

  function TransformView(inp: ViewRead, devices: seq<string>): (View, seq<Error>) {
    (View(inp.name, inp.devices), inp.others + ViewDeviceErrors(inp.devices, |inp.devices|, devices))
  }

  // ---- what acceptance means ----

  function SourceNames(c: ConfigRead): set<string> {
    c.victronDevices.Keys + c.modbusDevices.Keys + c.gpioDevices.Keys + c.httpDevices.Keys + c.mqttDevices.Keys
  }

  function DeviceNames(c: ConfigRead): set<string> { SourceNames(c) + c.gensetDevices.Keys }

  function SourceCount(c: ConfigRead): nat {
    |c.victronDevices| + |c.modbusDevices| + |c.gpioDevices| + |c.httpDevices| + |c.mqttDevices|
  }

  // The devices a client may send: those it does not feed.
  function Sendable(c: ConfigRead, inp: ClientRead): set<string> { DeviceNames(c) - inp.mqttDevices.Keys }

  ghost predicate SectionOk(s: SectionRead, allowed: set<string>, allowFilter: bool) {
    s.others == [] && forall d :: d in s.devices ==> d in allowed && (allowFilter || !s.devices[d].hasFilter)
  }

  ghost predicate ModbusDeviceOk(c: ConfigRead, d: ModbusDeviceRead) { d.others == [] && d.bus in c.modbus }

  ghost predicate GensetOk(c: ConfigRead, g: GensetRead) {
    g.others == [] && g.inputBindings.Keys <= SourceNames(c) && g.outputBindings.Keys <= SourceNames(c)
  }

  ghost predicate ClientOk(c: ConfigRead, client: ClientRead) {
    && client.others == []
    && (forall d :: d in client.mqttDevices ==> d in c.mqttDevices && client.mqttDevices[d].mqttTopics != [])
    && client.availabilityClient.others == [] && client.availabilityClient.devices == map[]
    && SectionOk(client.availabilityDevice, Sendable(c, client), false)
    && SectionOk(client.structure, Sendable(c, client), true)
    && SectionOk(client.telemetry, Sendable(c, client), true)
    && SectionOk(client.realtime, Sendable(c, client), true)
    && SectionOk(client.homeassistantDiscovery, Sendable(c, client), true)
    && SectionOk(client.command, Sendable(c, client), true)
  }

  ghost predicate ViewOk(c: ConfigRead, v: ViewRead) {
    && v.others == []
    && (forall i :: 0 <= i < |v.devices| ==> v.devices[i] in DeviceNames(c))
    && (forall i, j :: 0 <= i < j < |v.devices| ==> v.devices[i] != v.devices[j])
  }

  ghost predicate ViewsOk(c: ConfigRead) {
    && (forall i :: 0 <= i < |c.views| ==> ViewOk(c, c.views[i]))
    && (forall i, j :: 0 <= i < j < |c.views| ==> c.views[i].name != c.views[j].name)
  }

  ghost predicate PlainOk(devices: map<string, PlainRead>) { forall n :: n in devices ==> devices[n].others == [] }

  ghost predicate DevicesOk(c: ConfigRead) {
    && PlainOk(c.modbus) && PlainOk(c.victronDevices) && PlainOk(c.gpioDevices) && PlainOk(c.httpDevices)
      && PlainOk(c.mqttDevices)
    && (forall n :: n in c.modbusDevices ==> ModbusDeviceOk(c, c.modbusDevices[n]))
    && (forall n :: n in c.gensetDevices ==> GensetOk(c, c.gensetDevices[n]))
  }

  // Every reference in the configuration as read resolves, and no other check failed.
  ghost predicate ReferencesResolve(c: ConfigRead) {
    && c.others == []
    && DevicesOk(c)
    && (forall n :: n in c.mqttClients ==> ClientOk(c, c.mqttClients[n]))
    && ViewsOk(c)
  }

  // ---- what is returned ----

  // A section sends the devices it names, or all it may send when it names none.
  ghost predicate Sends(list: seq<string>, s: SectionRead, allowed: set<string>) {
    forall d :: d in list <==> if s.devices == map[] then d in allowed else d in s.devices
  }

  ghost predicate KeepsModbusDevices(c: ConfigRead, r: seq<ModbusDevice>) {
    var names := SortedKeys(c.modbusDevices.Keys);
    |r| == |names| && forall i :: 0 <= i < |r| ==> r[i] == ModbusDevice(names[i], c.modbusDevices[names[i]].bus)
  }

  ghost predicate KeepsBindings(bs: seq<Binding>, given: BindingMap) { Increasing(bs) && Lists(bs, given) }

  ghost predicate KeepsGensets(c: ConfigRead, r: seq<Genset>) {
    var names := SortedKeys(c.gensetDevices.Keys);
    |r| == |names|
    && forall i :: 0 <= i < |r| ==>
      && r[i].name == names[i]
      && KeepsBindings(r[i].inputBindings, c.gensetDevices[names[i]].inputBindings)
      && KeepsBindings(r[i].outputBindings, c.gensetDevices[names[i]].outputBindings)
  }

  ghost predicate KeepsClient(c: ConfigRead, inp: ClientRead, r: Client) {
    var allowed := Sendable(c, inp);
    && r.mqttDevices == SortedKeys(inp.mqttDevices.Keys)
    && r.availabilityClient == []
    && Sends(r.availabilityDevice, inp.availabilityDevice, allowed)
    && Sends(r.structure, inp.structure, allowed)
    && Sends(r.telemetry, inp.telemetry, allowed)
    && Sends(r.realtime, inp.realtime, allowed)
    && Sends(r.homeassistantDiscovery, inp.homeassistantDiscovery, allowed)
    && Sends(r.command, inp.command, allowed)
  }

  ghost predicate KeepsClients(c: ConfigRead, r: seq<Client>) {
    var names := SortedKeys(c.mqttClients.Keys);
    |r| == |names|
    && forall i :: 0 <= i < |r| ==> r[i].name == names[i] && KeepsClient(c, c.mqttClients[names[i]], r[i])
  }

  ghost predicate KeepsViews(c: ConfigRead, r: seq<View>) {
    |r| == |c.views| && forall i :: 0 <= i < |r| ==> r[i] == View(c.views[i].name, c.views[i].devices)
  }

  ghost predicate KeepsDevices(c: ConfigRead, modbus: seq<string>, modbusDevices: seq<ModbusDevice>, mqtt: seq<string>,
    sources: seq<string>, devices: seq<string>, gensets: seq<Genset>) {
    && modbus == SortedKeys(c.modbus.Keys)
    && mqtt == SortedKeys(c.mqttDevices.Keys)
    && (forall d :: d in sources <==> d in SourceNames(c))
    && (forall d :: d in devices <==> d in DeviceNames(c))
    && KeepsModbusDevices(c, modbusDevices)
    && KeepsGensets(c, gensets)
  }

  // The configuration returned holds what was read: the same entries, in the order of their names.
  ghost predicate Keeps(c: ConfigRead, r: Config) {
    && KeepsDevices(c, r.modbus, r.modbusDevices, r.mqttDevices, r.sourceDevices, r.devices, r.gensetDevices)
    && KeepsClients(c, r.mqttClients)
    && KeepsViews(c, r.views)
  }

  // ---- soundness ----

  ghost predicate BindingsSound(bs: seq<Binding>, r: Config) { forall b :: b in bs ==> b.deviceName in r.sourceDevices }

  ghost predicate ClientSound(client: Client, r: Config) {
    && (forall d :: d in client.mqttDevices ==> d in r.mqttDevices)
    && (forall d :: client.ListedOutgoing(d) ==> d in r.devices && d !in client.mqttDevices)
  }

  // Within the configuration returned, everything referred to is there.
  ghost predicate Sound(r: Config) {
    && (forall d :: d in r.modbusDevices ==> d.bus in r.modbus)
    && (forall g :: g in r.gensetDevices ==> BindingsSound(g.inputBindings, r) && BindingsSound(g.outputBindings, r))
    && (forall client :: client in r.mqttClients ==> ClientSound(client, r))
    && (forall v :: v in r.views ==> forall d :: d in v.devices ==> d in r.devices)
    && Distinct(r.views)
  }

  lemma AcceptedIsSound(c: ConfigRead, r: Config)
    requires ReferencesResolve(c) && Keeps(c, r)
    ensures Sound(r)
  {
    hide SortedKeys, Less, ModbusDeviceOk, GensetOk, ClientOk, ViewOk, KeepsModbusDevices, KeepsGensets, KeepsClients;
    hide BindingsSound, ClientSound, SourceNames, DeviceNames, PlainOk;
    ModbusDevicesSound(c, r);
    GensetsSound(c, r);
    ClientsSound(c, r);
    forall v | v in r.views
      ensures forall d :: d in v.devices ==> d in r.devices
    {
      var i :| 0 <= i < |r.views| && r.views[i] == v;
      ViewSound(c, c.views[i], r);
    }
  }

  lemma ModbusDevicesSound(c: ConfigRead, r: Config)
    requires forall n :: n in c.modbusDevices ==> ModbusDeviceOk(c, c.modbusDevices[n])
    requires r.modbus == SortedKeys(c.modbus.Keys) && KeepsModbusDevices(c, r.modbusDevices)
    ensures forall d :: d in r.modbusDevices ==> d.bus in r.modbus
  {
    hide SortedKeys, Less;
    forall d | d in r.modbusDevices
      ensures d.bus in r.modbus
    {
      var i :| 0 <= i < |r.modbusDevices| && r.modbusDevices[i] == d;
      var names := SortedKeys(c.modbusDevices.Keys);
      assert names[i] in names;
      assert ModbusDeviceOk(c, c.modbusDevices[names[i]]);
    }
  }

  lemma GensetsSound(c: ConfigRead, r: Config)
    requires forall n :: n in c.gensetDevices ==> GensetOk(c, c.gensetDevices[n])
    requires forall d :: d in r.sourceDevices <==> d in SourceNames(c)
    requires KeepsGensets(c, r.gensetDevices)
    ensures forall g :: g in r.gensetDevices ==> BindingsSound(g.inputBindings, r) && BindingsSound(g.outputBindings, r)
  {
    hide SortedKeys, Less, SourceNames, GensetOk, KeepsBindings, BindingsSound;
    forall g | g in r.gensetDevices
      ensures BindingsSound(g.inputBindings, r) && BindingsSound(g.outputBindings, r)
    {
      var i :| 0 <= i < |r.gensetDevices| && r.gensetDevices[i] == g;
      var names := SortedKeys(c.gensetDevices.Keys);
      assert names[i] in names;
      GensetSound(c, c.gensetDevices[names[i]], g, r);
    }
  }

  lemma GensetSound(c: ConfigRead, inp: GensetRead, g: Genset, r: Config)
    requires GensetOk(c, inp) && forall d :: d in r.sourceDevices <==> d in SourceNames(c)
    requires KeepsBindings(g.inputBindings, inp.inputBindings) && KeepsBindings(g.outputBindings, inp.outputBindings)
    ensures BindingsSound(g.inputBindings, r) && BindingsSound(g.outputBindings, r)
  {
    hide Increasing, SourceNames;
    forall b | b in g.inputBindings
      ensures b.deviceName in r.sourceDevices
    {
      assert InMap(b, inp.inputBindings);
      assert b.deviceName in inp.inputBindings.Keys;
    }
    forall b | b in g.outputBindings
      ensures b.deviceName in r.sourceDevices
    {
      assert InMap(b, inp.outputBindings);
      assert b.deviceName in inp.outputBindings.Keys;
    }
  }

  lemma ViewSound(c: ConfigRead, inp: ViewRead, r: Config)
    requires ViewOk(c, inp) && forall d :: d in r.devices <==> d in DeviceNames(c)
    ensures forall d :: d in inp.devices ==> d in r.devices
  {
  }

  lemma ClientsSound(c: ConfigRead, r: Config)
    requires forall n :: n in c.mqttClients ==> ClientOk(c, c.mqttClients[n])
    requires forall d :: d in r.devices <==> d in DeviceNames(c)
    requires r.mqttDevices == SortedKeys(c.mqttDevices.Keys)
    requires KeepsClients(c, r.mqttClients)
    ensures forall client :: client in r.mqttClients ==> ClientSound(client, r)
  {
    hide SortedKeys, Less, DeviceNames, ClientOk, KeepsClient, ClientSound;
    forall client | client in r.mqttClients
      ensures ClientSound(client, r)
    {
      var i :| 0 <= i < |r.mqttClients| && r.mqttClients[i] == client;
      var names := SortedKeys(c.mqttClients.Keys);
      assert names[i] in names;
      ClientIsSound(c, c.mqttClients[names[i]], client, r);
    }
  }

  lemma SentIsSendable(list: seq<string>, s: SectionRead, allowed: set<string>, allowFilter: bool)
    requires Sends(list, s, allowed) && SectionOk(s, allowed, allowFilter)
    ensures forall d :: d in list ==> d in allowed
  {
  }

  lemma ClientIsSound(c: ConfigRead, inp: ClientRead, client: Client, r: Config)
    requires ClientOk(c, inp) && KeepsClient(c, inp, client)
    requires forall d :: d in r.devices <==> d in DeviceNames(c)
    requires forall d :: d in r.mqttDevices <==> d in c.mqttDevices
    ensures ClientSound(client, r)
  {
    hide Sends, SectionOk, Less, SortedKeys, DeviceNames;
    var allowed := Sendable(c, inp);
    SentIsSendable(client.availabilityDevice, inp.availabilityDevice, allowed, false);
    SentIsSendable(client.structure, inp.structure, allowed, true);
    SentIsSendable(client.telemetry, inp.telemetry, allowed, true);
    SentIsSendable(client.realtime, inp.realtime, allowed, true);
    SentIsSendable(client.homeassistantDiscovery, inp.homeassistantDiscovery, allowed, true);
    SentIsSendable(client.command, inp.command, allowed, true);
  }

  // With every client acceptable, none is given more devices than there are.
  lemma AcceptableNeverPanics(c: ConfigRead)
    requires forall n :: n in c.mqttClients ==> ClientOk(c, c.mqttClients[n])
    ensures forall n :: n in c.mqttClients ==> |c.mqttClients[n].mqttDevices| <= |c.mqttDevices|
  {
    hide SectionOk;
    forall n | n in c.mqttClients
      ensures |c.mqttClients[n].mqttDevices| <= |c.mqttDevices|
    {
      var inp := c.mqttClients[n];
      assert ClientOk(c, inp);
      assert inp.mqttDevices.Keys <= c.mqttDevices.Keys;
      SubsetSize(inp.mqttDevices.Keys, c.mqttDevices.Keys);
    }
  }

  function Sources(victron: seq<string>, modbus: seq<string>, gpio: seq<string>, http: seq<string>,
    mqtt: seq<string>): seq<string> {
    victron + modbus + gpio + http + mqtt
  }

  lemma SourcesListed(c: ConfigRead)
    ensures var r := Sources(SortedKeys(c.victronDevices.Keys), SortedKeys(c.modbusDevices.Keys),
      SortedKeys(c.gpioDevices.Keys),
        SortedKeys(c.httpDevices.Keys), SortedKeys(c.mqttDevices.Keys));
      |r| == SourceCount(c) && forall d :: d in r <==> d in SourceNames(c)
  {
    hide SortedKeys, Less;
  }

  lemma SourcesIncludeMqtt(c: ConfigRead)
    ensures |c.mqttDevices| <= SourceCount(c)
  {
  }

  // ---- the transformers against it ----

  lemma SectionTransformed(inp: SectionRead, devices: seq<string>, allowed: set<string>, allowFilter: bool)
    requires forall d :: d in devices <==> d in allowed
    ensures var t := TransformSection(inp, devices, true, allowFilter);
      Sends(t.0, inp, allowed) && (t.1 == [] <==> SectionOk(inp, allowed, allowFilter))
  {
    hide SortedKeys, Less, SectionDeviceErrors;
    assert inp.devices == map[] <==> forall d :: d !in inp.devices;
  }

  lemma ClientTransformed(c: ConfigRead, inp: ClientRead, name: string, devices: seq<string>, mqtt: seq<string>)
    requires forall d :: d in devices <==> d in DeviceNames(c)
    requires forall d :: d in mqtt <==> d in c.mqttDevices
    ensures var t := TransformClient(inp, name, devices, mqtt);
      t.0.name == name && KeepsClient(c, inp, t.0) && (t.1 == [] <==> ClientOk(c, inp))
  {
    hide SortedKeys, Less, NonLoop, ClientDeviceErrors, DeviceNames, Sends, SectionOk, Collect, TransformSection;
    var nonLoop := NonLoop(devices, SortedKeys(inp.mqttDevices.Keys));
    var allowed := Sendable(c, inp);
    assert forall d :: d in nonLoop <==> d in allowed;
    SectionTransformed(inp.availabilityDevice, nonLoop, allowed, false);
    SectionTransformed(inp.structure, nonLoop, allowed, true);
    SectionTransformed(inp.telemetry, nonLoop, allowed, true);
    SectionTransformed(inp.realtime, nonLoop, allowed, true);
    SectionTransformed(inp.homeassistantDiscovery, nonLoop, allowed, true);
    SectionTransformed(inp.command, nonLoop, allowed, true);
    SingleSection(inp.availabilityClient, nonLoop);
    CollectedNine(
      inp.others, ClientDeviceErrors(SortedKeys(inp.mqttDevices.Keys), inp.mqttDevices, mqtt),
      TransformSection(inp.availabilityClient, nonLoop, false, false).1,
      TransformSection(inp.availabilityDevice, nonLoop, true, false).1,
      TransformSection(inp.structure, nonLoop, true, true).1,
      TransformSection(inp.telemetry, nonLoop, true, true).1,
      TransformSection(inp.realtime, nonLoop, true, true).1,
      TransformSection(inp.homeassistantDiscovery, nonLoop, true, true).1,
      TransformSection(inp.command, nonLoop, true, true).1);
  }

  lemma SingleSection(inp: SectionRead, devices: seq<string>)
    ensures TransformSection(inp, devices, false, false)
      == ([], inp.others + Unless(inp.devices == map[], "devices must not be set"))
  {
  }

  lemma ModbusDeviceTransformed(c: ConfigRead, inp: ModbusDeviceRead, name: string, modbus: seq<string>)
    requires forall m :: m in modbus <==> m in c.modbus
    ensures var t := TransformModbusDevice(inp, name, modbus);
      t.0 == ModbusDevice(name, inp.bus) && (t.1 == [] <==> ModbusDeviceOk(c, inp))
  {
  }

  lemma GensetTransformed(c: ConfigRead, inp: GensetRead, name: string, sources: seq<string>)
    requires forall d :: d in sources <==> d in SourceNames(c)
    ensures var t := TransformGenset(inp, name, sources);
      && t.0.name == name
      && KeepsBindings(t.0.inputBindings, inp.inputBindings)
      && KeepsBindings(t.0.outputBindings, inp.outputBindings)
      && (t.1 == [] <==> GensetOk(c, inp))
  {
    hide SortedKeys, Less, SortedBindings, Increasing, SourceNames, UndefinedIn;
    SortedBindingsSorted(inp.inputBindings, SortedKeys(inp.inputBindings.Keys));
    SortedBindingsSorted(inp.outputBindings, SortedKeys(inp.outputBindings.Keys));
  }

  lemma ViewTransformed(c: ConfigRead, inp: ViewRead, devices: seq<string>)
    requires forall d :: d in devices <==> d in DeviceNames(c)
    ensures TransformView(inp, devices).1 == [] <==> ViewOk(c, inp)
  {
    hide ViewDeviceErrors, DeviceNames;
    var ds := inp.devices;
    assert (forall i :: 0 <= i < |ds| ==> ds[i] !in ds[..i])
      <==> (forall i, j :: 0 <= i < j < |ds| ==> ds[i] != ds[j]) by {
      if forall i :: 0 <= i < |ds| ==> ds[i] !in ds[..i] {
        forall i, j | 0 <= i < j < |ds|
          ensures ds[i] != ds[j]
        {
          assert ds[j] !in ds[..j] && ds[..j][i] == ds[i];
        }
      }
    }
  }

  // ---- the whole transformation ----

  method GensetList(c: ConfigRead, sources: seq<string>) returns (ret: seq<Genset>, err: seq<Error>)
    requires forall d :: d in sources <==> d in SourceNames(c)
    ensures KeepsGensets(c, ret)
    ensures err == [] <==> forall n :: n in c.gensetDevices ==> GensetOk(c, c.gensetDevices[n])
  {
    hide SortedKeys, Less, TransformGenset, GensetOk, KeepsBindings, SourceNames;
    ret, err := MapToList(c.gensetDevices, (inp: GensetRead, name: string) => TransformGenset(inp, name, sources));
    forall n | n in c.gensetDevices
      ensures var t := TransformGenset(c.gensetDevices[n], n, sources);
        && t.0.name == n
        && KeepsBindings(t.0.inputBindings, c.gensetDevices[n].inputBindings)
        && KeepsBindings(t.0.outputBindings, c.gensetDevices[n].outputBindings)
        && (t.1 == [] <==> GensetOk(c, c.gensetDevices[n]))
    {
      GensetTransformed(c, c.gensetDevices[n], n, sources);
    }
    ghost var names := SortedKeys(c.gensetDevices.Keys);
    assert forall i :: 0 <= i < |names| ==> names[i] in names;
  }

  method ClientList(c: ConfigRead, devices: seq<string>, mqtt: seq<string>) returns (ret: seq<Client>, err: seq<Error>)
    requires forall d :: d in devices <==> d in DeviceNames(c)
    requires forall d :: d in mqtt <==> d in c.mqttDevices
    ensures KeepsClients(c, ret)
    ensures err == [] <==> forall n :: n in c.mqttClients ==> ClientOk(c, c.mqttClients[n])
  {
    hide SortedKeys, Less, TransformClient, ClientOk, KeepsClient, DeviceNames;
    ret, err := MapToList(c.mqttClients, (inp: ClientRead, name: string) => TransformClient(inp, name, devices, mqtt));
    forall n | n in c.mqttClients
      ensures var t := TransformClient(c.mqttClients[n], n, devices, mqtt);
        && t.0.name == n
        && KeepsClient(c, c.mqttClients[n], t.0)
        && (t.1 == [] <==> ClientOk(c, c.mqttClients[n]))
    {
      ClientTransformed(c, c.mqttClients[n], n, devices, mqtt);
    }
    ghost var names := SortedKeys(c.mqttClients.Keys);
    assert forall i :: 0 <= i < |names| ==> names[i] in names;
  }

  method ViewList(c: ConfigRead, devices: seq<string>) returns (ret: seq<View>, err: seq<Error>)
    requires forall d :: d in devices <==> d in DeviceNames(c)
    ensures KeepsViews(c, ret)
    ensures err == [] <==> ViewsOk(c)
  {
    hide DeviceNames, ViewOk;
    ret, err := ListUnique(c.views, (inp: ViewRead) => TransformView(inp, devices));
    forall i | 0 <= i < |c.views|
      ensures TransformView(c.views[i], devices).1 == [] <==> ViewOk(c, c.views[i])
    {
      ViewTransformed(c, c.views[i], devices);
    }
  }

  method ModbusDeviceList(c: ConfigRead, modbus: seq<string>) returns (ret: seq<ModbusDevice>, err: seq<Error>)
    requires forall m :: m in modbus <==> m in c.modbus
    ensures KeepsModbusDevices(c, ret)
    ensures err == [] <==> forall n :: n in c.modbusDevices ==> ModbusDeviceOk(c, c.modbusDevices[n])
  {
    hide SortedKeys, Less, TransformModbusDevice, ModbusDeviceOk;
    ret, err := MapToList(c.modbusDevices, (inp: ModbusDeviceRead, name: string) =>
      TransformModbusDevice(inp, name, modbus));
    forall n | n in c.modbusDevices
      ensures var t := TransformModbusDevice(c.modbusDevices[n], n, modbus);
        t.0 == ModbusDevice(n, c.modbusDevices[n].bus) && (t.1 == [] <==> ModbusDeviceOk(c, c.modbusDevices[n]))
    {
      ModbusDeviceTransformed(c, c.modbusDevices[n], n, modbus);
    }
    ghost var names := SortedKeys(c.modbusDevices.Keys);
    assert forall i :: 0 <= i < |names| ==> names[i] in names;
  }

  method PlainList(inp: map<string, PlainRead>) returns (ret: seq<string>, err: seq<Error>)
    ensures ret == SortedKeys(inp.Keys)
    ensures err == [] <==> PlainOk(inp)
  {
    hide SortedKeys, Less;
    ret, err := MapToList(inp, Plain);
  }

  // The buses and all devices; the gensets come last and refer to the others.
  method TransformDevices(c: ConfigRead)
    returns (modbus: seq<string>, modbusDevices: seq<ModbusDevice>, mqtt: seq<string>,
      sources: seq<string>, devices: seq<string>, gensets: seq<Genset>, err: seq<Error>)
    ensures KeepsDevices(c, modbus, modbusDevices, mqtt, sources, devices, gensets)
    ensures |devices| == SourceCount(c) + |c.gensetDevices|
    ensures err == [] <==> DevicesOk(c)
  {
    hide SortedKeys, Less, PlainOk, ModbusDeviceOk, GensetOk, SourceNames;
    hide KeepsModbusDevices, KeepsGensets, SourceCount, Sources;
    var e1, e2, e3, e4, e5, e6, victron, gpio, http;
    modbus, err := PlainList(c.modbus);
    victron, e1 := PlainList(c.victronDevices);
    modbusDevices, e2 := ModbusDeviceList(c, modbus);
    gpio, e3 := PlainList(c.gpioDevices);
    http, e4 := PlainList(c.httpDevices);
    mqtt, e5 := PlainList(c.mqttDevices);
    sources := Sources(victron, SortedKeys(c.modbusDevices.Keys), gpio, http, mqtt);
    SourcesListed(c);
    gensets, e6 := GensetList(c, sources);
    devices := sources + SortedKeys(c.gensetDevices.Keys);
    err := err + e1 + e2 + e3 + e4 + e5 + e6;
  }

  method TransformAndValidate(c: ConfigRead) returns (o: Outcome)
    ensures o.Finished? && o.errors == [] <==> ReferencesResolve(c)
    ensures o.Finished? ==> Keeps(c, o.config)
    ensures o.Finished? && o.errors == [] ==> Sound(o.config)
    ensures o.Panicked? <==>
      exists n :: n in c.mqttClients && |c.mqttClients[n].mqttDevices| > SourceCount(c) + |c.gensetDevices|
  {
    hide SortedKeys, Less, DevicesOk, ClientOk, ViewsOk, DeviceNames, SourceNames;
    hide KeepsModbusDevices, KeepsGensets, KeepsClients, KeepsViews, SourceCount, Sound;
    var modbus, modbusDevices, mqtt, sources, devices, gensets, e0 := TransformDevices(c);
    if exists n :: n in c.mqttClients && ReservesNegative(c.mqttClients[n], devices) {
      SourcesIncludeMqtt(c);
      if forall n :: n in c.mqttClients ==> ClientOk(c, c.mqttClients[n]) {
        AcceptableNeverPanics(c);
      }
      o := Panicked;
      return;
    }
    var clients, e1 := ClientList(c, devices, mqtt);
    var views, e2 := ViewList(c, devices);
    o := Finished(
      Config(modbus, modbusDevices, mqtt, sources, devices, gensets, clients, views),
      c.others + e0 + e1 + e2);
    if o.errors == [] {
      AcceptedIsSound(c, o.config);
    }
  }
}
