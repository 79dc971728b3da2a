/** Two instances joined by MQTT: one prints its values and registers as
    messages, the other parses them into its own storage and register database. */
module Mirror {
  import opened Dataflow
  import opened Sequences
  import opened StorageSpec
  import opened Topics
  import opened Realtime
  import R = RegisterDb

  // ---- registers over the wire ----

  datatype StructRegister = StructRegister(
    category: string, name: string, description: string, typeName: string,
    labels: map<int, string>, unit: string, sort: int, writable: bool)
  {
    // The receiving side's view of it.
    function AsRegister(): Register {
      Register(category, name, description, TypeFromName(typeName), labels, unit, sort, writable)
    }
  }

  function NewStructRegister(r: Register): StructRegister {
    StructRegister(r.category, r.name, r.description, TypeName(r.registerType), r.labels, r.unit, r.sort, r.writable)
  }

  // The command filter of the sending side: by default nothing is writable.
  function CommandFilter(commandDevice: Option<FilterConf>): RegisterFilterFunc {
    match commandDevice
    case None => (r: Register) => false
    case Some(conf) => (r: Register) => r.writable && RegisterFilter(conf)(r)
  }

  function Rewritten(filter: RegisterFilterFunc, rs: seq<Register>): (out: seq<Register>)
    ensures |out| == |rs| && forall i :: 0 <= i < |rs| ==> out[i] == rs[i].(writable := filter(rs[i]))
  {
    seq(|rs|, i requires 0 <= i < |rs| => rs[i].(writable := filter(rs[i])))
  }

  // The registers of one message as they are sent.
  function Wire(filter: RegisterFilterFunc, rs: seq<Register>): (out: seq<StructRegister>)
    ensures |out| == |rs| && forall i :: 0 <= i < |rs| ==>
      out[i] == NewStructRegister(rs[i]).(writable := filter(rs[i]))
  {
    seq(|rs|, i requires 0 <= i < |rs| => NewStructRegister(rs[i]).(writable := filter(rs[i])))
  }

  // What arrives is what was there with the writable flag recomputed.
  lemma WireKeepsRegisters(filter: RegisterFilterFunc, rs: seq<Register>)
    ensures AsRegisters(Wire(filter, rs)) == Rewritten(filter, rs)
  {
    forall i | 0 <= i < |rs|
      ensures AsRegisters(Wire(filter, rs))[i] == Rewritten(filter, rs)[i]
    {
      assert TypeFromName(TypeName(rs[i].registerType)) == rs[i].registerType;
    }
  }

  // The registers as sent; the count tells whether any is writable.
  method ApplyWritableFilters(
    filter: RegisterFilterFunc, rs: seq<Register>) returns (out: seq<StructRegister>, countWritable: nat)
    ensures out == Wire(filter, rs) && AsRegisters(out) == Rewritten(filter, rs)
    ensures countWritable >= 1 <==> exists i :: 0 <= i < |rs| && filter(rs[i])
  {
    out := [];
    countWritable := 0;
    for i := 0 to |rs|
      invariant |out| == i
      invariant forall j :: 0 <= j < i ==> out[j] == Wire(filter, rs)[j]
      invariant countWritable >= 1 <==> exists j :: 0 <= j < i && filter(rs[j])
    {
      var sr := NewStructRegister(rs[i]);
      sr := sr.(writable := filter(rs[i]));
      if sr.writable {
        countWritable := countWritable + 1;
      }
      out := out + [sr];
    }
    WireKeepsRegisters(filter, rs);
  }

  datatype StructureMessage = StructureMessage(realtimeTopic: string, commandTopic: string,
    registers: seq<StructRegister>)

  // One message: the command topic is left out when nothing is writable.
  function Structured(filter: RegisterFilterFunc, realtimeTopic: string, commandTopic: string,
    rs: seq<Register>): StructureMessage {
    var writable := exists i :: 0 <= i < |rs| && filter(rs[i]);
    StructureMessage(realtimeTopic, if writable then commandTopic else "", Wire(filter, rs))
  }

  // ---- values over the wire ----

  datatype Payload = Empty | Unreadable | Message(message: RealtimeMessage)

  datatype Delivery = Delivery(topic: string, payload: Payload)

  function PublishRealtime(c: TopicConfig, deviceName: string, v: Value): Delivery {
    Delivery(Topic(c, deviceName, v.register.name), Message(ConvertValueToRealtimeMessage(v)))
  }

  // The value the receiving side fills into its storage, if any.
  function HandleRealtime(m: Matcher, db: R.Db, deviceName: string, d: Delivery): seq<Value> {
    if d.payload.Empty? then []
    else
      match ParseTopic(m, d.topic)
      case None => []
      case Some(registerName) =>
        if d.payload.Unreadable? || registerName !in db then []
        else
          var register := db[registerName];
          var msg := d.payload.message;
          match register.registerType
          case NumberRegister =>
            if msg.numericValue.Some? then [Numeric(deviceName, register, msg.numericValue.value)] else []
          case TextRegister => if msg.textValue.Some? then [Text(deviceName, register, msg.textValue.value)] else []
          case EnumRegister => if msg.enumIdx.Some? then [Enum(deviceName, register, msg.enumIdx.value)] else []
          case UndefinedRegister => []
  }

  function HandleAll(m: Matcher, db: R.Db, deviceName: string, ds: seq<Delivery>): seq<Value> {
    if ds == [] then []
    else HandleAll(m, db, deviceName, ds[..|ds| - 1]) + HandleRealtime(m, db, deviceName, ds[|ds| - 1])
  }

  function PublishAll(c: TopicConfig, deviceName: string, vs: seq<Value>): (ds: seq<Delivery>)
    ensures |ds| == |vs| && forall i :: 0 <= i < |vs| ==> ds[i] == PublishRealtime(c, deviceName, vs[i])
  {
    seq(|vs|, i requires 0 <= i < |vs| => PublishRealtime(c, deviceName, vs[i]))
  }

  // What a realtime subscription takes: a topic with wildcards is refused (section
  // 3.3.2.1 of MQTT Version 5.0), any other is matched with the filter.
  function Taken(m: Matcher): Delivery -> bool {
    (x: Delivery) => Plain(x.topic) && MatchesFilter(m.pre + "+" + m.post, x.topic)
  }

  // ---- the receiving device ----

  function WritableNames(registers: seq<StructRegister>): set<string> {
    set r | r in registers && r.writable :: r.name
  }

  method FilterCommandRegisters(inp: seq<StructRegister>) returns (oup: set<string>)
    ensures oup == WritableNames(inp)
  {
    oup := {};
    var i := 0;
    while i < |inp|
      invariant 0 <= i <= |inp|
      invariant oup == WritableNames(inp[..i])
    {
      assert inp[..i + 1] == inp[..i] + [inp[i]];
      if inp[i].writable {
        oup := oup + {inp[i].name};
      }
      i := i + 1;
    }
    assert inp[..i] == inp;
  }

  datatype CommandForwarder = CommandForwarder(template: string, names: set<string>)

  // The command forwarder a message sets up, if it carries a command topic.
  function ForwarderOf(msg: StructureMessage): Option<CommandForwarder> {
    if msg.commandTopic == "" then None else Some(CommandForwarder(msg.commandTopic, WritableNames(msg.registers)))
  }

  // What a message adds to a register database.
  function Accepted(filter: RegisterFilterFunc, msg: StructureMessage): seq<Register> {
    Matching(filter, AsRegisters(msg.registers))
  }

  class MqttDevice {
    const name: string
    const filter: RegisterFilterFunc
    const registerDb: R.RegisterDb
    var subscriptionSetup: bool
    var filled: seq<Value>       // what has been filled into the state storage
    var matcher: Option<Matcher> // set once the realtime topic is known
    var commandForwarder: Option<CommandForwarder>

    constructor (name: string, filter: RegisterFilterFunc)
      ensures this.name == name && this.filter == filter
      ensures !subscriptionSetup && filled == [] && matcher == None && commandForwarder == None
      ensures fresh(registerDb) && registerDb.Valid() && registerDb.registers == map[] && registerDb.subscriptions == []
    {
      this.name := name;
      this.filter := filter;
      var db := new R.RegisterDb();
      registerDb := db;
      subscriptionSetup := false;
      filled := [];
      matcher := None;
      commandForwarder := None;
    }

    // The routine of one structure message when no other runs beside it: only
    // the first message sets up subscriptions, every one adds its registers.
    method OnStructure(msg: StructureMessage)
      requires registerDb.Valid()
      modifies this`subscriptionSetup, this`matcher, this`commandForwarder, registerDb`registers, registerDb.Channels()
      ensures registerDb.Valid() && subscriptionSetup
      ensures old(subscriptionSetup) ==> matcher == old(matcher) && commandForwarder == old(commandForwarder)
      ensures !old(subscriptionSetup) ==>
        && matcher == (
          if CreateMatcher(msg.realtimeTopic).Some? then CreateMatcher(msg.realtimeTopic) else old(matcher))
        && commandForwarder == (if ForwarderOf(msg).Some? then ForwarderOf(msg) else old(commandForwarder))
      ensures registerDb.registers == R.Fold(old(registerDb.registers), Accepted(filter, msg))
    {
      if !subscriptionSetup {
        subscriptionSetup := true;
        if msg.realtimeTopic != "" {
          SetupRealtimeSubscription(msg.realtimeTopic);
        }
        if msg.commandTopic != "" {
          var names := FilterCommandRegisters(msg.registers);
          commandForwarder := Some(CommandForwarder(msg.commandTopic, names));
        }
      }
      UpdateRegisters(msg.registers);
    }

    method SetupRealtimeSubscription(topicTemplate: string)
      modifies this`matcher
      ensures matcher == if CreateMatcher(topicTemplate).Some? then CreateMatcher(topicTemplate) else old(matcher)
    {
      var m := CreateMatcher(topicTemplate);
      if m.Some? {
        matcher := m;
      }
    }

    // Adds the registers that pass the device's filter.
    method UpdateRegisters(incoming: seq<StructRegister>)
      requires registerDb.Valid()
      modifies registerDb`registers, registerDb.Channels()
      ensures registerDb.Valid()
      ensures registerDb.registers == R.Fold(old(registerDb.registers), Matching(filter, AsRegisters(incoming)))
    {
      var structRegs: seq<Register> := [];
      var i := 0;
      while i < |incoming|
        invariant 0 <= i <= |incoming|
        invariant registerDb.Valid() && registerDb.registers == old(registerDb.registers)
        invariant structRegs == Matching(filter, AsRegisters(incoming)[..i])
      {
        var r := incoming[i].AsRegister();
        assert AsRegisters(incoming)[..i + 1] == AsRegisters(incoming)[..i] + [r];
        MatchingExtends(filter, AsRegisters(incoming)[..i], r);
        if filter(r) {
          structRegs := structRegs + [r];
        }
        i := i + 1;
      }
      assert AsRegisters(incoming)[..i] == AsRegisters(incoming);
      registerDb.AddStruct(structRegs);
    }

    method OnRealtime(d: Delivery)
      requires matcher.Some?
      modifies this`filled
      ensures filled == old(filled) + HandleRealtime(matcher.value, registerDb.registers, name, d)
    {
      if d.payload.Empty? {
        return;
      }
      var registerName := ParseTopic(matcher.value, d.topic);
      if registerName.None? || d.payload.Unreadable? {
        return;
      }
      var found := registerDb.GetByName(registerName.value);
      if found.None? {
        return;
      }
      var register, msg := found.value, d.payload.message;
      match register.registerType {
        case NumberRegister =>
          if msg.numericValue.Some? {
            filled := filled + [Numeric(name, register, msg.numericValue.value)];
          }
        case TextRegister =>
          if msg.textValue.Some? {
            filled := filled + [Text(name, register, msg.textValue.value)];
          }
        case EnumRegister =>
          if msg.enumIdx.Some? {
            filled := filled + [Enum(name, register, msg.enumIdx.value)];
          }
        case UndefinedRegister =>
      }
    }

    method OnRealtimeAll(ds: seq<Delivery>)
      requires matcher.Some?
      modifies this`filled
      ensures filled == old(filled) + HandleAll(matcher.value, registerDb.registers, name, ds)
    {
      var n := 0;
      while n < |ds|
        invariant 0 <= n <= |ds|
        invariant filled == old(filled) + HandleAll(matcher.value, registerDb.registers, name, ds[..n])
      {
        assert ds[..n + 1][..n] == ds[..n];
        OnRealtime(ds[n]);
        n := n + 1;
      }
      assert ds[..n] == ds;
    }
  }

  function AsRegisters(srs: seq<StructRegister>): (rs: seq<Register>)
    ensures |rs| == |srs| && forall i :: 0 <= i < |rs| ==> rs[i] == srs[i].AsRegister()
  {
    seq(|srs|, i requires 0 <= i < |srs| => srs[i].AsRegister())
  }

  // ---- payloads ----

  predicate SamePayload(v: Value, w: Value) {
    match v
    case Numeric(_, _, n) => w.Numeric? && w.number == n
    case Text(_, _, t) => w.Text? && w.text == t
    case Enum(_, _, i) => w.Enum? && w.idx == i
    case Null(_, _) => w.Null?
  }

  // ---- register agreement ----

  // The database after the messages, in the order in which they are handled.
  function Updated(filter: RegisterFilterFunc, msgs: seq<StructureMessage>): R.Db {
    if msgs == [] then map[]
    else R.Fold(Updated(filter, msgs[..|msgs| - 1]), Accepted(filter, msgs[|msgs| - 1]))
  }

  function AllAccepted(filter: RegisterFilterFunc, msgs: seq<StructureMessage>): seq<Register> {
    if msgs == [] then [] else AllAccepted(filter, msgs[..|msgs| - 1]) + Accepted(filter, msgs[|msgs| - 1])
  }

  // How registers are split into messages does not matter, only their order.
  lemma {:induction false} UpdatedIsFold(filter: RegisterFilterFunc, msgs: seq<StructureMessage>)
    ensures Updated(filter, msgs) == R.Fold(map[], AllAccepted(filter, msgs))
  {
    if msgs != [] {
      UpdatedIsFold(filter, msgs[..|msgs| - 1]);
      R.FoldSplits(map[], AllAccepted(filter, msgs[..|msgs| - 1]), Accepted(filter, msgs[|msgs| - 1]));
    }
  }

  // The last version of a register that the messages carry and the filter accepts.
  function Newest(filter: RegisterFilterFunc, msgs: seq<StructureMessage>, name: string): Option<Register> {
    R.LastNamed(AllAccepted(filter, msgs), name)
  }

  ghost predicate NoEmptyLabel(r: Register) { forall k :: k in r.labels ==> r.labels[k] != "" }

  // The database has a register of that name that r compares equal to.
  ghost predicate Knows(db: R.Db, name: string, r: Register) { name in db && R.RegisterEquals(r, db[name]) }

  // Handled in order, the messages leave the newest version of each register.
  lemma RegisterMirror(filter: RegisterFilterFunc, msgs: seq<StructureMessage>, name: string)
    ensures var newest, db := Newest(filter, msgs, name), Updated(filter, msgs);
      if newest.None? then name !in db
      else Knows(db, name, newest.value) && (NoEmptyLabel(newest.value) ==> db[name] == newest.value)
  {
    hide R.RegisterEquals;
    UpdatedIsFold(filter, msgs);
    R.HoldsLastAdded(AllAccepted(filter, msgs), name);
  }
}
