/** Commands on their way back: the mirroring instance prints each command of its
    storage as a message, the instance that owns the device fills it into its own. */
module Commands {
  import opened Dataflow
  import opened Sequences
  import opened StorageSpec
  import opened Topics
  import opened Mirror

  datatype CommandMessage = CommandMessage(numericValue: Option<real>, textValue: Option<string>, enumIdx: Option<int>)

  datatype CommandDelivery = CommandDelivery(topic: string, message: CommandMessage)

  // ---- the sending side ----

  function CommandValueFilter(deviceName: string, names: set<string>): ValueFilter {
    (v: Value) => v.deviceName == deviceName && v.register.name in names
  }

  // The filter hides no update of a command it has let through.
  lemma CommandFilterIsKeyClosed(deviceName: string, names: set<string>)
    ensures KeyClosed(CommandValueFilter(deviceName, names))
  {
    var f := CommandValueFilter(deviceName, names);
    forall v: Value, w: Value | v.Key() == w.Key() && !v.Null? && f(v)
      ensures f(w)
    {
      assert v.Key().deviceName == w.Key().deviceName && v.Key().registerName == w.Key().registerName;
    }
  }

  // A null is no command.
  function CommandOf(v: Value): (m: Option<CommandMessage>)
    ensures m.None? <==> v.Null?
  {
    match v
    case Numeric(_, _, n) => Some(CommandMessage(Some(n), None, None))
    case Text(_, _, t) => Some(CommandMessage(None, Some(t), None))
    case Enum(_, _, i) => Some(CommandMessage(None, None, Some(i)))
    case Null(_, _) => None
  }

  function DeliveryOf(template: string, v: Value): CommandDelivery
    requires !v.Null?
  {
    CommandDelivery(ReplaceFirst(template, PLACEHOLDER, v.register.name), CommandOf(v).value)
  }

  function Commanded(template: string, vs: seq<Value>): seq<CommandDelivery> {
    if vs == [] then []
    else
      var v := vs[|vs| - 1];
      Commanded(template, vs[..|vs| - 1])
        + if v.Null? then [] else [DeliveryOf(template, v)]
  }

  // The nulls filled back, one per command.
  function Resets(deviceName: string, vs: seq<Value>): seq<Value> {
    if vs == [] then []
    else
      var v := vs[|vs| - 1];
      Resets(deviceName, vs[..|vs| - 1]) + if v.Null? then [] else [Null(deviceName, v.register)]
  }

  // Every command is published once, in order, and reset once; the resets that
  // come back through the subscription are passed over.
  method RunCommandForwarder(template: string, deviceName: string, commands: seq<Value>)
    returns (published: seq<CommandDelivery>, resets: seq<Value>)
    ensures published == Commanded(template, commands)
    ensures resets == Resets(deviceName, commands)
    ensures |published| == |resets|
  {
    published, resets := [], [];
    var n := 0;
    while n < |commands|
      invariant 0 <= n <= |commands|
      invariant published == Commanded(template, commands[..n])
      invariant resets == Resets(deviceName, commands[..n])
      invariant |published| == |resets|
    {
      var command := commands[n];
      assert commands[..n + 1][..n] == commands[..n];
      n := n + 1;
      var msg := CommandMessage(None, None, None);
      if command.Numeric? {
        msg := msg.(numericValue := Some(command.number));
      } else if command.Text? {
        msg := msg.(textValue := Some(command.text));
      } else if command.Enum? {
        msg := msg.(enumIdx := Some(command.idx));
      } else {
        continue;
      }
      var topic := ReplaceFirst(template, PLACEHOLDER, command.register.name);
      published := published + [CommandDelivery(topic, msg)];
      resets := resets + [Null(deviceName, command.register)];
    }
    assert commands[..n] == commands;
  }

  // ---- the receiving side ----

  // What the route of a register fills into the command storage.
  function FillCommand(deviceName: string, r: Register, m: CommandMessage): seq<Value> {
    match r.registerType
    case NumberRegister => if m.numericValue.Some? then [Numeric(deviceName, r, m.numericValue.value)] else []
    case TextRegister => if m.textValue.Some? then [Text(deviceName, r, m.textValue.value)] else []
    case EnumRegister => if m.enumIdx.Some? then [Enum(deviceName, r, m.enumIdx.value)] else []
    case UndefinedRegister => []
  }

  // One route per writable register the database has emitted; a register that
  // changed is emitted again and has another route. The register's command topic
  // is the filter the route subscribes to.
  function Routed(c: TopicConfig, d: string, routes: seq<Register>, x: CommandDelivery): seq<Value> {
    if routes == [] then []
    else
      var r := routes[|routes| - 1];
      Routed(c, d, routes[..|routes| - 1], x)
        + if MatchesFilter(Topic(c, d, r.name), x.topic) then FillCommand(d, r, x.message) else []
  }

  // A topic with wildcard characters is refused (section 3.3.2.1 of MQTT Version 5.0).
  function HandleCommand(c: TopicConfig, d: string, routes: seq<Register>, x: CommandDelivery): seq<Value> {
    if Plain(x.topic) then Routed(c, d, routes, x) else []
  }

  function HandleCommands(c: TopicConfig, d: string, routes: seq<Register>, xs: seq<CommandDelivery>): seq<Value> {
    if xs == [] then []
    else HandleCommands(c, d, routes, xs[..|xs| - 1]) + HandleCommand(c, d, routes, xs[|xs| - 1])
  }

  // The same command addressed to the owner's device and register.
  function Readdressed(d: string, r: Register, v: Value): Value {
    match v
    case Numeric(_, _, n) => Numeric(d, r, n)
    case Text(_, _, t) => Text(d, r, t)
    case Enum(_, _, i) => Enum(d, r, i)
    case Null(_, _) => Null(d, r)
  }

  // With a single variable, different registers have different command topics.
  lemma TopicsDiffer(c: TopicConfig, d: string, m: string, n: string)
    requires SingleVariable(c, d)
    ensures Topic(c, d, m) == Topic(c, d, n) <==> m == n
  {
    SingleVariableShape(c, d, m);
    SingleVariableShape(c, d, n);
    var cs := Chunks(c, d, c.template);
    MiddleDecides(cs[0], m, n, cs[1]);
  }

  // What the routes of the command's name fill in, one after the other.
  function Copies(d: string, routes: seq<Register>, v: Value): seq<Value> {
    if routes == [] then []
    else
      var r := routes[|routes| - 1];
      Copies(d, routes[..|routes| - 1], v)
        + if r.name == v.register.name && Fits(r.registerType, v) then [Readdressed(d, r, v)] else []
  }

  lemma SubstitutesAny(c: TopicConfig, d: string, n: string)
    requires SingleVariable(c, d)
    ensures ReplaceFirst(PublishedTemplate(c, d), PLACEHOLDER, n) == Topic(c, d, n)
  {
    SingleVariableShape(c, d, n);
  }

  // No register that a command can fill in has a wildcard in its name.
  predicate PlainNames(routes: seq<Register>) {
    forall i :: 0 <= i < |routes| && routes[i].registerType != UndefinedRegister ==> Plain(routes[i].name)
  }

  // A command topic whose template has a single variable and no wildcards.
  predicate PlainTemplate(c: TopicConfig, d: string) { SingleVariable(c, d) && Plain(PublishedTemplate(c, d)) }

  // Its topics are plain exactly for plain names.
  lemma PlainNameDecides(c: TopicConfig, d: string, n: string)
    requires PlainTemplate(c, d)
    ensures Plain(Topic(c, d, n)) <==> Plain(n)
  {
    hide Plain;
    SingleVariableShape(c, d, n);
    if Plain(n) {
      PlainTopic(c, d, n);
    }
    var cs := Chunks(c, d, c.template);
    if Plain(cs[0] + n + cs[1]) {
      PlainParts(cs[0], n, cs[1]);
    }
  }

  // A command is filled in by every route of its name and type and by no other.
  lemma CommandArrives(c: TopicConfig, d: string, routes: seq<Register>, v: Value)
    requires PlainTemplate(c, d) && PlainNames(routes) && !v.Null?
    ensures HandleCommand(c, d, routes, DeliveryOf(PublishedTemplate(c, d), v)) == Copies(d, routes, v)
  {
    hide SingleVariable, Plain, Topic, PublishedTemplate, ReplaceFirst, Routed, Copies;
    SubstitutesAny(c, d, v.register.name);
    PlainNameDecides(c, d, v.register.name);
    if Plain(v.register.name) {
      RoutedByName(c, d, routes, v);
    } else {
      NoCopies(d, routes, v);
    }
  }

  lemma {:induction false} RoutedByName(c: TopicConfig, d: string, routes: seq<Register>, v: Value)
    requires PlainTemplate(c, d) && PlainNames(routes) && !v.Null? && Plain(v.register.name)
    ensures Routed(c, d, routes, DeliveryOf(PublishedTemplate(c, d), v)) == Copies(d, routes, v)
  {
    if routes != [] {
      var n := |routes| - 1;
      RoutedByName(c, d, routes[..n], v);
      RoutesByName(c, d, routes[n], v);
    }
  }

  // What one route fills in.
  lemma RoutesByName(c: TopicConfig, d: string, r: Register, v: Value)
    requires PlainTemplate(c, d) && !v.Null?
    requires r.registerType != UndefinedRegister ==> Plain(r.name)
    ensures var x := DeliveryOf(PublishedTemplate(c, d), v);
      (if MatchesFilter(Topic(c, d, r.name), x.topic) then FillCommand(d, r, x.message) else [])
        == if r.name == v.register.name && Fits(r.registerType, v) then [Readdressed(d, r, v)] else []
  {
    hide SingleVariable, Plain, Topic, PublishedTemplate, ReplaceFirst, MatchesFilter;
    SubstitutesAny(c, d, v.register.name);
    TopicsDiffer(c, d, r.name, v.register.name);
    if r.registerType != UndefinedRegister {
      PlainNameDecides(c, d, r.name);
      PlainFilter(Topic(c, d, r.name), Topic(c, d, v.register.name));
    }
  }

  lemma {:induction false} NoCopies(d: string, routes: seq<Register>, v: Value)
    requires PlainNames(routes) && !Plain(v.register.name)
    ensures Copies(d, routes, v) == []
  {
    hide Plain;
    if routes != [] {
      NoCopies(d, routes[..|routes| - 1], v);
    }
  }

  function Arrived(d: string, routes: seq<Register>, vs: seq<Value>): seq<Value> {
    if vs == [] then []
    else Arrived(d, routes, vs[..|vs| - 1]) + if vs[|vs| - 1].Null? then [] else Copies(d, routes, vs[|vs| - 1])
  }

  // Everything the mirroring side commands is filled into the owner's command
  // storage, in order, with the same payload, at the registers meant and no other.
  lemma {:induction false} CommandsArrive(c: TopicConfig, d: string, routes: seq<Register>, vs: seq<Value>)
    requires PlainTemplate(c, d) && PlainNames(routes)
    ensures HandleCommands(c, d, routes, Commanded(PublishedTemplate(c, d), vs)) == Arrived(d, routes, vs)
  {
    hide PlainTemplate, PlainNames, PublishedTemplate, ReplaceFirst, HandleCommand, CommandOf, Copies;
    if vs != [] {
      var before, v := vs[..|vs| - 1], vs[|vs| - 1];
      CommandsArrive(c, d, routes, before);
      var xs := Commanded(PublishedTemplate(c, d), before);
      if !v.Null? {
        CommandArrives(c, d, routes, v);
        var x := DeliveryOf(PublishedTemplate(c, d), v);
        assert (xs + [x])[..|xs|] == xs;
      } else {
        assert xs + [] == xs;
        assert Arrived(d, routes, before) + [] == Arrived(d, routes, before);
      }
    }
  }

  // ---- without a variable ----

  // With a command topic that names no register, a command for one register is
  // carried out by every register of its type, if it is delivered at all.
  lemma SharedTopicMisdelivers(c: TopicConfig, d: string, a: Register, b: Register, v: Value)
    requires NoVariable(c, d) && Fits(a.registerType, v) && Fits(b.registerType, v)
    requires v.register.name == a.name != b.name
    ensures HandleCommand(c, d, [a, b], DeliveryOf(PublishedTemplate(c, d), v))
      == if Plain(PublishedTemplate(c, d)) then [Readdressed(d, a, v), Readdressed(d, b, v)] else []
  {
    SharedTopic(c, d, a.name, b.name);
    hide NoVariable, Topic, PublishedTemplate, ReplaceFirst, MatchesFilter, Plain;
    var x := DeliveryOf(PublishedTemplate(c, d), v);
    if Plain(x.topic) {
      PlainFilter(x.topic, x.topic);
      BothFillIn(c, d, a, b, v, x);
    }
  }

  // Two routes whose filters match fill a command in, one after the other.
  lemma BothFillIn(c: TopicConfig, d: string, a: Register, b: Register, v: Value, x: CommandDelivery)
    requires Fits(a.registerType, v) && Fits(b.registerType, v) && CommandOf(v) == Some(x.message)
    requires MatchesFilter(Topic(c, d, a.name), x.topic) && MatchesFilter(Topic(c, d, b.name), x.topic)
    ensures Routed(c, d, [a, b], x) == [Readdressed(d, a, v), Readdressed(d, b, v)]
  {
    FillsIn(d, a, v, x);
    FillsIn(d, b, v, x);
    hide FillCommand, Fits, MatchesFilter, Topic;
    assert [a, b][..1] == [a] && [a][..0] == [];
    assert Routed(c, d, [a], x) == [Readdressed(d, a, v)];
  }

  lemma FillsIn(d: string, r: Register, v: Value, x: CommandDelivery)
    requires Fits(r.registerType, v) && CommandOf(v) == Some(x.message)
    ensures FillCommand(d, r, x.message) == [Readdressed(d, r, v)]
  {
  }

  lemma SharedTopic(c: TopicConfig, d: string, m: string, n: string)
    requires NoVariable(c, d)
    ensures ReplaceFirst(PublishedTemplate(c, d), PLACEHOLDER, m) == Topic(c, d, m) == Topic(c, d, n)
    ensures Topic(c, d, m) == PublishedTemplate(c, d)
  {
    TopicIsJoin(c, d, m, c.template);
    TopicIsJoin(c, d, n, c.template);
    TopicIsJoin(c, d, PLACEHOLDER, c.template);
    hide Chunks, ReplaceAll, Join;
    OneChunk(Chunks(c, d, c.template), m, n);
    OneChunk(Chunks(c, d, c.template), m, PLACEHOLDER);
  }

  lemma OneChunk(cs: seq<string>, m: string, n: string)
    requires |cs| == 1
    ensures Join(cs, m) == Join(cs, n)
  {
  }

  // ---- with a wildcard for a name ----

  // A register named like the wildcard has a route that takes the commands of
  // every other register, if the variable fills a level of the topic.
  lemma WildcardMisdelivers(c: TopicConfig, d: string, plus: Register, a: Register, v: Value)
    requires PlainTemplate(c, d) && WholeLevel(CreateMatcher(PublishedTemplate(c, d)).value)
    requires plus.name == "+" && v.register.name == a.name && IsName(a.name) && Plain(a.name)
    requires Fits(plus.registerType, v) && Fits(a.registerType, v)
    ensures var x := DeliveryOf(PublishedTemplate(c, d), v);
      && HandleCommand(c, d, [plus, a], x) == [Readdressed(d, plus, v), Readdressed(d, a, v)]
      && Copies(d, [plus, a], v) == [Readdressed(d, a, v)]
  {
    var x := DeliveryOf(PublishedTemplate(c, d), v);
    PlusMatches(c, d, a.name);
    SubstitutesAny(c, d, a.name);
    PlainNameDecides(c, d, a.name);
    PlainFilter(x.topic, x.topic);
    hide SingleVariable, WholeLevel, Topic, PublishedTemplate, ReplaceFirst, MatchesFilter, Plain, IsName;
    assert '+' in "+";
    BothFillIn(c, d, plus, a, v, x);
    OwnCopy(d, plus, a, v);
  }

  // So with the shipped template, whose kind is "cmnd/": a register named "+"
  // takes the commands for every other.
  lemma DefaultTemplateMisdelivers(
    kind: string, prefix: string, clientId: string, d: string, plus: Register, a: Register, v: Value)
    requires '%' !in kind && '%' !in prefix && '%' !in d && Plain(kind) && Plain(prefix) && Plain(d)
    requires plus.name == "+" && v.register.name == a.name && IsName(a.name) && Plain(a.name)
    requires Fits(plus.registerType, v) && Fits(a.registerType, v)
    ensures var c := TopicConfig("%Prefix%" + kind + "%DeviceName%/%RegisterName%", prefix, clientId);
      HandleCommand(c, d, [plus, a], DeliveryOf(PublishedTemplate(c, d), v))
        == [Readdressed(d, plus, v), Readdressed(d, a, v)] != Copies(d, [plus, a], v)
  {
    hide HandleCommand, DeliveryOf, PublishedTemplate, WholeLevel, SingleVariable, CreateMatcher, Copies, Plain;
    var c := TopicConfig("%Prefix%" + kind + "%DeviceName%/%RegisterName%", prefix, clientId);
    DefaultTemplatesArePlain(kind, prefix, clientId, d);
    WildcardMisdelivers(c, d, plus, a, v);
  }

  lemma OwnCopy(d: string, other: Register, own: Register, v: Value)
    requires other.name != own.name == v.register.name && Fits(own.registerType, v)
    ensures Copies(d, [other, own], v) == [Readdressed(d, own, v)]
  {
    hide Fits;
    assert [other, own][..1] == [other] && [other][..0] == [];
    assert Copies(d, [other], v) == [];
  }

  lemma PlusMatches(c: TopicConfig, d: string, n: string)
    requires SingleVariable(c, d) && WholeLevel(CreateMatcher(PublishedTemplate(c, d)).value) && IsName(n)
    ensures MatchesFilter(Topic(c, d, "+"), Topic(c, d, n))
  {
    var m := CreateMatcher(PublishedTemplate(c, d)).value;
    SingleVariableShape(c, d, n);
    SingleVariableShape(c, d, "+");
    assert Topic(c, d, "+") == m.pre + "+" + m.post && Topic(c, d, n) == m.pre + n + m.post;
    ParseTopicIff(m, Topic(c, d, n), n);
    ParsesWhatTheFilterMatches(m, Topic(c, d, n));
  }

  // ---- which topics deliver commands where they belong ----

  // Whatever is commanded, exactly the routes of the command's own register fill it in.
  ghost predicate ArrivesAt(c: TopicConfig, d: string, routes: seq<Register>) {
    forall v: Value :: !v.Null? ==>
      HandleCommand(c, d, routes, DeliveryOf(PublishedTemplate(c, d), v)) == Copies(d, routes, v)
  }

  // Which registers are served well depends on their names.
  lemma ArrivesAtIff(c: TopicConfig, d: string, routes: seq<Register>)
    requires PlainTemplate(c, d)
    ensures ArrivesAt(c, d, routes) <==> PlainNames(routes)
  {
    hide PlainTemplate, HandleCommand, DeliveryOf, Copies;
    if PlainNames(routes) {
      forall v: Value | !v.Null?
        ensures HandleCommand(c, d, routes, DeliveryOf(PublishedTemplate(c, d), v)) == Copies(d, routes, v)
      {
        CommandArrives(c, d, routes, v);
      }
    } else {
      var i :| 0 <= i < |routes| && routes[i].registerType != UndefinedRegister && !Plain(routes[i].name);
      NotDelivered(c, d, routes, i);
    }
  }

  // A value of the kind that registers of this type have.
  function SomeValue(d: string, r: Register): (v: Value)
    requires r.registerType != UndefinedRegister
    ensures Fits(r.registerType, v) && v.register == r && !v.Null?
  {
    match r.registerType
    case NumberRegister => Numeric(d, r, 0.0)
    case TextRegister => Text(d, r, "")
    case EnumRegister => Enum(d, r, 0)
  }

  // A command for a name with a wildcard is not delivered at all.
  lemma NotDelivered(c: TopicConfig, d: string, routes: seq<Register>, i: nat)
    requires PlainTemplate(c, d)
    requires i < |routes| && routes[i].registerType != UndefinedRegister && !Plain(routes[i].name)
    ensures var v := SomeValue(d, routes[i]);
      && HandleCommand(c, d, routes, DeliveryOf(PublishedTemplate(c, d), v)) == [] != Copies(d, routes, v)
  {
    var v := SomeValue(d, routes[i]);
    SubstitutesAny(c, d, v.register.name);
    PlainNameDecides(c, d, v.register.name);
    hide PlainTemplate, PublishedTemplate, ReplaceFirst, Plain, Copies;
    HasCopy(d, routes, i, v);
  }

  lemma {:induction false} HasCopy(d: string, routes: seq<Register>, i: nat, v: Value)
    requires i < |routes| && routes[i].name == v.register.name && Fits(routes[i].registerType, v)
    ensures Copies(d, routes, v) != []
  {
    if i < |routes| - 1 {
      HasCopy(d, routes[..|routes| - 1], i, v);
    }
  }

  // Whatever routes of plain names there are, too.
  ghost predicate AlwaysArrives(c: TopicConfig, d: string) {
    forall routes :: PlainNames(routes) ==> ArrivesAt(c, d, routes)
  }

  // That is so exactly if the command topic has a single variable and no wildcards.
  lemma AlwaysArrivesIff(c: TopicConfig, d: string)
    ensures AlwaysArrives(c, d) <==> SingleVariable(c, d) && Plain(PublishedTemplate(c, d))
  {
    assert Plain("a") && Plain("b");
    hide ArrivesAt, PlainNames, SingleVariable, NoVariable, Plain;
    if PlainTemplate(c, d) {
      forall routes | PlainNames(routes)
        ensures ArrivesAt(c, d, routes)
      {
        ArrivesAtIff(c, d, routes);
      }
    } else if AlwaysArrives(c, d) {
      ArrivesOnItsTopic(c, d, "a");
      ArrivesOnItsTopic(c, d, "b");
      TwoNamesDecide(c, d);
      NotShared(c, d);
    }
  }

  // A command that its own route fills in was published on that route's topic.
  lemma ArrivesOnItsTopic(c: TopicConfig, d: string, n: string)
    requires AlwaysArrives(c, d) && Plain(n)
    ensures ReplaceFirst(PublishedTemplate(c, d), PLACEHOLDER, n) == Topic(c, d, n)
    ensures Plain(PublishedTemplate(c, d))
  {
    var r := NumberNamed(n);
    var v := Numeric(d, r, 0.0);
    var x := DeliveryOf(PublishedTemplate(c, d), v);
    assert PlainNames([r]) && ArrivesAt(c, d, [r]);
    assert [r][..0] == [];
    assert HandleCommand(c, d, [r], x) == Copies(d, [r], v) != [];
    assert Routed(c, d, [r], x)
      == [] + if MatchesFilter(Topic(c, d, n), x.topic) then FillCommand(d, r, x.message) else [];
    hide HandleCommand, Copies, ArrivesAt, AlwaysArrives, PlainNames, MatchesFilter, Topic, PublishedTemplate;
    PlainSubstituted(PublishedTemplate(c, d), n);
    PlainTopic(c, d, n);
    PlainFilter(Topic(c, d, n), x.topic);
  }

  // A template that is plain after the substitution was so before.
  lemma PlainSubstituted(s: string, n: string)
    requires Plain(ReplaceFirst(s, PLACEHOLDER, n))
    ensures Plain(s)
  {
    var i := FindFrom(s, PLACEHOLDER, 0);
    if i.Some? {
      assert s == s[..i.value] + PLACEHOLDER + s[i.value + |PLACEHOLDER|..];
      PlainParts(s[..i.value], n, s[i.value + |PLACEHOLDER|..]);
    }
  }

  lemma NotShared(c: TopicConfig, d: string)
    requires AlwaysArrives(c, d) && Plain(PublishedTemplate(c, d))
    ensures !NoVariable(c, d)
  {
    if NoVariable(c, d) {
      var a, b := NumberNamed("a"), NumberNamed("b");
      var v := Numeric(d, a, 0.0);
      assert [a, b][..1] == [a] && [a][..0] == [];
      assert Copies(d, [a], v) == [Readdressed(d, a, v)];
      assert |Copies(d, [a, b], v)| == 1;
      assert PlainNames([a, b]) && ArrivesAt(c, d, [a, b]);
      assert HandleCommand(c, d, [a, b], DeliveryOf(PublishedTemplate(c, d), v)) == Copies(d, [a, b], v);
      hide HandleCommand, NoVariable, DeliveryOf, Copies, AlwaysArrives, ArrivesAt, PlainNames, Plain;
      SharedTopicMisdelivers(c, d, a, b, v);
    }
  }
}
