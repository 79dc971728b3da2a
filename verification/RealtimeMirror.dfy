/** Values from one instance to the other: what the receiver's storage holds of the
    values published, also while its registers change. */
module RealtimeMirror {
  import opened Dataflow
  import opened Sequences
  import opened StorageSpec
  import opened Topics
  import opened Realtime
  import opened Mirror
  import R = RegisterDb

  // A value published, with the register database the receiver has when it comes.
  datatype Arrival = Arrival(db: R.Db, value: Value)

  // What the receiver fills in for one value, if it could subscribe.
  function OneMirrored(c: TopicConfig, from: string, to: string, a: Arrival): seq<Value> {
    match CreateMatcher(PublishedTemplate(c, from))
    case None => []
    case Some(m) =>
      var x := PublishRealtime(c, from, a.value);
      if Taken(m)(x) then HandleRealtime(m, a.db, to, x) else []
  }

  function Mirrored(c: TopicConfig, from: string, to: string, arrivals: seq<Arrival>): seq<Value> {
    if arrivals == [] then []
    else
      Mirrored(c, from, to, arrivals[..|arrivals| - 1]) + OneMirrored(c, from, to, arrivals[|arrivals| - 1])
  }

  // Values that come while the database is the same.
  function Arrivals(db: R.Db, vs: seq<Value>): (arrivals: seq<Arrival>)
    ensures |arrivals| == |vs| && forall i :: 0 <= i < |vs| ==> arrivals[i] == Arrival(db, vs[i])
  {
    seq(|vs|, i requires 0 <= i < |vs| => Arrival(db, vs[i]))
  }

  // That is what the device's object fills in of those its subscription takes.
  lemma {:induction false} MirroredIsHandled(c: TopicConfig, from: string, to: string, db: R.Db, vs: seq<Value>)
    requires CreateMatcher(PublishedTemplate(c, from)).Some?
    ensures var m := CreateMatcher(PublishedTemplate(c, from)).value;
      Mirrored(c, from, to, Arrivals(db, vs)) == HandleAll(m, db, to, Matching(Taken(m), PublishAll(c, from, vs)))
  {
    hide HandleRealtime, PublishRealtime, PublishedTemplate, CreateMatcher, Taken, Matching;
    var m := CreateMatcher(PublishedTemplate(c, from)).value;
    if vs == [] {
      NoneTaken(m, PublishAll(c, from, vs));
    } else {
      var before, v := vs[..|vs| - 1], vs[|vs| - 1];
      MirroredIsHandled(c, from, to, db, before);
      var ds, x := PublishAll(c, from, before), PublishRealtime(c, from, v);
      assert PublishAll(c, from, vs) == ds + [x];
      assert Arrivals(db, vs)[..|vs| - 1] == Arrivals(db, before);
      MatchingExtends(Taken(m), ds, x);
      var earlier := Matching(Taken(m), ds);
      assert (earlier + [x])[..|earlier|] == earlier && earlier + [] == earlier;
      assert HandleAll(m, db, to, earlier) + [] == HandleAll(m, db, to, earlier);
    }
  }

  lemma NoneTaken(m: Matcher, ds: seq<Delivery>)
    requires ds == []
    ensures Matching(Taken(m), ds) == []
  {
  }

  // Every register is stored under its own name.
  ghost predicate WellNamed(db: R.Db) { forall n :: n in db ==> db[n].name == n }

  // The name can stand in a topic, the receiver knows a register of that name, and
  // the value is of its kind.
  predicate Accepts(db: R.Db, v: Value) {
    IsName(v.register.name) && Plain(v.register.name)
      && v.register.name in db && Fits(db[v.register.name].registerType, v)
  }

  function Relabelled(deviceName: string, db: R.Db, v: Value): Value
    requires v.register.name in db
  {
    v.(deviceName := deviceName, register := db[v.register.name])
  }

  // The template has a single variable that fills a level of its own, and no wildcards.
  predicate RealtimeTemplate(c: TopicConfig, d: string) {
    SingleVariable(c, d) && WholeLevel(CreateMatcher(PublishedTemplate(c, d)).value)
  }

  // What the receiver makes of a value that comes in depends on its name.
  lemma HandledByName(c: TopicConfig, from: string, to: string, a: Arrival)
    requires SingleVariable(c, from)
    ensures var m, n := CreateMatcher(PublishedTemplate(c, from)).value, a.value.register.name;
      HandleRealtime(m, a.db, to, PublishRealtime(c, from, a.value))
        == if IsName(n) && n in a.db && Fits(a.db[n].registerType, a.value) then [Relabelled(to, a.db, a.value)] else []
  {
    hide SingleVariable, Topic, PublishedTemplate, ParseTopic, IsName;
    ParsesNamesOnly(c, from, a.value.register.name);
  }

  // Any value published arrives with its payload at the receiver's device and
  // register if it is accepted, and leaves no trace otherwise; none arrives if the
  // variable does not fill a level.
  lemma OneArrives(c: TopicConfig, from: string, to: string, a: Arrival)
    requires SingleVariable(c, from)
    ensures OneMirrored(c, from, to, a) ==
      if WholeLevel(CreateMatcher(PublishedTemplate(c, from)).value) && Accepts(a.db, a.value)
      then [Relabelled(to, a.db, a.value)] else []
  {
    var n := a.value.register.name;
    SingleVariableShape(c, from, n);
    hide SingleVariable, Topic, PublishedTemplate, ParseTopic, WholeLevel, Plain, MatchesFilter, IsName;
    HandledByName(c, from, to, a);
    hide HandleRealtime, Relabelled, Fits;
    var m, x := CreateMatcher(PublishedTemplate(c, from)).value, PublishRealtime(c, from, a.value);
    if IsName(n) {
      SubscriptionTakes(m, n);
      assert Taken(m)(x) <==> WholeLevel(m) && Plain(n);
    }
  }

  // The last arrival that was accepted for a name.
  function LastAccepted(arrivals: seq<Arrival>, name: string): Option<Arrival> {
    if arrivals == [] then None
    else
      var a := arrivals[|arrivals| - 1];
      if a.value.register.name == name && Accepts(a.db, a.value) then Some(a)
      else LastAccepted(arrivals[..|arrivals| - 1], name)
  }

  ghost predicate AllWellNamed(arrivals: seq<Arrival>) {
    forall i :: 0 <= i < |arrivals| ==> WellNamed(arrivals[i].db)
  }

  lemma {:induction false} LastArrives(
    c: TopicConfig, from: string, to: string, arrivals: seq<Arrival>, name: string)
    requires RealtimeTemplate(c, from) && AllWellNamed(arrivals)
    ensures var last := LastAccepted(arrivals, name);
      && (last.Some? ==> last.value.value.register.name == name && Accepts(last.value.db, last.value.value))
      && LastFor(Mirrored(c, from, to, arrivals), StateKey(to, name))
         == if last.None? then None else Some(Relabelled(to, last.value.db, last.value.value))
  {
    hide WellNamed, OneMirrored, PublishedTemplate, Relabelled, Accepts, SingleVariable, WholeLevel, CreateMatcher;
    if arrivals != [] {
      var before, a := arrivals[..|arrivals| - 1], arrivals[|arrivals| - 1];
      LastArrives(c, from, to, before, name);
      OneArrives(c, from, to, a);
      var earlier := Mirrored(c, from, to, before);
      if Accepts(a.db, a.value) {
        AcceptedKnown(a);
        LastForExtends(earlier, Relabelled(to, a.db, a.value), StateKey(to, name));
        RelabelledKey(to, a.db, a.value);
      } else {
        assert earlier + [] == earlier;
      }
    }
  }

  lemma AcceptedKnown(a: Arrival)
    requires Accepts(a.db, a.value)
    ensures a.value.register.name in a.db
  {
  }

  lemma RelabelledKey(to: string, db: R.Db, v: Value)
    requires WellNamed(db) && v.register.name in db
    ensures Relabelled(to, db, v).Key() == StateKey(to, v.register.name)
  {
  }

  // The receiver's stored payload for a name is that of the arrival, and there is
  // none when there is no arrival.
  ghost predicate Agrees(st: Store, to: string, name: string, last: Option<Value>) {
    var k := StateKey(to, name);
    if last.None? then k !in st else k in st && SamePayload(last.value, st[k])
  }

  function ValueOf(a: Option<Arrival>): Option<Value> { if a.None? then None else Some(a.value.value) }

  // Whatever is published and whatever registers the receiver has meanwhile: its
  // device state is the last-write-wins fold of the values accepted as they came.
  lemma StateMirror(c: TopicConfig, from: string, to: string, arrivals: seq<Arrival>, name: string)
    requires RealtimeTemplate(c, from) && AllWellNamed(arrivals)
    ensures Agrees(Fold(map[], Mirrored(c, from, to, arrivals)), to, name, ValueOf(LastAccepted(arrivals, name)))
  {
    hide RealtimeTemplate, Mirrored, Fold, AllWellNamed;
    LastArrives(c, from, to, arrivals, name);
    var fills := Mirrored(c, from, to, arrivals);
    LastWriteWins(fills);
    assert HoldsLast(Fold(map[], fills), fills, StateKey(to, name));
  }

  // ---- which templates mirror ----

  // Every value that the receiver accepts arrives.
  ghost predicate AlwaysMirrored(c: TopicConfig, from: string) {
    forall to: string, a: Arrival :: Accepts(a.db, a.value) ==>
      OneMirrored(c, from, to, a) == [Relabelled(to, a.db, a.value)]
  }

  // That is so exactly if the template has a single variable that fills a level of
  // its own, and no wildcards.
  lemma AlwaysMirroredIff(c: TopicConfig, from: string)
    ensures AlwaysMirrored(c, from) <==> RealtimeTemplate(c, from)
  {
    if RealtimeTemplate(c, from) {
      hide OneMirrored, Relabelled, Accepts, SingleVariable, WholeLevel, CreateMatcher, PublishedTemplate;
      forall to: string, a: Arrival | Accepts(a.db, a.value)
        ensures OneMirrored(c, from, to, a) == [Relabelled(to, a.db, a.value)]
      {
        OneArrives(c, from, to, a);
      }
    } else if AlwaysMirrored(c, from) {
      hide AlwaysMirrored, SingleVariable, WholeLevel, PublishedTemplate, ParseTopic, Topic, MatchesFilter,
        CreateMatcher;
      NeedsParsing(c, from, "a");
      NeedsParsing(c, from, "b");
      TwoNamesParse(c, from);
      SingleVariableShape(c, from, "a");
      SubscriptionTakes(CreateMatcher(PublishedTemplate(c, from)).value, "a");
    }
  }

  lemma NeedsParsing(c: TopicConfig, from: string, n: string)
    requires AlwaysMirrored(c, from) && IsName(n) && Plain(n)
    ensures var m := CreateMatcher(PublishedTemplate(c, from));
      && m.Some? && ParseTopic(m.value, Topic(c, from, n)) == Some(n)
      && Plain(Topic(c, from, n)) && MatchesFilter(m.value.pre + "+" + m.value.post, Topic(c, from, n))
  {
    var r := NumberNamed(n);
    var a := Arrival(map[n := r], Numeric(from, r, 0.0));
    hide Plain, ParseTopic, Topic, MatchesFilter, PublishedTemplate, CreateMatcher;
    assert Accepts(a.db, a.value);
    assert OneMirrored(c, from, "", a) == [Relabelled("", a.db, a.value)];
  }

  // ---- with the delayed forwarder in between ----

  lemma {:induction false} LastOfNamed(db: R.Db, vs: seq<Value>, name: string)
    ensures var last := Last(Named(vs, name));
      last.Some? && Accepts(db, last.value) ==> LastAccepted(Arrivals(db, vs), name) == Some(Arrival(db, last.value))
  {
    hide Accepts;
    if vs != [] {
      hide Named;
      var before, v := vs[..|vs| - 1], vs[|vs| - 1];
      LastOfNamed(db, before, name);
      assert before + [v] == vs && Arrivals(db, vs)[..|vs| - 1] == Arrivals(db, before);
      LastPublishedExtends(before, v, name);
    }
  }

  lemma LastPublishedExtends(vs: seq<Value>, v: Value, name: string)
    ensures Last(Named(vs + [v], name)) == if v.register.name == name then Some(v) else Last(Named(vs, name))
  {
    NamedExtends(vs, v);
    hide Named;
    assert Named(vs, name) + [] == Named(vs, name);
  }

  // After a tick of the delayed forwarder, the receiver holds the payload of the
  // last value received for the name, if it accepts it and nothing was overtaken.
  lemma DelayedMirror(
    c: TopicConfig, from: string, to: string, db: R.Db, events: seq<Event>, published: seq<Value>, name: string)
    requires RealtimeTemplate(c, from) && WellNamed(db)
    requires Named(published, name) == Tracked(events, name).published
    requires events != [] && events[|events| - 1].Tick? && !Overtaken(events, name)
    ensures var last := Last(ReceivedFor(events, name));
      last.Some? && Accepts(db, last.value) ==>
        Agrees(Fold(map[], Mirrored(c, from, to, Arrivals(db, published))), to, name, last)
  {
    hide RealtimeTemplate, Agrees, Fold, Mirrored, Named, Accepts;
    LastPublishedIffNotOvertaken(events, name);
    LastOfNamed(db, published, name);
    StateMirror(c, from, to, Arrivals(db, published), name);
  }

  // ---- values of the kind of their register ----

  // A null, or a value that is of the kind of its own register and is accepted.
  predicate Typed(db: R.Db, v: Value) { v.Null? || (Fits(v.register.registerType, v) && Accepts(db, v)) }

  // What a delayed forwarder has published and will publish leaves the receiver
  // with this value.
  ghost predicate Leaves(db: R.Db, t: Track, last: Value, name: string) {
    || t.pending == Some(last)
    || ((t.pending.Some? ==> t.pending.value.Null?)
        && LastAccepted(Arrivals(db, t.published), name) == Some(Arrival(db, last)))
  }

  predicate TypedPending(db: R.Db, t: Track, name: string) {
    t.pending.Some? ==>
      t.pending.value.register.name == name && Typed(db, t.pending.value) && IsNumber(t.pending.value)
  }

  // It is the last one received, unless that is a null.
  lemma {:induction false} TypedArrives(db: R.Db, events: seq<Event>, name: string)
    requires forall e :: e in events && e.Received? && e.value.register.name == name ==> Typed(db, e.value)
    ensures var t, last := Tracked(events, name), Last(ReceivedFor(events, name));
      && (last.Some? && !last.value.Null? ==> Leaves(db, t, last.value, name))
      && TypedPending(db, t, name)
  {
    hide Typed, Leaves, TypedPending;
    if events == [] {
      NothingWaits(db, name);
    } else {
      var before, e := events[..|events| - 1], events[|events| - 1];
      assert e in events;
      TypedArrives(db, before, name);
      var was := Tracked(before, name);
      if e.Tick? {
        TickLeaves(db, was, ReceivedFor(before, name), name);
        assert ReceivedFor(events, name) == ReceivedFor(before, name);
      } else if e.value.register.name == name {
        ValueLeaves(db, was, e.value, name);
      } else {
        assert ReceivedFor(events, name) == ReceivedFor(before, name);
      }
    }
  }

  lemma NothingWaits(db: R.Db, name: string)
    ensures TypedPending(db, Track([], None), name)
  {
  }

  lemma TickLeaves(db: R.Db, t: Track, received: seq<Value>, name: string)
    requires TypedPending(db, t, name)
    requires var last := Last(received); last.Some? && !last.value.Null? ==> Leaves(db, t, last.value, name)
    ensures var next, last := Realtime.TrackOne(t, Tick, name), Last(received);
      TypedPending(db, next, name) && (last.Some? && !last.value.Null? ==> Leaves(db, next, last.value, name))
  {
    if t.pending.Some? {
      OneMoreAccepted(db, t.published, t.pending.value, name);
    }
    hide LastAccepted;
  }

  lemma ValueLeaves(db: R.Db, t: Track, v: Value, name: string)
    requires TypedPending(db, t, name) && v.register.name == name && Typed(db, v)
    ensures var next := Realtime.TrackOne(t, Received(v), name);
      TypedPending(db, next, name) && (!v.Null? ==> Leaves(db, next, v, name))
  {
    OneMoreAccepted(db, t.published, v, name);
    hide LastAccepted;
  }

  lemma OneMoreAccepted(db: R.Db, vs: seq<Value>, v: Value, name: string)
    ensures LastAccepted(Arrivals(db, vs + [v]), name)
      == if v.register.name == name && Accepts(db, v) then Some(Arrival(db, v))
         else LastAccepted(Arrivals(db, vs), name)
  {
    assert Arrivals(db, vs + [v])[..|vs|] == Arrivals(db, vs);
  }

  lemma {:induction false} AcceptedOfName(db: R.Db, vs: seq<Value>, name: string)
    ensures LastAccepted(Arrivals(db, Named(vs, name)), name) == LastAccepted(Arrivals(db, vs), name)
  {
    hide LastAccepted, Named;
    if vs == [] {
      assert Named(vs, name) == [] by { NoneNamed(name); }
    } else {
      var before, v := vs[..|vs| - 1], vs[|vs| - 1];
      AcceptedOfName(db, before, name);
      assert before + [v] == vs;
      NamedExtends(before, v);
      OneMoreAccepted(db, before, v, name);
      OneMoreAccepted(db, Named(before, name), v, name);
      assert Named(before, name) + [] == Named(before, name);
    }
  }

  lemma NoneNamed(name: string)
    ensures Named([], name) == []
  {
  }

  // After a tick the receiver has the payload of the last value received, if all
  // are of the kind of their registers and the receiver's.
  lemma DelayedArrives(
    c: TopicConfig, from: string, to: string, db: R.Db, events: seq<Event>, published: seq<Value>, name: string)
    requires RealtimeTemplate(c, from) && WellNamed(db)
    requires Named(published, name) == Tracked(events, name).published
    requires events != [] && events[|events| - 1].Tick?
    requires forall e :: e in events && e.Received? && e.value.register.name == name ==> Typed(db, e.value)
    ensures var last := Last(ReceivedFor(events, name));
      last.Some? && !last.value.Null? ==>
        Agrees(Fold(map[], Mirrored(c, from, to, Arrivals(db, published))), to, name, last)
  {
    hide RealtimeTemplate, Agrees, Fold, Mirrored, Named, Accepts, LastAccepted;
    TypedArrives(db, events, name);
    NothingPending(events, name);
    AcceptedOfName(db, published, name);
    StateMirror(c, from, to, Arrivals(db, published), name);
  }

  lemma NothingPending(events: seq<Event>, name: string)
    requires events != [] && events[|events| - 1].Tick?
    ensures Tracked(events, name).pending == None
  {
  }
}
