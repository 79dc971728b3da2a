/** What the value storage computes, as functions of the values it has processed:
    its map, what it forwards, and what a subscriber can rebuild from that. */
module StorageSpec {
  import opened Dataflow
  import opened Sequences

  type Store = map<StateKey, Value>

  // ---- one value ----

  predicate Changes(st: Store, v: Value) {
    !(v.Key() in st && st[v.Key()].Equals(v))
  }

  function After(st: Store, v: Value): Store {
    if !Changes(st, v) then st
    else if v.Null? then st - {v.Key()}
    else st[v.Key() := v]
  }

  // ---- any number of values ----

  function Fold(st: Store, vs: seq<Value>): Store {
    if vs == [] then st else After(Fold(st, vs[..|vs| - 1]), vs[|vs| - 1])
  }

  // The values that are forwarded to the subscriptions.
  function Forwarded(st: Store, vs: seq<Value>): seq<Value> {
    if vs == [] then []
    else
      var before := vs[..|vs| - 1];
      var v := vs[|vs| - 1];
      Forwarded(st, before) + if Changes(Fold(st, before), v) then [v] else []
  }

  lemma {:induction false} FoldSplits(st: Store, a: seq<Value>, b: seq<Value>)
    ensures Fold(st, a + b) == Fold(Fold(st, a), b)
    ensures Forwarded(st, a + b) == Forwarded(st, a) + Forwarded(Fold(st, a), b)
  {
    if b == [] {
      assert a + b == a;
    } else {
      var n := |b| - 1;
      assert (a + b)[..|a + b| - 1] == a + b[..n];
      FoldSplits(st, a, b[..n]);
    }
  }

  lemma FoldExtends(st: Store, vs: seq<Value>, v: Value)
    ensures Fold(st, vs + [v]) == After(Fold(st, vs), v)
    ensures Forwarded(st, vs + [v]) == Forwarded(st, vs) + if Changes(Fold(st, vs), v) then [v] else []
  {
    assert (vs + [v])[..|vs|] == vs;
  }

  // ---- last write wins ----

  // The last value processed for a key.
  function LastFor(vs: seq<Value>, k: StateKey): Option<Value> {
    if vs == [] then None
    else if vs[|vs| - 1].Key() == k then Some(vs[|vs| - 1])
    else LastFor(vs[..|vs| - 1], k)
  }

  ghost predicate WellKeyed(st: Store) {
    forall k :: k in st ==> st[k].Key() == k && !st[k].Null?
  }

  // The map holds, for each key, the payload of the last value processed for it,
  // and nothing when that was a null or there was none.
  ghost predicate HoldsLast(st: Store, vs: seq<Value>, k: StateKey) {
    match LastFor(vs, k)
    case None => k !in st
    case Some(v) => if v.Null? then k !in st else k in st && st[k].Equals(v)
  }

  lemma {:induction false} LastWriteWins(vs: seq<Value>)
    ensures WellKeyed(Fold(map[], vs))
    ensures forall k :: HoldsLast(Fold(map[], vs), vs, k)
  {
    if vs != [] {
      var before := vs[..|vs| - 1];
      LastWriteWins(before);
      forall k
        ensures HoldsLast(Fold(map[], vs), vs, k)
      {
        assert HoldsLast(Fold(map[], before), before, k);
      }
    }
  }

  // ---- change only ----

  // Whether processing v after vs is news: a null always is, any other value
  // unless the last value for its key was an equal one.
  predicate IsNews(vs: seq<Value>, v: Value) {
    v.Null? || LastFor(vs, v.Key()).None? || !LastFor(vs, v.Key()).value.Equals(v)
  }

  lemma NewsIsChange(st: Store, vs: seq<Value>, v: Value)
    requires HoldsLast(st, vs, v.Key())
    ensures Changes(st, v) <==> IsNews(vs, v)
  {
  }

  lemma ForwardedIffNews(vs: seq<Value>, v: Value)
    ensures Forwarded(map[], vs + [v]) == Forwarded(map[], vs) + if IsNews(vs, v) then [v] else []
  {
    hide Fold, Forwarded, LastFor, IsNews, Changes, HoldsLast, WellKeyed;
    LastWriteWins(vs);
    NewsIsChange(Fold(map[], vs), vs, v);
    FoldExtends(map[], vs, v);
  }

  // Per key, what was forwarded last agrees with what was processed last, and no
  // two consecutive forwarded values are equal unless they are nulls.
  ghost predicate ChangeOnly(fs: seq<Value>) {
    forall i :: 0 <= i < |fs| ==> IsNews(fs[..i], fs[i])
  }

  lemma ChangeOnlyExtends(fs: seq<Value>, v: Value)
    requires ChangeOnly(fs) && IsNews(fs, v)
    ensures ChangeOnly(fs + [v])
  {
    hide IsNews;
    forall i | 0 <= i < |fs + [v]|
      ensures IsNews((fs + [v])[..i], (fs + [v])[i])
    {
      assert (fs + [v])[..i] == fs[..i];
    }
    assert fs[..|fs|] == fs;
  }

  predicate Agree(a: Option<Value>, b: Option<Value>) {
    (a.None? && b.None?) || (a.Some? && b.Some? && a.value.Equals(b.value))
  }

  lemma LastForExtends(vs: seq<Value>, v: Value, k: StateKey)
    ensures LastFor(vs + [v], k) == if v.Key() == k then Some(v) else LastFor(vs, k)
  {
    assert (vs + [v])[..|vs|] == vs;
  }

  lemma NewsExtends(fs: seq<Value>, vs: seq<Value>, v: Value)
    requires ChangeOnly(fs) && forall k :: Agree(LastFor(fs, k), LastFor(vs, k))
    ensures var fs' := fs + if IsNews(vs, v) then [v] else [];
      ChangeOnly(fs') && forall k :: Agree(LastFor(fs', k), LastFor(vs + [v], k))
  {
    hide ChangeOnly;
    assert Agree(LastFor(fs, v.Key()), LastFor(vs, v.Key()));
    var fs' := fs + if IsNews(vs, v) then [v] else [];
    if IsNews(vs, v) {
      ChangeOnlyExtends(fs, v);
    } else {
      assert fs' == fs;
    }
    forall k
      ensures Agree(LastFor(fs', k), LastFor(vs + [v], k))
    {
      LastForExtends(vs, v, k);
      LastForExtends(fs, v, k);
      assert Agree(LastFor(fs, k), LastFor(vs, k));
    }
  }

  lemma {:induction false} ForwardsOnlyChanges(vs: seq<Value>)
    ensures ChangeOnly(Forwarded(map[], vs))
    ensures forall k :: Agree(LastFor(Forwarded(map[], vs), k), LastFor(vs, k))
  {
    hide IsNews, Changes;
    if vs != [] {
      var before, v := vs[..|vs| - 1], vs[|vs| - 1];
      assert before + [v] == vs;
      ForwardsOnlyChanges(before);
      ForwardedIffNews(before, v);
      NewsExtends(Forwarded(map[], before), before, v);
    }
  }

  // A null in between makes an equal command be forwarded again, whatever was
  // processed before.
  lemma NullLetsCommandRepeat(vs: seq<Value>, reset: Value, command: Value)
    requires reset.Null? && !command.Null? && reset.Key() == command.Key()
    ensures Forwarded(map[], vs + [reset, command]) == Forwarded(map[], vs) + [reset, command]
  {
    ForwardedIffNews(vs, reset);
    ForwardedIffNews(vs + [reset], command);
    assert vs + [reset, command] == vs + [reset] + [command];
  }

  // ---- one key alone ----

  function ForKey(k: StateKey): Value -> bool { (v: Value) => v.Key() == k }

  // What is stored and forwarded for a key depends on the values of that key alone.
  lemma {:induction false} KeysAreIndependent(st: Store, vs: seq<Value>, k: StateKey)
    ensures var own := Matching(ForKey(k), vs);
      && Matching(ForKey(k), Forwarded(st, vs)) == Forwarded(st, own)
      && (k in Fold(st, vs) <==> k in Fold(st, own))
      && (k in Fold(st, vs) ==> Fold(st, vs)[k] == Fold(st, own)[k])
  {
    hide Matching, Forwarded, Fold;
    var f := ForKey(k);
    if vs == [] {
      NothingMatches(st, k);
    } else {
      var before, v := vs[..|vs| - 1], vs[|vs| - 1];
      var own := Matching(f, before);
      KeysAreIndependent(st, before, k);
      assert before + [v] == vs;
      FoldExtends(st, before, v);
      FoldExtends(st, own, v);
      MatchingExtends(f, before, v);
      MatchingExtends(f, Forwarded(st, before), v);
      assert own + [] == own && Forwarded(st, own) + [] == Forwarded(st, own);
      assert Forwarded(st, before) + [] == Forwarded(st, before);
    }
  }

  lemma NothingMatches(st: Store, k: StateKey)
    ensures Matching(ForKey(k), []) == [] && Forwarded(st, []) == []
    ensures Matching(ForKey(k), Forwarded(st, [])) == []
  {
  }

  // ---- replay ----

  function ReplayOne(st: Store, v: Value): Store {
    if v.Null? then st - {v.Key()} else st[v.Key() := v]
  }

  // What a subscriber rebuilds from a snapshot and the values it then receives.
  function Replay(st: Store, vs: seq<Value>): Store {
    if vs == [] then st else ReplayOne(Replay(st, vs[..|vs| - 1]), vs[|vs| - 1])
  }

  function Filtered(st: Store, f: ValueFilter): Store {
    map k | k in st && f(st[k]) :: st[k]
  }

  // No update of an entry the filter lets through is hidden by the filter.
  ghost predicate Unhidden(f: ValueFilter, st: Store, v: Value) {
    v.Key() in st && Changes(st, v) && f(st[v.Key()]) ==> f(v)
  }

  ghost predicate AllUnhidden(f: ValueFilter, st: Store, vs: seq<Value>) {
    vs == [] || (AllUnhidden(f, st, vs[..|vs| - 1]) && Unhidden(f, Fold(st, vs[..|vs| - 1]), vs[|vs| - 1]))
  }

  // The snapshot replayed with the filtered stream is the filtered map.
  ghost predicate Tracks(f: ValueFilter, st: Store, vs: seq<Value>) {
    Replay(Filtered(st, f), Matching(f, Forwarded(st, vs))) == Filtered(Fold(st, vs), f)
  }

  ghost predicate TracksThroughout(f: ValueFilter, st: Store, vs: seq<Value>) {
    Tracks(f, st, vs) && (vs == [] || TracksThroughout(f, st, vs[..|vs| - 1]))
  }

  lemma ReplayExtends(st: Store, vs: seq<Value>, v: Value)
    ensures Replay(st, vs + [v]) == ReplayOne(Replay(st, vs), v)
  {
    assert (vs + [v])[..|vs|] == vs;
  }

  lemma {:induction false} FoldKeepsKeyed(st: Store, vs: seq<Value>)
    requires WellKeyed(st)
    ensures WellKeyed(Fold(st, vs))
  {
    if vs != [] {
      FoldKeepsKeyed(st, vs[..|vs| - 1]);
    }
  }

  lemma TrackOne(f: ValueFilter, st: Store, v: Value)
    requires WellKeyed(st)
    ensures Unhidden(f, st, v) <==>
      Filtered(After(st, v), f) == if Changes(st, v) && f(v) then ReplayOne(Filtered(st, f), v) else Filtered(st, f)
  {
    var k := v.Key();
    if Changes(st, v) && !f(v) && k in st && f(st[k]) {
      assert k in Filtered(st, f);
      assert k !in Filtered(After(st, v), f);
    }
  }

  lemma TrackExtends(f: ValueFilter, st: Store, vs: seq<Value>, v: Value)
    requires WellKeyed(st) && Tracks(f, st, vs)
    ensures Tracks(f, st, vs + [v]) <==> Unhidden(f, Fold(st, vs), v)
  {
    hide Fold, Forwarded, Matching, Replay, ReplayOne, Filtered, After, Unhidden;
    FoldKeepsKeyed(st, vs);
    TrackOne(f, Fold(st, vs), v);
    FoldExtends(st, vs, v);
    MatchingExtends(f, Forwarded(st, vs), v);
    ReplayExtends(Filtered(st, f), Matching(f, Forwarded(st, vs)), v);
    assert Forwarded(st, vs) + [] == Forwarded(st, vs);
    assert Matching(f, Forwarded(st, vs)) + [] == Matching(f, Forwarded(st, vs));
  }

  // For any run: the rebuilt map is right after every value exactly when no
  // update of a visible entry was hidden by the filter.
  lemma {:induction false} TracksIff(f: ValueFilter, st: Store, vs: seq<Value>)
    requires WellKeyed(st)
    ensures TracksThroughout(f, st, vs) <==> AllUnhidden(f, st, vs)
  {
    hide Tracks, Unhidden, Fold;
    if vs == [] {
      StartTracking(f, st);
    } else {
      var before, v := vs[..|vs| - 1], vs[|vs| - 1];
      TracksIff(f, st, before);
      assert before + [v] == vs;
      if Tracks(f, st, before) {
        TrackExtends(f, st, before, v);
      }
    }
  }

  // ---- which filters can be replayed ----

  // A filter that, once it lets a non-null value of a key through, lets every
  // value of that key through.
  ghost predicate KeyClosed(f: ValueFilter) {
    forall v: Value, w: Value :: v.Key() == w.Key() && !v.Null? && f(v) ==> f(w)
  }

  ghost predicate AlwaysTracks(f: ValueFilter) {
    forall base: seq<Value>, vs: seq<Value> :: Tracks(f, Fold(map[], base), vs)
  }

  lemma {:induction false} KeyClosedTracks(f: ValueFilter, st: Store, vs: seq<Value>)
    requires WellKeyed(st) && KeyClosed(f)
    ensures AllUnhidden(f, st, vs) && Tracks(f, st, vs)
  {
    hide Tracks, Changes;
    if vs != [] {
      KeyClosedTracks(f, st, vs[..|vs| - 1]);
      FoldKeepsKeyed(st, vs[..|vs| - 1]);
    }
    TracksIff(f, st, vs);
  }

  lemma HiddenUpdateBreaksTracking(f: ValueFilter, v: Value, w: Value)
    requires v.Key() == w.Key() && !v.Null? && f(v) && !f(w) && !v.Equals(w)
    ensures !Tracks(f, map[], [v, w])
  {
    hide Fold, Forwarded, Unhidden, Tracks, Changes;
    var st: Store := map[];
    HiddenUpdate(f, v, w);
    StartTracking(f, st);
    VisibleIsUnhidden(f, st, v);
    assert [] + [v] == [v] && [v] + [w] == [v, w];
    TrackExtends(f, st, [], v);
    TrackExtends(f, st, [v], w);
  }

  lemma HiddenUpdate(f: ValueFilter, v: Value, w: Value)
    requires v.Key() == w.Key() && !v.Null? && f(v) && !f(w) && !v.Equals(w)
    ensures Fold(map[], []) == map[]
    ensures !Unhidden(f, Fold(map[], [v]), w)
  {
    FoldExtends(map[], [], v);
    assert [] + [v] == [v];
  }

  lemma StartTracking(f: ValueFilter, st: Store)
    ensures Tracks(f, st, [])
  {
  }

  lemma VisibleIsUnhidden(f: ValueFilter, st: Store, v: Value)
    requires f(v)
    ensures Unhidden(f, st, v)
  {
  }

  function OtherPayload(v: Value): (w: Value)
    requires !v.Null?
    ensures w.Key() == v.Key() && !w.Null? && !v.Equals(w)
  {
    match v
    case Numeric(d, r, n) => Numeric(d, r, n + 1.0)
    case Text(d, r, t) => Text(d, r, t + "x")
    case Enum(d, r, i) => Enum(d, r, i + 1)
  }

  // Exactly the key-closed filters let every subscriber rebuild the filtered map
  // in every run.
  lemma AlwaysTracksIffKeyClosed(f: ValueFilter)
    ensures AlwaysTracks(f) <==> KeyClosed(f)
  {
    if KeyClosed(f) {
      forall base: seq<Value>, vs: seq<Value>
        ensures Tracks(f, Fold(map[], base), vs)
      {
        FoldKeepsKeyed(map[], base);
        KeyClosedTracks(f, Fold(map[], base), vs);
      }
    } else {
      var v: Value, w: Value :| v.Key() == w.Key() && !v.Null? && f(v) && !f(w);
      var x := OtherPayload(v);
      var a, b := if !v.Equals(w) || !f(x) then v else x, if !v.Equals(w) || f(x) then w else x;
      HiddenUpdateBreaksTracking(f, a, b);
      assert Fold(map[], []) == map[];
      assert !Tracks(f, Fold(map[], []), [a, b]);
    }
  }

  // Device filters are key closed; the non-null filter is not, so a subscriber
  // using it keeps values that have been deleted.
  lemma KeyClosedFilters(deviceName: string)
    ensures KeyClosed(DeviceNameValueFilter(deviceName))
    ensures !KeyClosed(NonNullValueFilter())
    ensures !AlwaysTracks(NonNullValueFilter())
  {
    var r := Register("", "", "", NumberRegister, map[], "", 0, false);
    var v, w := Numeric("", r, 0.0), Null("", r);
    assert v.Key() == w.Key() && NonNullValueFilter()(v) && !NonNullValueFilter()(w);
    AlwaysTracksIffKeyClosed(NonNullValueFilter());
  }

  // A filter that looks at the category tracks a run in which the category of
  // each key never changes.
  ghost predicate StableCategories(st: Store, vs: seq<Value>) {
    && (forall k, i :: k in st && 0 <= i < |vs| && vs[i].Key() == k ==>
      st[k].register.category == vs[i].register.category)
    && (forall i, j :: 0 <= i < j < |vs| && vs[i].Key() == vs[j].Key() ==>
      vs[i].register.category == vs[j].register.category)
  }

  lemma {:induction false} FoldEntries(st: Store, vs: seq<Value>, k: StateKey)
    requires k in Fold(st, vs)
    ensures (k in st && Fold(st, vs)[k] == st[k]) || (exists i :: 0 <= i < |vs| && vs[i] == Fold(st, vs)[k])
  {
    if vs != [] {
      var n := |vs| - 1;
      if k in Fold(st, vs[..n]) && Fold(st, vs)[k] == Fold(st, vs[..n])[k] {
        FoldEntries(st, vs[..n], k);
        if !(k in st && Fold(st, vs)[k] == st[k]) {
          var i :| 0 <= i < |vs[..n]| && vs[..n][i] == Fold(st, vs[..n])[k];
          assert vs[i] == Fold(st, vs)[k];
        }
      } else {
        assert vs[n] == Fold(st, vs)[k];
      }
    }
  }

  ghost predicate LooksAtCategory(f: ValueFilter) {
    forall v: Value, w: Value :: v.Key() == w.Key() && v.register.category == w.register.category ==> f(v) == f(w)
  }

  lemma {:induction false} CategoryFilterTracks(f: ValueFilter, st: Store, vs: seq<Value>)
    requires LooksAtCategory(f) && WellKeyed(st) && StableCategories(st, vs)
    ensures AllUnhidden(f, st, vs) && Tracks(f, st, vs)
  {
    hide Tracks, Changes;
    if vs != [] {
      var before, v := vs[..|vs| - 1], vs[|vs| - 1];
      CategoryFilterTracks(f, st, before);
      FoldKeepsKeyed(st, before);
      if v.Key() in Fold(st, before) {
        FoldEntries(st, before, v.Key());
      }
    }
    TracksIff(f, st, vs);
  }

  lemma ViewFilterTracks(viewDevices: seq<ViewDevice>, st: Store, vs: seq<Value>)
    requires WellKeyed(st) && StableCategories(st, vs)
    ensures AllUnhidden(ViewValueFilter(viewDevices), st, vs)
    ensures Tracks(ViewValueFilter(viewDevices), st, vs)
  {
    hide Tracks, AllUnhidden, ViewValueFilter, StableCategories;
    var f := ViewValueFilter(viewDevices);
    forall v: Value, w: Value | v.Key() == w.Key() && v.register.category == w.register.category
      ensures f(v) == f(w)
    {
      ViewFilterLooksAtCategory(viewDevices, v, w);
    }
    CategoryFilterTracks(f, st, vs);
  }

  lemma ForwarderFilterTracks(deviceName: string, conf: FilterConf, st: Store, vs: seq<Value>)
    requires WellKeyed(st) && StableCategories(st, vs)
    ensures AllUnhidden(DeviceAndRegisterValueFilter(deviceName, conf), st, vs)
    ensures Tracks(DeviceAndRegisterValueFilter(deviceName, conf), st, vs)
  {
    hide Tracks, AllUnhidden, StableCategories;
    var f := DeviceAndRegisterValueFilter(deviceName, conf);
    forall v: Value, w: Value | v.Key() == w.Key() && v.register.category == w.register.category
      ensures f(v) == f(w)
    {
      assert v.Key().deviceName == w.Key().deviceName && v.Key().registerName == w.Key().registerName;
      assert RegisterFilter(conf)(v.register) == Passes(conf, v.register.name, v.register.category);
      assert RegisterFilter(conf)(w.register) == Passes(conf, w.register.name, w.register.category);
    }
    CategoryFilterTracks(f, st, vs);
  }

  // ---- listings ----

  // A listing of a map, in whatever order the map iteration yields.
  ghost predicate IsListing(listing: seq<Value>, st: Store) {
    && (forall i :: 0 <= i < |listing| ==> listing[i].Key() in st && st[listing[i].Key()] == listing[i])
    && (forall k :: k in st ==> st[k] in listing)
    && (forall i, j :: 0 <= i < j < |listing| ==> listing[i].Key() != listing[j].Key())
  }

  // The map a listing stands for.
  function MapOf(listing: seq<Value>): Store {
    if listing == [] then map[]
    else MapOf(listing[..|listing| - 1])[listing[|listing| - 1].Key() := listing[|listing| - 1]]
  }

  lemma {:induction false} MapOfEntries(listing: seq<Value>)
    requires forall i, j :: 0 <= i < j < |listing| ==> listing[i].Key() != listing[j].Key()
    ensures forall k :: k in MapOf(listing) <==> exists i :: 0 <= i < |listing| && listing[i].Key() == k
    ensures forall i :: 0 <= i < |listing| ==> MapOf(listing)[listing[i].Key()] == listing[i]
  {
    if listing != [] {
      var n := |listing| - 1;
      MapOfEntries(listing[..n]);
      forall i | 0 <= i < |listing|
        ensures listing[i].Key() in MapOf(listing) && MapOf(listing)[listing[i].Key()] == listing[i]
      {
        if i < n {
          assert listing[..n][i] == listing[i];
        }
      }
      forall k
        ensures k in MapOf(listing) <==> exists i :: 0 <= i < |listing| && listing[i].Key() == k
      {
        if k in MapOf(listing[..n]) {
          var i :| 0 <= i < n && listing[..n][i].Key() == k;
          assert listing[i].Key() == k;
        }
      }
    }
  }

  lemma ListingGivesMap(listing: seq<Value>, st: Store)
    requires IsListing(listing, st) && WellKeyed(st)
    ensures MapOf(listing) == st
  {
    MapOfEntries(listing);
    var m := MapOf(listing);
    forall k
      ensures k in m <==> k in st
      ensures k in m ==> m[k] == st[k]
    {
      if k in st {
        var i :| 0 <= i < |listing| && listing[i] == st[k];
        assert listing[i].Key() == k;
      }
      if k in m {
        var i :| 0 <= i < |listing| && listing[i].Key() == k;
      }
    }
  }
}
