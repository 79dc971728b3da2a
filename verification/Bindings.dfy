/** The genset's binding lists: written as a map of maps, kept as a sorted list. */
module Bindings {
  import opened Ordering

  datatype Binding = Binding(deviceName: string, registerName: string, name: string)

  type BindingMap = map<string, map<string, string>>

  // By device, then register, then bound name.
  predicate Before(a: Binding, b: Binding) {
    Less(a.deviceName, b.deviceName)
    || (a.deviceName == b.deviceName && Less(a.registerName, b.registerName))
    || (a.deviceName == b.deviceName && a.registerName == b.registerName && Less(a.name, b.name))
  }

  predicate SameSlot(a: Binding, b: Binding) {
    a.deviceName == b.deviceName && a.registerName == b.registerName
  }

  lemma BeforeTotal(a: Binding, b: Binding)
    ensures a == b || Before(a, b) || Before(b, a)
    ensures !Before(a, a) && !(Before(a, b) && Before(b, a))
  {
    LessTotal(a.deviceName, b.deviceName);
    LessTotal(a.registerName, b.registerName);
    LessTotal(a.name, b.name);
    if Less(a.deviceName, b.deviceName) { LessAsymmetric(a.deviceName, b.deviceName); }
    if Less(a.registerName, b.registerName) { LessAsymmetric(a.registerName, b.registerName); }
    if Less(a.name, b.name) { LessAsymmetric(a.name, b.name); }
    LessTotal(b.deviceName, a.deviceName);
    LessTotal(b.registerName, a.registerName);
    LessTotal(b.name, a.name);
  }

  lemma BeforeTransitive(a: Binding, b: Binding, c: Binding)
    requires Before(a, b) && Before(b, c)
    ensures Before(a, c)
  {
    if Less(a.deviceName, b.deviceName) && Less(b.deviceName, c.deviceName) {
      LessTransitive(a.deviceName, b.deviceName, c.deviceName);
    }
    if Less(a.registerName, b.registerName) && Less(b.registerName, c.registerName) {
      LessTransitive(a.registerName, b.registerName, c.registerName);
    }
    if Less(a.name, b.name) && Less(b.name, c.name) {
      LessTransitive(a.name, b.name, c.name);
    }
  }

  // Strictly increasing by device and register.
  ghost predicate Increasing(bs: seq<Binding>) {
    forall i, j :: 0 <= i < j < |bs| ==> Before(bs[i], bs[j]) && !SameSlot(bs[i], bs[j])
  }

  // The list contains exactly the bindings of the map.
  ghost predicate Lists(bs: seq<Binding>, c: BindingMap) {
    forall b :: b in bs <==> InMap(b, c)
  }

  predicate InMap(b: Binding, c: BindingMap) {
    b.deviceName in c && b.registerName in c[b.deviceName] && c[b.deviceName][b.registerName] == b.name
  }

  lemma {:induction false} OnlyOneList(a: seq<Binding>, b: seq<Binding>)
    requires Increasing(a) && Increasing(b) && forall x :: x in a <==> x in b
    ensures a == b
  {
    assert (a != [] ==> a[0] in b) && (b != [] ==> b[0] in a);
    if a != [] && b != [] {
      var i :| 0 <= i < |b| && b[i] == a[0];
      var j :| 0 <= j < |a| && a[j] == b[0];
      BeforeTotal(a[0], b[0]);
      assert a[0] == b[0];
      forall x
        ensures x in a[1..] <==> x in b[1..]
      {
        if x in a[1..] {
          var k :| 1 <= k < |a| && a[k] == x;
          assert x in b && x != b[0];
          var l :| 0 <= l < |b| && b[l] == x;
          assert b[1..][l - 1] == x;
        }
        if x in b[1..] {
          var k :| 1 <= k < |b| && b[k] == x;
          assert x in a && x != a[0];
          var l :| 0 <= l < |a| && a[l] == x;
          assert a[1..][l - 1] == x;
        }
      }
      OnlyOneList(a[1..], b[1..]);
    }
  }

  // ---- sorting ----

  function Insert(b: Binding, sorted: seq<Binding>): seq<Binding> {
    if sorted == [] || Before(b, sorted[0]) then [b] + sorted else [sorted[0]] + Insert(b, sorted[1..])
  }

  function Sort(bs: seq<Binding>): seq<Binding> {
    if bs == [] then [] else Insert(bs[|bs| - 1], Sort(bs[..|bs| - 1]))
  }

  ghost predicate OneSlotEach(bs: seq<Binding>) {
    forall i, j :: 0 <= i < j < |bs| ==> !SameSlot(bs[i], bs[j])
  }

  lemma {:induction false} InsertSorts(b: Binding, sorted: seq<Binding>)
    requires Increasing(sorted) && forall i :: 0 <= i < |sorted| ==> !SameSlot(b, sorted[i])
    ensures Increasing(Insert(b, sorted))
    ensures forall x :: x in Insert(b, sorted) <==> x == b || x in sorted
  {
    if sorted != [] {
      BeforeTotal(b, sorted[0]);
      if Before(b, sorted[0]) {
        forall i | 0 < i < |sorted|
          ensures Before(b, sorted[i])
        {
          BeforeTransitive(b, sorted[0], sorted[i]);
        }
      } else {
        InsertSorts(b, sorted[1..]);
        var rest := Insert(b, sorted[1..]);
        assert sorted == [sorted[0]] + sorted[1..];
        forall i | 0 <= i < |rest|
          ensures Before(sorted[0], rest[i]) && !SameSlot(sorted[0], rest[i])
        {
          assert rest[i] in rest;
          if rest[i] != b {
            var j :| 0 <= j < |sorted[1..]| && sorted[1..][j] == rest[i];
            assert sorted[j + 1] == rest[i];
          }
        }
      }
    }
  }

  lemma {:induction false} SortSorts(bs: seq<Binding>)
    requires OneSlotEach(bs)
    ensures Increasing(Sort(bs)) && forall x :: x in Sort(bs) <==> x in bs
  {
    if bs != [] {
      var n := |bs| - 1;
      SortSorts(bs[..n]);
      var sorted := Sort(bs[..n]);
      forall i | 0 <= i < |sorted|
        ensures !SameSlot(bs[n], sorted[i])
      {
        assert sorted[i] in sorted;
        var j :| 0 <= j < n && bs[..n][j] == sorted[i];
        assert bs[j] == sorted[i];
      }
      InsertSorts(bs[n], sorted);
      assert bs == bs[..n] + [bs[n]];
    }
  }

  // ---- reading and writing ----

  // Collects the bindings in whatever order the maps are iterated, then sorts.
  method Transform(c: BindingMap, devices: seq<string>) returns (ret: seq<Binding>, undefined: seq<string>)
    ensures Increasing(ret) && Lists(ret, c)
    ensures forall d :: d in undefined <==> d in c && d !in devices
  {
    ret, undefined := [], [];
    var deviceNames := c.Keys;
    while deviceNames != {}
      invariant deviceNames <= c.Keys
      invariant forall b :: b in ret <==> InMap(b, c) && b.deviceName !in deviceNames
      invariant OneSlotEach(ret)
      invariant forall d :: d in undefined <==> d in c && d !in deviceNames && d !in devices
      decreases deviceNames
    {
      var deviceName :| deviceName in deviceNames;
      if deviceName !in devices {
        undefined := undefined + [deviceName];
      }
      ret := AppendDevice(ret, c, deviceName);
      deviceNames := deviceNames - {deviceName};
    }
    SortSorts(ret);
    ret := Sort(ret);
  }

  method AppendDevice(earlier: seq<Binding>, c: BindingMap, deviceName: string) returns (ret: seq<Binding>)
    requires deviceName in c && OneSlotEach(earlier) && forall b :: b in earlier ==> b.deviceName != deviceName
    ensures OneSlotEach(ret)
    ensures forall b :: b in ret <==> b in earlier || (InMap(b, c) && b.deviceName == deviceName)
  {
    ret := earlier;
    var m := c[deviceName];
    var registerNames := m.Keys;
    while registerNames != {}
      invariant registerNames <= m.Keys
      invariant OneSlotEach(ret)
      invariant forall b :: b in ret <==>
        b in earlier || (InMap(b, c) && b.deviceName == deviceName && b.registerName !in registerNames)
      decreases registerNames
    {
      var registerName :| registerName in registerNames;
      var b := Binding(deviceName, registerName, m[registerName]);
      forall i | 0 <= i < |ret|
        ensures !SameSlot(ret[i], b)
      {
        assert ret[i] in ret;
      }
      ret := ret + [b];
      registerNames := registerNames - {registerName};
    }
  }

  function Written(bs: seq<Binding>): BindingMap {
    if bs == [] then map[]
    else
      var n := |bs| - 1;
      var b, oup := bs[n], Written(bs[..n]);
      oup[b.deviceName := (if b.deviceName in oup then oup[b.deviceName] else map[])[b.registerName := b.name]]
  }

  method ConvertToRead(bs: seq<Binding>) returns (oup: BindingMap)
    ensures oup == Written(bs)
  {
    oup := map[];
    var i := 0;
    while i < |bs|
      invariant 0 <= i <= |bs|
      invariant oup == Written(bs[..i])
    {
      var b := bs[i];
      assert bs[..i + 1][..i] == bs[..i];
      if b.deviceName !in oup {
        oup := oup[b.deviceName := map[]];
      }
      oup := oup[b.deviceName := oup[b.deviceName][b.registerName := b.name]];
      i := i + 1;
    }
    assert bs[..i] == bs;
  }

  lemma {:induction false} WrittenLists(bs: seq<Binding>)
    requires OneSlotEach(bs)
    ensures Lists(bs, Written(bs))
    ensures forall d :: d in Written(bs) ==> Written(bs)[d] != map[]
  {
    if bs != [] {
      var n := |bs| - 1;
      WrittenLists(bs[..n]);
      assert bs[n].registerName in Written(bs)[bs[n].deviceName];
      forall x
        ensures x in bs <==> InMap(x, Written(bs))
      {
        assert x in bs <==> x in bs[..n] || x == bs[n];
        if x in bs[..n] {
          var j :| 0 <= j < n && bs[..n][j] == x;
          assert !SameSlot(bs[j], bs[n]);
        }
      }
    }
  }

  // The sorted list does not depend on the order in which the maps were iterated:
  // there is only one, for any map.
  lemma TransformIsUnique(a: seq<Binding>, b: seq<Binding>, c: BindingMap)
    requires Increasing(a) && Lists(a, c) && Increasing(b) && Lists(b, c)
    ensures a == b
  {
    OnlyOneList(a, b);
  }

  // Reading what was written gives back any increasing list.
  lemma WriteThenRead(bs: seq<Binding>, again: seq<Binding>)
    requires Increasing(bs)
    requires Increasing(again) && Lists(again, Written(bs))
    ensures again == bs
  {
    WrittenLists(bs);
    TransformIsUnique(again, bs, Written(bs));
  }

  function WithoutEmpty(c: BindingMap): BindingMap {
    map d | d in c && c[d] != map[] :: c[d]
  }

  lemma SameBindingsSameMap(a: BindingMap, b: BindingMap)
    requires forall x :: InMap(x, a) <==> InMap(x, b)
    requires forall d :: d in a ==> a[d] != map[]
    requires forall d :: d in b ==> b[d] != map[]
    ensures a == b
  {
    forall d
      ensures d in a <==> d in b
      ensures d in a ==> a[d] == b[d]
    {
      if d in a {
        var r :| r in a[d];
        assert InMap(Binding(d, r, a[d][r]), b);
      }
      if d in b {
        var r :| r in b[d];
        assert InMap(Binding(d, r, b[d][r]), a);
      }
      if d in a && d in b {
        forall r
          ensures r in a[d] <==> r in b[d]
          ensures r in a[d] ==> a[d][r] == b[d][r]
        {
          if r in a[d] { assert InMap(Binding(d, r, a[d][r]), b); }
          if r in b[d] { assert InMap(Binding(d, r, b[d][r]), a); }
        }
        assert a[d] == b[d];
      }
    }
  }

  // Writing what was read restores the map up to devices without registers.
  lemma ReadThenWrite(c: BindingMap, bs: seq<Binding>)
    requires Increasing(bs) && Lists(bs, c)
    ensures Written(bs) == WithoutEmpty(c)
  {
    WrittenLists(bs);
    forall x
      ensures InMap(x, Written(bs)) <==> InMap(x, WithoutEmpty(c))
    {
      assert x in bs <==> InMap(x, c);
    }
    SameBindingsSameMap(Written(bs), WithoutEmpty(c));
  }
}
