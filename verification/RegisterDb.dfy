/** The register database: a map from names to registers, changed in place, that
    forwards every change to its subscriptions. */
module RegisterDb {
  import opened Dataflow
  import opened Sequences
  import opened Channels

  type Db = map<string, Register>

  // ---- register equality ----

  // Labels are looked up in b, where a missing index reads as the empty label.
  predicate LabelsEqual(a: map<int, string>, b: map<int, string>) {
    |a| == |b| && forall k :: k in a ==> (if k in b then b[k] else "") == a[k]
  }

  predicate RegisterEquals(a: Register, b: Register) {
    && a.category == b.category && a.name == b.name && a.description == b.description
    && a.registerType == b.registerType && a.unit == b.unit && a.sort == b.sort
    && a.writable == b.writable && LabelsEqual(a.labels, b.labels)
  }

  // Label comparison is equality exactly for maps that have no empty label.
  lemma LabelsEqualIsEquality(a: map<int, string>)
    ensures (forall b :: LabelsEqual(a, b) <==> a == b) <==> (forall k :: k in a ==> a[k] != "")
  {
    if k :| k in a && a[k] == "" {
      var bound := BoundOf(a.Keys);
      var other := bound + 1;
      var b := (a - {k})[other := ""];
      assert |a - {k}| == |a| - 1 by { assert (a - {k}).Keys == a.Keys - {k}; assert |(a - {k}).Keys| == |a.Keys| - 1; }
      assert other !in a - {k};
      assert |b| == |a| by { assert b.Keys == (a - {k}).Keys + {other}; }
      assert LabelsEqual(a, b) && k !in b;
    } else {
      forall b
        ensures LabelsEqual(a, b) <==> a == b
      {
        if LabelsEqual(a, b) {
          EqualWithoutEmptyLabels(a, b);
        }
      }
    }
  }

  lemma EqualWithoutEmptyLabels(a: map<int, string>, b: map<int, string>)
    requires LabelsEqual(a, b) && forall k :: k in a ==> a[k] != ""
    ensures a == b
  {
    forall k | k in a.Keys
      ensures k in b.Keys && b[k] == a[k]
    {
      assert a[k] != "";
    }
    assert |a.Keys| == |b.Keys|;
    SameSize(a.Keys, b.Keys);
  }

  lemma {:induction false} BoundOf(s: set<int>) returns (m: int)
    ensures forall x :: x in s ==> x <= m
  {
    m := 0;
    if x :| x in s {
      var m' := BoundOf(s - {x});
      m := if x > m' then x else m';
      forall y | y in s
        ensures y <= m
      {
        assert y != x ==> y in s - {x};
      }
    }
  }

  // ---- what adding registers does ----

  predicate IsNew(db: Db, r: Register) {
    !(r.name in db && RegisterEquals(r, db[r.name]))
  }

  function After(db: Db, r: Register): Db {
    if IsNew(db, r) then db[r.name := r] else db
  }

  function Fold(db: Db, rs: seq<Register>): Db {
    if rs == [] then db else After(Fold(db, rs[..|rs| - 1]), rs[|rs| - 1])
  }

  function Forwarded(db: Db, rs: seq<Register>): seq<Register> {
    if rs == [] then []
    else
      var before := rs[..|rs| - 1];
      Forwarded(db, before) + if IsNew(Fold(db, before), rs[|rs| - 1]) then [rs[|rs| - 1]] else []
  }

  lemma FoldExtends(db: Db, rs: seq<Register>, r: Register)
    ensures Fold(db, rs + [r]) == After(Fold(db, rs), r)
    ensures Forwarded(db, rs + [r]) == Forwarded(db, rs) + if IsNew(Fold(db, rs), r) then [r] else []
  {
    assert (rs + [r])[..|rs|] == rs;
  }

  lemma {:induction false} FoldSplits(db: Db, a: seq<Register>, b: seq<Register>)
    ensures Fold(db, a + b) == Fold(Fold(db, a), b)
  {
    if b == [] {
      assert a + b == a;
    } else {
      assert (a + b)[..|a + b| - 1] == a + b[..|b| - 1];
      FoldSplits(db, a, b[..|b| - 1]);
    }
  }

  lemma {:induction false} ForwardedSplits(db: Db, a: seq<Register>, b: seq<Register>)
    ensures Forwarded(db, a + b) == Forwarded(db, a) + Forwarded(Fold(db, a), b)
  {
    hide IsNew, Fold;
    if b == [] {
      assert a + b == a;
    } else {
      var n := |b| - 1;
      assert (a + b)[..|a + b| - 1] == a + b[..n] && (a + b)[|a + b| - 1] == b[n];
      FoldSplits(db, a, b[..n]);
      ForwardedSplits(db, a, b[..n]);
    }
  }

  function LastNamed(rs: seq<Register>, name: string): Option<Register> {
    if rs == [] then None
    else if rs[|rs| - 1].name == name then Some(rs[|rs| - 1])
    else LastNamed(rs[..|rs| - 1], name)
  }

  lemma {:induction false} LastNamedSplits(a: seq<Register>, b: seq<Register>, name: string)
    ensures LastNamed(a + b, name) == if LastNamed(b, name).Some? then LastNamed(b, name) else LastNamed(a, name)
  {
    if b == [] {
      assert a + b == a;
    } else {
      assert (a + b)[..|a + b| - 1] == a + b[..|b| - 1];
      LastNamedSplits(a, b[..|b| - 1], name);
    }
  }

  // The stored register is one the last added of that name compares equal to,
  // and that one itself unless it has an empty label.
  lemma {:induction false} HoldsLastAdded(rs: seq<Register>, name: string)
    ensures var last := LastNamed(rs, name);
      if last.None? then name !in Fold(map[], rs)
      else
        && name in Fold(map[], rs)
        && RegisterEquals(last.value, Fold(map[], rs)[name])
        && ((forall k :: k in last.value.labels ==> last.value.labels[k] != "") ==> Fold(map[], rs)[name] == last.value)
  {
    hide LabelsEqual;
    if rs != [] {
      HoldsLastAdded(rs[..|rs| - 1], name);
      var r := rs[|rs| - 1];
      if r.name == name {
        assert LabelsEqual(r.labels, r.labels) by { SelfEqual(r.labels); }
        LabelsEqualIsEquality(r.labels);
      }
    }
  }

  lemma {:induction false} LastNamedMember(rs: seq<Register>, name: string)
    ensures LastNamed(rs, name).Some? ==> LastNamed(rs, name).value in rs && LastNamed(rs, name).value.name == name
    ensures LastNamed(rs, name).None? ==> forall r :: r in rs ==> r.name != name
  {
    if rs != [] {
      LastNamedMember(rs[..|rs| - 1], name);
    }
  }

  // The database holds one of the registers added under a name, if any was.
  lemma {:induction false} FoldMember(rs: seq<Register>, name: string)
    ensures name in Fold(map[], rs) ==> Fold(map[], rs)[name] in rs && Fold(map[], rs)[name].name == name
    ensures LastNamed(rs, name).Some? ==> name in Fold(map[], rs)
  {
    hide RegisterEquals;
    if rs != [] {
      FoldMember(rs[..|rs| - 1], name);
    }
  }

  lemma SelfEqual(a: map<int, string>)
    ensures LabelsEqual(a, a)
  {
  }

  function Filtered(db: Db, f: RegisterFilterFunc): Db {
    map n | n in db && f(db[n]) :: db[n]
  }

  // ---- the object ----

  datatype RegisterSubscription = RegisterSubscription(out: Channel<Register>, filter: RegisterFilterFunc)

  class RegisterDb {
    var registers: Db
    var subscriptions: seq<RegisterSubscription>

    ghost function Channels(): set<Channel<Register>>
      reads this
    {
      set i | 0 <= i < |subscriptions| :: subscriptions[i].out
    }

    ghost predicate Valid()
      reads this, Channels()
    {
      && (forall n :: n in registers ==> registers[n].name == n)
      && (forall i :: 0 <= i < |subscriptions| ==> !subscriptions[i].out.closed)
      && (forall i, j :: 0 <= i < j < |subscriptions| ==> subscriptions[i].out != subscriptions[j].out)
    }

    constructor ()
      ensures Valid() && registers == map[] && subscriptions == []
    {
      registers := map[];
      subscriptions := [];
    }

    method Forward(reg: Register)
      requires Valid()
      modifies Channels()
      ensures Valid()
      ensures forall i :: 0 <= i < |subscriptions| ==>
        subscriptions[i].out.queue == old(subscriptions[i].out.queue) + Matching(subscriptions[i].filter, [reg])
    {
      var e := 0;
      while e < |subscriptions|
        invariant 0 <= e <= |subscriptions|
        invariant Valid()
        invariant forall i :: 0 <= i < e ==>
          subscriptions[i].out.queue == old(subscriptions[i].out.queue) + Matching(subscriptions[i].filter, [reg])
        invariant forall i :: e <= i < |subscriptions| ==>
          subscriptions[i].out.queue == old(subscriptions[i].out.queue)
      {
        var s := subscriptions[e];
        if s.filter(reg) {
          s.out.Send(reg);
        }
        e := e + 1;
      }
    }

    // Adds the registers in order, skipping those equal to the stored one, and
    // forwards every other one.
    method AddStruct(rs: seq<Register>)
      requires Valid()
      modifies this`registers, Channels()
      ensures Valid() && registers == Fold(old(registers), rs)
      ensures forall i :: 0 <= i < |subscriptions| ==>
        subscriptions[i].out.queue == old(subscriptions[i].out.queue)
          + Matching(subscriptions[i].filter, Forwarded(old(registers), rs))
    {
      hide RegisterEquals, LabelsEqual, Fold, Forwarded, Matching, Added, After, IsNew;
      MatchingNone();
      var n := 0;
      AddNone(registers, rs);
      while n < |rs|
        invariant 0 <= n <= |rs|
        invariant Valid() && registers == Fold(old(registers), rs[..n])
        invariant forall i :: 0 <= i < |subscriptions| ==>
          subscriptions[i].out.queue == old(subscriptions[i].out.queue)
            + Matching(subscriptions[i].filter, Forwarded(old(registers), rs[..n]))
      {
        var reg := rs[n];
        AddOneMore(old(registers), rs, n);
        n := n + 1;
        if reg.name in registers && RegisterEquals(reg, registers[reg.name]) {
          continue;
        }
        registers := registers[reg.name := reg];
        Forward(reg);
      }
      assert rs[..n] == rs;
    }

    method GetByName(registerName: string) returns (reg: Option<Register>)
      ensures reg == if registerName in registers then Some(registers[registerName]) else None
    {
      if registerName in registers {
        return Some(registers[registerName]);
      }
      return None;
    }
  }

  lemma MatchingNone()
    ensures forall f: RegisterFilterFunc :: Matching(f, []) == []
  {
  }

  lemma AddNone(db: Db, rs: seq<Register>)
    ensures Fold(db, rs[..0]) == db
    ensures forall f: RegisterFilterFunc :: Matching(f, Forwarded(db, rs[..0])) == []
  {
  }

  lemma AddOneMore(db: Db, rs: seq<Register>, n: nat)
    requires n < |rs|
    ensures var was := Fold(db, rs[..n]);
      var skipped := rs[n].name in was && RegisterEquals(rs[n], was[rs[n].name]);
      Fold(db, rs[..n + 1]) == (if skipped then was else was[rs[n].name := rs[n]])
      && Added(db, rs, n) == (if skipped then [] else [rs[n]])
    ensures forall f: RegisterFilterFunc ::
      Matching(f, Forwarded(db, rs[..n + 1])) == Matching(f, Forwarded(db, rs[..n])) + Matching(f, Added(db, rs, n))
  {
    hide RegisterEquals, LabelsEqual;
    assert rs[..n + 1] == rs[..n] + [rs[n]];
    FoldExtends(db, rs[..n], rs[n]);
    forall f: RegisterFilterFunc
      ensures Matching(f, Forwarded(db, rs[..n + 1]))
        == Matching(f, Forwarded(db, rs[..n])) + Matching(f, Added(db, rs, n))
    {
      MatchingSplits(f, Forwarded(db, rs[..n]), Added(db, rs, n));
    }
  }

  function Added(db: Db, rs: seq<Register>, n: nat): seq<Register>
    requires n < |rs|
  {
    if IsNew(Fold(db, rs[..n]), rs[n]) then [rs[n]] else []
  }
}
