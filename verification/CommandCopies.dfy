/** How often a command is carried out when its register has several routes. */
module CommandCopies {
  import opened Dataflow
  import opened Sequences
  import opened StorageSpec
  import opened Mirror
  import opened Commands

  function RoutesOf(routes: seq<Register>, v: Value): nat {
    if routes == [] then 0
    else
      var r := routes[|routes| - 1];
      RoutesOf(routes[..|routes| - 1], v) + if r.name == v.register.name && Fits(r.registerType, v) then 1 else 0
  }

  // As many copies as there are routes of the name and type, all of them the command.
  lemma {:induction false} CopyPerRoute(d: string, routes: seq<Register>, v: Value)
    ensures |Copies(d, routes, v)| == RoutesOf(routes, v)
    ensures forall i :: 0 <= i < |Copies(d, routes, v)| ==>
      Copies(d, routes, v)[i].Key() == StateKey(d, v.register.name) && SamePayload(v, Copies(d, routes, v)[i])
  {
    if routes != [] {
      CopyPerRoute(d, routes[..|routes| - 1], v);
    }
  }

  // Copies of a command that follow each other count as one: the storage forwards
  // the first, if it is a change, and none of the others.
  lemma {:induction false} CopiesForwardOnce(st: Store, copies: seq<Value>)
    requires copies != [] && !copies[0].Null?
    requires forall i :: 0 <= i < |copies| ==> copies[i].Key() == copies[0].Key() && SamePayload(copies[0], copies[i])
    ensures Forwarded(st, copies) == if Changes(st, copies[0]) then [copies[0]] else []
    ensures copies[0].Key() in Fold(st, copies) && SamePayload(copies[0], Fold(st, copies)[copies[0].Key()])
  {
    var n := |copies| - 1;
    if n == 0 {
      assert copies == [] + [copies[0]];
      FoldExtends(st, [], copies[0]);
      assert [copies[0]][..0] == [];
    } else {
      CopiesForwardOnce(st, copies[..n]);
      var k := copies[0].Key();
      assert k.registerName == copies[n].register.name;
    }
  }

  // Equal commands, from whatever clients and with whatever else in between, count
  // as one until a reset or another command of their key comes.
  lemma EqualCommandsForwardOnce(st: Store, vs: seq<Value>, k: StateKey)
    requires var own := Matching(ForKey(k), vs);
      && own != [] && !own[0].Null?
      && forall i :: 0 <= i < |own| ==> SamePayload(own[0], own[i])
    ensures var own := Matching(ForKey(k), vs);
      Matching(ForKey(k), Forwarded(st, vs)) == if Changes(st, own[0]) then [own[0]] else []
  {
    hide Matching, Forwarded, Changes, SamePayload;
    KeysAreIndependent(st, vs, k);
    MatchingMembers(ForKey(k), vs);
    var own := Matching(ForKey(k), vs);
    assert forall i :: 0 <= i < |own| ==> own[i] in own && ForKey(k)(own[i]);
    CopiesForwardOnce(st, own);
  }

  // A command with at least one route of its name and type is carried out once.
  lemma CommandForwardedOnce(st: Store, d: string, routes: seq<Register>, v: Value)
    requires !v.Null? && RoutesOf(routes, v) > 0
    ensures var copies := Copies(d, routes, v);
      && |copies| == RoutesOf(routes, v)
      && Forwarded(st, copies) == if Changes(st, copies[0]) then [copies[0]] else []
  {
    CopyPerRoute(d, routes, v);
    CopiesForwardOnce(st, Copies(d, routes, v));
  }

  // Unless the reset of the first copy comes before the second: then both are.
  lemma ResetBetweenCopies(vs: seq<Value>, first: Value, second: Value, reset: Value)
    requires !second.Null? && reset.Null? && reset.Key() == second.Key()
    requires IsNews(vs, first)
    ensures Forwarded(map[], vs + [first, reset, second]) == Forwarded(map[], vs) + [first, reset, second]
  {
    hide IsNews, Forwarded;
    ForwardedIffNews(vs, first);
    assert vs + [first, reset, second] == (vs + [first]) + [reset, second];
    NullLetsCommandRepeat(vs + [first], reset, second);
  }

  // ---- with the resets in between ----

  // What the owner's storage processes of a command: its copies in order, and
  // resets of the same key anywhere.
  ghost predicate IsRun(copies: seq<Value>, k: StateKey, vs: seq<Value>) {
    Matching(NonNullValueFilter(), vs) == copies && forall v :: v in vs && v.Null? ==> v.Key() == k
  }

  // Every reset is the answer to a command carried out before; this many are still due.
  predicate Answered(st: Store, vs: seq<Value>, due: nat)
    decreases |vs|
  {
    if vs == [] then true
    else if vs[0].Null? then due > 0 && Answered(After(st, vs[0]), vs[1..], due - 1)
    else Answered(After(st, vs[0]), vs[1..], due + if Changes(st, vs[0]) then 1 else 0)
  }

  // How many commands are forwarded to the device.
  function CarriedOut(st: Store, vs: seq<Value>): nat { |Matching(NonNullValueFilter(), Forwarded(st, vs))| }

  lemma CarriedOutFirst(st: Store, v: Value, rest: seq<Value>)
    ensures CarriedOut(st, [v] + rest)
      == (if !v.Null? && Changes(st, v) then 1 else 0) + CarriedOut(After(st, v), rest)
  {
    FoldSplits(st, [v], rest);
    assert [v][..0] == [] && Forwarded(st, []) == [] && Fold(st, []) == st;
    var first := Forwarded(st, [v]);
    assert first == if Changes(st, v) then [v] else [];
    assert Fold(st, [v]) == After(st, v);
    hide Forwarded, Fold, Changes, After;
    MatchingFirst(NonNullValueFilter(), v, Forwarded(After(st, v), rest));
    assert [] + Forwarded(After(st, v), rest) == Forwarded(After(st, v), rest);
  }

  lemma {:induction false} CarriedOutAtMost(st: Store, vs: seq<Value>)
    ensures CarriedOut(st, vs) <= |Matching(NonNullValueFilter(), vs)|
    decreases |vs|
  {
    if vs != [] {
      var v, rest := vs[0], vs[1..];
      assert vs == [v] + rest;
      CarriedOutAtMost(After(st, v), rest);
      hide CarriedOut, Matching, After;
      CarriedOutFirst(st, v, rest);
      MatchingFirst(NonNullValueFilter(), v, rest);
    } else {
      assert CarriedOut(st, vs) == 0;
    }
  }

  // The first copy cannot be preceded by a reset, so a change is carried out.
  lemma CarriedOutAtLeastOnce(st: Store, copies: seq<Value>, k: StateKey, vs: seq<Value>)
    requires IsRun(copies, k, vs) && Answered(st, vs, 0) && copies != [] && Changes(st, copies[0])
    ensures CarriedOut(st, vs) >= 1
  {
    assert vs != [] && !vs[0].Null?;
    hide Changes, After, Matching, CarriedOut;
    assert vs == [vs[0]] + vs[1..];
    MatchingFirst(NonNullValueFilter(), vs[0], vs[1..]);
    CarriedOutFirst(st, vs[0], vs[1..]);
  }

  // All copies of one command.
  ghost predicate AreCopies(copies: seq<Value>, k: StateKey) {
    forall i :: 0 <= i < |copies| ==>
      !copies[i].Null? && copies[i].Key() == k && SamePayload(copies[0], copies[i])
  }

  // The first ones each followed by its reset, the others all at once.
  function Spread(copies: seq<Value>, reset: Value, times: nat): seq<Value>
    decreases times
  {
    if times <= 1 || copies == [] then copies else [copies[0]] + ([reset] + Spread(copies[1..], reset, times - 1))
  }

  lemma {:induction false} SpreadRuns(st: Store, copies: seq<Value>, reset: Value, times: nat)
    requires 1 <= times <= |copies| && AreCopies(copies, reset.Key()) && reset.Null? && Changes(st, copies[0])
    ensures var vs := Spread(copies, reset, times);
      IsRun(copies, reset.Key(), vs) && Answered(st, vs, 0) && CarriedOut(st, vs) == times
    decreases times
  {
    hide Changes, After, Spread, IsRun, Answered, CarriedOut, SamePayload;
    SpreadFirst(copies, reset, times);
    if times == 1 {
      AllAtOnce(st, copies, reset.Key());
    } else {
      OneKeyAgain(st, copies, reset);
      SpreadRuns(After(After(st, copies[0]), reset), copies[1..], reset, times - 1);
      assert copies == [copies[0]] + copies[1..];
      ResetAfterFirst(st, copies[0], reset, copies[1..], Spread(copies[1..], reset, times - 1));
    }
  }

  lemma ResetAfterFirst(st: Store, c: Value, reset: Value, copies: seq<Value>, rest: seq<Value>)
    requires !c.Null? && reset.Null? && Changes(st, c)
    requires var gone := After(After(st, c), reset);
      IsRun(copies, reset.Key(), rest) && Answered(gone, rest, 0)
    ensures var vs := [c] + ([reset] + rest);
      && IsRun([c] + copies, reset.Key(), vs) && Answered(st, vs, 0)
      && CarriedOut(st, vs) == 1 + CarriedOut(After(After(st, c), reset), rest)
  {
    var f, vs := NonNullValueFilter(), [c] + ([reset] + rest);
    hide Changes, After, CarriedOut, Matching;
    MatchingFirst(f, c, [reset] + rest);
    MatchingFirst(f, reset, rest);
    assert f(c) && !f(reset) && [] + Matching(f, rest) == Matching(f, rest);
    assert vs[1..] == [reset] + rest && ([reset] + rest)[1..] == rest;
    assert forall v :: v in vs <==> v == c || v == reset || v in rest;
    CarriedOutFirst(st, c, [reset] + rest);
    CarriedOutFirst(After(st, c), reset, rest);
  }

  lemma SpreadFirst(copies: seq<Value>, reset: Value, times: nat)
    requires 1 <= times <= |copies|
    ensures Spread(copies, reset, times)
      == if times == 1 then copies else [copies[0]] + ([reset] + Spread(copies[1..], reset, times - 1))
  {
  }

  lemma OneKeyAgain(st: Store, copies: seq<Value>, reset: Value)
    requires |copies| > 1 && AreCopies(copies, reset.Key()) && reset.Null? && Changes(st, copies[0])
    ensures var gone := After(After(st, copies[0]), reset);
      AreCopies(copies[1..], reset.Key()) && Changes(gone, copies[1])
  {
  }

  lemma AllAtOnce(st: Store, copies: seq<Value>, k: StateKey)
    requires copies != [] && AreCopies(copies, k) && Changes(st, copies[0])
    ensures IsRun(copies, k, copies) && Answered(st, copies, 0) && CarriedOut(st, copies) == 1
  {
    var f := NonNullValueFilter();
    CopiesForwardOnce(st, copies);
    AllMatch(copies);
    MatchingFirst(f, copies[0], []);
    assert [copies[0]] + [] == [copies[0]];
    NothingToAnswer(st, copies, 0);
  }

  lemma {:induction false} AllMatch(vs: seq<Value>)
    requires forall i :: 0 <= i < |vs| ==> !vs[i].Null?
    ensures Matching(NonNullValueFilter(), vs) == vs
  {
    if vs != [] {
      AllMatch(vs[..|vs| - 1]);
    }
  }

  lemma {:induction false} NothingToAnswer(st: Store, vs: seq<Value>, due: nat)
    requires forall i :: 0 <= i < |vs| ==> !vs[i].Null?
    ensures Answered(st, vs, due)
    decreases |vs|
  {
    hide Changes, After;
    if vs != [] {
      NothingToAnswer(After(st, vs[0]), vs[1..], due + if Changes(st, vs[0]) then 1 else 0);
    }
  }

  // Some timing of the resets has the command carried out this often.
  ghost predicate CanBeCarriedOut(st: Store, copies: seq<Value>, k: StateKey, times: nat) {
    exists vs :: IsRun(copies, k, vs) && Answered(st, vs, 0) && CarriedOut(st, vs) == times
  }

  // A command that is a change can be carried out any number of times up to the
  // number of its register's routes.
  lemma CanBeCarriedOutIff(st: Store, d: string, routes: seq<Register>, v: Value, times: nat)
    requires !v.Null? && RoutesOf(routes, v) > 0 && |Copies(d, routes, v)| > 0
    requires Changes(st, Copies(d, routes, v)[0])
    ensures CanBeCarriedOut(st, Copies(d, routes, v), StateKey(d, v.register.name), times)
      <==> 1 <= times <= RoutesOf(routes, v)
  {
    var copies, k := Copies(d, routes, v), StateKey(d, v.register.name);
    CopyPerRoute(d, routes, v);
    CopiesAreCopies(d, routes, v);
    hide Copies, RoutesOf, Changes, IsRun, Answered, CarriedOut, SamePayload, AreCopies;
    if CanBeCarriedOut(st, copies, k, times) {
      var vs :| IsRun(copies, k, vs) && Answered(st, vs, 0) && CarriedOut(st, vs) == times;
      CarriedOutAtLeastOnce(st, copies, k, vs);
      CarriedOutAtMost(st, vs);
      assert Matching(NonNullValueFilter(), vs) == copies by { RunHasCopies(copies, k, vs); }
    }
    if 1 <= times <= |copies| {
      var reset := Null(d, v.register);
      SpreadRuns(st, copies, reset, times);
    }
  }

  lemma RunHasCopies(copies: seq<Value>, k: StateKey, vs: seq<Value>)
    requires IsRun(copies, k, vs)
    ensures Matching(NonNullValueFilter(), vs) == copies
  {
  }

  lemma CopiesAreCopies(d: string, routes: seq<Register>, v: Value)
    requires !v.Null?
    ensures AreCopies(Copies(d, routes, v), StateKey(d, v.register.name))
  {
    CopyPerRoute(d, routes, v);
  }

  // So it is carried out exactly once whatever the timing exactly with one route.
  lemma AlwaysOnceIff(st: Store, d: string, routes: seq<Register>, v: Value)
    requires !v.Null? && RoutesOf(routes, v) > 0 && |Copies(d, routes, v)| > 0
    requires Changes(st, Copies(d, routes, v)[0])
    ensures (forall times ::
        CanBeCarriedOut(st, Copies(d, routes, v), StateKey(d, v.register.name), times) ==> times == 1)
      <==> RoutesOf(routes, v) == 1
  {
    hide Copies, RoutesOf, Changes, CanBeCarriedOut;
    var n := RoutesOf(routes, v);
    forall times: nat
      ensures CanBeCarriedOut(st, Copies(d, routes, v), StateKey(d, v.register.name), times) <==> 1 <= times <= n
    {
      CanBeCarriedOutIff(st, d, routes, v, times);
    }
    assert CanBeCarriedOut(st, Copies(d, routes, v), StateKey(d, v.register.name), n);
  }
}
