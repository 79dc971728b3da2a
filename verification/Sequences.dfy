/** Filtering a sequence and counting a set, shared by the other modules. */
module Sequences {

  function Matching<T>(f: T -> bool, vs: seq<T>): seq<T> {
    if vs == [] then []
    else Matching(f, vs[..|vs| - 1]) + if f(vs[|vs| - 1]) then [vs[|vs| - 1]] else []
  }

  lemma {:induction false} MatchingSplits<T>(f: T -> bool, a: seq<T>, b: seq<T>)
    ensures Matching(f, a + b) == Matching(f, a) + Matching(f, b)
  {
    if b == [] {
      assert a + b == a;
    } else {
      assert (a + b)[..|a + b| - 1] == a + b[..|b| - 1];
      MatchingSplits(f, a, b[..|b| - 1]);
    }
  }

  lemma MatchingExtends<T>(f: T -> bool, vs: seq<T>, v: T)
    ensures Matching(f, vs + [v]) == Matching(f, vs) + if f(v) then [v] else []
  {
    assert (vs + [v])[..|vs|] == vs;
  }

  lemma MatchingFirst<T>(f: T -> bool, v: T, rest: seq<T>)
    ensures Matching(f, [v] + rest) == (if f(v) then [v] else []) + Matching(f, rest)
  {
    MatchingSplits(f, [v], rest);
    assert [v][..0] == [];
  }

  lemma {:induction false} MatchingMembers<T>(f: T -> bool, vs: seq<T>)
    ensures forall v :: v in Matching(f, vs) <==> v in vs && f(v)
  {
    if vs != [] {
      var before, last := vs[..|vs| - 1], vs[|vs| - 1];
      MatchingMembers(f, before);
      assert before + [last] == vs;
      assert forall v :: v in vs <==> v in before || v == last;
    }
  }

  lemma {:induction false} SameSize<T>(a: set<T>, b: set<T>)
    requires a <= b && |a| == |b|
    ensures a == b
  {
    if x :| x in b && x !in a {
      assert a <= b - {x};
      SubsetSize(a, b - {x});
    }
  }

  lemma {:induction false} SubsetSize<T>(a: set<T>, b: set<T>)
    requires a <= b
    ensures |a| <= |b|
  {
    if x :| x in a {
      SubsetSize(a - {x}, b - {x});
    }
  }
}
