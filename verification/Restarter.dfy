/** The watchdog that runs a service again after each error, with a growing pause. */
module Restarter {

  const TWO_63: int := 0x8000_0000_0000_0000
  const MAX_DOUBLINGS: nat := 16

  // The duration doubled n times, without a bound.
  function Doubled(base: int, n: nat): int
    decreases n, base
  {
    if n == 0 then base else 2 * Doubled(base, n - 1)
  }

  // Arithmetic on durations wraps around at 64 bits.
  function Int64(x: int): (r: int)
    ensures -TWO_63 <= r < TWO_63
    ensures -TWO_63 <= x < TWO_63 ==> r == x
    ensures TWO_63 <= x < 2 * TWO_63 ==> r == x - 2 * TWO_63
  {
    (x + TWO_63) % (2 * TWO_63) - TWO_63
  }

  function RestartInterval(base: int, max: int, errorsInARow: nat): int {
    var doublings := if errorsInARow > MAX_DOUBLINGS then MAX_DOUBLINGS else errorsInARow;
    var interval := Int64(Doubled(base, doublings));
    if interval > max then max else interval
  }

  // The pause that doubles with every error in a row, up to the maximum.
  function Backoff(base: int, max: int, n: nat): int {
    if Doubled(base, n) > max then max else Doubled(base, n)
  }

  lemma {:induction false} Grows(base: int, m: nat, n: nat)
    requires 0 < base && m <= n
    ensures 0 < Doubled(base, m) <= Doubled(base, n)
    ensures m < n ==> Doubled(base, m) < Doubled(base, n)
    decreases n
  {
    if m < n {
      Grows(base, m, n - 1);
    } else if n > 0 {
      Grows(base, n - 1, n - 1);
    }
  }

  // The first number of doublings at which the pause no longer fits.
  lemma {:induction false} FirstOverflow(base: int, n: nat) returns (k: nat)
    requires 0 < base < TWO_63 <= Doubled(base, n)
    ensures k <= n && TWO_63 <= Doubled(base, k) < 2 * TWO_63
  {
    if n > 0 && TWO_63 <= Doubled(base, n - 1) {
      k := FirstOverflow(base, n - 1);
    } else {
      k := n;
      if n > 0 {
      }
    }
  }

  // The pause is the doubling one for every count of errors exactly when
  // sixteen doublings neither overflow nor stay below the maximum.
  lemma IntervalIsBackoffIff(base: int, max: int)
    requires 0 < base < TWO_63 && 0 < max < TWO_63
    ensures (forall n: nat :: RestartInterval(base, max, n) == Backoff(base, max, n))
      <==> max <= Doubled(base, MAX_DOUBLINGS) < TWO_63
  {
    hide Doubled, Int64;
    var top := Doubled(base, MAX_DOUBLINGS);
    if TWO_63 <= top {
      var k := FirstOverflow(base, MAX_DOUBLINGS);
      assert RestartInterval(base, max, k) < 0 < Backoff(base, max, k);
    } else if top < max {
      Grows(base, MAX_DOUBLINGS, MAX_DOUBLINGS + 1);
      assert RestartInterval(base, max, MAX_DOUBLINGS + 1) == top != Backoff(base, max, MAX_DOUBLINGS + 1);
    } else {
      forall n: nat
        ensures RestartInterval(base, max, n) == Backoff(base, max, n)
      {
        if n <= MAX_DOUBLINGS {
          Grows(base, n, MAX_DOUBLINGS);
        } else {
          Grows(base, MAX_DOUBLINGS, n);
        }
      }
    }
  }

  // A pause is never negative exactly when sixteen doublings do not overflow,
  // which they do from 2^47 on.
  lemma NeverNegativeIff(base: int, max: int)
    requires 0 < base < TWO_63 && 0 < max < TWO_63
    ensures (forall n: nat :: RestartInterval(base, max, n) >= 0) <==> Doubled(base, MAX_DOUBLINGS) < TWO_63
    ensures Doubled(base, MAX_DOUBLINGS) < TWO_63 <==> base < 0x8000_0000_0000
  {
    hide Doubled, Int64;
    OverflowsFrom(base);
    if TWO_63 <= Doubled(base, MAX_DOUBLINGS) {
      var k := FirstOverflow(base, MAX_DOUBLINGS);
      assert RestartInterval(base, max, k) < 0;
    } else {
      forall n: nat
        ensures RestartInterval(base, max, n) >= 0
      {
        Grows(base, 0, if n > MAX_DOUBLINGS then MAX_DOUBLINGS else n);
        Grows(base, if n > MAX_DOUBLINGS then MAX_DOUBLINGS else n, MAX_DOUBLINGS);
      }
    }
  }

  lemma OverflowsFrom(base: int)
    ensures Doubled(base, MAX_DOUBLINGS) < TWO_63 <==> base < 0x8000_0000_0000
  {
    FourDoublings(base, 0);
    FourDoublings(base, 4);
    FourDoublings(base, 8);
    FourDoublings(base, 12);
  }

  lemma FourDoublings(base: int, n: nat)
    ensures Doubled(base, n + 4) == 16 * Doubled(base, n)
  {
    assert Doubled(base, n + 2) == 2 * Doubled(base, n + 1) && Doubled(base, n + 3) == 2 * Doubled(base, n + 2);
  }

  // As long as nothing overflows the pause is positive, within the maximum, and grows with the errors in a row.
  lemma IntervalGrows(base: int, max: int, m: nat, n: nat)
    requires 0 < base && 0 < max && Doubled(base, MAX_DOUBLINGS) < TWO_63 && m <= n
    ensures 0 < RestartInterval(base, max, m) <= RestartInterval(base, max, n) <= max
    ensures RestartInterval(base, max, n) == Backoff(base, max, if n > MAX_DOUBLINGS then MAX_DOUBLINGS else n)
  {
    hide Doubled, Int64;
    var d := if m > MAX_DOUBLINGS then MAX_DOUBLINGS else m;
    var e := if n > MAX_DOUBLINGS then MAX_DOUBLINGS else n;
    Grows(base, d, e);
    Grows(base, e, MAX_DOUBLINGS);
  }

  // ---- the loop ----

  // How one run of the service ends; canceled: the restarter is shut down during the pause after it.
  datatype Ending = Stopped | Failed(immediate: bool, canceled: bool)

  // The failures at the end of the list that came at once.
  function ImmediateErrorsInARow(es: seq<Ending>): (n: nat)
    ensures n <= |es|
  {
    if es == [] || es[|es| - 1].Stopped? || !es[|es| - 1].immediate then 0
    else ImmediateErrorsInARow(es[..|es| - 1]) + 1
  }

  lemma {:induction false} TrailingStreak(es: seq<Ending>)
    ensures var n := ImmediateErrorsInARow(es);
      && (forall i :: |es| - n <= i < |es| ==> es[i].Failed? && es[i].immediate)
      && (n < |es| ==> es[|es| - n - 1].Stopped? || !es[|es| - n - 1].immediate)
  {
    if es != [] {
      TrailingStreak(es[..|es| - 1]);
    }
  }

  // The runs that take place: up to the first that is followed by no other.
  predicate Final(e: Ending) { e.Stopped? || e.canceled }

  // Runs the service until it stops or the restarter is shut down; the endings of
  // its runs are given. Returns the pauses made, also one that was cut short.
  method Run(base: int, max: int, canceled: bool, endings: seq<Ending>) returns (runs: nat, waits: seq<int>)
    ensures canceled ==> runs == 0
    ensures runs <= |endings| && forall k :: 0 <= k < runs - 1 ==> !Final(endings[k])
    ensures !canceled && runs < |endings| ==> runs > 0 && Final(endings[runs - 1])
    ensures |waits| == if runs > 0 && endings[runs - 1].Stopped? then runs - 1 else runs
    ensures forall k :: 0 <= k < |waits| ==>
      waits[k] == RestartInterval(base, max, ImmediateErrorsInARow(endings[..k + 1]))
  {
    hide RestartInterval;
    runs, waits := 0, [];
    if canceled {
      return;
    }
    var immediateErrorsInARow := 0;
    while runs < |endings|
      invariant runs <= |endings| && |waits| == runs
      invariant forall k :: 0 <= k < runs ==> !Final(endings[k])
      invariant immediateErrorsInARow == ImmediateErrorsInARow(endings[..runs])
      invariant forall k :: 0 <= k < |waits| ==>
        waits[k] == RestartInterval(base, max, ImmediateErrorsInARow(endings[..k + 1]))
    {
      var ending := endings[runs];
      assert endings[..runs + 1][..runs] == endings[..runs];
      runs := runs + 1;
      if ending.Stopped? {
        return;
      }
      if ending.immediate {
        immediateErrorsInARow := immediateErrorsInARow + 1;
      } else {
        immediateErrorsInARow := 0;
      }
      var retryIn := RestartInterval(base, max, immediateErrorsInARow);
      waits := waits + [retryIn];
      if ending.canceled {
        return;
      }
    }
  }

  lemma {:induction false} StreakExtends(es: seq<Ending>, i: nat, j: nat)
    requires i <= j < |es|
    requires forall k :: i < k <= j ==> es[k].Failed? && es[k].immediate
    ensures ImmediateErrorsInARow(es[..j + 1]) == ImmediateErrorsInARow(es[..i + 1]) + (j - i)
  {
    if i < j {
      StreakExtends(es, i, j - 1);
      assert es[..j + 1][..j] == es[..j];
    }
  }

  // Every run after the i-th up to the j-th failed at once.
  ghost predicate SameStreak(endings: seq<Ending>, i: nat, j: nat)
    requires j < |endings|
  {
    forall k :: i < k <= j ==> endings[k].Failed? && endings[k].immediate
  }

  // In every run of the loop: within a streak of immediate errors the pauses never
  // get shorter, no pause exceeds the maximum, and a later error starts over.
  lemma PausesOfARun(base: int, max: int, endings: seq<Ending>, waits: seq<int>)
    requires 0 < base && 0 < max && Doubled(base, MAX_DOUBLINGS) < TWO_63
    requires |waits| <= |endings|
    requires forall k :: 0 <= k < |waits| ==>
      waits[k] == RestartInterval(base, max, ImmediateErrorsInARow(endings[..k + 1]))
    ensures forall k :: 0 <= k < |waits| ==> 0 < waits[k] <= max
    ensures forall i, j :: 0 <= i <= j < |waits| && SameStreak(endings, i, j) ==> waits[i] <= waits[j]
    ensures forall k :: 0 <= k < |waits| && endings[k].Failed? && !endings[k].immediate ==>
      waits[k] == if base > max then max else base
  {
    hide Doubled, RestartInterval, ImmediateErrorsInARow, Backoff;
    forall k | 0 <= k < |waits|
      ensures 0 < waits[k] <= max
      ensures endings[k].Failed? && !endings[k].immediate ==> waits[k] == if base > max then max else base
    {
      var n := ImmediateErrorsInARow(endings[..k + 1]);
      IntervalGrows(base, max, n, n);
      TrailingStreak(endings[..k + 1]);
      assert endings[..k + 1][k] == endings[k];
      FirstPause(base, max);
    }
    forall i, j | 0 <= i <= j < |waits| && SameStreak(endings, i, j)
      ensures waits[i] <= waits[j]
    {
      StreakExtends(endings, i, j);
      IntervalGrows(base, max, ImmediateErrorsInARow(endings[..i + 1]), ImmediateErrorsInARow(endings[..j + 1]));
    }
  }

  lemma FirstPause(base: int, max: int)
    requires 0 < base && Doubled(base, MAX_DOUBLINGS) < TWO_63
    ensures RestartInterval(base, max, 0) == if base > max then max else base
  {
    hide Int64;
    Grows(base, 0, MAX_DOUBLINGS);
  }
}
