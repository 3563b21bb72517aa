/** Least-sampled challenger rotation (`exploration.py`): how long an eligible model can wait
    for a race, for every way the random tie-break can fall.

    `counts[i]` is the admissible run count of the i-th eligible non-winner. A race picks an
    index with the fewest runs and adds one run to it. */
module ChallengerRotation {
  import opened Common

  predicate Least(c: seq<nat>, y: nat) {
    y < |c| && forall j | 0 <= j < |c| :: c[y] <= c[j]
  }

  /** The cadence hits of a run, as the indices raced, under some tie-break. */
  predicate Schedule(c: seq<nat>, races: seq<nat>)
    decreases races
  {
    races == [] || (Least(c, races[0]) && Schedule(c[races[0] := c[races[0]] + 1], races[1..]))
  }

  function After(c: seq<nat>, races: seq<nat>): seq<nat>
    requires Schedule(c, races)
    decreases races
  {
    if races == [] then c else After(c[races[0] := c[races[0]] + 1], races[1..])
  }

  /** How far model `j` is behind model `x` in line, counting a tie as one. */
  function Ahead(c: seq<nat>, x: nat, j: nat): nat
    requires x < |c| && j < |c|
  {
    if j == x || c[x] < c[j] then 0 else c[x] - c[j] + 1
  }

  function LagUpTo(c: seq<nat>, x: nat, n: nat): nat
    requires x < |c| && n <= |c|
  {
    if n == 0 then 0 else LagUpTo(c, x, n - 1) + Ahead(c, x, n - 1)
  }

  /** The races that can go to others before `x` must be picked. */
  function Lag(c: seq<nat>, x: nat): nat
    requires x < |c|
  {
    LagUpTo(c, x, |c|)
  }

  lemma {:induction false} RaceElsewhereCutsLag(c: seq<nat>, x: nat, y: nat, n: nat)
    requires x < |c| && Least(c, y) && y != x && n <= |c|
    ensures LagUpTo(c[y := c[y] + 1], x, n) == LagUpTo(c, x, n) - (if y < n then 1 else 0)
    decreases n
  {
    if n > 0 {
      RaceElsewhereCutsLag(c, x, y, n - 1);
    }
  }

  lemma {:induction false} LagDominates(c: seq<nat>, x: nat, y: nat, n: nat)
    requires x < |c| && y < n <= |c|
    ensures LagUpTo(c, x, n) >= Ahead(c, x, y)
    decreases n
  {
    if y < n - 1 {
      LagDominates(c, x, y, n - 1);
    }
  }

  /** Upper bound: whatever the tie-breaks, more than `Lag` races include `x`. */
  lemma {:induction false} NoStarvation(c: seq<nat>, x: nat, races: seq<nat>)
    requires x < |c| && Schedule(c, races) && |races| > Lag(c, x)
    ensures x in races
    decreases races
  {
    var y := races[0];
    if y != x {
      RaceElsewhere(c, x, y);
      NoStarvation(c[y := c[y] + 1], x, races[1..]);
    }
  }

  lemma {:induction false} PositiveLagHasWitness(c: seq<nat>, x: nat, n: nat) returns (j: nat)
    requires x < |c| && n <= |c| && LagUpTo(c, x, n) > 0
    ensures j < n && j != x && c[j] <= c[x]
    decreases n
  {
    if Ahead(c, x, n - 1) > 0 {
      j := n - 1;
    } else {
      j := PositiveLagHasWitness(c, x, n - 1);
    }
  }

  /** Some index is least, and it is not `x` when another model has no more runs than `x`. */
  lemma {:induction false} LeastOther(c: seq<nat>, x: nat, j: nat) returns (y: nat)
    requires x < |c| && j < |c| && j != x && c[j] <= c[x]
    ensures Least(c, y) && y != x
  {
    y := j;
    for i := 0 to |c|
      invariant y < |c| && y != x && c[y] <= c[x]
      invariant forall k | 0 <= k < i :: c[y] <= c[k]
    {
      if c[i] < c[y] {
        y := i;
      }
    }
  }

  /** The bound is tight: tie-breaks can keep `x` out for any number of races up to `Lag`. */
  lemma {:induction false} StarvationWitness(c: seq<nat>, x: nat, n: nat) returns (races: seq<nat>)
    requires x < |c| && n <= Lag(c, x)
    ensures Schedule(c, races) && |races| == n && x !in races
    decreases n
  {
    if n == 0 {
      races := [];
    } else {
      var j := PositiveLagHasWitness(c, x, |c|);
      var y := LeastOther(c, x, j);
      RaceElsewhereCutsLag(c, x, y, |c|);
      var rest := StarvationWitness(c[y := c[y] + 1], x, n - 1);
      races := [y] + rest;
    }
  }

  ghost predicate AlwaysRacedWithin(c: seq<nat>, x: nat, n: nat) {
    forall races | Schedule(c, races) && |races| == n :: x in races
  }

  /** Exactly how long an eligible model can be starved. */
  lemma StarvationBoundIsExact(c: seq<nat>, x: nat, n: nat)
    requires x < |c|
    ensures AlwaysRacedWithin(c, x, n) <==> n > Lag(c, x)
  {
    if n <= Lag(c, x) {
      var races := StarvationWitness(c, x, n);
    } else {
      forall races | Schedule(c, races) && |races| == n
        ensures x in races
      {
        NoStarvation(c, x, races);
      }
    }
  }

  // ----- "within len(eligible) cadence hits every eligible alternative has had a race" -----

  predicate AllEqual(c: seq<nat>) {
    forall i, j | 0 <= i < |c| && 0 <= j < |c| :: c[i] == c[j]
  }

  lemma {:induction false} LagFromEqual(c: seq<nat>, x: nat, n: nat)
    requires AllEqual(c) && x < |c| && n <= |c|
    ensures LagUpTo(c, x, n) == n - (if x < n then 1 else 0)
    decreases n
  {
    if n > 0 {
      LagFromEqual(c, x, n - 1);
    }
  }

  lemma {:induction false} LagOfMost(c: seq<nat>, x: nat, low: nat, n: nat)
    requires x < |c| && n <= |c| && low < |c| && c[low] < c[x]
    requires forall j | 0 <= j < |c| :: c[j] <= c[x]
    ensures LagUpTo(c, x, n) >= n - (if x < n then 1 else 0) + (if low < n then 1 else 0)
    decreases n
  {
    if n > 0 {
      LagOfMost(c, x, low, n - 1);
    }
  }

  lemma MostSampled(c: seq<nat>) returns (x: nat)
    requires c != []
    ensures x < |c| && forall j | 0 <= j < |c| :: c[j] <= c[x]
  {
    x := 0;
    for i := 0 to |c|
      invariant x < |c| && forall k | 0 <= k < i :: c[k] <= c[x]
    {
      if c[i] > c[x] {
        x := i;
      }
    }
  }

  ghost predicate EveryoneRacedWithin(c: seq<nat>, n: nat) {
    forall x | 0 <= x < |c| :: AlwaysRacedWithin(c, x, n)
  }

  /** The claim that `len(eligible)` hits give everyone a race holds exactly when all run
      counts start out equal. */
  lemma FullRotationIffEqual(c: seq<nat>)
    ensures EveryoneRacedWithin(c, |c|) <==> AllEqual(c)
  {
    if AllEqual(c) {
      forall x | 0 <= x < |c|
        ensures AlwaysRacedWithin(c, x, |c|)
      {
        LagFromEqual(c, x, |c|);
        StarvationBoundIsExact(c, x, |c|);
      }
    } else {
      var x := MostSampled(c);
      var i, j :| 0 <= i < |c| && 0 <= j < |c| && c[i] != c[j];
      var low := if c[i] < c[x] then i else j;
      LagOfMost(c, x, low, |c|);
      StarvationBoundIsExact(c, x, |c|);
    }
  }

  /** A run where the claim fails: two models, one sampled once already, two hits. */
  lemma RotationClaimFails()
    ensures Schedule([0, 1], [0, 0]) && 1 !in [0, 0]
  {
    assert [0, 1][0 := 1] == [1, 1] && [0, 0][1..] == [0];
    assert Schedule([1, 1], [0]) by {
      assert Schedule([1, 1][0 := 2], [0][1..]);
    }
  }

  /** The number of the first `n` models still at the base count. */
  function Unraced(c: seq<nat>, base: nat, n: nat): nat
    requires n <= |c|
  {
    if n == 0 then 0 else Unraced(c, base, n - 1) + (if c[n - 1] == base then 1 else 0)
  }

  lemma {:induction false} RaceCutsUnraced(c: seq<nat>, base: nat, y: nat, n: nat)
    requires y < |c| && c[y] == base && n <= |c|
    ensures Unraced(c[y := base + 1], base, n) == Unraced(c, base, n) - (if y < n then 1 else 0)
    decreases n
  {
    if n > 0 {
      RaceCutsUnraced(c, base, y, n - 1);
    }
  }

  lemma {:induction false} SomeUnraced(c: seq<nat>, base: nat, n: nat) returns (j: nat)
    requires n <= |c| && Unraced(c, base, n) > 0
    ensures j < n && c[j] == base
    decreases n
  {
    if c[n - 1] == base {
      j := n - 1;
    } else {
      j := SomeUnraced(c, base, n - 1);
    }
  }

  lemma {:induction false} RacesAreDistinct(c: seq<nat>, base: nat, races: seq<nat>)
    requires forall i | 0 <= i < |c| :: c[i] == base || c[i] == base + 1
    requires Schedule(c, races) && |races| <= Unraced(c, base, |c|)
    ensures Distinct(races) && forall r | r in races :: r < |c| && c[r] == base
    decreases races
  {
    if races != [] {
      var j := SomeUnraced(c, base, |c|);
      var y := races[0];
      assert c[y] <= c[j];
      RaceCutsUnraced(c, base, y, |c|);
      RacesAreDistinct(c[y := base + 1], base, races[1..]);
      forall i, k | 0 <= i < k < |races|
        ensures races[i] != races[k]
      {
        assert races[k] == races[1..][k - 1] && races[k] in races[1..];
        if i > 0 {
          assert races[i] == races[1..][i - 1];
        }
      }
      assert forall r | r in races :: r == y || r in races[1..];
    }
  }

  lemma {:induction false} AllUnraced(c: seq<nat>, base: nat, n: nat)
    requires n <= |c| && forall i | 0 <= i < |c| :: c[i] == base
    ensures Unraced(c, base, n) == n
    decreases n
  {
    if n > 0 {
      AllUnraced(c, base, n - 1);
    }
  }

  /** From equal counts, one full rotation races every model exactly once. */
  lemma RotationFromEqual(c: seq<nat>, races: seq<nat>)
    requires AllEqual(c) && Schedule(c, races) && |races| == |c|
    ensures Distinct(races) && forall x: nat :: x in races <==> x < |c|
  {
    if c != [] {
      AllUnraced(c, c[0], |c|);
      RacesAreDistinct(c, c[0], races);
      FullRotationIffEqual(c);
      forall x: nat | x < |c|
        ensures x in races
      {
        assert AlwaysRacedWithin(c, x, |c|);
      }
    }
  }

  /** Counts drift no further apart than they started, or than one. */
  lemma {:induction false} SpreadStaysBounded(c: seq<nat>, races: seq<nat>, d: nat)
    requires Schedule(c, races) && d >= 1
    requires forall i, j | 0 <= i < |c| && 0 <= j < |c| :: c[i] - c[j] <= d
    ensures var c' := After(c, races);
            |c'| == |c| && forall i, j | 0 <= i < |c'| && 0 <= j < |c'| :: c'[i] - c'[j] <= d
    decreases races
  {
    if races != [] {
      SpreadStaysBounded(c[races[0] := c[races[0]] + 1], races[1..], d);
    }
  }

  // ----- Stories: a race only every n-th admissible run -----

  /** The run about to start is the (total + 1)-th; it races when that is a multiple of `n`. */
  predicate CadenceRun(total: nat, n: nat)
    requires n >= 1
  {
    (total + 1) % n == 0
  }

  datatype Pick = Winner | Challenger(index: nat)

  /** A run of stories with a fixed winner, an open budget, and each story adding one run. */
  predicate Stories(n: nat, total: nat, c: seq<nat>, picks: seq<Pick>)
    requires n >= 1
    decreases picks
  {
    picks == [] ||
    if CadenceRun(total, n) then
      && picks[0].Challenger? && Least(c, picks[0].index)
      && Stories(n, total + 1, c[picks[0].index := c[picks[0].index] + 1], picks[1..])
    else
      picks[0].Winner? && Stories(n, total + 1, c, picks[1..])
  }

  /** Stories left before the next cadence run. */
  function ToCadence(total: nat, n: nat): nat
    requires n >= 1
  {
    n - 1 - total % n
  }

  lemma CadenceArithmetic(total: nat, n: nat)
    requires n >= 1
    ensures CadenceRun(total, n) <==> ToCadence(total, n) == 0
    ensures CadenceRun(total, n) ==> ToCadence(total + 1, n) == n - 1
    ensures !CadenceRun(total, n) ==> ToCadence(total + 1, n) == ToCadence(total, n) - 1
  {
    var r := total % n;
    if r == n - 1 {
      assert total + 1 == n * (total / n + 1);
      assert (total + 1) % n == 0 by { ModOf(total / n + 1, 0, n); }
    } else {
      assert total + 1 == n * (total / n) + (r + 1);
      ModOf(total / n, r + 1, n);
    }
  }

  lemma SmallMultiple(n: nat, k: int)
    requires 0 - n < n * k < n
    ensures k == 0
  {
  }

  lemma ModOf(q: nat, r: nat, n: nat)
    requires r < n
    ensures (n * q + r) % n == r
  {
    var m := n * q + r;
    var d := m / n;
    assert n * (d - q) == n * d - n * q == r - m % n;
    SmallMultiple(n, d - q);
  }

  lemma OneLess(n: nat, lag: nat)
    requires lag >= 1
    ensures n * (lag - 1) == n * lag - n
  {
  }

  lemma RaceElsewhere(c: seq<nat>, x: nat, y: nat)
    requires x < |c| && Least(c, y) && y != x
    ensures Lag(c, x) >= 1 && Lag(c[y := c[y] + 1], x) == Lag(c, x) - 1
  {
    RaceElsewhereCutsLag(c, x, y, |c|);
    LagDominates(c, x, y, |c|);
  }

  /** With a race every `n` stories, an eligible model is raced within `n * (Lag + 1)` of them. */
  lemma {:induction false} StoriesReachEveryone(n: nat, total: nat, c: seq<nat>, x: nat, picks: seq<Pick>)
    requires n >= 1 && x < |c| && Stories(n, total, c, picks)
    requires |picks| > n * Lag(c, x) + ToCadence(total, n)
    ensures Challenger(x) in picks
    decreases picks
  {
    hide CadenceRun, ToCadence, Lag;
    CadenceArithmetic(total, n);
    if CadenceRun(total, n) {
      var y := picks[0].index;
      if y != x {
        RaceElsewhere(c, x, y);
        var c' := c[y := c[y] + 1];
        OneLess(n, Lag(c, x));
        StoriesReachEveryone(n, total + 1, c', x, picks[1..]);
      }
    } else {
      StoriesReachEveryone(n, total + 1, c, x, picks[1..]);
    }
  }
}
