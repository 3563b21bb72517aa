/** Winner selection and the exploration decision (`exploration.py`). */
module Exploration {
  import opened Common
  import opened StringOrder
  import Rotation = ChallengerRotation

  /** Per-model evidence for one routing key. */
  datatype Aggregate = Aggregate(
    id: string, runs: int, successRate: Option<real>, avgCost: Option<real>,
    avgIterations: Option<real>, avgDuration: Option<real>, costMeasuredRuns: int)
  {
    predicate MeetsFloor(minSample: int) { runs >= minSample && successRate.Some? }
    predicate CostMeasured() { avgCost.Some? && costMeasuredRuns > 0 }
    predicate MeetsReliability(floor: real) { successRate.Some? && successRate.value >= floor }

    /** Expected dollars per trusted completion; `None` without measured cost and success. */
    function CompletionCost(): Option<real> {
      if CostMeasured() && successRate.Some? && successRate.value > 0.0
      then Some(avgCost.value / successRate.value) else None
    }

    /** All three exploitation gates. */
    predicate Qualifies(minSample: int, floor: real) {
      MeetsFloor(minSample) && MeetsReliability(floor) && CompletionCost().Some?
    }
  }

  ghost predicate DistinctIds(aggs: seq<Aggregate>) {
    forall i, j | 0 <= i < j < |aggs| :: aggs[i].id != aggs[j].id
  }

  // ----- Ranking -----

  /** `None` compares as infinity. */
  predicate Below(a: Option<real>, b: Option<real>) {
    a.Some? && (b.None? || a.value < b.value)
  }

  function Rate(a: Aggregate): real { if a.successRate.Some? then a.successRate.value else -1.0 }

  /** `_winner_sort_key`: completion cost, then higher reliability, iterations, duration, id. */
  predicate Before(a: Aggregate, b: Aggregate) {
    if a.CompletionCost() != b.CompletionCost() then Below(a.CompletionCost(), b.CompletionCost())
    else if Rate(a) != Rate(b) then Rate(a) > Rate(b)
    else if a.avgIterations != b.avgIterations then Below(a.avgIterations, b.avgIterations)
    else if a.avgDuration != b.avgDuration then Below(a.avgDuration, b.avgDuration)
    else Less(a.id, b.id)
  }

  lemma BeforeIsTotal(a: Aggregate, b: Aggregate)
    requires a.id != b.id
    ensures Before(a, b) != Before(b, a)
  {
    LessTrichotomy(a.id, b.id);
    LessIsStrict(a.id, b.id);
  }

  lemma BeforeIsStrict(a: Aggregate, b: Aggregate)
    ensures !(Before(a, b) && Before(b, a))
  {
    LessIsStrict(a.id, b.id);
  }

  lemma BeforeIsTransitive(a: Aggregate, b: Aggregate, c: Aggregate)
    requires Before(a, b) && Before(b, c)
    ensures Before(a, c)
  {
    if Less(a.id, b.id) && Less(b.id, c.id) {
      LessIsTransitive(a.id, b.id, c.id);
    }
  }

  function Insert(a: Aggregate, ranked: seq<Aggregate>): seq<Aggregate> {
    if ranked == [] || Before(a, ranked[0]) then [a] + ranked
    else [ranked[0]] + Insert(a, ranked[1..])
  }

  /** `sorted(measured, key=_winner_sort_key)`. */
  function Ranked(aggs: seq<Aggregate>): seq<Aggregate> {
    if aggs == [] then [] else Insert(aggs[0], Ranked(aggs[1..]))
  }

  ghost predicate SortedByKey(s: seq<Aggregate>) {
    forall i, j | 0 <= i < j < |s| :: Before(s[i], s[j])
  }

  lemma {:induction false} InsertContents(a: Aggregate, ranked: seq<Aggregate>)
    ensures multiset(Insert(a, ranked)) == multiset{a} + multiset(ranked)
    decreases ranked
  {
    if ranked != [] && !Before(a, ranked[0]) {
      InsertContents(a, ranked[1..]);
      assert ranked == [ranked[0]] + ranked[1..];
    }
  }

  lemma {:induction false} InsertSorts(a: Aggregate, ranked: seq<Aggregate>)
    requires SortedByKey(ranked) && forall b | b in ranked :: b.id != a.id
    ensures SortedByKey(Insert(a, ranked))
    decreases ranked
  {
    if ranked != [] {
      var head, rest := ranked[0], ranked[1..];
      if Before(a, head) {
        forall j | 0 <= j < |ranked|
          ensures Before(a, ranked[j])
        {
          if j > 0 {
            BeforeIsTransitive(a, head, ranked[j]);
          }
        }
      } else {
        BeforeIsTotal(a, head);
        InsertSorts(a, rest);
        InsertContents(a, rest);
        var tail := Insert(a, rest);
        forall j | 0 <= j < |tail|
          ensures Before(head, tail[j])
        {
          assert tail[j] in multiset(tail);
          if tail[j] != a {
            assert tail[j] in rest;
          }
        }
      }
    }
  }

  lemma {:induction false} RankedIsTheSort(aggs: seq<Aggregate>)
    requires DistinctIds(aggs)
    ensures SortedByKey(Ranked(aggs)) && multiset(Ranked(aggs)) == multiset(aggs)
    decreases aggs
  {
    if aggs != [] {
      var rest := aggs[1..];
      RankedIsTheSort(rest);
      forall b | b in Ranked(rest)
        ensures b.id != aggs[0].id
      {
        assert b in multiset(Ranked(rest));
        assert b in rest;
      }
      InsertSorts(aggs[0], Ranked(rest));
      InsertContents(aggs[0], Ranked(rest));
      assert aggs == [aggs[0]] + rest;
    }
  }

  lemma MultisetTail(s: seq<Aggregate>)
    requires s != []
    ensures multiset(s[1..]) == multiset(s) - multiset{s[0]}
  {
    assert s == [s[0]] + s[1..];
  }

  lemma SameLeader(s: seq<Aggregate>, t: seq<Aggregate>)
    requires SortedByKey(s) && SortedByKey(t) && multiset(s) == multiset(t) && s != []
    ensures t != [] && s[0] == t[0]
  {
    hide Before;
    assert |multiset(s)| == |s| && |multiset(t)| == |t|;
    assert s[0] in multiset(t) && t[0] in multiset(s);
    if s[0] != t[0] {
      var i :| 0 <= i < |s| && s[i] == t[0];
      var j :| 0 <= j < |t| && t[j] == s[0];
      assert Before(s[0], s[i]) && Before(t[0], t[j]);
      BeforeIsStrict(s[0], t[0]);
    }
  }

  lemma {:induction false} SortIsUnique(s: seq<Aggregate>, t: seq<Aggregate>)
    requires SortedByKey(s) && SortedByKey(t) && multiset(s) == multiset(t)
    ensures s == t
    decreases s
  {
    hide Before;
    if s == [] {
      assert |multiset(t)| == 0;
    } else {
      SameLeader(s, t);
      MultisetTail(s);
      MultisetTail(t);
      SortIsUnique(s[1..], t[1..]);
      assert s == [s[0]] + s[1..] && t == [t[0]] + t[1..];
    }
  }

  // ----- The three gates -----

  lemma FilterContents(aggs: seq<Aggregate>, keep: Aggregate -> bool)
    ensures forall a :: multiset(Filter(aggs, keep))[a] == if keep(a) then multiset(aggs)[a] else 0
    ensures forall a :: a in Filter(aggs, keep) <==> a in aggs && keep(a)
  {
    FilterMembers(aggs, keep);
    forall a
      ensures multiset(Filter(aggs, keep))[a] == if keep(a) then multiset(aggs)[a] else 0
    {
      FilterMultiset(aggs, keep, a);
    }
  }

  lemma {:induction false} FilterKeepsDistinct(aggs: seq<Aggregate>, keep: Aggregate -> bool)
    requires DistinctIds(aggs)
    ensures DistinctIds(Filter(aggs, keep))
    decreases aggs
  {
    if aggs != [] {
      FilterKeepsDistinct(aggs[1..], keep);
      FilterContents(aggs[1..], keep);
      var rest := Filter(aggs[1..], keep);
      forall j | 0 <= j < |rest|
        ensures rest[j].id != aggs[0].id
      {
        assert rest[j] in aggs[1..];
      }
    }
  }

  datatype Reason = NoAdmissibleEvidence | BelowReliabilityFloor | NoMeasuredCost | CostQualified

  datatype Selection = Selection(
    winner: Option<string>, reason: Reason, qualified: seq<string>,
    belowFloor: set<string>, unmeasured: set<string>)

  function Ids(aggs: seq<Aggregate>): seq<string> { seq(|aggs|, i requires 0 <= i < |aggs| => aggs[i].id) }

  function IdSet(aggs: seq<Aggregate>): set<string> { set a | a in aggs :: a.id }

  /** `select_winner_evidence`. */
  function SelectWinner(aggs: seq<Aggregate>, minSample: int, floor: real): Selection {
    var admissible := Filter(aggs, (a: Aggregate) => a.MeetsFloor(minSample));
    var reliable := Filter(admissible, (a: Aggregate) => a.MeetsReliability(floor));
    var below := IdSet(Filter(admissible, (a: Aggregate) => !a.MeetsReliability(floor)));
    var measured := Filter(reliable, (a: Aggregate) => a.CompletionCost().Some?);
    var unmeasured := IdSet(Filter(reliable, (a: Aggregate) => a.CompletionCost().None?));
    if admissible == [] then Selection(None, NoAdmissibleEvidence, [], {}, {})
    else if reliable == [] then Selection(None, BelowReliabilityFloor, [], below, {})
    else if measured == [] then Selection(None, NoMeasuredCost, [], below, unmeasured)
    else
      InsertNonempty(measured);
      Selection(Some(Ranked(measured)[0].id), CostQualified, Ids(Ranked(measured)), below, unmeasured)
  }

  lemma InsertNonempty(aggs: seq<Aggregate>)
    requires aggs != []
    ensures Ranked(aggs) != []
  {
    assert Ranked(aggs) == Insert(aggs[0], Ranked(aggs[1..]));
  }

  /** The candidates that clear all three gates. */
  function Qualified(aggs: seq<Aggregate>, minSample: int, floor: real): seq<Aggregate> {
    Filter(Filter(Filter(aggs, (a: Aggregate) => a.MeetsFloor(minSample)),
                  (a: Aggregate) => a.MeetsReliability(floor)),
           (a: Aggregate) => a.CompletionCost().Some?)
  }

  lemma {:induction false} QualifiedMembers(aggs: seq<Aggregate>, minSample: int, floor: real)
    ensures forall a :: a in Qualified(aggs, minSample, floor) <==> a in aggs && a.Qualifies(minSample, floor)
    ensures forall a :: multiset(Qualified(aggs, minSample, floor))[a] ==
                        if a.Qualifies(minSample, floor) then multiset(aggs)[a] else 0
    ensures DistinctIds(aggs) ==> DistinctIds(Qualified(aggs, minSample, floor))
  {
    hide DistinctIds;
    var p, q, r := (a: Aggregate) => a.MeetsFloor(minSample), (a: Aggregate) => a.MeetsReliability(floor),
                   (a: Aggregate) => a.CompletionCost().Some?;
    var first := Filter(aggs, p);
    var second := Filter(first, q);
    FilterContents(aggs, p);
    FilterContents(first, q);
    FilterContents(second, r);
    if DistinctIds(aggs) {
      FilterKeepsDistinct(aggs, p);
      FilterKeepsDistinct(first, q);
      FilterKeepsDistinct(second, r);
    }
  }

  /** The winner is the cheapest-to-completion candidate among those with enough runs, enough
      reliability and a measured cost; there is none exactly when nobody clears all three. */
  lemma {:induction false} WinnerIsCheapestQualified(aggs: seq<Aggregate>, minSample: int, floor: real)
    requires DistinctIds(aggs)
    ensures var s := SelectWinner(aggs, minSample, floor);
            && (s.winner.Some? <==> exists a :: a in aggs && a.Qualifies(minSample, floor))
            && (s.winner.Some? <==> s.reason.CostQualified?)
            && (s.winner.Some? ==>
                  exists a :: a in aggs && a.id == s.winner.value && a.Qualifies(minSample, floor)
                              && forall b | b in aggs && b.Qualifies(minSample, floor) && b != a ::
                                   Before(a, b) && a.CompletionCost().value <= b.CompletionCost().value)
  {
    hide Filter, Ranked, DistinctIds;
    var q := Qualified(aggs, minSample, floor);
    QualifiedMembers(aggs, minSample, floor);
    if q != [] {
      assert q[0] in aggs;
      RankedIsTheSort(q);
      var ranked := Ranked(q);
      assert ranked != [] by { InsertNonempty(q); }
      var a := ranked[0];
      assert a in multiset(ranked) && a in q;
      forall b | b in aggs && b.Qualifies(minSample, floor) && b != a
        ensures Before(a, b) && a.CompletionCost().value <= b.CompletionCost().value
      {
        assert b in q && b in multiset(ranked);
        var j :| 0 <= j < |ranked| && ranked[j] == b;
        assert Before(ranked[0], ranked[j]);
      }
    }
    EmptyAtEachGate(aggs, minSample, floor);
  }

  lemma {:induction false} EmptyAtEachGate(aggs: seq<Aggregate>, minSample: int, floor: real)
    ensures SelectWinner(aggs, minSample, floor).winner.Some? <==> Qualified(aggs, minSample, floor) != []
  {
    assert forall keep: Aggregate -> bool :: Filter([], keep) == [];
  }

  /** The winner, the reason and the whole ranking do not depend on the order of the map. */
  lemma {:induction false} WinnerIgnoresMapOrder(aggs: seq<Aggregate>, other: seq<Aggregate>, minSample: int, floor: real)
    requires DistinctIds(aggs) && DistinctIds(other) && multiset(aggs) == multiset(other)
    ensures SelectWinner(aggs, minSample, floor).winner == SelectWinner(other, minSample, floor).winner
    ensures SelectWinner(aggs, minSample, floor).qualified == SelectWinner(other, minSample, floor).qualified
    ensures SelectWinner(aggs, minSample, floor).reason == SelectWinner(other, minSample, floor).reason
  {
    hide Ranked, Filter, DistinctIds;
    var p, q, r := (a: Aggregate) => a.MeetsFloor(minSample), (a: Aggregate) => a.MeetsReliability(floor),
                   (a: Aggregate) => a.CompletionCost().Some?;
    var first, first' := Filter(aggs, p), Filter(other, p);
    FilterAgrees(aggs, other, p);
    var second, second' := Filter(first, q), Filter(first', q);
    FilterAgrees(first, first', q);
    var third, third' := Filter(second, r), Filter(second', r);
    FilterAgrees(second, second', r);
    QualifiedMembers(aggs, minSample, floor);
    QualifiedMembers(other, minSample, floor);
    RankedIsTheSort(third);
    RankedIsTheSort(third');
    SortIsUnique(Ranked(third), Ranked(third'));
  }

  lemma {:induction false} FilterAgrees(aggs: seq<Aggregate>, other: seq<Aggregate>, keep: Aggregate -> bool)
    requires multiset(aggs) == multiset(other)
    ensures multiset(Filter(aggs, keep)) == multiset(Filter(other, keep))
    ensures Filter(aggs, keep) == [] <==> Filter(other, keep) == []
  {
    hide Filter;
    FilterContents(aggs, keep);
    FilterContents(other, keep);
    assert |multiset(Filter(aggs, keep))| == |multiset(Filter(other, keep))|;
  }

  // ----- The same on the recorded figures -----

  ghost predicate EnoughRuns(a: Aggregate, minSample: int) { a.runs >= minSample && a.successRate.Some? }

  ghost predicate ReliableRuns(a: Aggregate, minSample: int, floor: real) {
    EnoughRuns(a, minSample) && a.successRate.value >= floor
  }

  /** Enough runs, reliable enough, some success, and at least one run of measured cost. */
  ghost predicate Cleared(a: Aggregate, minSample: int, floor: real) {
    ReliableRuns(a, minSample, floor) && a.successRate.value > 0.0 && a.avgCost.Some? && a.costMeasuredRuns > 0
  }

  /** A missing figure counts as endless. */
  ghost predicate Fewer(a: Option<real>, b: Option<real>) { a.Some? && (b.None? || a.value < b.value) }

  /** The winner order on cleared candidates: expected cost to one completion, which is average cost
      over success rate, then success rate, iterations, duration and id. */
  ghost predicate RanksBefore(a: Aggregate, b: Aggregate) {
    && a.successRate.Some? && a.avgCost.Some? && b.successRate.Some? && b.avgCost.Some?
    && var here, there := a.avgCost.value * b.successRate.value, b.avgCost.value * a.successRate.value;
    || here < there
    || (here == there &&
        (|| a.successRate.value > b.successRate.value
         || (a.successRate == b.successRate &&
             (|| Fewer(a.avgIterations, b.avgIterations)
              || (a.avgIterations == b.avgIterations &&
                  (|| Fewer(a.avgDuration, b.avgDuration)
                   || (a.avgDuration == b.avgDuration && Less(a.id, b.id))))))))
  }

  lemma Quotients(x: real, p: real, y: real, q: real)
    requires p > 0.0 && q > 0.0
    ensures x / p < y / q <==> x * q < y * p
    ensures x / p == y / q <==> x * q == y * p
  {
    var u, v := x / p, y / q;
    assert x == u * p && y == v * q;
    var pq := p * q;
    assert pq > 0.0;
    assert x * q == u * pq && y * p == v * pq;
    ScaleOrder(u, v, pq);
  }

  lemma ScaleOrder(u: real, v: real, k: real)
    requires k > 0.0
    ensures u < v <==> u * k < v * k
    ensures u == v <==> u * k == v * k
  {
    if u < v {
      assert (v - u) * k > 0.0;
    } else if v < u {
      assert (u - v) * k > 0.0;
    }
  }

  lemma ClearedIs(a: Aggregate, minSample: int, floor: real)
    ensures a.Qualifies(minSample, floor) <==> Cleared(a, minSample, floor)
  {
  }

  lemma BeforeIs(a: Aggregate, b: Aggregate, minSample: int, floor: real)
    requires Cleared(a, minSample, floor) && Cleared(b, minSample, floor)
    ensures Before(a, b) <==> RanksBefore(a, b)
  {
    hide Less;
    Quotients(a.avgCost.value, a.successRate.value, b.avgCost.value, b.successRate.value);
  }

  /** `a` clears the gates and ranks before every other candidate that does. */
  ghost predicate Best(a: Aggregate, aggs: seq<Aggregate>, minSample: int, floor: real) {
    a in aggs && Cleared(a, minSample, floor) &&
    forall b | b in aggs && Cleared(b, minSample, floor) && b != a :: RanksBefore(a, b)
  }

  /** Who wins, and otherwise why nobody does, from the recorded figures. */
  lemma WinnerRule(aggs: seq<Aggregate>, minSample: int, floor: real)
    requires DistinctIds(aggs)
    ensures var s := SelectWinner(aggs, minSample, floor);
            && (s.winner.Some? <==> exists a | a in aggs :: Cleared(a, minSample, floor))
            && (s.winner.Some? ==> exists a :: Best(a, aggs, minSample, floor) && a.id == s.winner.value)
  {
    hide SelectWinner, Before, RanksBefore, DistinctIds;
    forall a: Aggregate
      ensures a.Qualifies(minSample, floor) <==> Cleared(a, minSample, floor)
    {
      ClearedIs(a, minSample, floor);
    }
    WinnerIsCheapestQualified(aggs, minSample, floor);
    var s := SelectWinner(aggs, minSample, floor);
    if s.winner.Some? {
      var a :| a in aggs && a.id == s.winner.value && a.Qualifies(minSample, floor)
               && forall b | b in aggs && b.Qualifies(minSample, floor) && b != a :: Before(a, b);
      forall b | b in aggs && Cleared(b, minSample, floor) && b != a
        ensures RanksBefore(a, b)
      {
        BeforeIs(a, b, minSample, floor);
      }
      assert Best(a, aggs, minSample, floor);
    }
  }

  lemma BestIsUnique(a: Aggregate, b: Aggregate, aggs: seq<Aggregate>, minSample: int, floor: real)
    requires DistinctIds(aggs) && Best(a, aggs, minSample, floor) && Best(b, aggs, minSample, floor)
    ensures a == b
  {
    hide Before, RanksBefore;
    if a != b {
      BeforeIs(a, b, minSample, floor);
      BeforeIs(b, a, minSample, floor);
      BeforeIsStrict(a, b);
    }
  }

  lemma ReasonRule(aggs: seq<Aggregate>, minSample: int, floor: real)
    ensures SelectWinner(aggs, minSample, floor).reason ==
            if forall a | a in aggs :: !EnoughRuns(a, minSample) then NoAdmissibleEvidence
            else if forall a | a in aggs :: !ReliableRuns(a, minSample, floor) then BelowReliabilityFloor
            else if forall a | a in aggs :: !Cleared(a, minSample, floor) then NoMeasuredCost
            else CostQualified
  {
    hide Filter, Ranked, IdSet, Ids;
    var p, q, r := (a: Aggregate) => a.MeetsFloor(minSample), (a: Aggregate) => a.MeetsReliability(floor),
                   (a: Aggregate) => a.CompletionCost().Some?;
    var first := Filter(aggs, p);
    var second := Filter(first, q);
    var third := Filter(second, r);
    FilterMembers(aggs, p);
    FilterMembers(first, q);
    FilterMembers(second, r);
    HasMember(first);
    HasMember(second);
    HasMember(third);
    assert forall a :: a in first <==> a in aggs && EnoughRuns(a, minSample);
    assert forall a :: a in second <==> a in aggs && ReliableRuns(a, minSample, floor);
    assert forall a :: a in third <==> a in aggs && Cleared(a, minSample, floor);
  }

  // ----- Challenger choice -----

  datatype RotationMode = LeastSampled | Random

  function Eligible(pool: seq<string>, winner: Option<string>): set<string> {
    set m | m in pool && Some(m) != winner
  }

  /** Admissible runs of a model; one without an aggregate, or with a negative count, has none. */
  function Runs(aggs: seq<Aggregate>, id: string): nat {
    if aggs == [] then 0
    else if aggs[0].id == id then (if aggs[0].runs < 0 then 0 else aggs[0].runs)
    else Runs(aggs[1..], id)
  }

  /** The list `choose_challenger` hands to the random generator. */
  function DrawSpace(pool: seq<string>, winner: Option<string>, aggs: seq<Aggregate>, mode: RotationMode): set<string> {
    var eligible := Eligible(pool, winner);
    if mode.Random? || aggs == [] then eligible
    else set m | m in eligible && forall j | j in eligible :: Runs(aggs, m) <= Runs(aggs, j)
  }

  /** The draw never runs on an empty list while an eligible model exists. */
  lemma {:induction false} DrawSpaceNonempty(pool: seq<string>, winner: Option<string>, aggs: seq<Aggregate>, mode: RotationMode)
    requires Eligible(pool, winner) != {}
    ensures DrawSpace(pool, winner, aggs, mode) != {}
  {
    hide Eligible, Runs;
    var eligible := Eligible(pool, winner);
    var m :| m in eligible;
    var rest := eligible - {m};
    while rest != {}
      invariant m in eligible && rest <= eligible
      invariant forall j | j in eligible - rest :: Runs(aggs, m) <= Runs(aggs, j)
      decreases rest
    {
      var j :| j in rest;
      if Runs(aggs, j) < Runs(aggs, m) {
        m := j;
      }
      rest := rest - {j};
    }
    assert m in DrawSpace(pool, winner, aggs, mode);
  }

  function TotalRuns(aggs: seq<Aggregate>): nat {
    if aggs == [] then 0 else (if aggs[0].runs < 0 then 0 else aggs[0].runs) + TotalRuns(aggs[1..])
  }

  // ----- The decision -----

  datatype Mode = WinnerMode | ChallengerMode
  datatype DecisionReason =
    | ColdStart | CadenceHit | CadenceMiss | SprintCap | NoChallenger | Disabled

  datatype Outcome = Outcome(mode: Mode, selected: Option<string>, reason: DecisionReason, consumesSlot: bool)

  /** `decide_exploration`; `drawn` is what the random generator returns if it is consulted. */
  function Decide(pool: seq<string>, aggs: seq<Aggregate>, winner: Option<string>, everyN: int,
                  budget: Option<int>, mode: RotationMode, drawn: string): Outcome
  {
    if everyN < 1 || (budget.Some? && budget.value <= 0) then
      Outcome(WinnerMode, winner, if everyN < 1 then Disabled else SprintCap, false)
    else if winner.None? then
      Outcome(ChallengerMode, None, ColdStart, true)
    else if !Rotation.CadenceRun(TotalRuns(aggs), everyN) then
      Outcome(WinnerMode, winner, CadenceMiss, false)
    else if Eligible(pool, winner) == {} then
      Outcome(WinnerMode, winner, NoChallenger, false)
    else
      Outcome(ChallengerMode, Some(drawn), CadenceHit, true)
  }

  /** A model other than the winner is selected only on a cadence run with budget left, and it
      is then an eligible model; a slot is spent exactly in challenger mode. */
  lemma DecisionIsBounded(pool: seq<string>, aggs: seq<Aggregate>, winner: Option<string>, everyN: int,
                          budget: Option<int>, mode: RotationMode, drawn: string)
    requires Eligible(pool, winner) != {} ==> drawn in DrawSpace(pool, winner, aggs, mode)
    ensures var o := Decide(pool, aggs, winner, everyN, budget, mode, drawn);
            && (o.selected.Some? && o.selected != winner <==>
                  && everyN >= 1 && (budget.None? || budget.value > 0) && winner.Some?
                  && (TotalRuns(aggs) + 1) % everyN == 0 && Eligible(pool, winner) != {})
            && (o.selected.Some? && o.selected != winner ==> o.selected.value in pool && o.mode.ChallengerMode?)
            && (o.selected.None? ==> winner.None?)
            && (o.consumesSlot <==> o.mode.ChallengerMode?)
            && (budget.Some? && budget.value <= 0 ==> !o.consumesSlot)
            && (o.mode.ChallengerMode? <==>
                  && everyN >= 1 && (budget.None? || budget.value > 0)
                  && (winner.None? || ((TotalRuns(aggs) + 1) % everyN == 0 && exists m | m in pool :: m != winner.value)))
            && (o.selected == if o.mode.ChallengerMode? && winner.Some? then Some(drawn) else winner)
            && (o.reason.Disabled? <==> everyN < 1)
            && (o.reason.SprintCap? <==> everyN >= 1 && budget.Some? && budget.value <= 0)
            && (o.reason.ColdStart? <==> o.mode.ChallengerMode? && winner.None?)
            && (o.reason.CadenceHit? <==> o.mode.ChallengerMode? && winner.Some?)
            && (o.reason.NoChallenger? ==> forall m | m in pool :: Some(m) == winner)
            && (o.reason.CadenceMiss? ==> (TotalRuns(aggs) + 1) % everyN != 0)
  {
    hide TotalRuns, DrawSpace, Eligible, Runs;
    EligibleIs(pool, winner);
    DrawRule(pool, winner, aggs, mode, drawn);
  }

  lemma EligibleIs(pool: seq<string>, winner: Option<string>)
    ensures Eligible(pool, winner) != {} <==> exists m | m in pool :: Some(m) != winner
    ensures forall m :: m in Eligible(pool, winner) <==> m in pool && Some(m) != winner
  {
    if m :| m in pool && Some(m) != winner {
      assert m in Eligible(pool, winner);
    }
  }

  /** A challenger is drawn from the models of the pool that are not the winner, and in
      least-sampled mode only from those with the fewest runs. */
  lemma DrawRule(pool: seq<string>, winner: Option<string>, aggs: seq<Aggregate>, mode: RotationMode, m: string)
    ensures m in DrawSpace(pool, winner, aggs, mode) <==>
            && m in pool && Some(m) != winner
            && (mode == LeastSampled && aggs != [] ==>
                  forall j | j in pool && Some(j) != winner :: Runs(aggs, m) <= Runs(aggs, j))
  {
    hide Runs;
  }

  /** A model's runs are those of its aggregate, none being counted below zero. */
  lemma {:induction false} RunsAre(aggs: seq<Aggregate>, id: string)
    requires DistinctIds(aggs)
    ensures forall a | a in aggs && a.id == id :: Runs(aggs, id) == if a.runs < 0 then 0 else a.runs
    ensures (forall a | a in aggs :: a.id != id) ==> Runs(aggs, id) == 0
    decreases aggs
  {
    if aggs != [] {
      RunsAre(aggs[1..], id);
      forall a | a in aggs && a.id == id
        ensures Runs(aggs, id) == if a.runs < 0 then 0 else a.runs
      {
        var i :| 0 <= i < |aggs| && aggs[i] == a;
      }
    }
  }

  /** The cadence counts the runs of all aggregates together. */
  lemma {:induction false} TotalRunsAre(aggs: seq<Aggregate>, more: seq<Aggregate>)
    ensures TotalRuns(aggs + more) == TotalRuns(aggs) + TotalRuns(more)
    ensures |aggs| == 1 ==> TotalRuns(aggs) == if aggs[0].runs < 0 then 0 else aggs[0].runs
    decreases aggs
  {
    if aggs == [] {
      assert aggs + more == more;
    } else {
      assert (aggs + more)[1..] == aggs[1..] + more;
      TotalRunsAre(aggs[1..], more);
    }
  }

  // ----- Whole runs of stories -----

  function AddRun(aggs: seq<Aggregate>, id: string): seq<Aggregate> {
    if aggs == [] then []
    else if aggs[0].id == id then [aggs[0].(runs := aggs[0].runs + 1)] + aggs[1..]
    else [aggs[0]] + AddRun(aggs[1..], id)
  }

  predicate Sampled(aggs: seq<Aggregate>, id: string) {
    aggs != [] && (aggs[0].id == id || Sampled(aggs[1..], id))
  }

  predicate Counted(aggs: seq<Aggregate>) {
    forall i | 0 <= i < |aggs| :: aggs[i].runs >= 0
  }

  lemma {:induction false} AddRunCounts(aggs: seq<Aggregate>, id: string, m: string)
    requires Counted(aggs) && Sampled(aggs, id)
    ensures Counted(AddRun(aggs, id)) && AddRun(aggs, id) != []
    ensures Runs(AddRun(aggs, id), m) == Runs(aggs, m) + (if m == id then 1 else 0)
    ensures TotalRuns(AddRun(aggs, id)) == TotalRuns(aggs) + 1
    ensures Sampled(aggs, m) ==> Sampled(AddRun(aggs, id), m)
    decreases aggs
  {
    var rest, after := aggs[1..], AddRun(aggs, id);
    if aggs[0].id != id {
      AddRunCounts(rest, id, m);
      assert after[1..] == AddRun(rest, id);
    } else {
      assert after[1..] == rest;
    }
  }

  /** `picks` are the models a fixed-winner run of stories selects, each adding one run. */
  ghost predicate StoryRun(pool: seq<string>, aggs: seq<Aggregate>, winner: string, everyN: nat, picks: seq<string>)
    decreases picks
  {
    picks == [] ||
    ((exists drawn :: drawn in DrawSpace(pool, Some(winner), aggs, LeastSampled)
                      && Decide(pool, aggs, Some(winner), everyN, None, LeastSampled, drawn).selected == Some(picks[0]))
     && StoryRun(pool, AddRun(aggs, picks[0]), winner, everyN, picks[1..]))
  }

  /** `eligible` lists the eligible models once each. */
  ghost predicate Lists(eligible: seq<string>, pool: seq<string>, winner: string) {
    && (forall i, j | 0 <= i < j < |eligible| :: eligible[i] != eligible[j])
    && (forall m :: m in eligible <==> m in pool && m != winner)
  }

  function Counts(aggs: seq<Aggregate>, eligible: seq<string>): seq<nat> {
    seq(|eligible|, i requires 0 <= i < |eligible| => Runs(aggs, eligible[i]))
  }

  lemma DrawsAreLeast(pool: seq<string>, aggs: seq<Aggregate>, winner: string, eligible: seq<string>, i: nat)
    requires Lists(eligible, pool, winner) && aggs != [] && i < |eligible|
    ensures eligible[i] in DrawSpace(pool, Some(winner), aggs, LeastSampled) <==>
            Rotation.Least(Counts(aggs, eligible), i)
  {
    hide Runs;
    var c, space := Counts(aggs, eligible), Eligible(pool, Some(winner));
    assert eligible[i] in eligible && eligible[i] in space;
    if eligible[i] in DrawSpace(pool, Some(winner), aggs, LeastSampled) {
      forall j | 0 <= j < |c|
        ensures c[i] <= c[j]
      {
        assert eligible[j] in eligible && eligible[j] in space;
      }
    }
    if Rotation.Least(c, i) {
      forall m | m in space
        ensures Runs(aggs, eligible[i]) <= Runs(aggs, m)
      {
        assert m in eligible;
        var j :| 0 <= j < |eligible| && eligible[j] == m;
        assert c[i] <= c[j];
      }
    }
  }

  /** Lower bound on evidence: in any such run, whatever the draws, the model `eligible[x]` is
      selected within `everyN * (Lag + 1)` stories. */
  lemma {:induction false} EveryoneGetsEvidence(
    pool: seq<string>, aggs: seq<Aggregate>, winner: string, everyN: nat, picks: seq<string>,
    eligible: seq<string>, x: nat)
    requires everyN >= 1 && Lists(eligible, pool, winner) && x < |eligible|
    requires Counted(aggs) && Sampled(aggs, winner) && forall m | m in pool :: Sampled(aggs, m)
    requires StoryRun(pool, aggs, winner, everyN, picks)
    requires |picks| > everyN * Rotation.Lag(Counts(aggs, eligible), x)
                       + Rotation.ToCadence(TotalRuns(aggs), everyN)
    ensures eligible[x] in picks
    decreases picks
  {
    var c := Counts(aggs, eligible);
    var stories := StoriesOf(pool, aggs, winner, everyN, picks, eligible);
    Rotation.StoriesReachEveryone(everyN, TotalRuns(aggs), c, x, stories);
    var i :| 0 <= i < |stories| && stories[i] == Rotation.Challenger(x);
    assert picks[i] == eligible[x];
  }

  lemma {:induction false} StoriesOf(
    pool: seq<string>, aggs: seq<Aggregate>, winner: string, everyN: nat, picks: seq<string>, eligible: seq<string>)
    returns (stories: seq<Rotation.Pick>)
    requires everyN >= 1 && Lists(eligible, pool, winner) && eligible != []
    requires Counted(aggs) && Sampled(aggs, winner) && forall m | m in pool :: Sampled(aggs, m)
    requires StoryRun(pool, aggs, winner, everyN, picks)
    ensures Rotation.Stories(everyN, TotalRuns(aggs), Counts(aggs, eligible), stories) && |stories| == |picks|
    ensures forall i | 0 <= i < |picks| :: Names(stories[i], picks[i], winner, eligible)
    decreases picks
  {
    hide DrawSpace, Decide, Sampled, Counted, Counts, Runs, TotalRuns, AddRun, Lists,
         Rotation.Least, Rotation.CadenceRun, Names;
    if picks == [] {
      stories := [];
    } else {
      var drawn :| drawn in DrawSpace(pool, Some(winner), aggs, LeastSampled)
                   && Decide(pool, aggs, Some(winner), everyN, None, LeastSampled, drawn).selected == Some(picks[0]);
      var first := OneStory(pool, aggs, winner, everyN, picks[0], drawn, eligible);
      var rest := StoriesOf(pool, AddRun(aggs, picks[0]), winner, everyN, picks[1..], eligible);
      stories := [first] + rest;
    }
  }

  /** A story of the abstract rotation and the model it stands for. */
  predicate Names(story: Rotation.Pick, pick: string, winner: string, eligible: seq<string>) {
    match story
    case Winner => pick == winner
    case Challenger(k) => k < |eligible| && pick == eligible[k]
  }

  lemma {:induction false} OneStory(
    pool: seq<string>, aggs: seq<Aggregate>, winner: string, everyN: nat, chosen: string, drawn: string,
    eligible: seq<string>)
    returns (story: Rotation.Pick)
    requires everyN >= 1 && Lists(eligible, pool, winner) && eligible != []
    requires Counted(aggs) && Sampled(aggs, winner) && forall m | m in pool :: Sampled(aggs, m)
    requires drawn in DrawSpace(pool, Some(winner), aggs, LeastSampled)
    requires Decide(pool, aggs, Some(winner), everyN, None, LeastSampled, drawn).selected == Some(chosen)
    ensures Names(story, chosen, winner, eligible)
    ensures var next := AddRun(aggs, chosen);
            && Counted(next) && Sampled(next, winner) && (forall m | m in pool :: Sampled(next, m))
            && TotalRuns(next) == TotalRuns(aggs) + 1
            && if Rotation.CadenceRun(TotalRuns(aggs), everyN)
               then story.Challenger? && Rotation.Least(Counts(aggs, eligible), story.index)
                    && Counts(next, eligible) ==
                       Counts(aggs, eligible)[story.index := Counts(aggs, eligible)[story.index] + 1]
               else story.Winner? && Counts(next, eligible) == Counts(aggs, eligible)
  {
    hide Runs, TotalRuns, AddRun, Counted, Sampled, Rotation.CadenceRun;
    var next := AddRun(aggs, chosen);
    assert eligible[0] in eligible;
    assert eligible[0] in Eligible(pool, Some(winner));
    forall m
      ensures Counted(next) && Runs(next, m) == Runs(aggs, m) + (if m == chosen then 1 else 0)
      ensures TotalRuns(next) == TotalRuns(aggs) + 1 && (Sampled(aggs, m) ==> Sampled(next, m))
    {
      AddRunCounts(aggs, chosen, m);
    }
    if Rotation.CadenceRun(TotalRuns(aggs), everyN) {
      assert drawn in eligible;
      var k :| 0 <= k < |eligible| && eligible[k] == drawn;
      SampledNonempty(aggs, winner);
      DrawsAreLeast(pool, aggs, winner, eligible, k);
      story := Rotation.Challenger(k);
    } else {
      assert winner !in eligible;
      story := Rotation.Winner;
    }
  }

  lemma SampledNonempty(aggs: seq<Aggregate>, id: string)
    requires Sampled(aggs, id)
    ensures aggs != []
  {
  }
}
