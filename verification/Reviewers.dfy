/** Reviewer selection (`_select_reviewers` and its two reranks in `assignment.py`). */
module Reviewers {
  import opened Common
  import opened Agents

  // ----- The reranks: low-scoring reviewers are sorted after the others -----

  /** A row of the rerank: 1 for a reviewer below its threshold, then the incoming position. */
  datatype Row = Row(flag: nat, index: nat, agent: Agent)

  predicate RowLess(r: Row, s: Row) {
    r.flag < s.flag || (r.flag == s.flag && r.index < s.index)
  }

  function InsertRow(r: Row, rows: seq<Row>): seq<Row> {
    if rows == [] || RowLess(r, rows[0]) then [r] + rows else [rows[0]] + InsertRow(r, rows[1..])
  }

  /** `sorted(rows, key=(flag, index))`. */
  function SortRows(rows: seq<Row>): seq<Row> {
    if rows == [] then [] else InsertRow(rows[0], SortRows(rows[1..]))
  }

  function AgentsOf(rows: seq<Row>): seq<Agent> {
    seq(|rows|, i requires 0 <= i < |rows| => rows[i].agent)
  }

  /** The reviewers outside `low` first, then those inside, each group in its old order. */
  function LowLast(candidates: seq<Agent>, low: set<string>): seq<Agent> {
    Filter(candidates, (a: Agent) => a.name !in low) + Filter(candidates, (a: Agent) => a.name in low)
  }

  predicate Clear(r: Row) { r.flag == 0 }
  predicate Flagged(r: Row) { r.flag == 1 }

  lemma {:induction false} InsertFlagged(r: Row, zeros: seq<Row>, ones: seq<Row>)
    requires Flagged(r) && (forall x | x in zeros :: Clear(x)) && forall x | x in ones :: Flagged(x) && r.index < x.index
    ensures InsertRow(r, zeros + ones) == zeros + [r] + ones
    decreases zeros
  {
    if zeros == [] {
      assert zeros + ones == ones;
      assert ones != [] ==> ones[0] in ones;
    } else {
      assert zeros[0] in zeros;
      assert (zeros + ones)[1..] == zeros[1..] + ones;
      InsertFlagged(r, zeros[1..], ones);
      assert [zeros[0]] + (zeros[1..] + [r] + ones) == zeros + [r] + ones;
    }
  }

  lemma InsertsInOrder(r: Row, zeros: seq<Row>, ones: seq<Row>)
    requires Clear(r) || Flagged(r)
    requires forall x | x in zeros :: Clear(x) && r.index < x.index
    requires forall x | x in ones :: Flagged(x) && r.index < x.index
    ensures InsertRow(r, zeros + ones) ==
            if Clear(r) then ([r] + zeros) + ones else zeros + ([r] + ones)
  {
    if Flagged(r) {
      InsertFlagged(r, zeros, ones);
      assert zeros + ([r] + ones) == zeros + [r] + ones;
    } else {
      var all := zeros + ones;
      assert all != [] ==> all[0] in zeros || all[0] in ones;
      assert ([r] + zeros) + ones == [r] + all;
    }
  }

  ghost predicate RowsInOrder(rows: seq<Row>) {
    && (forall i | 0 <= i < |rows| :: Clear(rows[i]) || Flagged(rows[i]))
    && (forall i, j | 0 <= i < j < |rows| :: rows[i].index < rows[j].index)
  }

  lemma {:induction false} SortSplits(rows: seq<Row>)
    requires RowsInOrder(rows)
    ensures SortRows(rows) == Filter(rows, Clear) + Filter(rows, Flagged)
    decreases rows
  {
    if rows != [] {
      var r, rest := rows[0], rows[1..];
      SortSplits(rest);
      var zeros, ones := Filter(rest, Clear), Filter(rest, Flagged);
      FilterMembers(rest, Clear);
      FilterMembers(rest, Flagged);
      assert forall x | x in rest :: r.index < x.index;
      InsertsInOrder(r, zeros, ones);
    }
  }

  lemma AgentsOfCons(r: Row, rows: seq<Row>)
    ensures AgentsOf([r] + rows) == [r.agent] + AgentsOf(rows)
  {
  }

  lemma {:induction false} FilteredAgents(rows: seq<Row>, candidates: seq<Agent>, low: set<string>)
    requires |rows| == |candidates|
    requires forall i | 0 <= i < |rows| ::
               rows[i].agent == candidates[i] && rows[i].flag == if candidates[i].name in low then 1 else 0
    ensures AgentsOf(Filter(rows, Clear)) == Filter(candidates, (a: Agent) => a.name !in low)
    ensures AgentsOf(Filter(rows, Flagged)) == Filter(candidates, (a: Agent) => a.name in low)
    decreases rows
  {
    if rows != [] {
      FilteredAgents(rows[1..], candidates[1..], low);
      AgentsOfCons(rows[0], Filter(rows[1..], Clear));
      AgentsOfCons(rows[0], Filter(rows[1..], Flagged));
    }
  }

  /** `_rerank_reviewers_by_completion` and `_rerank_reviewers_by_value`, with `low` the
      reviewers the rerank's signal puts below its threshold. */
  method Rerank(candidates: seq<Agent>, low: set<string>) returns (out: seq<Agent>)
    ensures out == LowLast(candidates, low)
    // flagged ones after the others, and each kind in its old order
    ensures multiset(out) == multiset(candidates)
    ensures forall i, j | 0 <= i < j < |out| && out[i].name in low :: out[j].name in low
    ensures Inside(out, low) == Inside(candidates, low) && Outside(out, low) == Outside(candidates, low)
  {
    LowLastOrder(candidates, low);
    LowLastIsPermutation(candidates, low);
    var rows: seq<Row> := [];
    for i := 0 to |candidates|
      invariant |rows| == i
      invariant forall k | 0 <= k < i :: rows[k] == Row(if candidates[k].name in low then 1 else 0, k, candidates[k])
    {
      rows := rows + [Row(if candidates[i].name in low then 1 else 0, i, candidates[i])];
    }
    SortSplits(rows);
    FilteredAgents(rows, candidates, low);
    out := AgentsOf(SortRows(rows));
  }

  /** The reviewers with a name in the set, and those without, each in order. */
  function Inside(s: seq<Agent>, names: set<string>): seq<Agent> { Filter(s, (a: Agent) => a.name in names) }
  function Outside(s: seq<Agent>, names: set<string>): seq<Agent> { Filter(s, (a: Agent) => a.name !in names) }

  lemma LowLastOrder(candidates: seq<Agent>, low: set<string>)
    ensures var out := LowLast(candidates, low);
            && (forall i, j | 0 <= i < j < |out| && out[i].name in low :: out[j].name in low)
            && Inside(out, low) == Inside(candidates, low) && Outside(out, low) == Outside(candidates, low)
  {
    hide Filter;
    var inLow, notLow := (a: Agent) => a.name in low, (a: Agent) => a.name !in low;
    var front, back := Filter(candidates, notLow), Filter(candidates, inLow);
    FilterMembers(candidates, notLow);
    FilterMembers(candidates, inLow);
    FilterConcat(front, back, inLow);
    FilterConcat(front, back, notLow);
    FilterUniform(front, inLow);
    FilterUniform(front, notLow);
    FilterUniform(back, inLow);
    FilterUniform(back, notLow);
    var out := LowLast(candidates, low);
    assert out == front + back;
    forall k | 0 <= k < |front|
      ensures front[k].name !in low
    {
      assert front[k] in front;
      assert notLow(front[k]);
    }
    forall i, j | 0 <= i < j < |out| && out[i].name in low
      ensures out[j].name in low
    {
      assert back[j - |front|] in back;
    }
  }

  /** No reviewer is lost or gained by a rerank. */
  lemma LowLastIsPermutation(candidates: seq<Agent>, low: set<string>)
    ensures multiset(LowLast(candidates, low)) == multiset(candidates)
    ensures forall a :: a in LowLast(candidates, low) <==> a in candidates
    ensures |LowLast(candidates, low)| == |candidates|
  {
    hide Filter;
    FilterPartition(candidates, (a: Agent) => a.name in low, (a: Agent) => a.name !in low);
    var out := LowLast(candidates, low);
    assert multiset(out) == multiset(candidates);
    assert |multiset(out)| == |out| && |multiset(candidates)| == |candidates|;
    forall a
      ensures a in out <==> a in candidates
    {
      assert a in out <==> a in multiset(out);
    }
  }

  /** The class of a reviewer after both reranks: value first, completion second. */
  function Class(a: Agent, lowValue: set<string>, lowCompletion: set<string>): nat {
    (if a.name in lowValue then 2 else 0) + (if a.name in lowCompletion then 1 else 0)
  }

  function OfClass(s: seq<Agent>, lowValue: set<string>, lowCompletion: set<string>, c: nat): seq<Agent> {
    Filter(s, (a: Agent) => Class(a, lowValue, lowCompletion) == c)
  }

  /** The completion rerank followed by the value rerank orders by (low value, low completion,
      original position): the four classes in turn, each in its original order. */
  lemma StackedRerankOrder(candidates: seq<Agent>, lowCompletion: set<string>, lowValue: set<string>)
    ensures LowLast(LowLast(candidates, lowCompletion), lowValue) ==
            OfClass(candidates, lowValue, lowCompletion, 0) + OfClass(candidates, lowValue, lowCompletion, 1) +
            OfClass(candidates, lowValue, lowCompletion, 2) + OfClass(candidates, lowValue, lowCompletion, 3)
  {
    hide Filter;
    var c0, c1 := (a: Agent) => a.name !in lowCompletion, (a: Agent) => a.name in lowCompletion;
    var v0, v1 := (a: Agent) => a.name !in lowValue, (a: Agent) => a.name in lowValue;
    FilterConcat(Filter(candidates, c0), Filter(candidates, c1), v0);
    FilterConcat(Filter(candidates, c0), Filter(candidates, c1), v1);
    TwoFiltersAreClass(candidates, lowValue, lowCompletion, c0, v0, 0);
    TwoFiltersAreClass(candidates, lowValue, lowCompletion, c1, v0, 1);
    TwoFiltersAreClass(candidates, lowValue, lowCompletion, c0, v1, 2);
    TwoFiltersAreClass(candidates, lowValue, lowCompletion, c1, v1, 3);
  }

  lemma TwoFiltersAreClass(s: seq<Agent>, lowValue: set<string>, lowCompletion: set<string>,
                           p: Agent -> bool, q: Agent -> bool, c: nat)
    requires forall a :: p(a) && q(a) <==> Class(a, lowValue, lowCompletion) == c
    ensures Filter(Filter(s, p), q) == OfClass(s, lowValue, lowCompletion, c)
  {
    hide Filter, Class;
    FilterTwice(s, p, q, (a: Agent) => Class(a, lowValue, lowCompletion) == c);
  }

  // ----- The candidate pool -----

  function Names(agents: seq<Agent>): set<string> { set a | a in agents :: a.name }

  /** Stronger tiers first, and inside a tier cheapest first. */
  ghost predicate LadderOrder(s: seq<Agent>) {
    forall i, j | 0 <= i < j < |s| ::
      TierRank(s[i].tier) > TierRank(s[j].tier) || (s[i].tier == s[j].tier && !Cheaper(s[j], s[i]))
  }

  predicate OnLadder(a: Agent, needAuth: bool) {
    KnownTier(a.tier) && (needAuth ==> a.authed)
  }

  ghost predicate IsLadder(out: seq<Agent>, agents: seq<Agent>, needAuth: bool) {
    && (forall a :: a in out <==> a in agents && OnLadder(a, needAuth))
    && NamesDistinct(out) && LadderOrder(out)
  }

  /** What the ladder loop has after the tiers in `above` and the first `j` of the next one. */
  ghost predicate LadderSoFar(out: seq<Agent>, agents: seq<Agent>, needAuth: bool,
                              above: set<string>, listed: seq<Agent>, j: nat)
    requires j <= |listed|
  {
    && (forall a | a in out :: a in agents && OnLadder(a, needAuth) && (a.tier in above || a in listed[..j]))
    && (forall a | a in agents && OnLadder(a, needAuth) && a.tier in above :: a in out)
    && (forall i | 0 <= i < j && OnLadder(listed[i], needAuth) :: listed[i] in out)
    && NamesDistinct(out) && LadderOrder(out)
  }

  lemma LadderStep(out: seq<Agent>, agents: seq<Agent>, needAuth: bool,
                   above: set<string>, tier: string, listed: seq<Agent>, j: nat)
    requires j < |listed| && listed == ByTier(agents, tier) && NamesDistinct(agents)
    requires tier !in above && forall t | t in above :: TierRank(t) > TierRank(tier)
    requires LadderSoFar(out, agents, needAuth, above, listed, j) && KnownTier(tier)
    ensures var a := listed[j];
            LadderSoFar(if OnLadder(a, needAuth) && a.name !in Names(out) then out + [a] else out,
                        agents, needAuth, above, listed, j + 1)
  {
    hide ByTier, LadderOrder, NamesDistinct, CostSorted, Names, OnLadder, TierRank;
    ByTierProps(agents, tier);
    var a := listed[j];
    assert a in listed && listed[..j + 1] == listed[..j] + [a];
    if OnLadder(a, needAuth) {
      if a.name !in Names(out) {
        AppendKeepsOrder(out, above, tier, listed, j);
      } else {
        NamedIn(out, a.name);
        var b :| b in out && b.name == a.name;
        SameNameSameAgent(agents, a, b);
      }
    }
  }

  lemma NamedIn(out: seq<Agent>, name: string)
    requires name in Names(out)
    ensures exists b :: b in out && b.name == name
  {
  }

  lemma AppendKeepsOrder(out: seq<Agent>, above: set<string>, tier: string, listed: seq<Agent>, j: nat)
    requires j < |listed| && CostSorted(listed) && (forall a | a in listed :: a.tier == tier)
    requires forall t | t in above :: TierRank(t) > TierRank(tier)
    requires forall a | a in out :: a.tier in above || a in listed[..j]
    requires NamesDistinct(out) && LadderOrder(out) && listed[j].name !in Names(out)
    ensures NamesDistinct(out + [listed[j]]) && LadderOrder(out + [listed[j]])
  {
    hide TierRank, Cheaper;
    var a := listed[j];
    assert a in listed;
    forall i | 0 <= i < |out|
      ensures out[i].name != a.name
      ensures TierRank(out[i].tier) > TierRank(a.tier) || (out[i].tier == a.tier && !Cheaper(a, out[i]))
    {
      assert out[i] in out && out[i].name in Names(out);
      if out[i].tier !in above {
        var k :| 0 <= k < j && listed[k] == out[i];
        assert listed[k] in listed && !Cheaper(listed[j], listed[k]);
      }
    }
  }

  /** The descending-tier listing, of ready agents or of all. */
  method BuildLadder(agents: seq<Agent>, needAuth: bool) returns (out: seq<Agent>)
    requires NamesDistinct(agents)
    ensures IsLadder(out, agents, needAuth)
  {
    out := [];
    var tiers := ["strong", "mid", "cheap"];
    for t := 0 to 3
      invariant LadderSoFar(out, agents, needAuth, TiersAbove(t), [], 0)
    {
      out := AddTier(agents, needAuth, out, TiersAbove(t), tiers[t]);
    }
  }

  ghost function TiersAbove(t: nat): set<string> {
    if t == 0 then {} else if t == 1 then {"strong"} else if t == 2 then {"strong", "mid"} else {"strong", "mid", "cheap"}
  }

  method AddTier(agents: seq<Agent>, needAuth: bool, start: seq<Agent>, ghost above: set<string>, tier: string)
    returns (out: seq<Agent>)
    requires NamesDistinct(agents) && KnownTier(tier)
    requires tier !in above && forall t | t in above :: TierRank(t) > TierRank(tier)
    requires LadderSoFar(start, agents, needAuth, above, [], 0)
    ensures LadderSoFar(out, agents, needAuth, above + {tier}, [], 0)
  {
    hide LadderSoFar, ByTier;
    out := start;
    var listed := ByTier(agents, tier);
    StartTier(out, agents, needAuth, above, listed);
    for j := 0 to |listed|
      invariant LadderSoFar(out, agents, needAuth, above, listed, j)
    {
      LadderStep(out, agents, needAuth, above, tier, listed, j);
      if OnLadder(listed[j], needAuth) && listed[j].name !in Names(out) {
        out := out + [listed[j]];
      }
    }
    FinishTier(out, agents, needAuth, above, tier, listed);
  }

  lemma StartTier(out: seq<Agent>, agents: seq<Agent>, needAuth: bool, above: set<string>, listed: seq<Agent>)
    requires LadderSoFar(out, agents, needAuth, above, [], 0)
    ensures LadderSoFar(out, agents, needAuth, above, listed, 0)
  {
  }

  lemma FinishTier(out: seq<Agent>, agents: seq<Agent>, needAuth: bool, above: set<string>, tier: string, listed: seq<Agent>)
    requires listed == ByTier(agents, tier)
    requires LadderSoFar(out, agents, needAuth, above, listed, |listed|)
    ensures LadderSoFar(out, agents, needAuth, above + {tier}, [], 0)
  {
    hide ByTier, LadderOrder, NamesDistinct;
    ByTierProps(agents, tier);
    assert listed[..|listed|] == listed;
    forall a | a in agents && OnLadder(a, needAuth) && a.tier in above + {tier}
      ensures a in out
    {
      if a.tier !in above {
        assert a in listed;
        var i :| 0 <= i < |listed| && listed[i] == a;
      }
    }
  }

  ghost predicate PoolOf(pool: seq<Agent>, agents: seq<Agent>) {
    NamesDistinct(pool) && forall a | a in pool :: a in agents
  }

  /** Ready agents on the ladder, or all agents on it when none is ready. */
  ghost predicate Seeded(pool: seq<Agent>, agents: seq<Agent>) {
    if exists a :: a in agents && OnLadder(a, true) then IsLadder(pool, agents, true) else IsLadder(pool, agents, false)
  }

  method SeedPool(agents: seq<Agent>) returns (pool: seq<Agent>)
    requires NamesDistinct(agents)
    ensures Seeded(pool, agents)
  {
    pool := BuildLadder(agents, true);
    if pool == [] {
      pool := BuildLadder(agents, false);
    } else {
      assert pool[0] in pool;
    }
  }

  /** The agents of a list that run another model, and those of them that are ready. */
  function OtherModel(s: seq<Agent>, model: string): seq<Agent> { Filter(s, (a: Agent) => a.model != model) }

  function ReadyOtherModel(s: seq<Agent>, model: string): seq<Agent> {
    Filter(s, (a: Agent) => a.authed && a.model != model)
  }

  /** The candidates once the reviewed model is excluded: the others on the list, else any ready
      agent of the role with another model, else any such agent, else the list itself. */
  function WithoutModel(seed: seq<Agent>, agents: seq<Agent>, model: string): seq<Agent> {
    if OtherModel(seed, model) != [] then OtherModel(seed, model)
    else if ReadyOtherModel(agents, model) != [] then ReadyOtherModel(agents, model)
    else if OtherModel(agents, model) != [] then OtherModel(agents, model)
    else seed
  }

  lemma OtherModelMembers(s: seq<Agent>, model: string, agents: seq<Agent>)
    requires PoolOf(s, agents)
    ensures PoolOf(OtherModel(s, model), agents) && PoolOf(ReadyOtherModel(s, model), agents)
    ensures forall a :: a in OtherModel(s, model) <==> a in s && a.model != model
    ensures forall a :: a in ReadyOtherModel(s, model) <==> a in s && a.authed && a.model != model
  {
    FilterMembers(s, (a: Agent) => a.model != model);
    FilterMembers(s, (a: Agent) => a.authed && a.model != model);
    FilterNamesDistinct(s, (a: Agent) => a.model != model);
    FilterNamesDistinct(s, (a: Agent) => a.authed && a.model != model);
  }

  /** Self-review is excluded while any other model exists anywhere in the role's pool. */
  method ExcludeModel(seed: seq<Agent>, agents: seq<Agent>, model: string) returns (pool: seq<Agent>)
    requires NamesDistinct(agents) && PoolOf(seed, agents)
    ensures pool == WithoutModel(seed, agents, model)
    ensures PoolOf(pool, agents) && (seed != [] ==> pool != [])
    ensures (exists a :: a in agents && a.model != model) ==> forall a | a in pool :: a.model != model
    ensures (forall a | a in agents :: a.model == model) ==> pool == seed
    ensures (exists a :: a in seed && a.model != model) ==>
              forall a :: a in pool <==> a in seed && a.model != model
    ensures (forall a | a in seed :: a.model == model) && (exists a :: a in agents && a.authed && a.model != model) ==>
              forall a :: a in pool <==> a in agents && a.authed && a.model != model
    ensures (forall a | a in seed :: a.model == model) && (forall a | a in agents && a.authed :: a.model == model)
              && (exists a :: a in agents && a.model != model) ==>
              forall a :: a in pool <==> a in agents && a.model != model
  {
    hide OtherModel, ReadyOtherModel;
    HasMember(OtherModel(seed, model));
    HasMember(ReadyOtherModel(agents, model));
    HasMember(OtherModel(agents, model));
    OtherModelMembers(seed, model, agents);
    OtherModelMembers(agents, model, agents);
    var preferred := OtherModel(seed, model);
    if preferred == [] {
      preferred := ReadyOtherModel(agents, model);
    }
    if preferred == [] {
      preferred := OtherModel(agents, model);
    }
    if preferred != [] {
      pool := preferred;
      assert preferred[0] in preferred;
    } else {
      pool := seed;
    }
  }

  /** The healthy candidates, or all of them when none is healthy. */
  function HealthyOf(before: seq<Agent>, unhealthy: set<string>): seq<Agent> {
    var healthy := Filter(before, (a: Agent) => a.name !in unhealthy);
    if healthy != [] then healthy else before
  }

  /** A recently failing agent is kept only when nothing healthy is left. */
  method DropUnhealthy(before: seq<Agent>, ghost agents: seq<Agent>, unhealthy: set<string>) returns (pool: seq<Agent>)
    requires PoolOf(before, agents)
    ensures pool == HealthyOf(before, unhealthy)
    ensures PoolOf(pool, agents) && (before != [] ==> pool != [])
    ensures forall a :: a in pool <==>
              a in before && (a.name !in unhealthy || forall b | b in before :: b.name in unhealthy)
  {
    var healthy := Filter(before, (a: Agent) => a.name !in unhealthy);
    FilterMembers(before, (a: Agent) => a.name !in unhealthy);
    FilterNamesDistinct(before, (a: Agent) => a.name !in unhealthy);
    if healthy != [] {
      assert healthy[0] in healthy;
      pool := healthy;
    } else {
      pool := before;
      forall b | b in before
        ensures b.name in unhealthy
      {
        assert b !in healthy;
      }
    }
  }

  // ----- The greedy choice -----

  function ProvidersOf(s: seq<Agent>): set<Option<string>> { set a | a in s :: a.provider }

  function Min(a: nat, b: nat): nat { if a < b then a else b }

  ghost function ElementsOf(s: seq<Agent>): set<Agent> { set a | a in s }

  lemma DistinctAgents(s: seq<Agent>)
    requires NamesDistinct(s)
    ensures |ElementsOf(s)| == |s|
  {
    assert Distinct(s) by {
      forall i, j | 0 <= i < j < |s|
        ensures s[i] != s[j]
      {
        assert s[i].name != s[j].name;
      }
    }
    DistinctCard(s);
    assert ElementsOf(s) == set x | x in s;
  }

  lemma ProvidersGrow(s: seq<Agent>, a: Agent)
    ensures ProvidersOf(s + [a]) == ProvidersOf(s) + {a.provider}
  {
    assert a in s + [a];
    assert forall x :: x in s + [a] <==> x in s || x == a;
  }

  lemma ProvidersMonotone(s: seq<Agent>, t: seq<Agent>)
    requires forall a | a in s :: a in t
    ensures ProvidersOf(s) <= ProvidersOf(t) && |ProvidersOf(s)| <= |ProvidersOf(t)|
  {
    SubsetCard(ProvidersOf(s), ProvidersOf(t));
  }

  lemma SubsetCard<T>(a: set<T>, b: set<T>)
    requires a <= b
    ensures |a| <= |b|
  {
    assert b == a + (b - a);
  }

  /** The candidates that are the first of their provider, in order. */
  function Firsts(s: seq<Agent>): seq<Agent> {
    if s == [] then []
    else
      var rest, a := s[..|s| - 1], s[|s| - 1];
      Firsts(rest) + if a.provider in ProvidersOf(rest) then [] else [a]
  }

  /** The other candidates, in order. */
  function Seconds(s: seq<Agent>): seq<Agent> {
    if s == [] then []
    else
      var rest, a := s[..|s| - 1], s[|s| - 1];
      Seconds(rest) + if a.provider in ProvidersOf(rest) then [a] else []
  }

  /** The order the greedy choice takes candidates in. */
  function ProvidersFirst(s: seq<Agent>): seq<Agent> { Firsts(s) + Seconds(s) }

  lemma {:induction false} SplitMembers(s: seq<Agent>)
    ensures forall a :: a in s <==> a in Firsts(s) || a in Seconds(s)
    ensures |Firsts(s)| + |Seconds(s)| == |s|
    decreases s
  {
    hide ProvidersOf;
    if s != [] {
      var rest, a := s[..|s| - 1], s[|s| - 1];
      SplitMembers(rest);
      assert s == rest + [a];
    }
  }

  lemma {:induction false} SplitGrows(s: seq<Agent>, i: nat)
    requires i <= |s|
    ensures Firsts(s[..i]) <= Firsts(s) && Seconds(s[..i]) <= Seconds(s)
    decreases s
  {
    hide ProvidersOf;
    if i == |s| {
      assert s[..i] == s;
    } else {
      var rest := s[..|s| - 1];
      SplitGrows(rest, i);
      assert rest[..i] == s[..i];
    }
  }

  lemma SplitStep(s: seq<Agent>, i: nat)
    requires i < |s|
    ensures Firsts(s[..i + 1]) == Firsts(s[..i]) + if s[i].provider in ProvidersOf(s[..i]) then [] else [s[i]]
    ensures Seconds(s[..i + 1]) == Seconds(s[..i]) + if s[i].provider in ProvidersOf(s[..i]) then [s[i]] else []
  {
    hide ProvidersOf;
    assert s[..i + 1][..i] == s[..i];
  }

  lemma {:induction false} FirstsLackSecond(s: seq<Agent>, i: nat)
    requires NamesDistinct(s) && i < |s|
    ensures s[i] in Firsts(s) <==> s[i].provider !in ProvidersOf(s[..i])
    decreases s
  {
    hide ProvidersOf;
    var rest, a := s[..|s| - 1], s[|s| - 1];
    if i < |rest| {
      FirstsLackSecond(rest, i);
      assert rest[..i] == s[..i] && rest[i].name != a.name;
    } else {
      SplitMembers(rest);
      assert forall k | 0 <= k < |rest| :: rest[k] != a;
    }
  }

  /** First pass: one candidate per provider not used yet, in order, up to `n`. */
  method PickProviders(candidates: seq<Agent>, n: nat) returns (selected: seq<Agent>)
    requires NamesDistinct(candidates)
    ensures selected <= Firsts(candidates) && |selected| == Min(n, |Firsts(candidates)|)
    ensures NamesDistinct(selected) && forall a | a in selected :: a in candidates
    ensures |selected| <= n && |ProvidersOf(selected)| == |selected|
    ensures |selected| == n || ProvidersOf(selected) == ProvidersOf(candidates)
  {
    hide ProvidersOf, NamesDistinct, Firsts;
    selected := [];
    var used: set<Option<string>> := {};
    NobodyPicked();
    assert candidates[..0] == [];
    var i := 0;
    while i < |candidates| && |selected| < n
      invariant 0 <= i <= |candidates| && |selected| <= n
      invariant selected == Firsts(candidates[..i])
      invariant NamesDistinct(selected) && forall a | a in selected :: a in candidates[..i]
      invariant used == ProvidersOf(selected) && |used| == |selected|
      invariant used == ProvidersOf(candidates[..i])
    {
      var a := candidates[i];
      assert candidates[..i + 1] == candidates[..i] + [a];
      ProvidersGrow(candidates[..i], a);
      SplitStep(candidates, i);
      if a.provider !in used {
        ProvidersGrow(selected, a);
        FreshProvider(selected, a);
        AppendFresh(selected, candidates, i);
        selected := selected + [a];
        used := used + {a.provider};
      }
      i := i + 1;
    }
    SplitGrows(candidates, i);
    assert i == |candidates| ==> candidates[..i] == candidates;
  }

  lemma NobodyPicked()
    ensures ProvidersOf([]) == {} && NamesDistinct([]) && Firsts([]) == [] && Seconds([]) == []
  {
  }

  lemma FreshProvider(s: seq<Agent>, a: Agent)
    requires a.provider !in ProvidersOf(s)
    ensures a !in s
  {
  }

  lemma AppendFresh(selected: seq<Agent>, candidates: seq<Agent>, i: nat)
    requires i < |candidates| && NamesDistinct(candidates) && NamesDistinct(selected)
    requires candidates[i] !in selected && forall a | a in selected :: a in candidates
    ensures NamesDistinct(selected + [candidates[i]])
  {
    forall k | 0 <= k < |selected|
      ensures selected[k].name != candidates[i].name
    {
      assert selected[k] in selected;
      var j :| 0 <= j < |candidates| && candidates[j] == selected[k];
      assert j != i;
    }
  }

  /** Second pass: fill the remaining seats with anyone not seated yet, in order. */
  method FillSeats(candidates: seq<Agent>, start: seq<Agent>, n: nat) returns (selected: seq<Agent>)
    requires NamesDistinct(candidates) && NamesDistinct(start) && |start| <= n
    requires forall a | a in start :: a in candidates
    ensures NamesDistinct(selected) && start <= selected && forall a | a in selected :: a in candidates
    ensures |selected| == Min(n, |candidates|)
    ensures start == Firsts(candidates) ==> selected <= start + Seconds(candidates)
  {
    hide Firsts, Seconds, NamesDistinct, ProvidersOf;
    selected := start;
    var i := 0;
    NobodyPicked();
    assert candidates[..0] == [];
    while i < |candidates| && |selected| < n
      invariant 0 <= i <= |candidates| && |selected| <= n
      invariant NamesDistinct(selected) && start <= selected && forall a | a in selected :: a in candidates
      invariant forall k | 0 <= k < i :: candidates[k] in selected
      invariant start == Firsts(candidates) ==> selected == start + Seconds(candidates[..i])
    {
      SplitStep(candidates, i);
      SeatedIffFirst(candidates, i);
      if candidates[i] !in selected {
        AppendFresh(selected, candidates, i);
        selected := selected + [candidates[i]];
      }
      i := i + 1;
    }
    SplitGrows(candidates, i);
    SeatCount(candidates, selected, i, n);
  }

  lemma SeatedIffFirst(candidates: seq<Agent>, i: nat)
    requires NamesDistinct(candidates) && i < |candidates|
    ensures candidates[i] in Firsts(candidates) + Seconds(candidates[..i]) <==>
            candidates[i].provider !in ProvidersOf(candidates[..i])
  {
    hide Firsts, Seconds, ProvidersOf;
    FirstsLackSecond(candidates, i);
    SplitMembers(candidates[..i]);
    assert forall k | 0 <= k < i :: candidates[k] != candidates[i];
  }

  lemma SeatCount(candidates: seq<Agent>, selected: seq<Agent>, i: nat, n: nat)
    requires NamesDistinct(candidates) && NamesDistinct(selected) && (forall a | a in selected :: a in candidates)
    requires i <= |candidates| && |selected| <= n && (i == |candidates| || |selected| >= n)
    requires forall k | 0 <= k < i :: candidates[k] in selected
    ensures |selected| == Min(n, |candidates|)
  {
    DistinctAgents(selected);
    DistinctAgents(candidates);
    SubsetCard(ElementsOf(selected), ElementsOf(candidates));
    if i == |candidates| {
      assert ElementsOf(candidates) <= ElementsOf(selected);
      SubsetCard(ElementsOf(candidates), ElementsOf(selected));
    }
  }

  /** The two passes seat the first of every provider in order, then the others in order, and so
      reach the most distinct providers any panel of this size can have. */
  method PickDiverse(candidates: seq<Agent>, n: nat) returns (selected: seq<Agent>)
    requires NamesDistinct(candidates)
    ensures selected <= ProvidersFirst(candidates) && |selected| == Min(n, |candidates|)
    ensures NamesDistinct(selected) && forall a | a in selected :: a in candidates
    ensures |ProvidersOf(selected)| == Min(n, |ProvidersOf(candidates)|)
  {
    hide Firsts, Seconds, ProvidersOf, NamesDistinct;
    var first := PickProviders(candidates, n);
    selected := FillSeats(candidates, first, n);
    SplitMembers(candidates);
    ProvidersMonotone(first, selected);
    ProvidersMonotone(first, candidates);
    ProvidersMonotone(selected, candidates);
    ProvidersAtMost(selected);
  }

  /** Where the greedy order puts candidate `i`. */
  function SeatingIndex(s: seq<Agent>, i: nat): nat
    requires i < |s|
  {
    if s[i].provider in ProvidersOf(s[..i]) then |Firsts(s)| + |Seconds(s[..i])| else |Firsts(s[..i])|
  }

  lemma SeatingIndexHolds(s: seq<Agent>, i: nat)
    requires i < |s|
    ensures SeatingIndex(s, i) < |s| && |ProvidersFirst(s)| == |s| && ProvidersFirst(s)[SeatingIndex(s, i)] == s[i]
    ensures s[i].provider !in ProvidersOf(s[..i]) ==> SeatingIndex(s, i) < |Firsts(s)|
  {
    hide Firsts, Seconds, ProvidersOf;
    SplitMembers(s);
    SplitStep(s, i);
    SplitGrows(s, i + 1);
  }

  /** Candidates on the same side of the split keep their order, and every first comes before
      every second. */
  lemma SeatingKeepsOrder(s: seq<Agent>, i: nat, j: nat)
    requires i < j < |s|
    requires s[i].provider in ProvidersOf(s[..i]) ==> s[j].provider in ProvidersOf(s[..j])
    ensures SeatingIndex(s, i) < SeatingIndex(s, j)
  {
    hide Firsts, Seconds, ProvidersOf;
    SeatingIndexHolds(s, i);
    SplitStep(s, i);
    SplitGrows(s[..j], i + 1);
    assert s[..j][..i + 1] == s[..i + 1];
  }

  lemma {:induction false} SplitContents(s: seq<Agent>)
    ensures multiset(Firsts(s)) + multiset(Seconds(s)) == multiset(s)
    decreases s
  {
    hide ProvidersOf;
    if s != [] {
      var rest, a := s[..|s| - 1], s[|s| - 1];
      SplitContents(rest);
      assert s == rest + [a];
    }
  }

  lemma SeatingIsDistinct(s: seq<Agent>)
    requires NamesDistinct(s)
    ensures NamesDistinct(ProvidersFirst(s))
  {
    hide Firsts, Seconds, NamesDistinct;
    SplitContents(s);
    PermutationNamesDistinct(s, ProvidersFirst(s));
  }

  /** Whoever ranks first is seated; and a candidate is passed over for a later one only when the
      later one is the first of its provider and it is not. */
  lemma GreedyRespectsRank(candidates: seq<Agent>, selected: seq<Agent>, i: nat, j: nat)
    requires NamesDistinct(candidates) && selected <= ProvidersFirst(candidates)
    ensures candidates != [] && selected != [] ==> selected[0] == candidates[0]
    ensures i < j < |candidates| && candidates[i] !in selected && candidates[j] in selected ==>
              && candidates[j].provider !in ProvidersOf(candidates[..j])
              && candidates[i].provider in ProvidersOf(candidates[..i])
  {
    hide Firsts, Seconds, ProvidersOf, ProvidersFirst, SeatingIndex;
    if candidates != [] && selected != [] {
      TopIsFirst(candidates);
    }
    if i < j < |candidates| && candidates[i] !in selected && candidates[j] in selected {
      SeatingIndexHolds(candidates, i);
      SeatingIndexHolds(candidates, j);
      SeatingIsDistinct(candidates);
      var q :| 0 <= q < |selected| && selected[q] == candidates[j];
      assert q == SeatingIndex(candidates, j);
      if candidates[i].provider in ProvidersOf(candidates[..i]) ==> candidates[j].provider in ProvidersOf(candidates[..j]) {
        SeatingKeepsOrder(candidates, i, j);
      }
    }
  }

  lemma TopIsFirst(s: seq<Agent>)
    requires s != []
    ensures |ProvidersFirst(s)| > 0 && ProvidersFirst(s)[0] == s[0]
  {
    hide Firsts, Seconds;
    NobodyPicked();
    assert s[..0] == [];
    SeatingIndexHolds(s, 0);
  }

  lemma {:induction false} ProvidersAtMost(s: seq<Agent>)
    ensures |ProvidersOf(s)| <= |s|
    decreases s
  {
    if s != [] {
      var rest := s[..|s| - 1];
      ProvidersAtMost(rest);
      ProvidersGrow(rest, s[|s| - 1]);
      assert s == rest + [s[|s| - 1]];
    }
  }

  /** No panel of `n` agents from the pool has more distinct providers than the greedy one. */
  lemma GreedyIsOptimal(candidates: seq<Agent>, n: nat, panel: seq<Agent>)
    requires |panel| <= n && forall a | a in panel :: a in candidates
    ensures |ProvidersOf(panel)| <= Min(n, |ProvidersOf(candidates)|)
  {
    ProvidersMonotone(panel, candidates);
    ProvidersAtMost(panel);
  }

  // ----- The whole selection -----

  /** The order the panel is taken in: completion rerank, then value rerank. */
  function Ranked(pool: seq<Agent>, lowCompletion: set<string>, lowValue: set<string>): seq<Agent> {
    LowLast(LowLast(pool, lowCompletion), lowValue)
  }

  /** The candidates ahead of the health filter; an empty ladder ends the selection at once. */
  function BeforeHealth(seed: seq<Agent>, agents: seq<Agent>, exclude: Option<string>): seq<Agent> {
    if seed == [] || exclude.None? then seed else WithoutModel(seed, agents, exclude.value)
  }

  /** The code's candidate list: the ladder without the reviewed model and the unhealthy. */
  ghost predicate CandidateList(pool: seq<Agent>, agents: seq<Agent>, exclude: Option<string>, unhealthy: set<string>) {
    exists seed :: Seeded(seed, agents) && pool == HealthyOf(BeforeHealth(seed, agents, exclude), unhealthy)
  }

  /** What the selection promises of a panel, seen from outside: it fills its seats from the
      candidate list, in the reranked order or over the most providers, without self-review. */
  ghost predicate GoodPanel(selected: seq<Agent>, agents: seq<Agent>, n: nat, crossProvider: bool, exclude: Option<string>,
                            unhealthy: set<string>, lowCompletion: set<string>, lowValue: set<string>)
  {
    && NamesDistinct(selected)
    && (exists pool :: CandidateList(pool, agents, exclude, unhealthy)
          && FillsFrom(selected, pool, n, crossProvider, lowCompletion, lowValue))
    && (exclude.Some? && (exists a :: a in agents && a.model != exclude.value) ==>
          forall a | a in selected :: a.model != exclude.value)
  }

  ghost predicate FillsFrom(selected: seq<Agent>, pool: seq<Agent>, n: nat, crossProvider: bool,
                            lowCompletion: set<string>, lowValue: set<string>)
  {
    && |selected| == Min(n, |pool|) && (forall a | a in selected :: a in pool)
    && (!crossProvider ==> selected <= Ranked(pool, lowCompletion, lowValue))
    && (crossProvider ==> selected <= ProvidersFirst(Ranked(pool, lowCompletion, lowValue)))
    && (crossProvider ==> |ProvidersOf(selected)| == Min(n, |ProvidersOf(pool)|))
  }

  /** `_select_reviewers`. `lowCompletion` and `lowValue` are the reviewers their signals put
      below threshold; `seed` is the tier ladder, `before` and `pool` the candidates ahead of
      and after the health filter. */
  method SelectReviewers(agents: seq<Agent>, n: nat, crossProvider: bool, exclude: Option<string>,
                         unhealthy: set<string>, lowCompletion: set<string>, lowValue: set<string>)
    returns (selected: seq<Agent>, ghost pool: seq<Agent>, ghost before: seq<Agent>, ghost seed: seq<Agent>)
    requires NamesDistinct(agents)
    // the pool is the code's own candidate list
    ensures Seeded(seed, agents) && before == BeforeHealth(seed, agents, exclude)
    ensures pool == HealthyOf(before, unhealthy)
    ensures pool == [] <==> forall a | a in agents :: !KnownTier(a.tier)
    // the panel: distinct agents of the pool, as many as asked for or as there are
    ensures NamesDistinct(selected) && |selected| == Min(n, |pool|)
    ensures forall a | a in selected :: a in pool && a in agents
    ensures !crossProvider ==> selected <= Ranked(pool, lowCompletion, lowValue)
    ensures crossProvider ==> selected <= ProvidersFirst(Ranked(pool, lowCompletion, lowValue))
    ensures crossProvider ==> |ProvidersOf(selected)| == Min(n, |ProvidersOf(pool)|)
    // self-review and recently failing models only as a last resort
    ensures exclude.Some? && (exists a :: a in agents && a.model != exclude.value) ==>
              forall a | a in selected :: a.model != exclude.value
    ensures (exists b :: b in before && b.name !in unhealthy) ==> forall a | a in selected :: a.name !in unhealthy
    ensures GoodPanel(selected, agents, n, crossProvider, exclude, unhealthy, lowCompletion, lowValue)
  {
    hide WithoutModel, LowLast, ProvidersFirst;
    var candidates := SeedPool(agents);
    seed := candidates;
    if candidates == [] {
      selected, pool, before := [], [], [];
      NobodyPicked();
      EmptyLadder(agents);
      assert CandidateList(pool, agents, exclude, unhealthy);
      assert FillsFrom(selected, pool, n, crossProvider, lowCompletion, lowValue);
      return;
    }
    assert candidates[0] in candidates && candidates[0] in agents && KnownTier(candidates[0].tier);
    if exclude.Some? {
      candidates := ExcludeModel(candidates, agents, exclude.value);
    }
    before := candidates;
    candidates := DropUnhealthy(candidates, agents, unhealthy);
    pool := candidates;
    selected := SeatFrom(candidates, n, crossProvider, lowCompletion, lowValue);
    assert CandidateList(pool, agents, exclude, unhealthy);
  }

  /** The end of the selection: both reranks, then the first seats or the greedy choice. */
  method SeatFrom(pool: seq<Agent>, n: nat, crossProvider: bool,
                  lowCompletion: set<string>, lowValue: set<string>) returns (selected: seq<Agent>)
    requires NamesDistinct(pool)
    ensures NamesDistinct(selected) && FillsFrom(selected, pool, n, crossProvider, lowCompletion, lowValue)
  {
    hide LowLast, ProvidersFirst, ProvidersOf;
    var candidates := Rerank(pool, lowCompletion);
    candidates := Rerank(candidates, lowValue);
    ReranksKeepPool(pool, lowCompletion, lowValue);
    SameProviders(candidates, pool);
    if crossProvider {
      selected := PickDiverse(candidates, n);
    } else {
      selected := candidates[..Min(n, |candidates|)];
      assert forall a | a in selected :: a in candidates;
    }
  }

  lemma EmptyLadder(agents: seq<Agent>)
    requires Seeded([], agents)
    ensures forall a | a in agents :: !KnownTier(a.tier)
  {
    forall a | a in agents
      ensures !KnownTier(a.tier)
    {
      assert OnLadder(a, false) ==> a in [];
      assert OnLadder(a, true) ==> a in [];
    }
  }

  lemma SameProviders(s: seq<Agent>, t: seq<Agent>)
    requires forall a :: a in s <==> a in t
    ensures ProvidersOf(s) == ProvidersOf(t)
  {
  }

  lemma ReranksKeepPool(pool: seq<Agent>, lowCompletion: set<string>, lowValue: set<string>)
    requires NamesDistinct(pool)
    ensures var ranked := Ranked(pool, lowCompletion, lowValue);
            && NamesDistinct(ranked) && |ranked| == |pool| && forall a :: a in ranked <==> a in pool
  {
    hide LowLast;
    LowLastIsPermutation(pool, lowCompletion);
    LowLastIsPermutation(LowLast(pool, lowCompletion), lowValue);
    PermutationNamesDistinct(pool, LowLast(LowLast(pool, lowCompletion), lowValue));
  }

  lemma PermutationNamesDistinct(s: seq<Agent>, t: seq<Agent>)
    requires NamesDistinct(s) && multiset(s) == multiset(t)
    ensures NamesDistinct(t)
  {
    forall i, j | 0 <= i < j < |t|
      ensures t[i].name != t[j].name
    {
      if t[i].name == t[j].name {
        assert t[i] in multiset(t) && t[j] in multiset(t);
        SameNameSameAgent(s, t[i], t[j]);
        assert t == t[..j] + [t[j]] + t[j + 1..];
        assert t[i] in t[..j];
        assert multiset(t)[t[i]] >= 2;
        OncePerName(s, t[i]);
      }
    }
  }

  lemma {:induction false} OncePerName(s: seq<Agent>, a: Agent)
    requires NamesDistinct(s)
    ensures multiset(s)[a] <= 1
    decreases s
  {
    if s != [] {
      OncePerName(s[1..], a);
      assert s == [s[0]] + s[1..];
      if s[0] == a {
        assert a !in s[1..];
      }
    }
  }
}
