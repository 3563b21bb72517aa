/** The dev seat's exploration override (`_apply_dev_exploration` in `assignment.py`): when the
    routed dev model may differ from the declared-tier pick. */
module DevExploration {
  import opened Common
  import opened Agents
  import opened Exploration

  datatype Config = Config(everyN: int, minSample: int, reliabilityFloor: real, sprintCap: int, rotation: RotationMode)

  /** Every ready agent, with the incumbent put first when it is not ready itself. */
  function Candidates(agents: seq<Agent>, incumbent: Agent): seq<Agent> {
    var ready := Filter(agents, (a: Agent) => a.authed);
    if incumbent in ready then ready else [incumbent] + ready
  }

  /** The aggregate derived for a candidate; no history gives an empty one. */
  function EvidenceFor(evidence: map<string, Aggregate>, name: string): (g: Aggregate)
    ensures g.id == name
  {
    if name in evidence then evidence[name].(id := name) else Aggregate(name, 0, None, None, None, None, 0)
  }

  function Aggregates(candidates: seq<Agent>, evidence: map<string, Aggregate>): seq<Aggregate> {
    seq(|candidates|, i requires 0 <= i < |candidates| => EvidenceFor(evidence, candidates[i].name))
  }

  function NameList(candidates: seq<Agent>): seq<string> {
    seq(|candidates|, i requires 0 <= i < |candidates| => candidates[i].name)
  }

  predicate WithinOneTier(a: Agent, declared: string) {
    KnownTier(a.tier) && -1 <= TierRank(a.tier) as int - TierRank(declared) as int <= 1
  }

  /** The names whose evidence may make them the exploitation winner. */
  function ExploitNames(candidates: seq<Agent>, declared: string): set<string> {
    set a | a in candidates && WithinOneTier(a, declared) :: a.name
  }

  function FirstNamed(candidates: seq<Agent>, name: string): Option<Agent> {
    if candidates == [] then None
    else if candidates[0].name == name then Some(candidates[0])
    else FirstNamed(candidates[1..], name)
  }

  lemma {:induction false} FirstNamedProps(candidates: seq<Agent>, name: string)
    ensures var r := FirstNamed(candidates, name);
            && (r.Some? ==> r.value in candidates && r.value.name == name)
            && (r.None? ==> forall a | a in candidates :: a.name != name)
    decreases candidates
  {
    if candidates != [] {
      FirstNamedProps(candidates[1..], name);
    }
  }

  /** The incumbent has the runs and the measured cost to be compared against. */
  predicate Comparable(evidence: map<string, Aggregate>, incumbent: Agent, minSample: int) {
    var g := EvidenceFor(evidence, incumbent.name);
    g.MeetsFloor(minSample) && g.CostMeasured()
  }

  function WinnerAggregates(candidates: seq<Agent>, evidence: map<string, Aggregate>, declared: string): seq<Aggregate> {
    var names := ExploitNames(candidates, declared);
    Filter(Aggregates(candidates, evidence), (g: Aggregate) => g.id in names)
  }

  /** The evidence winner, dropped when it sits on another tier than an incumbent that cannot
      be compared. */
  function EmpiricalWinner(candidates: seq<Agent>, incumbent: Agent, declared: string,
                           evidence: map<string, Aggregate>, cfg: Config): Option<string>
  {
    var winner := SelectWinner(WinnerAggregates(candidates, evidence, declared), cfg.minSample, cfg.reliabilityFloor).winner;
    if winner.Some? && winner.value != incumbent.name then
      var agent := FirstNamed(candidates, winner.value);
      if agent.Some? && agent.value.tier != incumbent.tier && !Comparable(evidence, incumbent, cfg.minSample)
      then None else winner
    else winner
  }

  function DecisionFor(candidates: seq<Agent>, incumbent: Agent, declared: string, evidence: map<string, Aggregate>,
                       cfg: Config, budget: int, drawn: string): Outcome
  {
    Decide(NameList(candidates), Aggregates(candidates, evidence),
           EmpiricalWinner(candidates, incumbent, declared, evidence, cfg), cfg.everyN, Some(budget), cfg.rotation, drawn)
  }

  /** The agent routed instead of the incumbent, if any. Exploration is active only with a
      sprint budget wired in and a positive cap. */
  function Route(agents: seq<Agent>, incumbent: Agent, declared: string, evidence: map<string, Aggregate>,
                 cfg: Config, budget: Option<int>, drawn: string): Option<Agent>
  {
    if budget.None? || cfg.sprintCap <= 0 then None
    else
      var candidates := Candidates(agents, incumbent);
      var o := DecisionFor(candidates, incumbent, declared, evidence, cfg, budget.value, drawn);
      if o.selected.None? then None
      else
        var agent := FirstNamed(candidates, o.selected.value);
        if agent.Some? && agent.value.name != incumbent.name then agent else None
  }

  lemma CandidatesComeFromPool(agents: seq<Agent>, incumbent: Agent)
    requires incumbent in agents
    ensures forall a | a in Candidates(agents, incumbent) :: a in agents
    ensures incumbent in Candidates(agents, incumbent)
  {
    FilterMembers(agents, (a: Agent) => a.authed);
  }

  /** The routed agent is always one the dev pool already holds. */
  lemma RouteStaysInPool(agents: seq<Agent>, incumbent: Agent, declared: string, evidence: map<string, Aggregate>,
                         cfg: Config, budget: Option<int>, drawn: string)
    requires incumbent in agents
    ensures var r := Route(agents, incumbent, declared, evidence, cfg, budget, drawn);
            r.Some? ==> r.value in agents && r.value != incumbent
  {
    hide Candidates, DecisionFor, FirstNamed;
    CandidatesComeFromPool(agents, incumbent);
    if budget.Some? {
      var candidates := Candidates(agents, incumbent);
      var o := DecisionFor(candidates, incumbent, declared, evidence, cfg, budget.value, drawn);
      if o.selected.Some? {
        FirstNamedProps(candidates, o.selected.value);
      }
    }
  }

  /** `a` is the cheapest-to-completion candidate with enough runs, reliability and measured
      cost, among those within one tier of the declared one. */
  ghost predicate CostQualified(a: Agent, candidates: seq<Agent>, declared: string,
                                evidence: map<string, Aggregate>, cfg: Config)
  {
    var g := EvidenceFor(evidence, a.name);
    && WithinOneTier(a, declared) && g.Qualifies(cfg.minSample, cfg.reliabilityFloor)
    && forall b | b in candidates && WithinOneTier(b, declared) && b.name != a.name
                  && EvidenceFor(evidence, b.name).Qualifies(cfg.minSample, cfg.reliabilityFloor) ::
         g.CompletionCost().value <= EvidenceFor(evidence, b.name).CompletionCost().value
  }

  /** A challenger race: the sprint has budget left and this is a cadence run. */
  ghost predicate CadenceRace(candidates: seq<Agent>, evidence: map<string, Aggregate>, cfg: Config, budget: Option<int>) {
    && budget.Some? && budget.value > 0 && cfg.everyN >= 1
    && (TotalRuns(Aggregates(candidates, evidence)) + 1) % cfg.everyN == 0
  }

  lemma WinnerIsCostQualified(candidates: seq<Agent>, incumbent: Agent, declared: string,
                              evidence: map<string, Aggregate>, cfg: Config, a: Agent)
    requires NamesDistinct(candidates) && a in candidates
    requires EmpiricalWinner(candidates, incumbent, declared, evidence, cfg) == Some(a.name)
    ensures CostQualified(a, candidates, declared, evidence, cfg)
  {
    hide SelectWinner, EvidenceFor, WithinOneTier, Aggregate.CompletionCost, FirstNamed, Before, DistinctIds, NamesDistinct;
    var aggs := Aggregates(candidates, evidence);
    var names := ExploitNames(candidates, declared);
    var keep := (g: Aggregate) => g.id in names;
    var pool := WinnerAggregates(candidates, evidence, declared);
    EvidenceIds(candidates, evidence);
    FilterMembers(aggs, keep);
    FilterKeepsDistinct(aggs, keep);
    WinnerIsCheapestQualified(pool, cfg.minSample, cfg.reliabilityFloor);
    var g :| g in pool && g.id == a.name && g.Qualifies(cfg.minSample, cfg.reliabilityFloor)
             && forall b | b in pool && b.Qualifies(cfg.minSample, cfg.reliabilityFloor) && b != g ::
                  Before(g, b) && g.CompletionCost().value <= b.CompletionCost().value;
    EvidenceOf(candidates, evidence, g);
    assert g == EvidenceFor(evidence, a.name);
    var c :| c in candidates && WithinOneTier(c, declared) && c.name == a.name;
    SameNameSameAgent(candidates, a, c);
    forall b | b in candidates && WithinOneTier(b, declared) && b.name != a.name
               && EvidenceFor(evidence, b.name).Qualifies(cfg.minSample, cfg.reliabilityFloor)
      ensures g.CompletionCost().value <= EvidenceFor(evidence, b.name).CompletionCost().value
    {
      var h := EvidenceFor(evidence, b.name);
      var i :| 0 <= i < |candidates| && candidates[i] == b;
      assert aggs[i] == h && h in aggs;
      EvidenceOf(candidates, evidence, h);
      assert b.name in names && h in pool && h.id == b.name;
    }
  }

  lemma EvidenceIds(candidates: seq<Agent>, evidence: map<string, Aggregate>)
    requires NamesDistinct(candidates)
    ensures DistinctIds(Aggregates(candidates, evidence))
  {
  }

  lemma EvidenceOf(candidates: seq<Agent>, evidence: map<string, Aggregate>, g: Aggregate)
    requires g in Aggregates(candidates, evidence)
    ensures g == EvidenceFor(evidence, g.id)
  {
  }

  /** `a` is the challenger of a cadence race: drawn, not the winner, with sprint budget left. */
  ghost predicate DrawnChallenger(a: Agent, candidates: seq<Agent>, winner: Option<string>, evidence: map<string, Aggregate>,
                                  cfg: Config, budget: Option<int>, drawn: string)
  {
    && CadenceRace(candidates, evidence, cfg, budget)
    && a.name == drawn && winner.Some? && a.name != winner.value
    && drawn in DrawSpace(NameList(candidates), winner, Aggregates(candidates, evidence), cfg.rotation)
  }

  /** The dev route leaves the incumbent's tier only for a cadence challenger drawn with sprint
      budget left, or for the cost-qualified winner within one tier of the declared one when the
      incumbent itself has enough measured runs. */
  lemma LeavesTierOnlyOnEvidence(agents: seq<Agent>, incumbent: Agent, declared: string,
                                 evidence: map<string, Aggregate>, cfg: Config, budget: Option<int>, drawn: string)
    requires NamesDistinct(agents) && incumbent in agents
    requires var candidates := Candidates(agents, incumbent);
             var winner := EmpiricalWinner(candidates, incumbent, declared, evidence, cfg);
             Eligible(NameList(candidates), winner) != {} ==>
               drawn in DrawSpace(NameList(candidates), winner, Aggregates(candidates, evidence), cfg.rotation)
    requires var r := Route(agents, incumbent, declared, evidence, cfg, budget, drawn);
             r.Some? && r.value.tier != incumbent.tier
    ensures var candidates, a := Candidates(agents, incumbent), Route(agents, incumbent, declared, evidence, cfg, budget, drawn).value;
            var winner := EmpiricalWinner(candidates, incumbent, declared, evidence, cfg);
            || DrawnChallenger(a, candidates, winner, evidence, cfg, budget, drawn)
            || (&& Some(a.name) == winner && CostQualified(a, candidates, declared, evidence, cfg)
                && Comparable(evidence, incumbent, cfg.minSample))
  {
    hide Candidates, FirstNamed, SelectWinner, WinnerAggregates, CostQualified, Comparable, TotalRuns, DrawSpace;
    var candidates := Candidates(agents, incumbent);
    var winner := EmpiricalWinner(candidates, incumbent, declared, evidence, cfg);
    var o := DecisionFor(candidates, incumbent, declared, evidence, cfg, budget.value, drawn);
    var a := Route(agents, incumbent, declared, evidence, cfg, budget, drawn).value;
    FirstNamedProps(candidates, o.selected.value);
    DecisionIsBounded(NameList(candidates), Aggregates(candidates, evidence), winner, cfg.everyN, budget, cfg.rotation, drawn);
    if o.selected == winner {
      CandidatesDistinct(agents, incumbent);
      WinnerIsCostQualified(candidates, incumbent, declared, evidence, cfg, a);
    }
  }

  // ----- The route from the request and the recorded figures -----

  /** The candidates are the ready agents and the incumbent. */
  lemma CandidatesAre(agents: seq<Agent>, incumbent: Agent, a: Agent)
    ensures a in Candidates(agents, incumbent) <==> (a in agents && a.authed) || a == incumbent
  {
    FilterMembers(agents, (a: Agent) => a.authed);
  }

  /** Which tiers may supply the winner, for each declared tier. */
  lemma NeighboursAre(a: Agent, declared: string)
    ensures WithinOneTier(a, declared) <==>
            if declared == "mid" then a.tier == "cheap" || a.tier == "mid" || a.tier == "strong"
            else if declared == "strong" then a.tier == "mid" || a.tier == "strong"
            else a.tier == "cheap" || a.tier == "mid"
  {
  }

  /** The incumbent has enough runs with a success rate, and a cost measured at least once. */
  lemma ComparableIs(evidence: map<string, Aggregate>, incumbent: Agent, minSample: int)
    ensures var g := EvidenceFor(evidence, incumbent.name);
            Comparable(evidence, incumbent, minSample) <==>
            EnoughRuns(g, minSample) && g.avgCost.Some? && g.costMeasuredRuns > 0
  {
  }

  /** The candidate near the declared tier that ranks first on the evidence. */
  ghost predicate BestNearby(a: Agent, candidates: seq<Agent>, declared: string, evidence: map<string, Aggregate>, cfg: Config) {
    var g := EvidenceFor(evidence, a.name);
    && a in candidates && WithinOneTier(a, declared) && Cleared(g, cfg.minSample, cfg.reliabilityFloor)
    && forall b | b in candidates && WithinOneTier(b, declared) && b.name != a.name
                  && Cleared(EvidenceFor(evidence, b.name), cfg.minSample, cfg.reliabilityFloor) ::
         RanksBefore(g, EvidenceFor(evidence, b.name))
  }

  ghost predicate SomeoneCleared(candidates: seq<Agent>, declared: string, evidence: map<string, Aggregate>, cfg: Config) {
    exists a | a in candidates :: WithinOneTier(a, declared) && Cleared(EvidenceFor(evidence, a.name), cfg.minSample, cfg.reliabilityFloor)
  }

  /** The evidence winner, before the incumbent is considered. */
  lemma EvidenceWinnerRule(candidates: seq<Agent>, declared: string, evidence: map<string, Aggregate>, cfg: Config)
    requires NamesDistinct(candidates)
    ensures var w := SelectWinner(WinnerAggregates(candidates, evidence, declared), cfg.minSample, cfg.reliabilityFloor).winner;
            && (w.Some? <==> SomeoneCleared(candidates, declared, evidence, cfg))
            && (w.Some? ==> exists a :: BestNearby(a, candidates, declared, evidence, cfg) && a.name == w.value)
  {
    hide SelectWinner, EvidenceFor, WithinOneTier, Cleared, RanksBefore, DistinctIds, WinnerAggregates;
    var pool := WinnerAggregates(candidates, evidence, declared);
    WinnerAggregatesMembers(candidates, evidence, declared);
    WinnerRule(pool, cfg.minSample, cfg.reliabilityFloor);
    forall g | g in pool
      ensures exists a :: a in candidates && WithinOneTier(a, declared) && g == EvidenceFor(evidence, a.name)
    {
      var c :| c in candidates && g == EvidenceFor(evidence, c.name);
      EvidenceNamed(evidence, c.name);
      var a :| a in candidates && WithinOneTier(a, declared) && a.name == g.id;
    }
    forall a | a in candidates && WithinOneTier(a, declared)
      ensures EvidenceFor(evidence, a.name) in pool
    {
      EvidenceNamed(evidence, a.name);
      assert a.name in ExploitNames(candidates, declared);
    }
    var w := SelectWinner(pool, cfg.minSample, cfg.reliabilityFloor).winner;
    if w.Some? {
      var g :| Best(g, pool, cfg.minSample, cfg.reliabilityFloor) && g.id == w.value;
      var a :| a in candidates && WithinOneTier(a, declared) && g == EvidenceFor(evidence, a.name);
      EvidenceNamed(evidence, a.name);
      forall b | b in candidates && WithinOneTier(b, declared) && b.name != a.name
                 && Cleared(EvidenceFor(evidence, b.name), cfg.minSample, cfg.reliabilityFloor)
        ensures RanksBefore(g, EvidenceFor(evidence, b.name))
      {
        EvidenceNamed(evidence, b.name);
      }
      assert BestNearby(a, candidates, declared, evidence, cfg);
    }
  }

  lemma EvidenceNamed(evidence: map<string, Aggregate>, name: string)
    ensures EvidenceFor(evidence, name).id == name
    ensures name in evidence ==> EvidenceFor(evidence, name) == evidence[name].(id := name)
    ensures name !in evidence ==> EvidenceFor(evidence, name).runs == 0 && EvidenceFor(evidence, name).successRate.None?
  {
  }

  /** The empirical winner: the first on the evidence near the declared tier, unless it stands on
      another tier than an incumbent without figures to compare; nobody when nobody clears. */
  lemma EmpiricalWinnerRule(candidates: seq<Agent>, incumbent: Agent, declared: string, evidence: map<string, Aggregate>, cfg: Config)
    requires NamesDistinct(candidates)
    ensures var w := EmpiricalWinner(candidates, incumbent, declared, evidence, cfg);
            && (!SomeoneCleared(candidates, declared, evidence, cfg) ==> w.None?)
            && (SomeoneCleared(candidates, declared, evidence, cfg) ==>
                  exists a :: BestNearby(a, candidates, declared, evidence, cfg) &&
                    w == (if a.name == incumbent.name || a.tier == incumbent.tier || Comparable(evidence, incumbent, cfg.minSample)
                          then Some(a.name) else None))
  {
    hide SelectWinner, WinnerAggregates, SomeoneCleared, Comparable, FirstNamed, BestNearby;
    EvidenceWinnerRule(candidates, declared, evidence, cfg);
    var w := SelectWinner(WinnerAggregates(candidates, evidence, declared), cfg.minSample, cfg.reliabilityFloor).winner;
    if w.Some? {
      var a :| BestNearby(a, candidates, declared, evidence, cfg) && a.name == w.value;
      BestIsCandidate(a, candidates, declared, evidence, cfg);
      FirstNamedProps(candidates, a.name);
      SameNameSameAgent(candidates, a, FirstNamed(candidates, a.name).value);
    }
  }

  lemma BestIsCandidate(a: Agent, candidates: seq<Agent>, declared: string, evidence: map<string, Aggregate>, cfg: Config)
    requires BestNearby(a, candidates, declared, evidence, cfg)
    ensures a in candidates
  {
  }

  /** The name exploration settles on: the drawn challenger in a race, and the winner otherwise. */
  ghost predicate SettlesOn(candidates: seq<Agent>, winner: Option<string>, evidence: map<string, Aggregate>, cfg: Config,
                            budget: int, drawn: string, name: Option<string>)
  {
    name == if && cfg.everyN >= 1 && budget > 0 && winner.Some?
               && (TotalRuns(Aggregates(candidates, evidence)) + 1) % cfg.everyN == 0
               && exists a | a in candidates :: a.name != winner.value
            then Some(drawn) else winner
  }

  /** Exactly when the dev seat is routed away from the incumbent, and to whom: exploration is on,
      and the name it settles on is that of another candidate. */
  lemma RouteRule(agents: seq<Agent>, incumbent: Agent, declared: string, evidence: map<string, Aggregate>,
                  cfg: Config, budget: Option<int>, drawn: string, name: Option<string>)
    requires NamesDistinct(agents) && incumbent in agents
    requires var candidates := Candidates(agents, incumbent);
             var winner := EmpiricalWinner(candidates, incumbent, declared, evidence, cfg);
             && (Eligible(NameList(candidates), winner) != {} ==>
                   drawn in DrawSpace(NameList(candidates), winner, Aggregates(candidates, evidence), cfg.rotation))
             && (budget.Some? ==> SettlesOn(candidates, winner, evidence, cfg, budget.value, drawn, name))
    ensures forall a :: Route(agents, incumbent, declared, evidence, cfg, budget, drawn) == Some(a) <==>
              && budget.Some? && cfg.sprintCap > 0 && name == Some(a.name)
              && a in agents && a.authed && a != incumbent
  {
    hide Candidates, FirstNamed, EmpiricalWinner, TotalRuns, DrawSpace, Eligible, Aggregates;
    var candidates := Candidates(agents, incumbent);
    var winner := EmpiricalWinner(candidates, incumbent, declared, evidence, cfg);
    CandidatesDistinct(agents, incumbent);
    if budget.Some? && cfg.sprintCap > 0 {
      DecisionIsBounded(NameList(candidates), Aggregates(candidates, evidence), winner, cfg.everyN, budget, cfg.rotation, drawn);
      NamesOf(candidates, winner);
      var o := DecisionFor(candidates, incumbent, declared, evidence, cfg, budget.value, drawn);
      assert o.selected == name;
      forall a
        ensures Route(agents, incumbent, declared, evidence, cfg, budget, drawn) == Some(a) <==>
                name == Some(a.name) && a in agents && a.authed && a != incumbent
      {
        CandidatesAre(agents, incumbent, a);
        CandidatesAre(agents, incumbent, incumbent);
        if name.Some? {
          FirstNamedProps(candidates, name.value);
          var r := FirstNamed(candidates, name.value);
          if r.Some? {
            CandidatesAre(agents, incumbent, r.value);
            if a in candidates && a.name == name.value {
              SameNameSameAgent(candidates, a, r.value);
            }
            if r.value.name == incumbent.name {
              SameNameSameAgent(candidates, incumbent, r.value);
            }
          }
        }
      }
    }
  }

  lemma NamesOf(candidates: seq<Agent>, winner: Option<string>)
    ensures (exists m | m in NameList(candidates) :: Some(m) != winner) <==> exists a | a in candidates :: Some(a.name) != winner
  {
    if m :| m in NameList(candidates) && Some(m) != winner {
      var i :| 0 <= i < |NameList(candidates)| && NameList(candidates)[i] == m;
      assert candidates[i] in candidates;
    }
    if a :| a in candidates && Some(a.name) != winner {
      var i :| 0 <= i < |candidates| && candidates[i] == a;
      assert NameList(candidates)[i] == a.name;
    }
  }

  // ----- Order of the candidates -----

  lemma {:induction false} OncePerId(s: seq<Aggregate>, g: Aggregate)
    requires DistinctIds(s)
    ensures multiset(s)[g] == if g in s then 1 else 0
    decreases s
  {
    if s != [] {
      OncePerId(s[1..], g);
      assert s == [s[0]] + s[1..];
    }
  }

  lemma SameMembersSameMultiset(s: seq<Aggregate>, t: seq<Aggregate>)
    requires DistinctIds(s) && DistinctIds(t) && forall g :: g in s <==> g in t
    ensures multiset(s) == multiset(t)
  {
    hide DistinctIds;
    forall g
      ensures multiset(s)[g] == multiset(t)[g]
    {
      OncePerId(s, g);
      OncePerId(t, g);
    }
  }

  /** `b` lists the agents of `a` in some order. */
  ghost predicate Reordered(a: seq<Agent>, b: seq<Agent>) {
    NamesDistinct(a) && NamesDistinct(b) && forall x :: x in a <==> x in b
  }

  lemma WinnerAggregatesMembers(candidates: seq<Agent>, evidence: map<string, Aggregate>, declared: string)
    requires NamesDistinct(candidates)
    ensures DistinctIds(WinnerAggregates(candidates, evidence, declared))
    ensures forall g :: g in WinnerAggregates(candidates, evidence, declared) <==>
              g.id in ExploitNames(candidates, declared) && exists a :: a in candidates && g == EvidenceFor(evidence, a.name)
  {
    hide EvidenceFor, ExploitNames, DistinctIds, NamesDistinct;
    var aggs, names := Aggregates(candidates, evidence), ExploitNames(candidates, declared);
    EvidenceIds(candidates, evidence);
    FilterMembers(aggs, (g: Aggregate) => g.id in names);
    FilterKeepsDistinct(aggs, (g: Aggregate) => g.id in names);
    forall g
      ensures g in aggs <==> exists a :: a in candidates && g == EvidenceFor(evidence, a.name)
    {
      if g in aggs {
        var i :| 0 <= i < |aggs| && aggs[i] == g;
        assert candidates[i] in candidates;
      }
      if a :| a in candidates && g == EvidenceFor(evidence, a.name) {
        var i :| 0 <= i < |candidates| && candidates[i] == a;
        assert aggs[i] == g;
      }
    }
  }

  /** The evidence winner of a story does not depend on the order the candidates are listed in. */
  lemma EmpiricalWinnerIgnoresOrder(candidates: seq<Agent>, reordered: seq<Agent>, incumbent: Agent, declared: string,
                                    evidence: map<string, Aggregate>, cfg: Config)
    requires Reordered(candidates, reordered)
    ensures EmpiricalWinner(candidates, incumbent, declared, evidence, cfg) ==
            EmpiricalWinner(reordered, incumbent, declared, evidence, cfg)
  {
    hide SelectWinner, EvidenceFor, WithinOneTier, FirstNamed, DistinctIds, WinnerAggregates, NamesDistinct, Comparable;
    assert ExploitNames(candidates, declared) == ExploitNames(reordered, declared);
    WinnerAggregatesMembers(candidates, evidence, declared);
    WinnerAggregatesMembers(reordered, evidence, declared);
    var s, t := WinnerAggregates(candidates, evidence, declared), WinnerAggregates(reordered, evidence, declared);
    SameMembersSameMultiset(s, t);
    WinnerIgnoresMapOrder(s, t, cfg.minSample, cfg.reliabilityFloor);
    var winner := SelectWinner(s, cfg.minSample, cfg.reliabilityFloor).winner;
    if winner.Some? {
      SameAgentNamed(candidates, reordered, winner.value);
    }
  }

  lemma SameAgentNamed(candidates: seq<Agent>, reordered: seq<Agent>, name: string)
    requires Reordered(candidates, reordered)
    ensures FirstNamed(candidates, name) == FirstNamed(reordered, name)
  {
    hide FirstNamed, NamesDistinct;
    FirstNamedProps(candidates, name);
    FirstNamedProps(reordered, name);
    var a, b := FirstNamed(candidates, name), FirstNamed(reordered, name);
    if a.Some? && b.Some? {
      SameNameSameAgent(candidates, a.value, b.value);
    }
  }

  lemma CandidatesDistinct(agents: seq<Agent>, incumbent: Agent)
    requires NamesDistinct(agents) && incumbent in agents
    ensures NamesDistinct(Candidates(agents, incumbent))
  {
    var ready := Filter(agents, (a: Agent) => a.authed);
    FilterMembers(agents, (a: Agent) => a.authed);
    FilterNamesDistinct(agents, (a: Agent) => a.authed);
    if incumbent !in ready {
      forall j | 0 <= j < |ready|
        ensures ready[j].name != incumbent.name
      {
        assert ready[j] in ready;
        if ready[j].name == incumbent.name {
          SameNameSameAgent(agents, ready[j], incumbent);
        }
      }
    }
  }
}
