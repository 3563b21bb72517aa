/** The per-story routing cost target (`_enforce_budget` in `assignment.py`): downgrade the
    most expensive seat that may be downgraded, or drop a reviewer, at most ten times. */
module Budget {
  import opened Common
  import opened Agents

  datatype Role = Preflight | Planner | Dev | PlanReview | CodeReview

  datatype Seat = PlannerSeat | DevSeat | PlanSeat(index: nat) | CodeSeat(index: nat)
  {
    function Role(): Role {
      match this
      case PlannerSeat => Planner
      case DevSeat => Dev
      case PlanSeat(_) => PlanReview
      case CodeSeat(_) => CodeReview
    }
  }

  datatype Decision = Decision(preflight: Profile, planner: Profile, planReviewers: seq<Profile>,
                               dev: Profile, codeReviewers: seq<Profile>)

  /** What the enforcer may do: role pools already filtered for eligibility, tier floors, and
      the roles an operator pinned. */
  datatype Policy = Policy(agents: seq<Agent>, pools: map<Role, seq<Agent>>,
                           devFloor: string, plannerFloor: Option<string>, locked: set<Role>)

  ghost predicate PolicyOk(p: Policy) {
    && NamesDistinct(p.agents)
    && forall r, a | r in p.pools && a in p.pools[r] :: a in p.agents
  }

  function PoolFor(p: Policy, role: Role): seq<Agent> {
    var base := if role in p.pools then p.pools[role] else p.agents;
    if role.Dev? then Filter(base, (a: Agent) => a.devCapable) else base
  }

  lemma PoolForProps(p: Policy, role: Role)
    requires PolicyOk(p)
    ensures forall a | a in PoolFor(p, role) :: a in p.agents && (role.Dev? ==> a.devCapable)
    ensures forall a | a in PoolFor(p, role) && role in p.pools :: a in p.pools[role]
    ensures forall a :: a in PoolFor(p, role) <==>
              (if role in p.pools then a in p.pools[role] else a in p.agents) && (role == Dev ==> a.devCapable)
  {
    var base := if role in p.pools then p.pools[role] else p.agents;
    FilterMembers(base, (a: Agent) => a.devCapable);
  }

  // ----- Cost -----

  function Sum(ps: seq<Profile>): real {
    if ps == [] then 0.0 else ps[0].budget + Sum(ps[1..])
  }

  function Total(d: Decision): real {
    d.preflight.budget + d.planner.budget + Sum(d.planReviewers) + d.dev.budget + Sum(d.codeReviewers)
  }

  lemma {:induction false} SumConcat(xs: seq<Profile>, ys: seq<Profile>)
    ensures Sum(xs + ys) == Sum(xs) + Sum(ys)
    decreases xs
  {
    if xs == [] {
      assert xs + ys == ys;
    } else {
      assert (xs + ys)[1..] == xs[1..] + ys;
      SumConcat(xs[1..], ys);
    }
  }

  /** The total is over every seat of the decision. */
  lemma TotalIs(d: Decision)
    ensures Total(d) == Sum([d.preflight, d.planner] + d.planReviewers + [d.dev] + d.codeReviewers)
  {
    hide Sum;
    SumOne(d.preflight);
    SumOne(d.planner);
    SumOne(d.dev);
    assert [d.preflight, d.planner] == [d.preflight] + [d.planner];
    SumConcat([d.preflight], [d.planner]);
    SumConcat([d.preflight, d.planner], d.planReviewers);
    SumConcat([d.preflight, d.planner] + d.planReviewers, [d.dev]);
    SumConcat([d.preflight, d.planner] + d.planReviewers + [d.dev], d.codeReviewers);
  }

  lemma SumOne(x: Profile)
    ensures Sum([x]) == x.budget
  {
    assert [x][1..] == [];
  }

  lemma {:induction false} SumUpdate(ps: seq<Profile>, i: nat, x: Profile)
    requires i < |ps|
    ensures Sum(ps[i := x]) == Sum(ps) - ps[i].budget + x.budget
    decreases ps
  {
    if i == 0 {
      assert ps[0 := x][1..] == ps[1..];
    } else {
      assert ps[i := x][1..] == ps[1..][i - 1 := x];
      SumUpdate(ps[1..], i - 1, x);
    }
  }

  lemma {:induction false} SumDropLast(ps: seq<Profile>)
    requires ps != []
    ensures Sum(ps[..|ps| - 1]) == Sum(ps) - ps[|ps| - 1].budget
    decreases ps
  {
    if |ps| > 1 {
      assert ps[..|ps| - 1][1..] == ps[1..][..|ps| - 2];
      SumDropLast(ps[1..]);
    } else {
      assert ps[..0] == [] && ps[1..] == [];
    }
  }

  // ----- The next cheaper profile for a seat -----

  function TierAt(rank: nat): string {
    if rank == 0 then "cheap" else if rank == 1 then "mid" else "strong"
  }

  /** The cheapest agent of the nearest tier at or below `rank` that has one. */
  function NearestBelow(pool: seq<Agent>, rank: nat): Option<Agent> {
    if ByTier(pool, TierAt(rank)) != [] then Some(ByTier(pool, TierAt(rank))[0])
    else if rank == 0 then None
    else NearestBelow(pool, rank - 1)
  }

  lemma {:induction false} NearestBelowProps(pool: seq<Agent>, rank: nat)
    requires rank <= 1
    ensures var r := NearestBelow(pool, rank);
            && (r.Some? ==> r.value in pool && KnownTier(r.value.tier) && TierRank(r.value.tier) <= rank)
            && (r.Some? ==> forall a | a in pool && KnownTier(a.tier) && TierRank(a.tier) <= rank ::
                  TierRank(a.tier) <= TierRank(r.value.tier) && (a.tier == r.value.tier ==> !Cheaper(a, r.value)))
            && (r.None? <==> forall a | a in pool :: !KnownTier(a.tier) || TierRank(a.tier) > rank)
    decreases rank
  {
    hide ByTier, Cheaper;
    ByTierProps(pool, TierAt(rank));
    var listed := ByTier(pool, TierAt(rank));
    if listed != [] {
      assert listed[0] in listed;
      forall a | a in pool && a.tier == TierAt(rank)
        ensures !Cheaper(a, listed[0])
      {
        assert a in listed;
        var i :| 0 <= i < |listed| && listed[i] == a;
        NotCheaperThanItself(a);
      }
    } else if rank > 0 {
      NearestBelowProps(pool, rank - 1);
    }
  }

  lemma NotCheaperThanItself(a: Agent)
    ensures !Cheaper(a, a)
  {
  }

  /** `min(options, key=budget)`: the first of the cheapest. */
  function CheapestOf(options: seq<Agent>): (a: Agent)
    requires options != []
    ensures a in options && forall b | b in options :: a.budget <= b.budget
  {
    if |options| == 1 then options[0]
    else
      var rest := CheapestOf(options[1..]);
      if options[0].budget <= rest.budget then options[0] else rest
  }

  lemma {:induction false} CheapestIsFirst(options: seq<Agent>) returns (i: nat)
    requires options != []
    ensures i < |options| && options[i] == CheapestOf(options)
    ensures forall j | 0 <= j < i :: options[j].budget > options[i].budget
    decreases options
  {
    i := 0;
    if |options| > 1 && options[0].budget > CheapestOf(options[1..]).budget {
      var k := CheapestIsFirst(options[1..]);
      i := k + 1;
      forall j | 0 < j < i
        ensures options[j].budget > options[i].budget
      {
        assert options[j] == options[1..][j - 1];
      }
    }
  }

  /** `_next_cheaper_profile`. */
  function NextCheaper(p: Policy, profile: Profile, role: Role): Option<Profile> {
    var pool := PoolFor(p, role);
    match ByName(p.agents, profile.name)
    case Some(agent) =>
      if TierRank(agent.tier) == 0 then None
      else
        var below := NearestBelow(pool, TierRank(agent.tier) - 1);
        if below.Some? then Some(ProfileOf(below.value)) else None
    case None =>
      var options := Filter(pool, (a: Agent) => a.budget < profile.budget);
      if options == [] then None else Some(ProfileOf(CheapestOf(options)))
  }

  /** Tier rank of a seated profile; one from outside the pool ranks above every tier. */
  function Rank(p: Policy, profile: Profile): nat {
    match ByName(p.agents, profile.name)
    case Some(agent) => TierRank(agent.tier)
    case None => 3
  }

  ghost predicate FromPool(p: Policy, role: Role, profile: Profile) {
    exists a :: a in PoolFor(p, role) && ProfileOf(a) == profile
  }

  /** A cheaper profile comes from the role's pool and always ranks lower. */
  lemma NextCheaperProps(p: Policy, profile: Profile, role: Role)
    requires PolicyOk(p)
    ensures var x := NextCheaper(p, profile, role);
            x.Some? ==> FromPool(p, role, x.value) && Rank(p, x.value) < Rank(p, profile)
  {
    hide PoolFor, ByName;
    var pool := PoolFor(p, role);
    PoolForProps(p, role);
    var x := NextCheaper(p, profile, role);
    if x.Some? {
      var a: Agent;
      match ByName(p.agents, profile.name) {
        case Some(agent) =>
          NearestBelowProps(pool, TierRank(agent.tier) - 1);
          a := NearestBelow(pool, TierRank(agent.tier) - 1).value;
        case None =>
          var options := Filter(pool, (a: Agent) => a.budget < profile.budget);
          FilterMembers(pool, (a: Agent) => a.budget < profile.budget);
          a := CheapestOf(options);
      }
      ByNameFinds(p.agents, a);
    }
  }

  /** The agent is in the role's pool, on a known tier below the given one. */
  ghost predicate Below(p: Policy, role: Role, tier: string, a: Agent) {
    a in PoolFor(p, role) && KnownTier(a.tier) && TierRank(a.tier) < TierRank(tier)
  }

  /** The cheapest agent of the nearest lower tier the pool has. */
  ghost predicate NearestLower(p: Policy, role: Role, tier: string, b: Agent) {
    && Below(p, role, tier, b)
    && forall c | Below(p, role, tier, c) :: TierRank(c.tier) <= TierRank(b.tier) && (c.tier == b.tier ==> !Cheaper(c, b))
  }

  /** The cheapest agent of the pool, and it is below the budget. */
  ghost predicate CheapestUnder(p: Policy, role: Role, budget: real, b: Agent) {
    b in PoolFor(p, role) && b.budget < budget && forall c | c in PoolFor(p, role) :: b.budget <= c.budget
  }

  /** What a seat's profile goes down to. One of an agent: the cheapest agent of the nearest lower
      tier that the pool has, and nothing exactly when it has no lower tier. One from outside the
      agents: the cheapest agent of the pool, if that is below its budget. */
  lemma NextCheaperRule(p: Policy, profile: Profile, role: Role)
    requires PolicyOk(p)
    ensures var x := NextCheaper(p, profile, role);
            forall a | a in p.agents && a.name == profile.name ::
              && (x.None? <==> forall c :: !Below(p, role, a.tier, c))
              && (x.Some? ==> exists b :: NearestLower(p, role, a.tier, b) && ProfileOf(b) == x.value)
    ensures var x := NextCheaper(p, profile, role);
            (forall a | a in p.agents :: a.name != profile.name) ==>
              && (x.None? <==> forall c | c in PoolFor(p, role) :: c.budget >= profile.budget)
              && (x.Some? ==> exists b :: CheapestUnder(p, role, profile.budget, b) && ProfileOf(b) == x.value)
  {
    hide PoolFor, ByName, NearestBelow, Cheaper;
    var pool, x := PoolFor(p, role), NextCheaper(p, profile, role);
    forall a | a in p.agents && a.name == profile.name
      ensures x.None? <==> forall c :: !Below(p, role, a.tier, c)
      ensures x.Some? ==> exists b :: NearestLower(p, role, a.tier, b) && ProfileOf(b) == x.value
    {
      ByNameFinds(p.agents, a);
      if TierRank(a.tier) > 0 {
        NearestBelowProps(pool, TierRank(a.tier) - 1);
        var below := NearestBelow(pool, TierRank(a.tier) - 1);
        assert below.Some? ==> NearestLower(p, role, a.tier, below.value);
      }
    }
    if forall a | a in p.agents :: a.name != profile.name {
      OutsiderRule(p, profile, role);
    }
  }

  lemma {:induction false} NobodyNamed(agents: seq<Agent>, name: string)
    requires forall a | a in agents :: a.name != name
    ensures ByName(agents, name).None?
    decreases agents
  {
    if agents != [] {
      assert agents[|agents| - 1] in agents;
      NobodyNamed(agents[..|agents| - 1], name);
    }
  }

  lemma OutsiderRule(p: Policy, profile: Profile, role: Role)
    requires forall a | a in p.agents :: a.name != profile.name
    ensures var x := NextCheaper(p, profile, role);
            && (x.None? <==> forall c | c in PoolFor(p, role) :: c.budget >= profile.budget)
            && (x.Some? ==> exists b :: CheapestUnder(p, role, profile.budget, b) && ProfileOf(b) == x.value)
  {
    hide PoolFor, Filter, CheapestOf;
    NobodyNamed(p.agents, profile.name);
    var pool := PoolFor(p, role);
    var options := Filter(pool, (a: Agent) => a.budget < profile.budget);
    FilterMembers(pool, (a: Agent) => a.budget < profile.budget);
    HasMember(options);
    if options != [] {
      assert CheapestUnder(p, role, profile.budget, CheapestOf(options));
    }
  }

  // ----- Seats -----

  predicate HasSeat(d: Decision, s: Seat) {
    match s
    case PlanSeat(i) => i < |d.planReviewers|
    case CodeSeat(i) => i < |d.codeReviewers|
    case _ => true
  }

  function At(d: Decision, s: Seat): Profile
    requires HasSeat(d, s)
  {
    match s
    case PlannerSeat => d.planner
    case DevSeat => d.dev
    case PlanSeat(i) => d.planReviewers[i]
    case CodeSeat(i) => d.codeReviewers[i]
  }

  function Reseat(d: Decision, s: Seat, x: Profile): Decision
    requires HasSeat(d, s)
  {
    match s
    case PlannerSeat => d.(planner := x)
    case DevSeat => d.(dev := x)
    case PlanSeat(i) => d.(planReviewers := d.planReviewers[i := x])
    case CodeSeat(i) => d.(codeReviewers := d.codeReviewers[i := x])
  }

  /** A floor guards a replacement whose tier is on the ladder. */
  predicate AboveFloor(p: Policy, s: Seat, x: Profile) {
    var tier := match ByName(p.agents, x.name) case Some(a) => a.tier case None => "";
    match s
    case DevSeat => KnownTier(tier) ==> TierRank(tier) >= TierRank(p.devFloor)
    case PlannerSeat =>
      p.plannerFloor.Some? && KnownTier(p.plannerFloor.value) && KnownTier(tier) ==>
        TierRank(tier) >= TierRank(p.plannerFloor.value)
    case _ => true
  }

  /** The profile a seat may be downgraded to, if any. */
  function Replacement(p: Policy, d: Decision, s: Seat): Option<Profile>
    requires HasSeat(d, s)
  {
    if s.Role() in p.locked then None
    else
      var x := NextCheaper(p, At(d, s), s.Role());
      if x.Some? && AboveFloor(p, s, x.value) then x else None
  }

  /** A seat may be downgraded exactly when its role is not locked, there is a cheaper profile, and
      the agent behind that is not below the floor of a dev or planner seat. */
  lemma ReplacementRule(p: Policy, d: Decision, s: Seat, b: Agent)
    requires PolicyOk(p) && HasSeat(d, s) && b in p.agents && NextCheaper(p, At(d, s), s.Role()) == Some(ProfileOf(b))
    ensures Replacement(p, d, s) ==
            if && s.Role() !in p.locked
               && (s == DevSeat && KnownTier(b.tier) ==> TierRank(b.tier) >= TierRank(p.devFloor))
               && (s == PlannerSeat && KnownTier(b.tier) && p.plannerFloor.Some? && KnownTier(p.plannerFloor.value) ==>
                     TierRank(b.tier) >= TierRank(p.plannerFloor.value))
            then Some(ProfileOf(b)) else None
  {
    hide NextCheaper, ByName;
    ByNameFinds(p.agents, b);
  }

  /** Position of a seat in the list of candidates: planner, plan panel, dev, code panel. */
  function SeatOrder(d: Decision, s: Seat): nat {
    match s
    case PlannerSeat => 0
    case PlanSeat(i) => 1 + i
    case DevSeat => 1 + |d.planReviewers|
    case CodeSeat(i) => 2 + |d.planReviewers| + i
  }

  /** The dearer seat is taken first, and of equally dear ones the first listed. */
  predicate TakenBefore(d: Decision, s: Seat, t: Seat)
    requires HasSeat(d, s) && HasSeat(d, t)
  {
    At(d, s).budget > At(d, t).budget || (At(d, s).budget == At(d, t).budget && SeatOrder(d, s) <= SeatOrder(d, t))
  }

  // ----- One pass -----

  datatype Step =
    | Downgraded(role: Role, fromModel: string, toModel: string, fromBudget: real, toBudget: real)
    | Dropped(role: Role, model: string, budget: real)
  {
    function Saved(): real { if Downgraded? then fromBudget - toBudget else budget }
  }

  function Ledger(steps: seq<Step>): real {
    if steps == [] then 0.0 else Ledger(steps[..|steps| - 1]) + steps[|steps| - 1].Saved()
  }

  ghost predicate NoDowngrade(p: Policy, d: Decision) {
    forall s | HasSeat(d, s) :: Replacement(p, d, s).None?
  }

  /** Nothing the enforcer may do is left. */
  ghost predicate Stuck(p: Policy, d: Decision) {
    && NoDowngrade(p, d)
    && (CodeReview in p.locked || |d.codeReviewers| <= 1)
    && (PlanReview in p.locked || |d.planReviewers| <= 1)
  }

  /** A pass: the dearest downgradable seat, the first of equals, goes to its replacement; failing that the last code
      reviewer is dropped, failing that the last plan reviewer. */
  ghost predicate Pass(p: Policy, d: Decision, d': Decision, step: Step) {
    || (exists s :: DowngradePass(p, d, d', step, s))
    || (&& NoDowngrade(p, d) && CodeReview !in p.locked && |d.codeReviewers| > 1
        && d' == d.(codeReviewers := d.codeReviewers[..|d.codeReviewers| - 1])
        && var gone := d.codeReviewers[|d.codeReviewers| - 1]; step == Dropped(CodeReview, gone.model, gone.budget))
    || (&& NoDowngrade(p, d) && (CodeReview in p.locked || |d.codeReviewers| <= 1)
        && PlanReview !in p.locked && |d.planReviewers| > 1
        && d' == d.(planReviewers := d.planReviewers[..|d.planReviewers| - 1])
        && var gone := d.planReviewers[|d.planReviewers| - 1]; step == Dropped(PlanReview, gone.model, gone.budget))
  }

  ghost predicate DowngradePass(p: Policy, d: Decision, d': Decision, step: Step, s: Seat) {
    && HasSeat(d, s) && Replacement(p, d, s).Some?
    && var x := Replacement(p, d, s).value;
    && d' == Reseat(d, s, x)
    && step == Downgraded(s.Role(), At(d, s).model, x.model, At(d, s).budget, x.budget)
    && forall t | HasSeat(d, t) && Replacement(p, d, t).Some? :: TakenBefore(d, s, t)
  }

  function RankSum(p: Policy, ps: seq<Profile>): nat {
    if ps == [] then 0 else 1 + Rank(p, ps[0]) + RankSum(p, ps[1..])
  }

  /** Sum of tier ranks plus panel sizes. */
  function Weight(p: Policy, d: Decision): nat {
    Rank(p, d.planner) + Rank(p, d.dev) + RankSum(p, d.planReviewers) + RankSum(p, d.codeReviewers)
  }

  lemma {:induction false} RankSumUpdate(p: Policy, ps: seq<Profile>, i: nat, x: Profile)
    requires i < |ps|
    ensures RankSum(p, ps[i := x]) == RankSum(p, ps) - Rank(p, ps[i]) + Rank(p, x)
    decreases ps
  {
    hide Rank;
    if i == 0 {
      assert ps[0 := x][1..] == ps[1..];
    } else {
      assert ps[i := x][1..] == ps[1..][i - 1 := x];
      RankSumUpdate(p, ps[1..], i - 1, x);
    }
  }

  lemma {:induction false} RankSumDropLast(p: Policy, ps: seq<Profile>)
    requires ps != []
    ensures RankSum(p, ps[..|ps| - 1]) < RankSum(p, ps)
    decreases ps
  {
    hide Rank;
    if |ps| > 1 {
      assert ps[..|ps| - 1][1..] == ps[1..][..|ps| - 2];
      RankSumDropLast(p, ps[1..]);
    } else {
      assert ps[..0] == [];
    }
  }

  /** Every pass books exactly what it saves and strictly lowers the weight. A pass need not
      lower the cost: a lower tier can be dearer. */
  lemma PassBooks(p: Policy, d: Decision, d': Decision, step: Step)
    requires PolicyOk(p) && Pass(p, d, d', step)
    ensures Total(d) - Total(d') == step.Saved()
    ensures Weight(p, d') < Weight(p, d)
  {
    hide Sum, RankSum, Rank, NextCheaper, PolicyOk, AboveFloor, NoDowngrade;
    if s :| DowngradePass(p, d, d', step, s) {
      var x := Replacement(p, d, s).value;
      NextCheaperProps(p, At(d, s), s.Role());
      match s
      case PlanSeat(i) =>
        SumUpdate(d.planReviewers, i, x);
        RankSumUpdate(p, d.planReviewers, i, x);
      case CodeSeat(i) =>
        SumUpdate(d.codeReviewers, i, x);
        RankSumUpdate(p, d.codeReviewers, i, x);
      case _ =>
    } else if d'.codeReviewers != d.codeReviewers {
      SumDropLast(d.codeReviewers);
      RankSumDropLast(p, d.codeReviewers);
    } else {
      SumDropLast(d.planReviewers);
      RankSumDropLast(p, d.planReviewers);
    }
  }

  // ----- What enforcement keeps -----

  /** A seat still holds its first profile, or one from its role's pool above its floor. */
  ghost predicate SeatKept(p: Policy, s: Seat, was: Profile, now: Profile) {
    now == was || (s.Role() !in p.locked && FromPool(p, s.Role(), now) && AboveFloor(p, s, now))
  }

  ghost predicate Kept(p: Policy, d0: Decision, d: Decision) {
    && d.preflight == d0.preflight
    && |d.planReviewers| <= |d0.planReviewers| && |d.codeReviewers| <= |d0.codeReviewers|
    && (d0.planReviewers != [] ==> d.planReviewers != [])
    && (d0.codeReviewers != [] ==> d.codeReviewers != [])
    && (PlanReview in p.locked ==> |d.planReviewers| == |d0.planReviewers|)
    && (CodeReview in p.locked ==> |d.codeReviewers| == |d0.codeReviewers|)
    && forall s | HasSeat(d, s) :: HasSeat(d0, s) && SeatKept(p, s, At(d0, s), At(d, s))
  }

  lemma SeatAfter(d: Decision, s: Seat, x: Profile, t: Seat)
    requires HasSeat(d, s)
    ensures HasSeat(Reseat(d, s, x), t) <==> HasSeat(d, t)
    ensures HasSeat(d, t) ==> At(Reseat(d, s, x), t) == if t == s then x else At(d, t)
  {
  }

  /** Everything `Kept` says of panels and preflight survives a change of one seat. */
  lemma DowngradeKeeps(p: Policy, d0: Decision, d: Decision, s: Seat)
    requires PolicyOk(p) && Kept(p, d0, d) && HasSeat(d, s) && Replacement(p, d, s).Some?
    ensures Kept(p, d0, Reseat(d, s, Replacement(p, d, s).value))
  {
    hide NextCheaper, PolicyOk, AboveFloor, FromPool, SeatKept;
    var x := Replacement(p, d, s).value;
    var d' := Reseat(d, s, x);
    NextCheaperProps(p, At(d, s), s.Role());
    ReplacementKeepsSeat(p, d, s, At(d0, s));
    forall t | HasSeat(d', t)
      ensures HasSeat(d0, t) && SeatKept(p, t, At(d0, t), At(d', t))
    {
      SeatAfter(d, s, x, t);
    }
  }

  lemma ReplacementKeepsSeat(p: Policy, d: Decision, s: Seat, was: Profile)
    requires PolicyOk(p) && HasSeat(d, s) && Replacement(p, d, s).Some?
    ensures SeatKept(p, s, was, Replacement(p, d, s).value)
  {
    hide NextCheaper, PolicyOk, AboveFloor, FromPool;
    NextCheaperProps(p, At(d, s), s.Role());
  }

  lemma CodeDropKeeps(p: Policy, d0: Decision, d: Decision)
    requires Kept(p, d0, d) && CodeReview !in p.locked && |d.codeReviewers| > 1
    ensures Kept(p, d0, d.(codeReviewers := d.codeReviewers[..|d.codeReviewers| - 1]))
  {
    hide SeatKept;
    var d' := d.(codeReviewers := d.codeReviewers[..|d.codeReviewers| - 1]);
    assert forall t | HasSeat(d', t) :: HasSeat(d, t) && At(d', t) == At(d, t);
  }

  lemma PlanDropKeeps(p: Policy, d0: Decision, d: Decision)
    requires Kept(p, d0, d) && PlanReview !in p.locked && |d.planReviewers| > 1
    ensures Kept(p, d0, d.(planReviewers := d.planReviewers[..|d.planReviewers| - 1]))
  {
    hide SeatKept;
    var d' := d.(planReviewers := d.planReviewers[..|d.planReviewers| - 1]);
    assert forall t | HasSeat(d', t) :: HasSeat(d, t) && At(d', t) == At(d, t);
  }

  lemma PassKeeps(p: Policy, d0: Decision, d: Decision, d': Decision, step: Step)
    requires PolicyOk(p) && Kept(p, d0, d) && Pass(p, d, d', step)
    ensures Kept(p, d0, d')
  {
    hide Kept, PolicyOk, Replacement, NoDowngrade, Reseat;
    if s :| DowngradePass(p, d, d', step, s) {
      DowngradeKeeps(p, d0, d, s);
    } else if step.role == CodeReview {
      CodeDropKeeps(p, d0, d);
    } else {
      PlanDropKeeps(p, d0, d);
    }
  }

  // ----- The enforcer -----

  function PanelSeats(n: nat, code: bool): seq<Seat> {
    seq(n, i requires 0 <= i < n => if code then CodeSeat(i) else PlanSeat(i))
  }

  function Seats(d: Decision): seq<Seat> {
    [PlannerSeat] + PanelSeats(|d.planReviewers|, false) + [DevSeat] + PanelSeats(|d.codeReviewers|, true)
  }

  lemma SeatsAreAll(d: Decision)
    ensures forall s :: s in Seats(d) <==> HasSeat(d, s)
  {
    var plan, code := PanelSeats(|d.planReviewers|, false), PanelSeats(|d.codeReviewers|, true);
    forall s
      ensures s in Seats(d) <==> HasSeat(d, s)
    {
      assert s in Seats(d) <==> s == PlannerSeat || s in plan || s == DevSeat || s in code;
      if s.PlanSeat? && s.index < |plan| {
        assert plan[s.index] == s;
      }
      if s.CodeSeat? && s.index < |code| {
        assert code[s.index] == s;
      }
    }
  }

  function InsertSeat(d: Decision, s: Seat, ss: seq<Seat>): (out: seq<Seat>)
    requires HasSeat(d, s) && forall x | x in ss :: HasSeat(d, x)
    ensures forall x :: x in out <==> x == s || x in ss
  {
    if ss == [] || At(d, s).budget >= At(d, ss[0]).budget then [s] + ss
    else [ss[0]] + InsertSeat(d, s, ss[1..])
  }

  /** `candidates.sort(key=budget, reverse=True)`, which is stable. */
  function DearestFirst(d: Decision, ss: seq<Seat>): (out: seq<Seat>)
    requires forall x | x in ss :: HasSeat(d, x)
    ensures forall x :: x in out <==> x in ss
  {
    if ss == [] then [] else InsertSeat(d, ss[0], DearestFirst(d, ss[1..]))
  }

  ghost predicate Descending(d: Decision, ss: seq<Seat>)
    requires forall x | x in ss :: HasSeat(d, x)
  {
    forall i, j | 0 <= i < j < |ss| :: TakenBefore(d, ss[i], ss[j])
  }

  ghost predicate InSeatOrder(d: Decision, ss: seq<Seat>) {
    forall i, j | 0 <= i < j < |ss| :: SeatOrder(d, ss[i]) < SeatOrder(d, ss[j])
  }

  lemma SeatsInOrder(d: Decision)
    ensures InSeatOrder(d, Seats(d))
  {
    var n, ss := |d.planReviewers|, Seats(d);
    forall i | 0 <= i < |ss|
      ensures SeatOrder(d, ss[i]) == i
    {
      assert ss[i] == if i == 0 then PlannerSeat else if i < 1 + n then PlanSeat(i - 1)
                      else if i == 1 + n then DevSeat else CodeSeat(i - 2 - n);
    }
  }

  lemma {:induction false} InsertDescends(d: Decision, s: Seat, ss: seq<Seat>)
    requires HasSeat(d, s) && (forall x | x in ss :: HasSeat(d, x)) && Descending(d, ss)
    requires forall x | x in ss :: SeatOrder(d, s) <= SeatOrder(d, x)
    ensures Descending(d, InsertSeat(d, s, ss))
    decreases ss
  {
    hide SeatOrder, At;
    if ss != [] {
      assert forall k | 0 <= k < |ss| :: ss[k] in ss;
      if At(d, s).budget < At(d, ss[0]).budget {
        InsertDescends(d, s, ss[1..]);
        var rest := InsertSeat(d, s, ss[1..]);
        forall j | 0 <= j < |rest|
          ensures TakenBefore(d, ss[0], rest[j])
        {
          assert rest[j] in rest;
          if rest[j] != s {
            var k :| 0 <= k < |ss[1..]| && ss[1..][k] == rest[j];
            assert TakenBefore(d, ss[0], ss[k + 1]);
          }
        }
      } else {
        forall j | 0 <= j < |ss|
          ensures TakenBefore(d, s, ss[j])
        {
          assert j > 0 ==> TakenBefore(d, ss[0], ss[j]);
        }
      }
    }
  }

  lemma {:induction false} DearestFirstDescends(d: Decision, ss: seq<Seat>)
    requires (forall x | x in ss :: HasSeat(d, x)) && InSeatOrder(d, ss)
    ensures Descending(d, DearestFirst(d, ss))
    decreases ss
  {
    hide SeatOrder;
    if ss != [] {
      DearestFirstDescends(d, ss[1..]);
      forall x | x in ss[1..]
        ensures SeatOrder(d, ss[0]) <= SeatOrder(d, x)
      {
        var k :| 0 <= k < |ss[1..]| && ss[1..][k] == x;
        assert ss[k + 1] == x;
      }
      InsertDescends(d, ss[0], DearestFirst(d, ss[1..]));
    }
  }

  method FindDowngrade(p: Policy, d: Decision) returns (found: Option<Seat>)
    ensures found.None? ==> NoDowngrade(p, d)
    ensures found.Some? ==>
              && HasSeat(d, found.value) && Replacement(p, d, found.value).Some?
              && forall t | HasSeat(d, t) && Replacement(p, d, t).Some? :: TakenBefore(d, found.value, t)
  {
    hide Replacement, Seats, DearestFirst, At, SeatOrder;
    SeatsAreAll(d);
    SeatsInOrder(d);
    DearestFirstDescends(d, Seats(d));
    var ordered := DearestFirst(d, Seats(d));
    for i := 0 to |ordered|
      invariant forall k | 0 <= k < i :: Replacement(p, d, ordered[k]).None?
    {
      if Replacement(p, d, ordered[i]).Some? {
        forall t | HasSeat(d, t) && Replacement(p, d, t).Some?
          ensures TakenBefore(d, ordered[i], t)
        {
          assert t in ordered;
          var k :| 0 <= k < |ordered| && ordered[k] == t;
          assert k == i || TakenBefore(d, ordered[i], ordered[k]);
        }
        return Some(ordered[i]);
      }
    }
    forall s | HasSeat(d, s)
      ensures Replacement(p, d, s).None?
    {
      assert s in ordered;
    }
    found := None;
  }

  method OnePass(p: Policy, d: Decision) returns (step: Option<Step>, d': Decision)
    ensures step.Some? ==> Pass(p, d, d', step.value)
    ensures step.None? ==> Stuck(p, d) && d' == d
  {
    hide Replacement, NoDowngrade;
    var found := FindDowngrade(p, d);
    if found.Some? {
      var s := found.value;
      var x := Replacement(p, d, s).value;
      d' := Reseat(d, s, x);
      step := Some(Downgraded(s.Role(), At(d, s).model, x.model, At(d, s).budget, x.budget));
      assert DowngradePass(p, d, d', step.value, s);
    } else if CodeReview !in p.locked && |d.codeReviewers| > 1 {
      var gone := d.codeReviewers[|d.codeReviewers| - 1];
      d' := d.(codeReviewers := d.codeReviewers[..|d.codeReviewers| - 1]);
      step := Some(Dropped(CodeReview, gone.model, gone.budget));
    } else if PlanReview !in p.locked && |d.planReviewers| > 1 {
      var gone := d.planReviewers[|d.planReviewers| - 1];
      d' := d.(planReviewers := d.planReviewers[..|d.planReviewers| - 1]);
      step := Some(Dropped(PlanReview, gone.model, gone.budget));
    } else {
      d', step := d, None;
    }
  }

  /** `steps` are passes, each made while over the target, that lead from `d` to `out`. */
  ghost predicate Passes(p: Policy, cap: real, d: Decision, steps: seq<Step>, out: Decision)
    decreases steps
  {
    if steps == [] then out == d
    else exists mid :: Passes(p, cap, d, steps[..|steps| - 1], mid) && Total(mid) > cap
                       && Pass(p, mid, out, steps[|steps| - 1])
  }

  /** `_enforce_budget`. */
  method EnforceBudget(p: Policy, d: Decision, cap: real) returns (out: Decision, steps: seq<Step>)
    requires PolicyOk(p)
    ensures Passes(p, cap, d, steps, out)
    // preflight, pinned roles, panels, floors and eligibility
    ensures Kept(p, d, out)
    // the ledger accounts for the whole difference
    ensures Total(d) - Total(out) == Ledger(steps)
    ensures |steps| <= 10 && Weight(p, out) + |steps| <= Weight(p, d)
    // stopping early means the target is met or nothing permitted is left
    ensures |steps| < 10 ==> Total(out) <= cap || Stuck(p, out)
  {
    hide Kept, Pass, Total, Weight, Stuck, PolicyOk;
    out, steps := d, [];
    KeptAtFirst(p, d);
    while |steps| < 10 && Total(out) > cap
      invariant |steps| <= 10
      invariant Passes(p, cap, d, steps, out) && Kept(p, d, out)
      invariant Total(d) - Total(out) == Ledger(steps)
      invariant Weight(p, out) + |steps| <= Weight(p, d)
      decreases 10 - |steps|
    {
      var step, next := OnePass(p, out);
      if step.None? {
        return;
      }
      PassBooks(p, out, next, step.value);
      PassKeeps(p, d, out, next, step.value);
      assert (steps + [step.value])[..|steps|] == steps;
      out, steps := next, steps + [step.value];
    }
  }

  lemma KeptAtFirst(p: Policy, d: Decision)
    ensures Kept(p, d, d)
  {
  }

  /** What the locks, panels and floors mean for a finished decision. */
  lemma KeptMeans(p: Policy, d: Decision, out: Decision)
    requires PolicyOk(p) && Kept(p, d, out)
    ensures out.preflight == d.preflight
    ensures Planner in p.locked ==> out.planner == d.planner
    ensures Dev in p.locked ==> out.dev == d.dev
    ensures PlanReview in p.locked ==> out.planReviewers == d.planReviewers
    ensures CodeReview in p.locked ==> out.codeReviewers == d.codeReviewers
    ensures d.planReviewers != [] ==> out.planReviewers != []
    ensures d.codeReviewers != [] ==> out.codeReviewers != []
    ensures out.dev != d.dev ==>
              exists a :: a in PoolFor(p, Dev) && ProfileOf(a) == out.dev && a.devCapable
                          && (KnownTier(a.tier) ==> TierRank(a.tier) >= TierRank(p.devFloor))
    ensures out.planner != d.planner ==>
              exists a :: a in PoolFor(p, Planner) && ProfileOf(a) == out.planner
                          && (p.plannerFloor.Some? && KnownTier(p.plannerFloor.value) && KnownTier(a.tier) ==>
                                TierRank(a.tier) >= TierRank(p.plannerFloor.value))
    ensures |out.planReviewers| <= |d.planReviewers| && |out.codeReviewers| <= |d.codeReviewers|
    ensures forall i | 0 <= i < |out.planReviewers| ::
              out.planReviewers[i] == d.planReviewers[i] || FromPool(p, PlanReview, out.planReviewers[i])
    ensures forall i | 0 <= i < |out.codeReviewers| ::
              out.codeReviewers[i] == d.codeReviewers[i] || FromPool(p, CodeReview, out.codeReviewers[i])
  {
    hide PoolFor, ByName;
    assert HasSeat(out, PlannerSeat) && HasSeat(out, DevSeat);
    PoolForProps(p, Dev);
    PoolForProps(p, Planner);
    forall i | 0 <= i < |out.planReviewers|
      ensures SeatKept(p, PlanSeat(i), d.planReviewers[i], out.planReviewers[i])
    {
      assert HasSeat(out, PlanSeat(i));
    }
    forall i | 0 <= i < |out.codeReviewers|
      ensures SeatKept(p, CodeSeat(i), d.codeReviewers[i], out.codeReviewers[i])
    {
      assert HasSeat(out, CodeSeat(i));
    }
    if out.dev != d.dev {
      assert SeatKept(p, DevSeat, d.dev, out.dev);
      var a :| a in PoolFor(p, Dev) && ProfileOf(a) == out.dev;
      ByNameFinds(p.agents, a);
    }
    if out.planner != d.planner {
      assert SeatKept(p, PlannerSeat, d.planner, out.planner);
      var a :| a in PoolFor(p, Planner) && ProfileOf(a) == out.planner;
      ByNameFinds(p.agents, a);
    }
  }
}
