/** Model assignment for one story (`assign_models` in `assignment.py`): the eligibility pools,
    the refusals, each role's first pick and fallbacks, the exploration override and the budget
    pass, as one pipeline. */
module Assignment {
  import opened Common
  import opened Agents
  import opened Budget
  import Reviewers
  import Explore = Exploration
  import DevExploration

  /** Inputs of one assignment. Records, account answers and profile signals arrive resolved:
      `absent` names the agents a role's capability record rules out, `unavailable` those the
      account cannot invoke, `devScores` orders dev candidates (lower is better), and the `low`
      sets are the agents each rerank puts last. */
  datatype Request = Request(
    agents: seq<Agent>, absent: map<Role, set<string>>, unavailable: set<string>, pins: map<Role, Profile>,
    devTier: string, planTier: string, preflightTier: string, promoted: bool,
    devScores: map<string, real>, lowPreflight: set<string>, lowPlanner: set<string>,
    panel: nat, crossProvider: bool, unhealthy: set<string>,
    planLowCompletion: set<string>, planLowValue: set<string>,
    codeLowCompletion: set<string>, codeLowValue: set<string>,
    adaptive: bool, evidence: map<string, Explore.Aggregate>, exploration: DevExploration.Config,
    sprintBudget: Option<int>, drawn: string, cap: Option<real>)

  datatype Refusal = EmptyPool | NoAvailableModel(role: Role) | NoCapableCandidate(role: Role)

  datatype Result = Routed(decision: Decision, steps: seq<Step>) | Refused(refusal: Refusal)

  const ROLES := [Preflight, Planner, Dev, PlanReview, CodeReview]

  // ----- Pools and refusals -----

  predicate Absent(q: Request, role: Role, a: Agent) { role in q.absent && a.name in q.absent[role] }

  /** Eligible for the role as far as record and account go. */
  predicate Recorded(q: Request, role: Role, a: Agent) { !Absent(q, role, a) && a.name !in q.unavailable }

  predicate EligibleFor(q: Request, role: Role, a: Agent) { Recorded(q, role, a) && (role.Dev? ==> a.devCapable) }

  function RecordedPool(q: Request, role: Role): seq<Agent> {
    Filter(q.agents, (a: Agent) => Recorded(q, role, a))
  }

  function RolePool(q: Request, role: Role): seq<Agent> {
    Filter(q.agents, (a: Agent) => EligibleFor(q, role, a))
  }

  lemma RolePoolMembers(q: Request, role: Role)
    ensures forall a :: a in RolePool(q, role) <==> a in q.agents && EligibleFor(q, role, a)
    ensures NamesDistinct(q.agents) ==> NamesDistinct(RolePool(q, role))
  {
    FilterMembers(q.agents, (a: Agent) => EligibleFor(q, role, a));
    if NamesDistinct(q.agents) {
      FilterNamesDistinct(q.agents, (a: Agent) => EligibleFor(q, role, a));
    }
  }

  predicate AnyUnavailable(q: Request) { exists a | a in q.agents :: a.name in q.unavailable }
  predicate AnyAbsent(q: Request, role: Role) { exists a | a in q.agents :: Absent(q, role, a) }

  /** The account check empties the role's pool. */
  predicate Unreachable(q: Request, role: Role) { AnyUnavailable(q) && RolePool(q, role) == [] }

  /** The role is pinned to a model the account cannot invoke. */
  predicate PinUnreachable(q: Request, role: Role) {
    role in q.pins && exists a | a in q.agents :: a.name in q.unavailable && a.identity == q.pins[role].identity
  }

  predicate RecordEmpties(q: Request, role: Role) {
    AnyAbsent(q, role) && RecordedPool(q, role) == [] && role !in q.pins
  }

  /** The dev pin names a model declared unfit for dev. */
  predicate PinIncapable(q: Request) {
    Dev in q.pins && exists a | a in q.agents :: !a.devCapable && a.identity == q.pins[Dev].identity
  }

  /** The tests that run over all roles, each to its end before the next. */
  datatype Test = AccountTest | PinTest | RecordTest

  predicate Fails(q: Request, test: Test, role: Role) {
    match test
    case AccountTest => Unreachable(q, role)
    case PinTest => PinUnreachable(q, role)
    case RecordTest => RecordEmpties(q, role)
  }

  /** The first role, from the i-th on, that fails a test. */
  function FirstFailing(q: Request, test: Test, i: nat): (r: Option<Role>)
    requires i <= |ROLES|
    ensures r.None? <==> forall j | i <= j < |ROLES| :: !Fails(q, test, ROLES[j])
    ensures r.Some? ==>
      exists j | i <= j < |ROLES| :: ROLES[j] == r.value && Fails(q, test, ROLES[j]) && forall k | i <= k < j :: !Fails(q, test, ROLES[k])
    decreases |ROLES| - i
  {
    if i == |ROLES| then None
    else if Fails(q, test, ROLES[i]) then Some(ROLES[i])
    else FirstFailing(q, test, i + 1)
  }

  /** The refusal `assign_models` raises before any selection, if any. */
  function Refuse(q: Request): Option<Refusal> {
    if q.agents == [] then Some(EmptyPool)
    else
      var unreachable := FirstFailing(q, AccountTest, 0);
      var pin := FirstFailing(q, PinTest, 0);
      var emptied := FirstFailing(q, RecordTest, 0);
      if unreachable.Some? then Some(NoAvailableModel(unreachable.value))
      else if pin.Some? then Some(NoAvailableModel(pin.value))
      else if emptied.Some? then Some(NoCapableCandidate(emptied.value))
      else if RolePool(q, Dev) == [] && Dev !in q.pins then Some(NoCapableCandidate(Dev))
      else if PinIncapable(q) then Some(NoCapableCandidate(Dev))
      else None
  }

  // ----- The refusals, from the request alone -----

  /** No record of the role, and no account answer, rules the agent out. */
  ghost predicate LeftFor(q: Request, role: Role, a: Agent) {
    a in q.agents && !(role in q.absent && a.name in q.absent[role]) && a.name !in q.unavailable
  }

  /** The account rules somebody out, and nobody is left for the role (and fit, for dev). */
  ghost predicate AccountEmpties(q: Request, role: Role) {
    (exists a :: a in q.agents && a.name in q.unavailable) && forall a | LeftFor(q, role, a) :: role == Dev && !a.devCapable
  }

  /** The role is pinned to the identity of an agent the account cannot invoke. */
  ghost predicate PinnedOutOfReach(q: Request, role: Role) {
    role in q.pins && exists a :: a in q.agents && a.name in q.unavailable && a.identity == q.pins[role].identity
  }

  /** The role is not pinned, its record rules somebody out, and nobody is left. */
  ghost predicate RecordLeavesNobody(q: Request, role: Role) {
    && role !in q.pins && (exists a :: a in q.agents && role in q.absent && a.name in q.absent[role])
    && forall a :: !LeftFor(q, role, a)
  }

  /** Dev is not pinned and nobody left for it is declared fit. */
  ghost predicate NobodyFitForDev(q: Request) { Dev !in q.pins && forall a | LeftFor(q, Dev, a) :: !a.devCapable }

  /** Dev is pinned to the identity of an agent declared unfit. */
  ghost predicate PinnedUnfit(q: Request) {
    Dev in q.pins && exists a :: a in q.agents && !a.devCapable && a.identity == q.pins[Dev].identity
  }

  function RoleOrder(r: Role): nat {
    match r
    case Preflight => 0
    case Planner => 1
    case Dev => 2
    case PlanReview => 3
    case CodeReview => 4
  }

  /** When a story may be routed at all. */
  ghost predicate MayRoute(q: Request) {
    && q.agents != [] && (forall r: Role :: !AccountEmpties(q, r)) && (forall r: Role :: !PinnedOutOfReach(q, r))
    && (forall r: Role :: !RecordLeavesNobody(q, r)) && !NobodyFitForDev(q) && !PinnedUnfit(q)
  }

  /** Which refusal a story gets, the first of these that applies. */
  ghost predicate RefusalIs(q: Request, why: Refusal) {
    if q.agents == [] then why == EmptyPool
    else if exists r: Role :: AccountEmpties(q, r) then
      why.NoAvailableModel? && AccountEmpties(q, why.role) && forall r: Role | RoleOrder(r) < RoleOrder(why.role) :: !AccountEmpties(q, r)
    else if exists r: Role :: PinnedOutOfReach(q, r) then
      why.NoAvailableModel? && PinnedOutOfReach(q, why.role) && forall r: Role | RoleOrder(r) < RoleOrder(why.role) :: !PinnedOutOfReach(q, r)
    else if exists r: Role :: RecordLeavesNobody(q, r) then
      why.NoCapableCandidate? && RecordLeavesNobody(q, why.role) && forall r: Role | RoleOrder(r) < RoleOrder(why.role) :: !RecordLeavesNobody(q, r)
    else why == NoCapableCandidate(Dev) && (NobodyFitForDev(q) || PinnedUnfit(q))
  }

  lemma RolePoolIsEmpty(q: Request, role: Role)
    ensures RolePool(q, role) == [] <==> forall a | LeftFor(q, role, a) :: role == Dev && !a.devCapable
    ensures RecordedPool(q, role) == [] <==> forall a :: !LeftFor(q, role, a)
  {
    hide Filter;
    FilterMembers(q.agents, (a: Agent) => EligibleFor(q, role, a));
    FilterMembers(q.agents, (a: Agent) => Recorded(q, role, a));
    assert forall a :: a in RolePool(q, role) <==> LeftFor(q, role, a) && (role == Dev ==> a.devCapable);
    assert forall a :: a in RecordedPool(q, role) <==> LeftFor(q, role, a);
    HasMember(RolePool(q, role));
    HasMember(RecordedPool(q, role));
  }

  /** The filtered pool of a role, from the request alone. */
  lemma RolePoolIs(q: Request, role: Role, a: Agent)
    ensures a in RolePool(q, role) <==> LeftFor(q, role, a) && (role == Dev ==> a.devCapable)
  {
    RolePoolMembers(q, role);
  }

  lemma RoleTests(q: Request, r: Role)
    ensures Unreachable(q, r) <==> AccountEmpties(q, r)
    ensures PinUnreachable(q, r) <==> PinnedOutOfReach(q, r)
    ensures RecordEmpties(q, r) <==> RecordLeavesNobody(q, r)
  {
    hide RolePool, RecordedPool, LeftFor;
    RolePoolIsEmpty(q, r);
  }

  lemma RolesInOrder(i: nat)
    requires i < |ROLES|
    ensures RoleOrder(ROLES[i]) == i && forall r: Role | RoleOrder(r) < i :: r in ROLES[..i]
  {
    forall r: Role | RoleOrder(r) < i
      ensures r in ROLES[..i]
    {
      assert ROLES[..i][RoleOrder(r)] == r;
    }
  }

  lemma FirstFailingIs(q: Request, test: Test)
    ensures var r := FirstFailing(q, test, 0);
            && (r.None? <==> forall x: Role :: !Fails(q, test, x))
            && (r.Some? ==> Fails(q, test, r.value) && forall x: Role | RoleOrder(x) < RoleOrder(r.value) :: !Fails(q, test, x))
  {
    hide FirstFailing, Fails;
    var r := FirstFailing(q, test, 0);
    if r.None? {
      forall x: Role
        ensures !Fails(q, test, x)
      {
        EveryRole(x);
        var j :| 0 <= j < |ROLES| && ROLES[j] == x;
      }
    }
    if r.Some? {
      var i :| 0 <= i < |ROLES| && ROLES[i] == r.value && Fails(q, test, ROLES[i]) && forall k | 0 <= k < i :: !Fails(q, test, ROLES[k]);
      RolesInOrder(i);
      forall x: Role | RoleOrder(x) < i
        ensures !Fails(q, test, x)
      {
        var k :| 0 <= k < i && ROLES[..i][k] == x;
        assert ROLES[k] == x;
      }
    }
  }

  /** The refusal function says exactly that. */
  lemma RefuseIs(q: Request)
    ensures Refuse(q).None? <==> MayRoute(q)
    ensures Refuse(q).Some? ==> RefusalIs(q, Refuse(q).value)
  {
    hide FirstFailing, AccountEmpties, PinnedOutOfReach, RecordLeavesNobody, Unreachable, PinUnreachable, RecordEmpties, RolePool, LeftFor;
    forall r: Role
      ensures Fails(q, AccountTest, r) <==> AccountEmpties(q, r)
      ensures Fails(q, PinTest, r) <==> PinnedOutOfReach(q, r)
      ensures Fails(q, RecordTest, r) <==> RecordLeavesNobody(q, r)
    {
      RoleTests(q, r);
    }
    FirstFailingIs(q, AccountTest);
    FirstFailingIs(q, PinTest);
    FirstFailingIs(q, RecordTest);
    RolePoolIsEmpty(q, Dev);
  }

  lemma EveryRole(r: Role)
    ensures r in ROLES
  {
    assert ROLES[0] == Preflight && ROLES[1] == Planner && ROLES[2] == Dev
           && ROLES[3] == PlanReview && ROLES[4] == CodeReview;
  }

  /** Past the refusals, no role that is left to selection has an empty pool. */
  lemma PoolsAreNonempty(q: Request, role: Role)
    requires Refuse(q).None? && role !in q.pins
    ensures RolePool(q, role) != []
  {
    hide Refuse, RolePool, RecordedPool, LeftFor, PinnedOutOfReach, PinnedUnfit;
    RefuseIs(q);
    RolePoolIsEmpty(q, role);
    assert !AccountEmpties(q, role) && !RecordLeavesNobody(q, role) && !NobodyFitForDev(q);
    assert q.agents[0] in q.agents;
    LeftOrNot(q, role, q.agents[0]);
  }

  lemma LeftOrNot(q: Request, role: Role, a: Agent)
    requires a in q.agents
    ensures LeftFor(q, role, a) || (role in q.absent && a.name in q.absent[role]) || a.name in q.unavailable
  {
  }

  // ----- Picks -----

  function Score(scores: map<string, real>, a: Agent): real {
    if a.name in scores then scores[a.name] else 0.0
  }

  function InsertByScore(scores: map<string, real>, a: Agent, s: seq<Agent>): seq<Agent> {
    if s == [] || Score(scores, a) <= Score(scores, s[0]) then [a] + s
    else [s[0]] + InsertByScore(scores, a, s[1..])
  }

  /** The profile rerank: a stable sort on the evidence order. */
  function SortByScore(scores: map<string, real>, s: seq<Agent>): seq<Agent> {
    if s == [] then [] else InsertByScore(scores, s[0], SortByScore(scores, s[1..]))
  }

  lemma {:induction false} InsertByScoreMembers(scores: map<string, real>, a: Agent, s: seq<Agent>)
    ensures forall x :: x in InsertByScore(scores, a, s) <==> x == a || x in s
    ensures InsertByScore(scores, a, s) != []
    decreases s
  {
    if s != [] {
      InsertByScoreMembers(scores, a, s[1..]);
    }
  }

  lemma {:induction false} SortByScoreMembers(scores: map<string, real>, s: seq<Agent>)
    ensures forall x :: x in SortByScore(scores, s) <==> x in s
    decreases s
  {
    if s != [] {
      SortByScoreMembers(scores, s[1..]);
      InsertByScoreMembers(scores, s[0], SortByScore(scores, s[1..]));
    }
  }

  /** No dearer and no worse scored than `b`: score first, then the budget. */
  predicate NoWorse(scores: map<string, real>, a: Agent, b: Agent) {
    Score(scores, a) < Score(scores, b) || (Score(scores, a) == Score(scores, b) && a.budget <= b.budget)
  }

  ghost predicate BestFirst(scores: map<string, real>, s: seq<Agent>) {
    forall i, j | 0 <= i < j < |s| :: NoWorse(scores, s[i], s[j])
  }

  lemma {:induction false} InsertKeepsBest(scores: map<string, real>, a: Agent, s: seq<Agent>)
    requires BestFirst(scores, s) && forall b | b in s :: a.budget <= b.budget
    ensures BestFirst(scores, InsertByScore(scores, a, s))
    decreases s
  {
    if s != [] {
      if Score(scores, a) <= Score(scores, s[0]) {
        assert forall j | 0 <= j < |s| :: NoWorse(scores, s[0], s[j]);
        assert forall j | 0 <= j < |s| :: s[j] in s && NoWorse(scores, a, s[j]);
      } else {
        var rest := InsertByScore(scores, a, s[1..]);
        InsertKeepsBest(scores, a, s[1..]);
        InsertByScoreMembers(scores, a, s[1..]);
        forall j | 0 <= j < |rest|
          ensures NoWorse(scores, s[0], rest[j])
        {
          assert rest[j] in rest;
        }
      }
    }
  }

  /** Sorting agents listed cheapest first leaves equal scores cheapest first. */
  lemma {:induction false} SortIsBestFirst(scores: map<string, real>, s: seq<Agent>)
    requires CostSorted(s)
    ensures BestFirst(scores, SortByScore(scores, s))
    decreases s
  {
    if s != [] {
      SortIsBestFirst(scores, s[1..]);
      SortByScoreMembers(scores, s[1..]);
      InsertKeepsBest(scores, s[0], SortByScore(scores, s[1..]));
    }
  }

  lemma {:induction false} FilterLeader(scores: map<string, real>, s: seq<Agent>, keep: Agent -> bool)
    requires BestFirst(scores, s) && Filter(s, keep) != []
    ensures var a := Filter(s, keep)[0]; a in s && keep(a) && forall b | b in s && keep(b) :: NoWorse(scores, a, b)
    decreases s
  {
    if s != [] && !keep(s[0]) {
      FilterLeader(scores, s[1..], keep);
    }
  }

  lemma {:induction false} FilterKeepsCost(s: seq<Agent>, keep: Agent -> bool)
    requires CostSorted(s)
    ensures CostSorted(Filter(s, keep))
    decreases s
  {
    if s != [] {
      FilterKeepsCost(s[1..], keep);
      FilterMembers(s[1..], keep);
      var rest := Filter(s[1..], keep);
      forall j | 0 <= j < |rest|
        ensures !Cheaper(rest[j], s[0])
      {
        assert rest[j] in rest;
        var k :| 0 <= k < |s[1..]| && s[1..][k] == rest[j];
        assert s[k + 1] == rest[j];
      }
    }
  }

  /** Preferred when both are ready at the tier: reliable first, then score, then budget. */
  predicate Preferred(scores: map<string, real>, low: set<string>, a: Agent, b: Agent) {
    (a.name in low ==> b.name in low) && ((a.name in low <==> b.name in low) ==> NoWorse(scores, a, b))
  }

  lemma LeaderIsPreferred(scores: map<string, real>, s: seq<Agent>, low: set<string>)
    requires BestFirst(scores, s) && Reviewers.LowLast(s, low) != []
    ensures var a := Reviewers.LowLast(s, low)[0];
            a in s && forall b | b in s :: Preferred(scores, low, a, b)
  {
    hide BestFirst, NoWorse, Filter;
    var steady, shaky := (a: Agent) => a.name !in low, (a: Agent) => a.name in low;
    FilterMembers(s, steady);
    FilterMembers(s, shaky);
    assert Reviewers.LowLast(s, low) == Filter(s, steady) + Filter(s, shaky);
    if Filter(s, steady) != [] {
      FilterLeader(scores, s, steady);
    } else {
      FilterLeader(scores, s, shaky);
      assert forall b | b in s :: b.name in low;
    }
  }

  /** `_pick_agent`: the ready agent of the tier nobody else there is preferred to. */
  method PickAgent(pool: seq<Agent>, tier: string, scores: map<string, real>, low: set<string>)
    returns (pick: Option<Agent>)
    ensures pick.Some? ==> pick.value in pool && pick.value.tier == tier && pick.value.authed
    ensures pick.Some? ==>
              forall b | b in pool && b.tier == tier && b.authed :: Preferred(scores, low, pick.value, b)
    ensures pick.None? <==> forall a | a in pool :: !(a.tier == tier && a.authed)
  {
    hide ByTier, Filter, SortByScore, Reviewers.LowLast, CostSorted, BestFirst, Preferred;
    var ready := Filter(ByTier(pool, tier), (a: Agent) => a.authed);
    ByTierProps(pool, tier);
    FilterMembers(ByTier(pool, tier), (a: Agent) => a.authed);
    FilterKeepsCost(ByTier(pool, tier), (a: Agent) => a.authed);
    var scored := SortByScore(scores, ready);
    SortByScoreMembers(scores, ready);
    SortIsBestFirst(scores, ready);
    var ranked := Reviewers.Rerank(scored, low);
    Reviewers.LowLastIsPermutation(scored, low);
    if ranked == [] {
      forall a | a in pool
        ensures !(a.tier == tier && a.authed)
      {
        assert a in ready ==> a in ranked;
      }
      return None;
    }
    assert ranked[0] in ranked;
    LeaderIsPreferred(scores, scored, low);
    pick := Some(ranked[0]);
  }

  predicate MeetsFloor(a: Agent, floor: string) { KnownTier(a.tier) && TierRank(a.tier) >= TierRank(floor) }

  /** `_promote_tier`. */
  function Promote(tier: string): string {
    if tier == "cheap" then "mid" else "strong"
  }

  /** One tier up, as far as the ladder goes; a tier off the ladder goes to its top. */
  lemma PromoteIs(tier: string)
    ensures KnownTier(Promote(tier))
    ensures TierRank(Promote(tier)) == if KnownTier(tier) && TierRank(tier) < 2 then TierRank(tier) + 1 else 2
  {
  }

  /** The highest tier rank among ready agents of a known tier, 0 when there is none. */
  function BestRank(agents: seq<Agent>): nat {
    if agents == [] then 0
    else
      var rest := BestRank(agents[1..]);
      if KnownTier(agents[0].tier) && TierRank(agents[0].tier) > rest then TierRank(agents[0].tier) else rest
  }

  method Where(s: seq<Agent>, keep: Agent -> bool) returns (out: seq<Agent>)
    ensures forall a :: a in out <==> a in s && keep(a)
    ensures out == [] <==> forall a | a in s :: !keep(a)
  {
    FilterMembers(s, keep);
    out := Filter(s, keep);
    if out != [] {
      assert out[0] in out;
    }
  }

  predicate Ready(a: Agent, tier: string) { a.authed && a.tier == tier }

  predicate AtFloor(a: Agent, floor: string, authed: bool) { MeetsFloor(a, floor) && (authed ==> a.authed) }

  ghost predicate PreferredReady(a: Agent, pool: seq<Agent>, tier: string, scores: map<string, real>) {
    Ready(a, tier) && forall b | b in pool && Ready(b, tier) :: Preferred(scores, {}, a, b)
  }

  ghost predicate SomeoneAtFloor(pool: seq<Agent>, floor: string, authed: bool) {
    exists a :: a in pool && AtFloor(a, floor, authed)
  }

  ghost predicate CheapestAtFloor(a: Agent, pool: seq<Agent>, floor: string, authed: bool) {
    a in pool && AtFloor(a, floor, authed) && forall b | b in pool && AtFloor(b, floor, authed) :: a.budget <= b.budget
  }

  /** No ready agent of the pool stands on a higher tier, and none on the same tier is cheaper. */
  ghost predicate HighestReady(a: Agent, pool: seq<Agent>) {
    && a in pool && a.authed
    && (forall b | b in pool && b.authed && KnownTier(b.tier) ::
          KnownTier(a.tier) && TierRank(b.tier) <= TierRank(a.tier))
    && (forall b | b in pool && b.authed && (b.tier == a.tier || !KnownTier(a.tier)) :: a.budget <= b.budget)
  }

  /** The dev pick, fallback by fallback: the effective tier, then the cheapest ready agent at
      the declared floor, then an unready one there; below the floor only when the pool has
      nothing at it, and then on the highest tier that is ready. */
  ghost predicate DevPick(dev: Agent, pool: seq<Agent>, baseTier: string, promoted: bool, scores: map<string, real>) {
    var tier := if promoted then Promote(baseTier) else baseTier;
    && dev in pool
    && if exists a :: a in pool && Ready(a, tier) then PreferredReady(dev, pool, tier, scores)
       else if SomeoneAtFloor(pool, baseTier, true) then CheapestAtFloor(dev, pool, baseTier, true)
       else if SomeoneAtFloor(pool, baseTier, false) then CheapestAtFloor(dev, pool, baseTier, false)
       else if exists a :: a in pool && a.authed then HighestReady(dev, pool)
       else forall b | b in pool :: dev.budget <= b.budget
  }

  method ChooseDev(pool: seq<Agent>, baseTier: string, promoted: bool, scores: map<string, real>)
    returns (dev: Agent)
    requires pool != [] && KnownTier(baseTier)
    ensures DevPick(dev, pool, baseTier, promoted, scores)
  {
    hide Preferred, HighestReady, MeetsFloor, Promote, SomeoneAtFloor, CheapestAtFloor;
    var tier := if promoted then Promote(baseTier) else baseTier;
    var pick := PickAgent(pool, tier, scores, {});
    if pick.Some? {
      return pick.value;
    }
    var authed := Where(pool, (a: Agent) => a.authed);
    var floorAuthed := CheapestOver(pool, baseTier, true);
    if floorAuthed.Some? {
      return floorAuthed.value;
    }
    var floorAny := CheapestOver(pool, baseTier, false);
    if floorAny.Some? {
      dev := floorAny.value;
    } else if authed != [] {
      dev := ChooseHighest(pool, authed);
      HighestIsMember(dev, pool);
    } else {
      dev := CheapestOf(pool);
    }
  }

  /** The cheapest agent that meets the floor, ready or not, if there is one. */
  method CheapestOver(pool: seq<Agent>, floor: string, authed: bool) returns (a: Option<Agent>)
    ensures a.Some? <==> SomeoneAtFloor(pool, floor, authed)
    ensures a.Some? ==> a.value in pool && CheapestAtFloor(a.value, pool, floor, authed)
  {
    var eligible := Where(pool, (a: Agent) => AtFloor(a, floor, authed));
    if eligible == [] {
      return None;
    }
    assert eligible[0] in eligible;
    return Some(CheapestOf(eligible));
  }

  lemma HighestIsMember(a: Agent, pool: seq<Agent>)
    requires HighestReady(a, pool)
    ensures a in pool
  {
  }

  /** The pick is below the declared floor, or not ready, only when nothing better is there. */
  lemma DevPickHoldsFloor(dev: Agent, pool: seq<Agent>, baseTier: string, promoted: bool, scores: map<string, real>)
    requires DevPick(dev, pool, baseTier, promoted, scores) && KnownTier(baseTier)
    ensures MeetsFloor(dev, baseTier) || forall a | a in pool :: !MeetsFloor(a, baseTier)
    ensures (exists a :: a in pool && a.authed && MeetsFloor(a, baseTier)) ==> dev.authed
  {
    hide Preferred, HighestReady;
    if a :| a in pool && MeetsFloor(a, baseTier) {
      assert AtFloor(a, baseTier, false);
    }
    if a :| a in pool && a.authed && MeetsFloor(a, baseTier) {
      assert AtFloor(a, baseTier, true);
    }
  }

  method ChooseHighest(pool: seq<Agent>, authed: seq<Agent>) returns (dev: Agent)
    requires authed != [] && forall a :: a in authed <==> a in pool && a.authed
    ensures HighestReady(dev, pool)
  {
    var best := BestRank(authed);
    BestRankIsBest(authed);
    var bestAuthed := Where(authed, (a: Agent) => a.tier == TierAt(best));
    dev := CheapestOf(if bestAuthed != [] then bestAuthed else authed);
    TierAtRank(best);
  }

  lemma {:induction false} BestRankIsBest(agents: seq<Agent>)
    ensures forall a | a in agents && KnownTier(a.tier) :: TierRank(a.tier) <= BestRank(agents)
    ensures (exists a :: a in agents && KnownTier(a.tier)) ==>
              exists a :: a in agents && KnownTier(a.tier) && TierRank(a.tier) == BestRank(agents)
    ensures BestRank(agents) <= 2
    ensures (forall a | a in agents :: !KnownTier(a.tier)) ==> BestRank(agents) == 0
    decreases agents
  {
    if agents != [] {
      BestRankIsBest(agents[1..]);
      assert agents[0] in agents;
    }
  }

  lemma TierAtRank(rank: nat)
    requires rank <= 2
    ensures KnownTier(TierAt(rank)) && TierRank(TierAt(rank)) == rank
    ensures forall t | KnownTier(t) && TierRank(t) == rank :: t == TierAt(rank)
  {
  }

  /** `min(pool, key=-budget)`: the first of the dearest. */
  function DearestOf(options: seq<Agent>): (a: Agent)
    requires options != []
    ensures a in options && forall b | b in options :: a.budget >= b.budget
  {
    if |options| == 1 then options[0]
    else
      var rest := DearestOf(options[1..]);
      if options[0].budget >= rest.budget then options[0] else rest
  }

  /** Preflight and planner: the tier's pick, else the cheapest (preflight) or dearest (planner)
      ready agent, else of the pool. */
  ghost predicate SinglePick(a: Agent, pool: seq<Agent>, tier: string, low: set<string>, dearest: bool) {
    && a in pool && ((exists b :: b in pool && b.authed) ==> a.authed)
    && if exists b :: b in pool && Ready(b, tier) then
         Ready(a, tier) && forall b | b in pool && Ready(b, tier) :: Preferred(map[], low, a, b)
       else
         forall b | b in pool && (a.authed ==> b.authed) :: if dearest then a.budget >= b.budget else a.budget <= b.budget
  }

  method ChooseSingle(pool: seq<Agent>, tier: string, low: set<string>, dearest: bool) returns (a: Agent)
    requires pool != []
    ensures SinglePick(a, pool, tier, low, dearest)
  {
    var pick := PickAgent(pool, tier, map[], low);
    if pick.Some? {
      return pick.value;
    }
    var authed := Where(pool, (x: Agent) => x.authed);
    var from := if authed != [] then authed else pool;
    a := if dearest then DearestOf(from) else CheapestOf(from);
  }

  // ----- The pipeline -----

  /** A profile is some agent of the role's pool. */
  ghost predicate SeatedFrom(q: Request, role: Role, x: Profile) {
    exists a :: a in RolePool(q, role) && ProfileOf(a) == x
  }

  ghost predicate SeatOk(q: Request, role: Role, x: Profile) {
    if role in q.pins then x == q.pins[role] else SeatedFrom(q, role, x)
  }

  /** Every seat holds its pin, or an agent the record, the account and the dev declaration
      all leave eligible for the role. */
  ghost predicate AllEligible(q: Request, d: Decision) {
    && SeatOk(q, Preflight, d.preflight) && SeatOk(q, Planner, d.planner) && SeatOk(q, Dev, d.dev)
    && (forall x | x in d.planReviewers :: SeatOk(q, PlanReview, x))
    && (forall x | x in d.codeReviewers :: SeatOk(q, CodeReview, x))
  }

  function ProfilesOf(agents: seq<Agent>): seq<Profile> {
    seq(|agents|, i requires 0 <= i < |agents| => ProfileOf(agents[i]))
  }

  function PoliciesOf(q: Request, devFloor: string, plannerFloor: Option<string>): Policy {
    Policy(q.agents, map r | r in ROLES :: RolePool(q, r), devFloor, plannerFloor, q.pins.Keys)
  }

  /** A panel holds its pin, or what reviewer selection makes of the role's pool. */
  ghost predicate PanelSeated(q: Request, role: Role, exclude: string, lowCompletion: set<string>, lowValue: set<string>,
                              panel: seq<Profile>)
  {
    if role in q.pins then panel == [q.pins[role]]
    else exists selected :: panel == ProfilesOf(selected) && (forall a | a in selected :: a in RolePool(q, role)) &&
           Reviewers.GoodPanel(selected, RolePool(q, role), q.panel, q.crossProvider, Some(exclude), q.unhealthy,
                               lowCompletion, lowValue)
  }

  method SeatPanel(q: Request, role: Role, exclude: string, lowCompletion: set<string>, lowValue: set<string>)
    returns (panel: seq<Profile>)
    requires NamesDistinct(q.agents)
    ensures PanelSeated(q, role, exclude, lowCompletion, lowValue, panel)
    ensures forall x | x in panel :: SeatOk(q, role, x)
  {
    hide Reviewers.GoodPanel, RolePool;
    if role in q.pins {
      return [q.pins[role]];
    }
    RolePoolMembers(q, role);
    var selected, _, _, _ := Reviewers.SelectReviewers(RolePool(q, role), q.panel, q.crossProvider, Some(exclude),
                                                       q.unhealthy, lowCompletion, lowValue);
    panel := ProfilesOf(selected);
    forall x | x in panel
      ensures SeatedFrom(q, role, x)
    {
      var i :| 0 <= i < |panel| && panel[i] == x;
      assert selected[i] in selected;
    }
  }

  /** A single seat holds its pin, or the pick from the role's pool. */
  ghost predicate SingleSeated(q: Request, role: Role, tier: string, low: set<string>, dearest: bool, x: Profile) {
    if role in q.pins then x == q.pins[role]
    else exists a :: ProfileOf(a) == x && SinglePick(a, RolePool(q, role), tier, low, dearest)
  }

  method SeatSingle(q: Request, role: Role, tier: string, low: set<string>, dearest: bool) returns (x: Profile)
    requires Refuse(q).None?
    ensures SingleSeated(q, role, tier, low, dearest, x)
    ensures SeatOk(q, role, x)
  {
    hide Refuse, RolePool;
    if role in q.pins {
      return q.pins[role];
    }
    PoolsAreNonempty(q, role);
    var a := ChooseSingle(RolePool(q, role), tier, low, dearest);
    x := ProfileOf(a);
  }

  /** The agent exploration routes the dev seat to instead of `dev`, if any. */
  function Explored(q: Request, dev: Agent): Option<Agent> {
    if !q.adaptive then None
    else DevExploration.Route(RolePool(q, Dev), dev, q.devTier, q.evidence, q.exploration, q.sprintBudget, q.drawn)
  }

  /** The exploration override is a challenger race, whose tier the budget pass must respect. */
  predicate Challenged(q: Request, dev: Agent) {
    && Explored(q, dev).Some? && q.sprintBudget.Some?
    && DevExploration.DecisionFor(DevExploration.Candidates(RolePool(q, Dev), dev), dev, q.devTier, q.evidence,
                                  q.exploration, q.sprintBudget.value, q.drawn).mode.ChallengerMode?
  }

  /** The dev seat holds its pin, or the fallback pick `dev`, or the agent exploration put in
      its place; the floor is the declared tier, or a challenger's own. */
  ghost predicate DevSeatedBy(q: Request, dev: Agent, x: Profile, floor: string, tier: Option<string>) {
    var seated := if Explored(q, dev).Some? then Explored(q, dev).value else dev;
    && DevPick(dev, RolePool(q, Dev), q.devTier, q.promoted, q.devScores)
    && x == ProfileOf(seated) && tier == Some(seated.tier)
    && floor == if Challenged(q, dev) then seated.tier else q.devTier
  }

  ghost predicate DevSeated(q: Request, x: Profile, floor: string, tier: Option<string>) {
    if Dev in q.pins then x == q.pins[Dev] && floor == q.devTier && tier.None?
    else exists dev :: DevSeatedBy(q, dev, x, floor, tier)
  }

  /** The dev seat with its exploration override; also the tier the budget pass may not go
      below, and the tier actually selected (none for a pin). */
  method SeatDev(q: Request) returns (x: Profile, floor: string, tier: Option<string>)
    requires Refuse(q).None? && KnownTier(q.devTier)
    ensures DevSeated(q, x, floor, tier)
    ensures SeatOk(q, Dev, x)
  {
    hide RolePool, Refuse, DevExploration.Route, DevPick, DevExploration.DecisionFor;
    if Dev in q.pins {
      return q.pins[Dev], q.devTier, None;
    }
    PoolsAreNonempty(q, Dev);
    var pool := RolePool(q, Dev);
    var pick := ChooseDev(pool, q.devTier, q.promoted, q.devScores);
    PickedIsMember(pick, pool, q.devTier, q.promoted, q.devScores);
    var dev := pick;
    floor := q.devTier;
    if q.adaptive {
      DevExploration.RouteStaysInPool(pool, dev, q.devTier, q.evidence, q.exploration, q.sprintBudget, q.drawn);
      var routed := DevExploration.Route(pool, dev, q.devTier, q.evidence, q.exploration, q.sprintBudget, q.drawn);
      if routed.Some? {
        RouteNeedsBudget(q, pick);
        var o := DevExploration.DecisionFor(DevExploration.Candidates(pool, dev), dev, q.devTier, q.evidence, q.exploration,
                                            q.sprintBudget.value, q.drawn);
        dev := routed.value;
        if o.mode.ChallengerMode? {
          floor := dev.tier;
        }
      }
    }
    x, tier := ProfileOf(dev), Some(dev.tier);
    assert DevSeatedBy(q, pick, x, floor, tier);
  }

  lemma PickedIsMember(dev: Agent, pool: seq<Agent>, baseTier: string, promoted: bool, scores: map<string, real>)
    requires DevPick(dev, pool, baseTier, promoted, scores)
    ensures dev in pool
  {
  }

  lemma RouteNeedsBudget(q: Request, dev: Agent)
    requires Explored(q, dev).Some?
    ensures q.sprintBudget.Some?
  {
  }

  lemma PoliciesAreOk(q: Request, devFloor: string, plannerFloor: Option<string>)
    requires NamesDistinct(q.agents)
    ensures PolicyOk(PoliciesOf(q, devFloor, plannerFloor))
    ensures forall r, x | FromPool(PoliciesOf(q, devFloor, plannerFloor), r, x) :: SeatedFrom(q, r, x)
  {
    hide RolePool, PoolFor;
    var p := PoliciesOf(q, devFloor, plannerFloor);
    forall r, a | r in p.pools && a in p.pools[r]
      ensures a in p.agents
    {
      RolePoolMembers(q, r);
    }
    forall r, x | FromPool(p, r, x)
      ensures SeatedFrom(q, r, x)
    {
      EveryRole(r);
      PoolForProps(p, r);
      var a :| a in PoolFor(p, r) && ProfileOf(a) == x;
      assert a in RolePool(q, r);
    }
  }

  /** What the budget pass is given: the filtered pools of all roles, the floors, and the pins. */
  lemma PoliciesAre(q: Request, devFloor: string, plannerFloor: Option<string>, role: Role, a: Agent)
    requires NamesDistinct(q.agents)
    ensures var p := PoliciesOf(q, devFloor, plannerFloor);
            && (a in PoolFor(p, role) <==> LeftFor(q, role, a) && (role == Dev ==> a.devCapable))
            && p.agents == q.agents && p.locked == q.pins.Keys && p.devFloor == devFloor && p.plannerFloor == plannerFloor
  {
    hide RolePool, PoolFor;
    EveryRole(role);
    PoliciesAreOk(q, devFloor, plannerFloor);
    PoolForProps(PoliciesOf(q, devFloor, plannerFloor), role);
    RolePoolIs(q, role, a);
  }

  /** Budget downgrades draw from the same pools and leave pins alone. */
  lemma BudgetKeepsEligibility(q: Request, d: Decision, out: Decision, devFloor: string, plannerFloor: Option<string>)
    requires NamesDistinct(q.agents) && AllEligible(q, d) && Kept(PoliciesOf(q, devFloor, plannerFloor), d, out)
    ensures AllEligible(q, out)
  {
    hide RolePool, PoolFor, AboveFloor, FromPool, SeatedFrom;
    var p := PoliciesOf(q, devFloor, plannerFloor);
    PoliciesAreOk(q, devFloor, plannerFloor);
    assert HasSeat(out, PlannerSeat) && HasSeat(out, DevSeat);
    forall x | x in out.planReviewers
      ensures SeatOk(q, PlanReview, x)
    {
      var i :| 0 <= i < |out.planReviewers| && out.planReviewers[i] == x;
      assert HasSeat(out, PlanSeat(i));
      assert SeatKept(p, PlanSeat(i), d.planReviewers[i], x);
      assert d.planReviewers[i] in d.planReviewers;
    }
    forall x | x in out.codeReviewers
      ensures SeatOk(q, CodeReview, x)
    {
      var i :| 0 <= i < |out.codeReviewers| && out.codeReviewers[i] == x;
      assert HasSeat(out, CodeSeat(i));
      assert SeatKept(p, CodeSeat(i), d.codeReviewers[i], x);
      assert d.codeReviewers[i] in d.codeReviewers;
    }
  }

  /** What selection makes of a request, before the budget pass: each seat its pin or the pick
      its own rule gives, panels without the model they review, and the floors for the budget. */
  ghost predicate Selected(q: Request, d: Decision, floor: string, plannerFloor: Option<string>) {
    && SingleSeated(q, Preflight, q.preflightTier, q.lowPreflight, false, d.preflight)
    && SingleSeated(q, Planner, q.planTier, q.lowPlanner, true, d.planner)
    && PanelSeated(q, PlanReview, d.planner.model, q.planLowCompletion, q.planLowValue, d.planReviewers)
    && PanelSeated(q, CodeReview, d.dev.model, q.codeLowCompletion, q.codeLowValue, d.codeReviewers)
    && exists tier ::
      && DevSeated(q, d.dev, floor, tier)
      && plannerFloor == if q.planTier == "strong" && tier == Some("strong") && Planner !in q.pins then Some("strong") else None
  }

  /** `assign_models`. `first` is the decision before the budget pass. */
  method AssignModels(q: Request)
    returns (r: Result, ghost first: Decision, ghost floor: string, ghost plannerFloor: Option<string>)
    requires NamesDistinct(q.agents) && KnownTier(q.devTier)
    ensures r.Refused? <==> Refuse(q).Some?
    ensures r.Refused? ==> Refuse(q) == Some(r.refusal)
    ensures r.Routed? <==> MayRoute(q)
    ensures r.Refused? ==> RefusalIs(q, r.refusal)
    ensures r.Routed? ==> Selected(q, first, floor, plannerFloor)
    ensures r.Routed? ==> AllEligible(q, first) && AllEligible(q, r.decision)
    ensures r.Routed? && q.cap.None? ==> r.steps == [] && r.decision == first
    // the budget pass: real passes from the first decision, under the pins and floors
    ensures r.Routed? && q.cap.Some? ==>
              && Passes(PoliciesOf(q, floor, plannerFloor), q.cap.value, first, r.steps, r.decision)
              && Kept(PoliciesOf(q, floor, plannerFloor), first, r.decision)
              && Total(first) - Total(r.decision) == Ledger(r.steps)
              && (|r.steps| < 10 ==> Total(r.decision) <= q.cap.value
                                     || Stuck(PoliciesOf(q, floor, plannerFloor), r.decision))
  {
    hide Refuse, SeatOk, Kept, Stuck, PolicyOk, Passes, SingleSeated, PanelSeated, DevSeated, MayRoute, RefusalIs;
    RefuseIs(q);
    var refusal := Refuse(q);
    if refusal.Some? {
      r := Refused(refusal.value);
      first, floor, plannerFloor := *, q.devTier, None;
      return;
    }
    var dev, devFloor, devTier := SeatDev(q);
    var preflight := SeatSingle(q, Preflight, q.preflightTier, q.lowPreflight, false);
    var planner := SeatSingle(q, Planner, q.planTier, q.lowPlanner, true);
    var planReviewers := SeatPanel(q, PlanReview, planner.model, q.planLowCompletion, q.planLowValue);
    var codeReviewers := SeatPanel(q, CodeReview, dev.model, q.codeLowCompletion, q.codeLowValue);
    var decision := Decision(preflight, planner, planReviewers, dev, codeReviewers);
    var planFloor :=
      if q.planTier == "strong" && devTier == Some("strong") && Planner !in q.pins then Some("strong") else None;
    first, floor, plannerFloor := decision, devFloor, planFloor;
    assert AllEligible(q, decision);
    if q.cap.None? {
      r := Routed(decision, []);
      return;
    }
    PoliciesAreOk(q, devFloor, planFloor);
    var out, steps := EnforceBudget(PoliciesOf(q, devFloor, planFloor), decision, q.cap.value);
    BudgetKeepsEligibility(q, decision, out, devFloor, planFloor);
    r := Routed(out, steps);
  }
}
