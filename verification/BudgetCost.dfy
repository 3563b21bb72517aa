/** When the budget pass really saves money: exactly when every lower-tier pick it can make is
    cheaper than what it replaces. */
module BudgetCost {
  import opened Common
  import opened Agents
  import opened Budget

  predicate Adjustable(p: Policy, role: Role) { !role.Preflight? && role !in p.locked }

  /** The agent a seat held by `a` goes down to: the cheapest of the nearest lower tier the
      role's pool has. */
  function LowerPick(p: Policy, role: Role, a: Agent): Option<Agent> {
    if TierRank(a.tier) == 0 then None else NearestBelow(PoolFor(p, role), TierRank(a.tier) - 1)
  }

  predicate FloorAllows(p: Policy, role: Role, a: Agent) {
    match role
    case Dev => TierRank(a.tier) >= TierRank(p.devFloor)
    case Planner =>
      p.plannerFloor.Some? && KnownTier(p.plannerFloor.value) ==> TierRank(a.tier) >= TierRank(p.plannerFloor.value)
    case _ => true
  }

  /** The condition on the policy: in every adjustable role's pool, a permitted lower-tier pick is
      cheaper than each agent it can replace. */
  ghost predicate LowerTiersAreCheaper(p: Policy) {
    forall role, a | Adjustable(p, role) && a in PoolFor(p, role) :: LowersCost(p, role, a)
  }

  ghost predicate LowersCost(p: Policy, role: Role, a: Agent) {
    var b := LowerPick(p, role, a);
    b.Some? && FloorAllows(p, role, b.value) ==> b.value.budget < a.budget
  }

  /** A seat held by an agent of its role's pool, or by a profile from outside the agents. */
  ghost predicate SeatedIn(p: Policy, role: Role, x: Profile) {
    FromPool(p, role, x) || ByName(p.agents, x.name).None?
  }

  /** A decision whose adjustable seats are all seated like that. */
  ghost predicate Seated(p: Policy, d: Decision) {
    forall s | HasSeat(d, s) && s.Role() !in p.locked :: SeatedIn(p, s.Role(), At(d, s))
  }

  /** The enforcer's replacement for a pool agent is the permitted lower pick. */
  lemma ReplacementIsLowerPick(p: Policy, d: Decision, s: Seat, a: Agent)
    requires PolicyOk(p) && HasSeat(d, s) && s.Role() !in p.locked
    requires a in PoolFor(p, s.Role()) && At(d, s) == ProfileOf(a)
    ensures var b := LowerPick(p, s.Role(), a);
            Replacement(p, d, s) == if b.Some? && FloorAllows(p, s.Role(), b.value) then Some(ProfileOf(b.value)) else None
  {
    hide PoolFor, NearestBelow, ByName;
    var role := s.Role();
    PoolForProps(p, role);
    ByNameFinds(p.agents, a);
    var b := LowerPick(p, role, a);
    if b.Some? {
      NearestBelowProps(PoolFor(p, role), TierRank(a.tier) - 1);
      ByNameFinds(p.agents, b.value);
    }
  }

  /** A profile from outside the agents is only ever replaced by a cheaper one. */
  lemma OutsiderGoesDown(p: Policy, profile: Profile, role: Role)
    requires ByName(p.agents, profile.name).None?
    ensures var x := NextCheaper(p, profile, role); x.Some? ==> x.value.budget < profile.budget
  {
    hide PoolFor;
    var pool := PoolFor(p, role);
    FilterMembers(pool, (a: Agent) => a.budget < profile.budget);
  }

  lemma DowngradeSaves(p: Policy, d: Decision, d': Decision, step: Step, s: Seat)
    requires PolicyOk(p) && Seated(p, d) && LowerTiersAreCheaper(p) && DowngradePass(p, d, d', step, s)
    ensures Total(d') < Total(d)
  {
    hide Total, PolicyOk, NextCheaper, Reseat, LowerPick, FloorAllows, AboveFloor, PoolFor;
    assert Pass(p, d, d', step);
    PassBooks(p, d, d', step);
    var role, x := s.Role(), At(d, s);
    assert SeatedIn(p, role, x);
    if ByName(p.agents, x.name).None? {
      OutsiderGoesDown(p, x, role);
    } else {
      var a :| a in PoolFor(p, role) && ProfileOf(a) == x;
      ReplacementIsLowerPick(p, d, s, a);
      assert LowersCost(p, role, a);
    }
  }

  // ----- The condition is needed -----

  /** An agent of a pool that has nowhere to go down to. */
  lemma BottomAgent(p: Policy, role: Role) returns (a: Agent)
    requires PoolFor(p, role) != []
    ensures a in PoolFor(p, role) && LowerPick(p, role, a).None?
  {
    hide NearestBelow, PoolFor;
    var pool := PoolFor(p, role);
    a := pool[0];
    while LowerPick(p, role, a).Some?
      invariant a in pool
      decreases TierRank(a.tier)
    {
      NearestBelowProps(pool, TierRank(a.tier) - 1);
      a := LowerPick(p, role, a).value;
    }
  }

  function SeatOf(role: Role): Seat
    requires !role.Preflight?
  {
    match role
    case Planner => PlannerSeat
    case Dev => DevSeat
    case PlanReview => PlanSeat(0)
    case CodeReview => CodeSeat(0)
  }

  /** The decision that seats `x` in a role and the given profiles elsewhere, with no other panel. */
  function Only(role: Role, x: Profile, preflight: Profile, planner: Profile, dev: Profile): Decision {
    Decision(preflight, if role.Planner? then x else planner, if role.PlanReview? then [x] else [],
             if role.Dev? then x else dev, if role.CodeReview? then [x] else [])
  }

  /** The seat of a planner or dev that cannot be lowered: a locked role, or a bottom agent. */
  ghost predicate Rests(p: Policy, role: Role, x: Profile) {
    role in p.locked || exists a :: a in PoolFor(p, role) && LowerPick(p, role, a).None? && ProfileOf(a) == x
  }

  lemma RestingSeat(p: Policy, role: Role, spare: Profile) returns (x: Profile)
    requires role in p.locked || PoolFor(p, role) != []
    ensures Rests(p, role, x) && (x == spare || FromPool(p, role, x))
  {
    hide PoolFor, LowerPick;
    if role in p.locked {
      x := spare;
    } else {
      var a := BottomAgent(p, role);
      x := ProfileOf(a);
    }
  }

  lemma RestingHasNoReplacement(p: Policy, d: Decision, s: Seat)
    requires PolicyOk(p) && HasSeat(d, s) && Rests(p, s.Role(), At(d, s))
    ensures Replacement(p, d, s).None? && (s.Role() !in p.locked ==> SeatedIn(p, s.Role(), At(d, s)))
  {
    hide PoolFor, LowerPick, FloorAllows, PolicyOk;
    if s.Role() !in p.locked {
      var a :| a in PoolFor(p, s.Role()) && LowerPick(p, s.Role(), a).None? && ProfileOf(a) == At(d, s);
      ReplacementIsLowerPick(p, d, s, a);
    }
  }

  /** From such a decision the enforcer lowers the one seat, to the permitted lower pick. */
  lemma OnlyPass(p: Policy, role: Role, a: Agent, b: Agent, preflight: Profile, planner: Profile, dev: Profile)
    requires PolicyOk(p) && Adjustable(p, role) && a in PoolFor(p, role)
    requires Rests(p, Planner, planner) && Rests(p, Dev, dev)
    requires LowerPick(p, role, a) == Some(b) && FloorAllows(p, role, b)
    ensures var d, step := Only(role, ProfileOf(a), preflight, planner, dev), Downgraded(role, a.model, b.model, a.budget, b.budget);
            && Seated(p, d)
            && DowngradePass(p, d, Only(role, ProfileOf(b), preflight, planner, dev), step, SeatOf(role))
  {
    hide PoolFor, LowerPick, FloorAllows, PolicyOk, Rests, NextCheaper, AboveFloor;
    var d, s := Only(role, ProfileOf(a), preflight, planner, dev), SeatOf(role);
    ReplacementIsLowerPick(p, d, s, a);
    OnlySeated(p, role, a, preflight, planner, dev);
    assert Only(role, ProfileOf(b), preflight, planner, dev) == Reseat(d, s, ProfileOf(b));
  }

  lemma OnlySeated(p: Policy, role: Role, a: Agent, preflight: Profile, planner: Profile, dev: Profile)
    requires PolicyOk(p) && Adjustable(p, role) && a in PoolFor(p, role)
    requires Rests(p, Planner, planner) && Rests(p, Dev, dev)
    ensures var d := Only(role, ProfileOf(a), preflight, planner, dev);
            && Seated(p, d) && forall t | HasSeat(d, t) && t != SeatOf(role) :: Replacement(p, d, t).None?
  {
    hide PoolFor, LowerPick, FloorAllows, PolicyOk, Rests, NextCheaper, AboveFloor, Replacement;
    var d, s := Only(role, ProfileOf(a), preflight, planner, dev), SeatOf(role);
    forall t | HasSeat(d, t) && t != s
      ensures Replacement(p, d, t).None? && (t.Role() !in p.locked ==> SeatedIn(p, t.Role(), At(d, t)))
    {
      RestingHasNoReplacement(p, d, t);
    }
    assert FromPool(p, role, ProfileOf(a));
  }

  /** A pick that is not cheaper makes a pass that does not save. */
  lemma DearPickDoesNotSave(p: Policy, role: Role, a: Agent) returns (d: Decision, d': Decision, step: Step, s: Seat)
    requires PolicyOk(p) && (forall r | r == Planner || r == Dev :: r in p.locked || PoolFor(p, r) != [])
    requires Adjustable(p, role) && a in PoolFor(p, role) && !LowersCost(p, role, a)
    ensures Seated(p, d) && DowngradePass(p, d, d', step, s) && Total(d') >= Total(d)
  {
    hide PoolFor, LowerPick, FloorAllows, PolicyOk, Rests, Total, DowngradePass, Seated;
    var x, b := ProfileOf(a), LowerPick(p, role, a).value;
    var planner := RestingSeat(p, Planner, x);
    var dev := RestingSeat(p, Dev, x);
    OnlyPass(p, role, a, b, x, planner, dev);
    d, d', s := Only(role, x, x, planner, dev), Only(role, ProfileOf(b), x, planner, dev), SeatOf(role);
    step := Downgraded(role, a.model, b.model, a.budget, b.budget);
    assert Pass(p, d, d', step);
    PassBooks(p, d, d', step);
  }

  /**
   * Every downgrade from a seated decision lowers the total if and only if the policy's lower
   * tiers are cheaper. The planner and dev pools are not empty unless the role is pinned, which
   * is what assignment guarantees.
   */
  lemma DowngradesSaveIff(p: Policy)
    requires PolicyOk(p) && (forall r | r == Planner || r == Dev :: r in p.locked || PoolFor(p, r) != [])
    ensures (forall d, d', step, s | Seated(p, d) && DowngradePass(p, d, d', step, s) :: Total(d') < Total(d))
            <==> LowerTiersAreCheaper(p)
  {
    hide PoolFor, PolicyOk, Seated, DowngradePass, Total, LowersCost;
    if LowerTiersAreCheaper(p) {
      forall d, d', step, s | Seated(p, d) && DowngradePass(p, d, d', step, s)
        ensures Total(d') < Total(d)
      {
        DowngradeSaves(p, d, d', step, s);
      }
    } else {
      var role, a :| Adjustable(p, role) && a in PoolFor(p, role) && !LowersCost(p, role, a);
      var d, d', step, s := DearPickDoesNotSave(p, role, a);
    }
  }

  // ----- Whole enforcements -----

  ghost predicate NoNegativePrices(p: Policy, d: Decision) {
    && (forall s | HasSeat(d, s) :: At(d, s).budget >= 0.0)
    && (forall role, a | a in PoolFor(p, role) :: a.budget >= 0.0)
  }

  lemma DowngradeStaysSeated(p: Policy, d: Decision, d': Decision, step: Step, s: Seat)
    requires PolicyOk(p) && Seated(p, d) && NoNegativePrices(p, d) && DowngradePass(p, d, d', step, s)
    ensures Seated(p, d') && NoNegativePrices(p, d')
  {
    hide NextCheaper, PolicyOk, AboveFloor, Reseat, PoolFor;
    var x := Replacement(p, d, s).value;
    NextCheaperProps(p, At(d, s), s.Role());
    forall t | HasSeat(d', t)
      ensures At(d', t).budget >= 0.0 && (t.Role() !in p.locked ==> SeatedIn(p, t.Role(), At(d', t)))
    {
      SeatAfter(d, s, x, t);
    }
  }

  lemma PassStaysSeated(p: Policy, d: Decision, d': Decision, step: Step)
    requires PolicyOk(p) && Seated(p, d) && NoNegativePrices(p, d) && Pass(p, d, d', step)
    ensures Seated(p, d') && NoNegativePrices(p, d')
  {
    hide PolicyOk, PoolFor, NoDowngrade, Replacement, Reseat, SeatedIn;
    if s :| DowngradePass(p, d, d', step, s) {
      DowngradeStaysSeated(p, d, d', step, s);
    } else {
      assert forall t | HasSeat(d', t) :: HasSeat(d, t) && At(d', t) == At(d, t);
    }
  }

  lemma PassSaves(p: Policy, d: Decision, d': Decision, step: Step)
    requires PolicyOk(p) && LowerTiersAreCheaper(p) && Seated(p, d) && NoNegativePrices(p, d) && Pass(p, d, d', step)
    ensures Total(d') <= Total(d)
  {
    hide Total, PolicyOk, LowerTiersAreCheaper, PoolFor, NoDowngrade, Replacement, Reseat, SeatedIn;
    PassBooks(p, d, d', step);
    if s :| DowngradePass(p, d, d', step, s) {
      DowngradeSaves(p, d, d', step, s);
    } else if step.role == CodeReview {
      assert HasSeat(d, CodeSeat(|d.codeReviewers| - 1));
    } else {
      assert HasSeat(d, PlanSeat(|d.planReviewers| - 1));
    }
  }

  /** Under the condition no enforcement, however many passes it makes, returns a dearer decision. */
  lemma {:induction false} EnforcementNeverRaisesCost(p: Policy, cap: real, d: Decision, steps: seq<Step>, out: Decision)
    requires PolicyOk(p) && LowerTiersAreCheaper(p) && Seated(p, d) && NoNegativePrices(p, d)
    requires Passes(p, cap, d, steps, out)
    ensures Seated(p, out) && NoNegativePrices(p, out) && Total(out) <= Total(d)
    decreases steps
  {
    hide Pass, Total, PolicyOk, LowerTiersAreCheaper, Seated, NoNegativePrices;
    if steps != [] {
      var before, last := steps[..|steps| - 1], steps[|steps| - 1];
      var mid :| Passes(p, cap, d, before, mid) && Total(mid) > cap && Pass(p, mid, out, last);
      EnforcementNeverRaisesCost(p, cap, d, before, mid);
      PassStaysSeated(p, mid, out, last);
      PassSaves(p, mid, out, last);
    }
  }

  // ----- Finished enforcements, exactly -----

  /** Where a seat held by `a` comes to rest: down the permitted lower picks until there is none. */
  function Rest(p: Policy, role: Role, a: Agent): Agent
    decreases TierRank(a.tier)
  {
    var b := LowerPick(p, role, a);
    if b.None? || !FloorAllows(p, role, b.value) then a
    else
      LowerPickIsLower(p, role, a);
      Rest(p, role, b.value)
  }

  lemma LowerPickIsLower(p: Policy, role: Role, a: Agent)
    ensures var b := LowerPick(p, role, a);
            b.Some? ==> b.value in PoolFor(p, role) && TierRank(b.value.tier) < TierRank(a.tier)
  {
    hide PoolFor, NearestBelow;
    if TierRank(a.tier) > 0 {
      NearestBelowProps(PoolFor(p, role), TierRank(a.tier) - 1);
    }
  }

  lemma {:induction false} RestInPool(p: Policy, role: Role, a: Agent)
    requires a in PoolFor(p, role)
    ensures Rest(p, role, a) in PoolFor(p, role)
    decreases TierRank(a.tier)
  {
    hide PoolFor, LowerPick;
    var b := LowerPick(p, role, a);
    if b.Some? {
      LowerPickIsLower(p, role, a);
      if FloorAllows(p, role, b.value) {
        RestInPool(p, role, b.value);
      }
    }
  }

  /** The condition: in every adjustable role no agent comes to rest on a dearer one. */
  ghost predicate RestsAreNoDearer(p: Policy) {
    forall role, a | Adjustable(p, role) && a in PoolFor(p, role) :: Rest(p, role, a).budget <= a.budget
  }

  /** What a seat comes to in the end; one from outside the agents counts as it is. */
  function RestOf(p: Policy, role: Role, x: Profile): Profile {
    if role in p.locked then x
    else
      match ByName(p.agents, x.name)
      case Some(a) => ProfileOf(Rest(p, role, a))
      case None => x
  }

  function RestAll(p: Policy, role: Role, xs: seq<Profile>): seq<Profile> {
    seq(|xs|, i requires 0 <= i < |xs| => RestOf(p, role, xs[i]))
  }

  function Rested(p: Policy, d: Decision): Decision {
    Decision(d.preflight, RestOf(p, Planner, d.planner), RestAll(p, PlanReview, d.planReviewers),
             RestOf(p, Dev, d.dev), RestAll(p, CodeReview, d.codeReviewers))
  }

  lemma RestedSeats(p: Policy, d: Decision, s: Seat)
    ensures HasSeat(Rested(p, d), s) <==> HasSeat(d, s)
    ensures HasSeat(d, s) ==> At(Rested(p, d), s) == RestOf(p, s.Role(), At(d, s))
  {
    hide RestOf;
  }

  lemma RestedReseat(p: Policy, d: Decision, s: Seat, x: Profile)
    requires HasSeat(d, s)
    ensures HasSeat(Rested(p, d), s)
    ensures Rested(p, Reseat(d, s, x)) == Reseat(Rested(p, d), s, RestOf(p, s.Role(), x))
  {
    hide RestOf;
  }

  lemma ReseatTotal(d: Decision, s: Seat, x: Profile)
    requires HasSeat(d, s)
    ensures Total(Reseat(d, s, x)) == Total(d) - At(d, s).budget + x.budget
  {
    hide Sum;
    match s
    case PlanSeat(i) => SumUpdate(d.planReviewers, i, x);
    case CodeSeat(i) => SumUpdate(d.codeReviewers, i, x);
    case _ =>
  }

  lemma RestOfAgent(p: Policy, role: Role, a: Agent)
    requires PolicyOk(p) && a in PoolFor(p, role) && role !in p.locked
    ensures RestOf(p, role, ProfileOf(a)) == ProfileOf(Rest(p, role, a))
  {
    hide PoolFor, Rest;
    PoolForProps(p, role);
    ByNameFinds(p.agents, a);
  }

  /** A replacement rests no higher than what it replaces. */
  lemma ReplacementRestsLower(p: Policy, d: Decision, s: Seat)
    requires PolicyOk(p) && RestsAreNoDearer(p) && HasSeat(d, s) && Replacement(p, d, s).Some?
    requires SeatedIn(p, s.Role(), At(d, s))
    ensures RestOf(p, s.Role(), Replacement(p, d, s).value).budget <= RestOf(p, s.Role(), At(d, s)).budget
  {
    hide PolicyOk, PoolFor, NextCheaper, LowerPick, FloorAllows, AboveFloor, ByName;
    var role, x, y := s.Role(), At(d, s), Replacement(p, d, s).value;
    if FromPool(p, role, x) {
      var a :| a in PoolFor(p, role) && ProfileOf(a) == x;
      ReplacementIsLowerPick(p, d, s, a);
      LowerPickIsLower(p, role, a);
      RestOfAgent(p, role, a);
      RestOfAgent(p, role, LowerPick(p, role, a).value);
    } else {
      OutsiderGoesDown(p, x, role);
      NextCheaperProps(p, x, role);
      var b :| b in PoolFor(p, role) && ProfileOf(b) == y;
      RestOfAgent(p, role, b);
    }
  }

  /** Where the prices of resting seats are not negative. */
  lemma RestOfIsNotNegative(p: Policy, d: Decision, s: Seat)
    requires PolicyOk(p) && HasSeat(d, s) && NoNegativePrices(p, d)
    requires s.Role() in p.locked || SeatedIn(p, s.Role(), At(d, s))
    ensures RestOf(p, s.Role(), At(d, s)).budget >= 0.0
  {
    hide PolicyOk, PoolFor, Rest, ByName;
    var role, x := s.Role(), At(d, s);
    if role !in p.locked && FromPool(p, role, x) {
      var a :| a in PoolFor(p, role) && ProfileOf(a) == x;
      RestOfAgent(p, role, a);
      RestInPool(p, role, a);
    }
  }

  lemma RestedDrop(p: Policy, d: Decision)
    ensures d.codeReviewers != [] ==>
              var last := |d.codeReviewers| - 1;
              Total(Rested(p, d.(codeReviewers := d.codeReviewers[..last]))) ==
              Total(Rested(p, d)) - RestOf(p, CodeReview, d.codeReviewers[last]).budget
    ensures d.planReviewers != [] ==>
              var last := |d.planReviewers| - 1;
              Total(Rested(p, d.(planReviewers := d.planReviewers[..last]))) ==
              Total(Rested(p, d)) - RestOf(p, PlanReview, d.planReviewers[last]).budget
  {
    hide RestOf, Sum;
    if d.codeReviewers != [] {
      var all := RestAll(p, CodeReview, d.codeReviewers);
      SumDropLast(all);
      assert RestAll(p, CodeReview, d.codeReviewers[..|d.codeReviewers| - 1]) == all[..|all| - 1];
    }
    if d.planReviewers != [] {
      var all := RestAll(p, PlanReview, d.planReviewers);
      SumDropLast(all);
      assert RestAll(p, PlanReview, d.planReviewers[..|d.planReviewers| - 1]) == all[..|all| - 1];
    }
  }

  /** No pass raises what the decision comes to in the end. */
  lemma PassLowersRest(p: Policy, d: Decision, d': Decision, step: Step)
    requires PolicyOk(p) && RestsAreNoDearer(p) && Seated(p, d) && NoNegativePrices(p, d) && Pass(p, d, d', step)
    ensures Total(Rested(p, d')) <= Total(Rested(p, d))
  {
    hide PolicyOk, RestsAreNoDearer, PoolFor, NoDowngrade, Replacement, Reseat, SeatedIn, Rested, RestOf, Total, NoNegativePrices;
    if s :| DowngradePass(p, d, d', step, s) {
      UnlockedSeat(p, d, s);
      var x := Replacement(p, d, s).value;
      ReplacementRestsLower(p, d, s);
      RestedReseat(p, d, s, x);
      RestedSeats(p, d, s);
      ReseatTotal(Rested(p, d), s, RestOf(p, s.Role(), x));
    } else {
      RestedDrop(p, d);
      if step.role == CodeReview {
        var s := CodeSeat(|d.codeReviewers| - 1);
        assert HasSeat(d, s);
        RestOfIsNotNegative(p, d, s);
      } else {
        var s := PlanSeat(|d.planReviewers| - 1);
        assert HasSeat(d, s);
        RestOfIsNotNegative(p, d, s);
      }
    }
  }

  lemma UnlockedSeat(p: Policy, d: Decision, s: Seat)
    requires HasSeat(d, s) && Replacement(p, d, s).Some?
    ensures s.Role() !in p.locked
  {
  }

  lemma {:induction false} PassesLowerRest(p: Policy, cap: real, d: Decision, steps: seq<Step>, out: Decision)
    requires PolicyOk(p) && RestsAreNoDearer(p) && Seated(p, d) && NoNegativePrices(p, d)
    requires Passes(p, cap, d, steps, out)
    ensures Seated(p, out) && NoNegativePrices(p, out) && Total(Rested(p, out)) <= Total(Rested(p, d))
    ensures steps != [] ==> Total(d) > cap
    decreases steps
  {
    hide Pass, Total, Rested, PolicyOk, RestsAreNoDearer, Seated, NoNegativePrices;
    if steps != [] {
      var before, last := steps[..|steps| - 1], steps[|steps| - 1];
      var mid :| Passes(p, cap, d, before, mid) && Total(mid) > cap && Pass(p, mid, out, last);
      PassesLowerRest(p, cap, d, before, mid);
      PassStaysSeated(p, mid, out, last);
      PassLowersRest(p, mid, out, last);
    }
  }

  /** Where nothing can be lowered every seat is already at rest. */
  lemma StuckIsRested(p: Policy, d: Decision)
    requires PolicyOk(p) && Seated(p, d) && Stuck(p, d)
    ensures Rested(p, d) == d
  {
    hide PolicyOk, Rested, Replacement, RestOf, SeatedIn;
    forall s | HasSeat(d, s)
      ensures RestOf(p, s.Role(), At(d, s)) == At(d, s)
    {
      NoReplacementRests(p, d, s);
    }
    SeatwiseEqual(p, d);
  }

  lemma NoReplacementRests(p: Policy, d: Decision, s: Seat)
    requires PolicyOk(p) && HasSeat(d, s) && Replacement(p, d, s).None?
    requires s.Role() in p.locked || SeatedIn(p, s.Role(), At(d, s))
    ensures RestOf(p, s.Role(), At(d, s)) == At(d, s)
  {
    hide PolicyOk, PoolFor, LowerPick, FloorAllows, NextCheaper, ByName;
    var role, x := s.Role(), At(d, s);
    if role !in p.locked && FromPool(p, role, x) {
      var a :| a in PoolFor(p, role) && ProfileOf(a) == x;
      ReplacementIsLowerPick(p, d, s, a);
      RestOfAgent(p, role, a);
    }
  }

  lemma SeatwiseEqual(p: Policy, d: Decision)
    requires forall s | HasSeat(d, s) :: RestOf(p, s.Role(), At(d, s)) == At(d, s)
    ensures Rested(p, d) == d
  {
    hide RestOf;
    assert HasSeat(d, PlannerSeat) && HasSeat(d, DevSeat);
    forall i | 0 <= i < |d.planReviewers|
      ensures RestAll(p, PlanReview, d.planReviewers)[i] == d.planReviewers[i]
    {
      assert HasSeat(d, PlanSeat(i));
    }
    forall i | 0 <= i < |d.codeReviewers|
      ensures RestAll(p, CodeReview, d.codeReviewers)[i] == d.codeReviewers[i]
    {
      assert HasSeat(d, CodeSeat(i));
    }
  }

  lemma {:induction false} SumMonotone(xs: seq<Profile>, ys: seq<Profile>)
    requires |xs| == |ys| && forall i | 0 <= i < |xs| :: xs[i].budget <= ys[i].budget
    ensures Sum(xs) <= Sum(ys)
    decreases xs
  {
    if xs != [] {
      SumMonotone(xs[1..], ys[1..]);
    }
  }

  lemma RestedIsNoDearer(p: Policy, d: Decision)
    requires PolicyOk(p) && RestsAreNoDearer(p) && Seated(p, d)
    ensures Total(Rested(p, d)) <= Total(d)
  {
    hide PolicyOk, RestsAreNoDearer, RestOf, Sum, SeatedIn;
    forall s | HasSeat(d, s)
      ensures RestOf(p, s.Role(), At(d, s)).budget <= At(d, s).budget
    {
      SeatRestsNoDearer(p, d, s);
    }
    assert HasSeat(d, PlannerSeat) && HasSeat(d, DevSeat);
    forall i | 0 <= i < |d.planReviewers|
      ensures RestAll(p, PlanReview, d.planReviewers)[i].budget <= d.planReviewers[i].budget
    {
      assert HasSeat(d, PlanSeat(i));
    }
    forall i | 0 <= i < |d.codeReviewers|
      ensures RestAll(p, CodeReview, d.codeReviewers)[i].budget <= d.codeReviewers[i].budget
    {
      assert HasSeat(d, CodeSeat(i));
    }
    SumMonotone(RestAll(p, PlanReview, d.planReviewers), d.planReviewers);
    SumMonotone(RestAll(p, CodeReview, d.codeReviewers), d.codeReviewers);
  }

  lemma SeatRestsNoDearer(p: Policy, d: Decision, s: Seat)
    requires PolicyOk(p) && RestsAreNoDearer(p) && HasSeat(d, s)
    requires s.Role() in p.locked || SeatedIn(p, s.Role(), At(d, s))
    ensures RestOf(p, s.Role(), At(d, s)).budget <= At(d, s).budget
  {
    hide PolicyOk, PoolFor, Rest, ByName;
    var role, x := s.Role(), At(d, s);
    if role !in p.locked && FromPool(p, role, x) {
      var a :| a in PoolFor(p, role) && ProfileOf(a) == x;
      RestOfAgent(p, role, a);
    }
  }

  /** An enforcement that ran to its end: within the target, or with nothing left to do. */
  ghost predicate Finished(p: Policy, cap: real, d: Decision, steps: seq<Step>, out: Decision) {
    Passes(p, cap, d, steps, out) && |steps| < 10 && (Total(out) <= cap || Stuck(p, out))
  }

  lemma FinishedIsNoDearer(p: Policy, cap: real, d: Decision, steps: seq<Step>, out: Decision)
    requires PolicyOk(p) && RestsAreNoDearer(p) && Seated(p, d) && NoNegativePrices(p, d)
    requires Finished(p, cap, d, steps, out)
    ensures Total(out) <= Total(d)
  {
    hide PolicyOk, RestsAreNoDearer, Seated, NoNegativePrices, Stuck, Total, Rested;
    PassesLowerRest(p, cap, d, steps, out);
    if Stuck(p, out) {
      StuckIsRested(p, out);
      RestedIsNoDearer(p, d);
    }
  }

  lemma {:induction false} PassFirst(p: Policy, cap: real, d: Decision, step: Step, mid: Decision, steps: seq<Step>, out: Decision)
    requires Pass(p, d, mid, step) && Total(d) > cap && Passes(p, cap, mid, steps, out)
    ensures Passes(p, cap, d, [step] + steps, out)
    decreases steps
  {
    hide Pass, Total;
    var all := [step] + steps;
    if steps == [] {
      assert all == [step] && all[..0] == [];
      assert Passes(p, cap, d, [], d);
    } else {
      var before, last := steps[..|steps| - 1], steps[|steps| - 1];
      var m :| Passes(p, cap, mid, before, m) && Total(m) > cap && Pass(p, m, out, last);
      PassFirst(p, cap, d, step, mid, before, m);
      assert all[..|all| - 1] == [step] + before && all[|all| - 1] == last;
    }
  }

  /** The enforcement of a lone seat takes it to its rest, in at most one pass per tier. */
  lemma {:induction false} LoneSeatComesToRest(p: Policy, role: Role, a: Agent, preflight: Profile, planner: Profile, dev: Profile)
    returns (steps: seq<Step>)
    requires PolicyOk(p) && Adjustable(p, role) && a in PoolFor(p, role)
    requires Rests(p, Planner, planner) && Rests(p, Dev, dev)
    requires preflight.budget >= 0.0 && planner.budget >= 0.0 && dev.budget >= 0.0
    requires forall b | b in PoolFor(p, role) :: b.budget >= 0.0
    ensures |steps| <= TierRank(a.tier)
    ensures var out := Only(role, ProfileOf(Rest(p, role, a)), preflight, planner, dev);
            Passes(p, -1.0, Only(role, ProfileOf(a), preflight, planner, dev), steps, out) && Stuck(p, out)
    decreases TierRank(a.tier)
  {
    hide PolicyOk, PoolFor, LowerPick, FloorAllows, Rests, Pass, Replacement, DowngradePass, Seated;
    var d := Only(role, ProfileOf(a), preflight, planner, dev);
    var b := LowerPick(p, role, a);
    LowerPickIsLower(p, role, a);
    if b.Some? && FloorAllows(p, role, b.value) {
      OnlyPass(p, role, a, b.value, preflight, planner, dev);
      var mid, step := Only(role, ProfileOf(b.value), preflight, planner, dev), Downgraded(role, a.model, b.value.model, a.budget, b.value.budget);
      IsPass(p, d, mid, step, SeatOf(role));
      var rest := LoneSeatComesToRest(p, role, b.value, preflight, planner, dev);
      OnlyTotal(role, ProfileOf(a), preflight, planner, dev);
      PassFirst(p, -1.0, d, step, mid, rest, Only(role, ProfileOf(Rest(p, role, a)), preflight, planner, dev));
      steps := [step] + rest;
    } else {
      steps := [];
      OnlySeated(p, role, a, preflight, planner, dev);
      ReplacementIsLowerPick(p, d, SeatOf(role), a);
    }
  }

  lemma IsPass(p: Policy, d: Decision, d': Decision, step: Step, s: Seat)
    requires DowngradePass(p, d, d', step, s)
    ensures Pass(p, d, d', step)
  {
  }

  lemma OnlyTotal(role: Role, x: Profile, preflight: Profile, planner: Profile, dev: Profile)
    requires !role.Preflight?
    ensures Total(Only(role, x, preflight, planner, dev)) ==
            preflight.budget + x.budget + (if role.Planner? then 0.0 else planner.budget) + (if role.Dev? then 0.0 else dev.budget)
  {
    assert Sum([]) == 0.0 && Sum([x]) == x.budget;
  }

  /** A dearer rest makes a finished enforcement that ends dearer. */
  lemma DearRestRaises(p: Policy, role: Role, a: Agent) returns (d: Decision, steps: seq<Step>, out: Decision)
    requires PolicyOk(p) && (forall r | r == Planner || r == Dev :: r in p.locked || PoolFor(p, r) != [])
    requires forall r, b | b in PoolFor(p, r) :: b.budget >= 0.0
    requires Adjustable(p, role) && a in PoolFor(p, role) && Rest(p, role, a).budget > a.budget
    ensures Seated(p, d) && NoNegativePrices(p, d) && Finished(p, -1.0, d, steps, out) && Total(out) > Total(d)
  {
    hide PolicyOk, PoolFor, LowerPick, FloorAllows, Rests, Passes, Stuck, Rest, Total, Seated;
    var x := ProfileOf(a);
    var planner := RestingSeat(p, Planner, x);
    var dev := RestingSeat(p, Dev, x);
    assert planner.budget >= 0.0 && dev.budget >= 0.0;
    OnlySeated(p, role, a, x, planner, dev);
    steps := LoneSeatComesToRest(p, role, a, x, planner, dev);
    d, out := Only(role, x, x, planner, dev), Only(role, ProfileOf(Rest(p, role, a)), x, planner, dev);
    OnlyTotal(role, x, x, planner, dev);
    OnlyTotal(role, ProfileOf(Rest(p, role, a)), x, planner, dev);
  }

  /**
   * Finished enforcements never end dearer than they began if and only if no agent of an
   * adjustable role comes to rest on a dearer one. A lower pick on the way may be dearer.
   */
  lemma FinishedNeverDearerIff(p: Policy)
    requires PolicyOk(p) && (forall r | r == Planner || r == Dev :: r in p.locked || PoolFor(p, r) != [])
    requires forall r, a | a in PoolFor(p, r) :: a.budget >= 0.0
    ensures (forall cap, d, steps, out | Seated(p, d) && NoNegativePrices(p, d) && Finished(p, cap, d, steps, out) ::
               Total(out) <= Total(d))
            <==> RestsAreNoDearer(p)
  {
    hide PoolFor, PolicyOk, Seated, Finished, Total, Rest, NoNegativePrices;
    if RestsAreNoDearer(p) {
      forall cap, d, steps, out | Seated(p, d) && NoNegativePrices(p, d) && Finished(p, cap, d, steps, out)
        ensures Total(out) <= Total(d)
      {
        FinishedIsNoDearer(p, cap, d, steps, out);
      }
    } else {
      var role, a :| Adjustable(p, role) && a in PoolFor(p, role) && Rest(p, role, a).budget > a.budget;
      var d, steps, out := DearRestRaises(p, role, a);
    }
  }

  // ----- Without it -----

  const Strong := Agent("s", "s", "s", None, "strong", 1.0, 1.0, true, true)
  const Mid := Agent("m", "m", "m", None, "mid", 2.0, 1.0, true, true)

  /** Two agents, the lower tier the dearer one, and a pinned dev. */
  const Inverted := Policy([Strong, Mid], map[], "cheap", None, {Dev})

  function WithPlanner(planner: Agent): Decision {
    Decision(ProfileOf(Mid), ProfileOf(planner), [], ProfileOf(Mid), [])
  }

  const Lowered := Downgraded(Planner, "s", "m", 1.0, 2.0)

  lemma InvertedPicks()
    ensures PolicyOk(Inverted) && PoolFor(Inverted, Planner) == [Strong, Mid]
    ensures LowerPick(Inverted, Planner, Strong) == Some(Mid) && LowerPick(Inverted, Planner, Mid) == None
  {
    hide ByTier;
    var pool := PoolFor(Inverted, Planner);
    ByTierProps(pool, "mid");
    ByTierProps(pool, "cheap");
    assert Mid in ByTier(pool, "mid") && ByTier(pool, "mid")[0] in ByTier(pool, "mid");
    HasMember(ByTier(pool, "cheap"));
    assert TierAt(1) == "mid" && TierAt(0) == "cheap";
  }

  /** Only the planner of the strong tier can be lowered there, and only to the mid one. */
  lemma InvertedReplacements(planner: Agent, s: Seat)
    requires (planner == Strong || planner == Mid) && HasSeat(WithPlanner(planner), s)
    ensures Replacement(Inverted, WithPlanner(planner), s) ==
            if planner == Strong && s == PlannerSeat then Some(ProfileOf(Mid)) else None
  {
    hide PoolFor, LowerPick, NextCheaper;
    InvertedPicks();
    if s == PlannerSeat {
      ReplacementIsLowerPick(Inverted, WithPlanner(planner), s, planner);
    }
  }

  lemma InvertedPass(planner: Agent, d': Decision, step: Step)
    requires planner == Strong || planner == Mid
    ensures Pass(Inverted, WithPlanner(planner), d', step) <==>
            planner == Strong && d' == WithPlanner(Mid) && step == Lowered
  {
    hide Replacement;
    var d := WithPlanner(planner);
    forall s | HasSeat(d, s)
      ensures Replacement(Inverted, d, s) == if planner == Strong && s == PlannerSeat then Some(ProfileOf(Mid)) else None
    {
      InvertedReplacements(planner, s);
    }
    if planner == Strong && d' == WithPlanner(Mid) && step == Lowered {
      assert DowngradePass(Inverted, d, d', step, PlannerSeat);
    }
  }

  lemma {:induction false} InvertedRuns(cap: real, steps: seq<Step>, out: Decision)
    requires Passes(Inverted, cap, WithPlanner(Strong), steps, out)
    ensures (steps == [] && out == WithPlanner(Strong)) || (steps == [Lowered] && out == WithPlanner(Mid))
    decreases steps
  {
    hide Pass;
    if steps != [] {
      var before, last := steps[..|steps| - 1], steps[|steps| - 1];
      var mid :| Passes(Inverted, cap, WithPlanner(Strong), before, mid) && Pass(Inverted, mid, out, last);
      InvertedRuns(cap, before, mid);
      InvertedPass(if mid == WithPlanner(Strong) then Strong else Mid, out, last);
      assert steps == before + [last];
    }
  }

  /**
   * Enforcement can return a dearer decision than it got, and here it must: whatever the target
   * below the first total, the planner goes down to a lower tier at twice the price, and there
   * it stops.
   */
  lemma EnforcementRaisesCost(cap: real, steps: seq<Step>, out: Decision)
    requires cap < Total(WithPlanner(Strong))
    requires Passes(Inverted, cap, WithPlanner(Strong), steps, out)
    requires |steps| < 10 ==> Total(out) <= cap || Stuck(Inverted, out)
    ensures out == WithPlanner(Mid) && Total(out) == Total(WithPlanner(Strong)) + 1.0
  {
    hide Replacement, Passes;
    InvertedRuns(cap, steps, out);
    InvertedReplacements(Strong, PlannerSeat);
    assert HasSeat(out, PlannerSeat);
  }

  /** There are such enforcements: the one pass is made and nothing is left to do. */
  lemma EnforcementRaisesCostHappens(cap: real)
    requires cap < Total(WithPlanner(Strong))
    ensures PolicyOk(Inverted) && Seated(Inverted, WithPlanner(Strong))
    ensures Passes(Inverted, cap, WithPlanner(Strong), [Lowered], WithPlanner(Mid)) && Stuck(Inverted, WithPlanner(Mid))
    ensures !LowerTiersAreCheaper(Inverted)
  {
    hide Pass, Replacement, PoolFor, LowerPick, Total;
    InvertedPicks();
    InvertedPass(Strong, WithPlanner(Mid), Lowered);
    assert [Lowered][..0] == [];
    assert Passes(Inverted, cap, WithPlanner(Strong), [], WithPlanner(Strong));
    forall s | HasSeat(WithPlanner(Mid), s)
      ensures Replacement(Inverted, WithPlanner(Mid), s).None?
    {
      InvertedReplacements(Mid, s);
    }
    assert FromPool(Inverted, Planner, ProfileOf(Strong)) by { assert Strong in PoolFor(Inverted, Planner); }
    assert !LowersCost(Inverted, Planner, Strong);
  }
}
