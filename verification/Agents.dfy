/** The agent pool the router draws from (`assignment.py`), and its cost order. */
module Agents {
  import opened Common

  /** A pool entry. `identity` is the dispatch identity a profile can share, `provider` the
      effective provider, `price` the per-token tie-break, `authed` the readiness verdict. */
  datatype Agent = Agent(name: string, model: string, identity: string, provider: Option<string>, tier: string,
                         budget: real, price: real, devCapable: bool, authed: bool)

  /** A seated model: what routing reads back from a profile. */
  datatype Profile = Profile(name: string, model: string, identity: string, budget: real)

  function ProfileOf(a: Agent): Profile { Profile(a.name, a.model, a.identity, a.budget) }

  /** The pool is keyed by agent name. */
  ghost predicate NamesDistinct(agents: seq<Agent>) {
    forall i, j | 0 <= i < j < |agents| :: agents[i].name != agents[j].name
  }

  lemma SameNameSameAgent(agents: seq<Agent>, a: Agent, b: Agent)
    requires NamesDistinct(agents) && a in agents && b in agents && a.name == b.name
    ensures a == b
  {
    var i :| 0 <= i < |agents| && agents[i] == a;
    var j :| 0 <= j < |agents| && agents[j] == b;
  }

  lemma {:induction false} FilterNamesDistinct(s: seq<Agent>, keep: Agent -> bool)
    requires NamesDistinct(s)
    ensures NamesDistinct(Filter(s, keep))
    decreases s
  {
    if s != [] {
      FilterNamesDistinct(s[1..], keep);
      FilterMembers(s[1..], keep);
      var rest := Filter(s[1..], keep);
      forall j | 0 <= j < |rest|
        ensures rest[j].name != s[0].name
      {
        assert rest[j] in rest && rest[j] in s[1..];
      }
    }
  }

  predicate KnownTier(tier: string) { tier == "cheap" || tier == "mid" || tier == "strong" }

  /** Position on the tier ladder; an unknown tier counts as the lowest. */
  function TierRank(tier: string): nat {
    if tier == "strong" then 2 else if tier == "mid" then 1 else 0
  }

  /** Cost order: budget, then price. */
  predicate Cheaper(a: Agent, b: Agent) {
    a.budget < b.budget || (a.budget == b.budget && a.price < b.price)
  }

  /** Stable: an agent goes before the first one that is strictly dearer. */
  function InsertByCost(a: Agent, s: seq<Agent>): seq<Agent> {
    if s == [] || !Cheaper(s[0], a) then [a] + s else [s[0]] + InsertByCost(a, s[1..])
  }

  function SortByCost(s: seq<Agent>): seq<Agent> {
    if s == [] then [] else InsertByCost(s[0], SortByCost(s[1..]))
  }

  /** `_agents_by_tier`. */
  function ByTier(agents: seq<Agent>, tier: string): seq<Agent> {
    SortByCost(Filter(agents, (a: Agent) => a.tier == tier))
  }

  lemma {:induction false} InsertMembers(a: Agent, s: seq<Agent>)
    ensures multiset(InsertByCost(a, s)) == multiset{a} + multiset(s)
    ensures forall x :: x in InsertByCost(a, s) <==> x == a || x in s
    decreases s
  {
    if s != [] && Cheaper(s[0], a) {
      InsertMembers(a, s[1..]);
      assert s == [s[0]] + s[1..];
    }
  }

  ghost predicate CostSorted(s: seq<Agent>) {
    forall i, j | 0 <= i < j < |s| :: !Cheaper(s[j], s[i])
  }

  lemma {:induction false} InsertSorts(a: Agent, s: seq<Agent>)
    requires CostSorted(s)
    ensures CostSorted(InsertByCost(a, s))
    decreases s
  {
    if s != [] && Cheaper(s[0], a) {
      InsertSorts(a, s[1..]);
      InsertMembers(a, s[1..]);
      var rest := InsertByCost(a, s[1..]);
      forall j | 0 <= j < |rest|
        ensures !Cheaper(rest[j], s[0])
      {
        assert rest[j] in rest;
        if rest[j] != a {
          var k :| 0 <= k < |s[1..]| && s[1..][k] == rest[j];
          assert !Cheaper(s[k + 1], s[0]);
        }
      }
    }
  }

  lemma {:induction false} SortProps(s: seq<Agent>)
    ensures multiset(SortByCost(s)) == multiset(s) && CostSorted(SortByCost(s))
    ensures forall x :: x in SortByCost(s) <==> x in s
    ensures |SortByCost(s)| == |s|
    decreases s
  {
    if s != [] {
      SortProps(s[1..]);
      InsertMembers(s[0], SortByCost(s[1..]));
      InsertSorts(s[0], SortByCost(s[1..]));
      assert s == [s[0]] + s[1..];
    }
    assert |multiset(SortByCost(s))| == |multiset(s)|;
  }

  /** A tier listing has exactly the agents of the tier, cheapest first. */
  lemma ByTierProps(agents: seq<Agent>, tier: string)
    ensures forall a :: a in ByTier(agents, tier) <==> a in agents && a.tier == tier
    ensures CostSorted(ByTier(agents, tier))
  {
    hide CostSorted;
    var keep := (a: Agent) => a.tier == tier;
    FilterMembers(agents, keep);
    SortProps(Filter(agents, keep));
  }

  /** `agent_by_name`: the last agent with the name. */
  function ByName(agents: seq<Agent>, name: string): Option<Agent> {
    if agents == [] then None
    else if agents[|agents| - 1].name == name then Some(agents[|agents| - 1])
    else ByName(agents[..|agents| - 1], name)
  }

  lemma {:induction false} ByNameFinds(agents: seq<Agent>, a: Agent)
    requires NamesDistinct(agents) && a in agents
    ensures ByName(agents, a.name) == Some(a)
    decreases agents
  {
    var n := |agents| - 1;
    var i :| 0 <= i <= n && agents[i] == a;
    if i < n {
      assert agents[..n][i] == a;
      ByNameFinds(agents[..n], a);
    }
  }
}
