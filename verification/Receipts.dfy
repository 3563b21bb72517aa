/**
 * Which debrief answer is counted for each claim a run injected into its agents, and
 * that the published counts account for every injected claim exactly once.
 */
module Receipts {
  import opened Common
  import StringOrder

  datatype Disposition =
    | ChangedDecision | PromptedVerification
    | ConfirmedApproach | AlreadyKnown | Irrelevant | StaleOrWrong
    | Other(word: string)

  predicate AssertsUse(d: Disposition) { d.ChangedDecision? || d.PromptedVerification? }

  predicate AssertsNonUse(d: Disposition) {
    d.ConfirmedApproach? || d.AlreadyKnown? || d.Irrelevant? || d.StaleOrWrong?
  }

  datatype Outcome = CorroboratedUse | UncorroboratedUse | NonUse | Unrecognised | Unmatched

  datatype Claim = Claim(ref: string, text: string, runId: string)

  /** One context manifest; `prior` is what it says about earlier runs, if anything. */
  datatype Manifest = Manifest(phase: string, prior: Option<PriorRuns>)
  datatype PriorRuns = PriorRuns(captured: bool, included: seq<seq<Claim>>)

  /** One debrief; `None` stands for an entry that is not a mapping. */
  datatype Submission = Submission(phase: string, role: string, answers: seq<Option<Answer>>)
  datatype Answer = Answer(ref: string, disposition: Disposition, evidence: seq<string>)

  datatype Entry = Entry(phase: string, role: string, ref: string, disposition: Disposition,
                         outcome: Outcome, order: nat, index: nat)

  type Key = (string, string)
  type Exposure = map<string, map<string, Claim>>

  // ---------------------------------------------------------------- exposure

  predicate Usable(c: Claim) { c.ref != "" && c.text != "" }

  function ShownIn(phase: string, claims: seq<Claim>): seq<(string, Claim)> {
    if claims == [] then []
    else
      var last := claims[|claims| - 1];
      ShownIn(phase, claims[..|claims| - 1]) + if Usable(last) then [(phase, last)] else []
  }

  function ShownByRuns(phase: string, included: seq<seq<Claim>>): seq<(string, Claim)> {
    if included == [] then []
    else ShownByRuns(phase, included[..|included| - 1]) + ShownIn(phase, included[|included| - 1])
  }

  /** Every usable claim rendering of the run, in the order the manifests list them. */
  function Shown(manifests: seq<Manifest>): seq<(string, Claim)> {
    if manifests == [] then []
    else
      var last := manifests[|manifests| - 1];
      Shown(manifests[..|manifests| - 1]) +
      if last.prior.Some? then ShownByRuns(last.phase, last.prior.value.included) else []
  }

  ghost predicate IsFirst(shown: seq<(string, Claim)>, i: nat)
    requires i < |shown|
  {
    forall j | 0 <= j < i :: (shown[j].0, shown[j].1.ref) != (shown[i].0, shown[i].1.ref)
  }

  /** The exposure holds exactly the shown keys, each with the claim shown first under it. */
  ghost predicate Records(exposure: Exposure, shown: seq<(string, Claim)>) {
    && (forall i | 0 <= i < |shown| ::
          shown[i].0 in exposure && shown[i].1.ref in exposure[shown[i].0])
    && (forall p, r | p in exposure && r in exposure[p] ::
          exists i | 0 <= i < |shown| ::
            shown[i] == (p, exposure[p][r]) && exposure[p][r].ref == r && IsFirst(shown, i))
  }

  lemma FirstStaysFirst(shown: seq<(string, Claim)>, more: seq<(string, Claim)>, i: nat)
    requires i < |shown|
    ensures IsFirst(shown + more, i) <==> IsFirst(shown, i)
  {
    if IsFirst(shown + more, i) {
      forall j | 0 <= j < i
        ensures (shown[j].0, shown[j].1.ref) != (shown[i].0, shown[i].1.ref)
      {
        assert (shown + more)[j] == shown[j];
      }
    }
  }

  lemma ShowOne(exposure: Exposure, shown: seq<(string, Claim)>, phase: string, claim: Claim, after: Exposure)
    requires Records(exposure, shown) && phase in exposure
    requires after == if claim.ref in exposure[phase] then exposure
                      else exposure[phase := exposure[phase][claim.ref := claim]]
    ensures Records(after, shown + [(phase, claim)])
  {
    var more := shown + [(phase, claim)];
    forall p, r | p in after && r in after[p]
      ensures exists i | 0 <= i < |more| ::
        more[i] == (p, after[p][r]) && after[p][r].ref == r && IsFirst(more, i)
    {
      if p in exposure && r in exposure[p] {
        var i :| 0 <= i < |shown| && shown[i] == (p, exposure[p][r]) && exposure[p][r].ref == r && IsFirst(shown, i);
        FirstStaysFirst(shown, [(phase, claim)], i);
        assert more[i] == shown[i];
      } else {
        assert more[|shown|] == (p, after[p][r]);
        assert IsFirst(more, |shown|);
      }
    }
    forall i | 0 <= i < |more|
      ensures more[i].0 in after && more[i].1.ref in after[more[i].0]
    {
      if i < |shown| { assert more[i] == shown[i]; }
    }
  }

  /** The innermost loop: the claims one earlier run contributed to a phase's context. */
  method RecordClaims(before: Exposure, ghost shown: seq<(string, Claim)>, phase: string, claims: seq<Claim>)
    returns (exposure: Exposure)
    requires Records(before, shown) && phase in before
    ensures Records(exposure, shown + ShownIn(phase, claims)) && exposure.Keys == before.Keys
  {
    hide Records;
    exposure := before;
    assert shown + ShownIn(phase, []) == shown;
    for c := 0 to |claims|
      invariant exposure.Keys == before.Keys
      invariant Records(exposure, shown + ShownIn(phase, claims[..c]))
    {
      var claim := claims[c];
      assert claims[..c + 1][..c] == claims[..c];
      if !Usable(claim) {
        assert ShownIn(phase, claims[..c + 1]) == ShownIn(phase, claims[..c]);
        continue;
      }
      ghost var was, soFar := exposure, shown + ShownIn(phase, claims[..c]);
      assert shown + ShownIn(phase, claims[..c + 1]) == soFar + [(phase, claim)];
      if claim.ref !in exposure[phase] {
        exposure := exposure[phase := exposure[phase][claim.ref := claim]];
      }
      ShowOne(was, soFar, phase, claim, exposure);
    }
    assert claims[..|claims|] == claims;
  }

  lemma OpenPhase(exposure: Exposure, shown: seq<(string, Claim)>, phase: string)
    requires Records(exposure, shown)
    ensures phase !in exposure ==> Records(exposure[phase := map[]], shown)
  {
  }

  method RecordManifest(before: Exposure, ghost shown: seq<(string, Claim)>, phase: string, included: seq<seq<Claim>>)
    returns (exposure: Exposure)
    requires Records(before, shown)
    ensures Records(exposure, shown + ShownByRuns(phase, included))
    ensures exposure.Keys == before.Keys + {phase}
  {
    hide Records;
    exposure := if phase in before then before else before[phase := map[]];
    OpenPhase(before, shown, phase);
    assert shown + ShownByRuns(phase, []) == shown;
    for g := 0 to |included|
      invariant exposure.Keys == before.Keys + {phase}
      invariant Records(exposure, shown + ShownByRuns(phase, included[..g]))
    {
      assert included[..g + 1][..g] == included[..g];
      exposure := RecordClaims(exposure, shown + ShownByRuns(phase, included[..g]), phase, included[g]);
      assert shown + ShownByRuns(phase, included[..g + 1]) ==
             shown + ShownByRuns(phase, included[..g]) + ShownIn(phase, included[g]);
    }
    assert included[..|included|] == included;
  }

  // ----- Where each claim is shown -----

  /** Manifest, group and claim number. */
  type Spot = (nat, nat, nat)

  /** A manifest that speaks of earlier runs holds a claim with a reference and a text here. */
  ghost predicate UsableAt(ms: seq<Manifest>, s: Spot) {
    && s.0 < |ms| && ms[s.0].prior.Some?
    && var included := ms[s.0].prior.value.included;
       s.1 < |included| && s.2 < |included[s.1]| && included[s.1][s.2].ref != "" && included[s.1][s.2].text != ""
  }

  ghost function ClaimAt(ms: seq<Manifest>, s: Spot): (string, Claim)
    requires UsableAt(ms, s)
  {
    (ms[s.0].phase, ms[s.0].prior.value.included[s.1][s.2])
  }

  ghost predicate SpotLess(a: Spot, b: Spot) {
    a.0 < b.0 || (a.0 == b.0 && (a.1 < b.1 || (a.1 == b.1 && a.2 < b.2)))
  }

  /** A listing of the usable spots before `upto`, in order, and the claims found there. */
  ghost predicate Spots(shown: seq<(string, Claim)>, spots: seq<Spot>, ms: seq<Manifest>, upto: Spot) {
    && |shown| == |spots|
    && (forall i | 0 <= i < |spots| ::
          UsableAt(ms, spots[i]) && shown[i] == ClaimAt(ms, spots[i]) && SpotLess(spots[i], upto))
    && (forall i, j | 0 <= i < j < |spots| :: SpotLess(spots[i], spots[j]))
    && (forall s | UsableAt(ms, s) && SpotLess(s, upto) :: s in spots)
  }

  lemma SpotClaim(shown: seq<(string, Claim)>, spots: seq<Spot>, ms: seq<Manifest>, m: nat, g: nat, c: nat)
    requires Spots(shown, spots, ms, (m, g, c))
    ensures if UsableAt(ms, (m, g, c))
            then Spots(shown + [ClaimAt(ms, (m, g, c))], spots + [(m, g, c)], ms, (m, g, c + 1))
            else Spots(shown, spots, ms, (m, g, c + 1))
  {
    hide UsableAt, ClaimAt;
    forall s | UsableAt(ms, s) && SpotLess(s, (m, g, c + 1))
      ensures s in spots || s == (m, g, c)
    {
      assert SpotLess(s, (m, g, c)) || s == (m, g, c);
    }
    if UsableAt(ms, (m, g, c)) {
      var more := spots + [(m, g, c)];
      assert more[|spots|] == (m, g, c) && forall i | 0 <= i < |spots| :: more[i] == spots[i];
    }
  }

  /** Moving on to a spot with no usable one in between. */
  lemma SpotSkip(shown: seq<(string, Claim)>, spots: seq<Spot>, ms: seq<Manifest>, from: Spot, to: Spot)
    requires Spots(shown, spots, ms, from) && SpotLess(from, to)
    requires forall s | UsableAt(ms, s) && SpotLess(s, to) :: SpotLess(s, from)
    ensures Spots(shown, spots, ms, to)
  {
    hide UsableAt, ClaimAt;
  }

  lemma {:induction false} ClaimSpots(shown: seq<(string, Claim)>, spots: seq<Spot>, ms: seq<Manifest>, m: nat, g: nat, c: nat)
    returns (more: seq<Spot>)
    requires Spots(shown, spots, ms, (m, g, 0))
    requires m < |ms| && ms[m].prior.Some? && g < |ms[m].prior.value.included| && c <= |ms[m].prior.value.included[g]|
    ensures Spots(shown + ShownIn(ms[m].phase, ms[m].prior.value.included[g][..c]), more, ms, (m, g, c))
    decreases c
  {
    hide Spots;
    var claims := ms[m].prior.value.included[g];
    if c == 0 {
      assert shown + ShownIn(ms[m].phase, claims[..0]) == shown;
      more := spots;
    } else {
      more := ClaimSpots(shown, spots, ms, m, g, c - 1);
      var before := shown + ShownIn(ms[m].phase, claims[..c - 1]);
      assert claims[..c][..c - 1] == claims[..c - 1];
      SpotClaim(before, more, ms, m, g, c - 1);
      if Usable(claims[c - 1]) {
        assert UsableAt(ms, (m, g, c - 1));
        assert shown + ShownIn(ms[m].phase, claims[..c]) == before + [ClaimAt(ms, (m, g, c - 1))];
        more := more + [(m, g, c - 1)];
      } else {
        assert !UsableAt(ms, (m, g, c - 1));
        assert shown + ShownIn(ms[m].phase, claims[..c]) == before;
      }
    }
  }

  lemma {:induction false} GroupSpots(shown: seq<(string, Claim)>, spots: seq<Spot>, ms: seq<Manifest>, m: nat, g: nat)
    returns (more: seq<Spot>)
    requires Spots(shown, spots, ms, (m, 0, 0))
    requires m < |ms| && ms[m].prior.Some? && g <= |ms[m].prior.value.included|
    ensures Spots(shown + ShownByRuns(ms[m].phase, ms[m].prior.value.included[..g]), more, ms, (m, g, 0))
    decreases g
  {
    hide Spots, ShownIn;
    var phase, included := ms[m].phase, ms[m].prior.value.included;
    if g == 0 {
      assert shown + ShownByRuns(phase, included[..0]) == shown;
      more := spots;
    } else {
      more := GroupSpots(shown, spots, ms, m, g - 1);
      var before := shown + ShownByRuns(phase, included[..g - 1]);
      var claims := included[g - 1];
      more := ClaimSpots(before, more, ms, m, g - 1, |claims|);
      assert claims[..|claims|] == claims && included[..g][..g - 1] == included[..g - 1];
      assert shown + ShownByRuns(phase, included[..g]) == before + ShownIn(phase, claims);
      SpotSkip(before + ShownIn(phase, claims), more, ms, (m, g - 1, |claims|), (m, g, 0));
    }
  }

  /** The shown claims are those of the usable spots, in order. */
  lemma {:induction false} ShownSpots(ms: seq<Manifest>, m: nat) returns (spots: seq<Spot>)
    requires m <= |ms|
    ensures Spots(Shown(ms[..m]), spots, ms, (m, 0, 0))
    decreases m
  {
    hide Spots, ShownByRuns;
    if m == 0 {
      spots := [];
      assert Spots([], spots, ms, (0, 0, 0)) by { NoSpots(ms); }
    } else {
      spots := ShownSpots(ms, m - 1);
      assert ms[..m][..m - 1] == ms[..m - 1];
      if ms[m - 1].prior.Some? {
        var included := ms[m - 1].prior.value.included;
        spots := GroupSpots(Shown(ms[..m - 1]), spots, ms, m - 1, |included|);
        assert included[..|included|] == included;
        SpotSkip(Shown(ms[..m]), spots, ms, (m - 1, |included|, 0), (m, 0, 0));
      } else {
        assert Shown(ms[..m]) == Shown(ms[..m - 1]);
        SpotSkip(Shown(ms[..m]), spots, ms, (m - 1, 0, 0), (m, 0, 0));
      }
    }
  }

  lemma NoSpots(ms: seq<Manifest>)
    ensures Spots([], [], ms, (0, 0, 0))
  {
  }

  ghost predicate SpotNames(ms: seq<Manifest>, s: Spot, k: Key) {
    UsableAt(ms, s) && ClaimAt(ms, s).0 == k.0 && ClaimAt(ms, s).1.ref == k.1
  }

  /** The first spot, in manifest, group and claim order, that shows a key. */
  ghost predicate FirstSpot(ms: seq<Manifest>, s: Spot, k: Key) {
    SpotNames(ms, s, k) && forall t | SpotNames(ms, t, k) :: !SpotLess(t, s)
  }

  /** The exposure holds the keys some spot shows, each with the claim at its first spot. */
  ghost predicate Exposes(exposure: Exposure, ms: seq<Manifest>) {
    && (forall s | UsableAt(ms, s) ::
          ClaimAt(ms, s).0 in exposure && ClaimAt(ms, s).1.ref in exposure[ClaimAt(ms, s).0])
    && (forall p, r | p in exposure && r in exposure[p] ::
          exists s :: FirstSpot(ms, s, (p, r)) && ClaimAt(ms, s) == (p, exposure[p][r]))
  }

  lemma RecordsExpose(exposure: Exposure, ms: seq<Manifest>)
    requires Records(exposure, Shown(ms))
    ensures Exposes(exposure, ms)
  {
    hide UsableAt, ClaimAt, SpotLess, Shown, Spots, IsFirst;
    var shown := Shown(ms);
    var spots := ShownSpots(ms, |ms|);
    assert ms[..|ms|] == ms;
    forall s | UsableAt(ms, s)
      ensures ClaimAt(ms, s).0 in exposure && ClaimAt(ms, s).1.ref in exposure[ClaimAt(ms, s).0]
    {
      var i := SpotIndex(shown, spots, ms, s);
    }
    forall p, r | p in exposure && r in exposure[p]
      ensures exists s :: FirstSpot(ms, s, (p, r)) && ClaimAt(ms, s) == (p, exposure[p][r])
    {
      var i :| 0 <= i < |shown| && shown[i] == (p, exposure[p][r]) && exposure[p][r].ref == r && IsFirst(shown, i);
      FirstIsFirstSpot(shown, spots, ms, i);
    }
  }

  lemma SpotIndex(shown: seq<(string, Claim)>, spots: seq<Spot>, ms: seq<Manifest>, s: Spot) returns (i: nat)
    requires Spots(shown, spots, ms, (|ms|, 0, 0)) && UsableAt(ms, s)
    ensures i < |shown| && |spots| == |shown| && spots[i] == s && shown[i] == ClaimAt(ms, s)
  {
    UsableIsEarly(ms, s);
    i :| 0 <= i < |spots| && spots[i] == s;
  }

  lemma FirstIsFirstSpot(shown: seq<(string, Claim)>, spots: seq<Spot>, ms: seq<Manifest>, i: nat)
    requires Spots(shown, spots, ms, (|ms|, 0, 0)) && i < |shown| && IsFirst(shown, i)
    ensures |spots| == |shown| && FirstSpot(ms, spots[i], (shown[i].0, shown[i].1.ref)) && ClaimAt(ms, spots[i]) == shown[i]
  {
    hide UsableAt, ClaimAt, SpotLess;
    var k := (shown[i].0, shown[i].1.ref);
    forall t | SpotNames(ms, t, k) ensures !SpotLess(t, spots[i]) {
      var j := SpotIndex(shown, spots, ms, t);
      assert j >= i;
      SpotsAreStrict(spots[i], t);
    }
  }

  lemma UsableIsEarly(ms: seq<Manifest>, s: Spot)
    requires UsableAt(ms, s)
    ensures SpotLess(s, (|ms|, 0, 0))
  {
  }

  lemma SpotsAreStrict(a: Spot, b: Spot)
    ensures SpotLess(a, b) || a == b ==> !SpotLess(b, a)
  {
  }

  /** Keyed by phase and not by recipient: a claim shown to several agents is one claim. */
  method ExposureByPhase(manifests: seq<Manifest>) returns (exposure: Exposure)
    ensures forall p :: p in exposure <==> exists m | m in manifests :: m.phase == p && m.prior.Some?
    ensures Records(exposure, Shown(manifests)) && Exposes(exposure, manifests)
  {
    exposure := map[];
    for k := 0 to |manifests|
      invariant forall p :: p in exposure <==> exists m | m in manifests[..k] :: m.phase == p && m.prior.Some?
      invariant Records(exposure, Shown(manifests[..k]))
    {
      hide Records;
      var manifest := manifests[k];
      assert manifests[..k + 1] == manifests[..k] + [manifest];
      assert manifests[..k + 1][..k] == manifests[..k];
      if manifest.prior.None? {
        assert Shown(manifests[..k + 1]) == Shown(manifests[..k]);
        continue;
      }
      exposure := RecordManifest(exposure, Shown(manifests[..k]), manifest.phase, manifest.prior.value.included);
      assert manifest in manifests[..k + 1];
    }
    assert manifests[..|manifests|] == manifests;
    RecordsExpose(exposure, manifests);
  }

  // ---------------------------------------------------------------- classification

  function Decide(exposure: Exposure, phase: string, answer: Answer, resolves: string -> bool): Outcome {
    if phase !in exposure || answer.ref !in exposure[phase] then Unmatched
    else if !AssertsUse(answer.disposition) && !AssertsNonUse(answer.disposition) then Unrecognised
    else if !AssertsUse(answer.disposition) then NonUse
    else if answer.evidence != [] && forall p | p in answer.evidence :: resolves(p) then CorroboratedUse
    else UncorroboratedUse
  }

  function EntryFor(subs: seq<Submission>, exposure: Exposure, resolves: string -> bool, order: nat, index: nat): Entry
    requires order < |subs| && index < |subs[order].answers| && subs[order].answers[index].Some?
  {
    var sub := subs[order];
    var answer := sub.answers[index].value;
    Entry(sub.phase, sub.role, answer.ref, answer.disposition,
          Decide(exposure, sub.phase, answer, resolves), order, index)
  }

  predicate Answered(subs: seq<Submission>, order: nat, index: nat) {
    order < |subs| && index < |subs[order].answers| && subs[order].answers[index].Some?
  }

  predicate Earlier(a: (nat, nat), b: (nat, nat)) { a.0 < b.0 || (a.0 == b.0 && a.1 < b.1) }

  function Place(e: Entry): (nat, nat) { (e.order, e.index) }

  /** Exactly the answers given before place `upto`, each decided, in submission order. */
  ghost predicate Classifies(entries: seq<Entry>, subs: seq<Submission>, exposure: Exposure,
                             resolves: string -> bool, upto: (nat, nat))
  {
    && (forall e | e in entries ::
          && Answered(subs, e.order, e.index) && Earlier(Place(e), upto)
          && e == EntryFor(subs, exposure, resolves, e.order, e.index))
    && (forall o: nat, i: nat | Answered(subs, o, i) && Earlier((o, i), upto) ::
          EntryFor(subs, exposure, resolves, o, i) in entries)
    && (forall j, k | 0 <= j < k < |entries| :: Earlier(Place(entries[j]), Place(entries[k])))
  }

  lemma ClassifyAnswer(entries: seq<Entry>, subs: seq<Submission>, exposure: Exposure,
                       resolves: string -> bool, o: nat, i: nat, after: seq<Entry>)
    requires Classifies(entries, subs, exposure, resolves, (o, i))
    requires o < |subs| && i < |subs[o].answers|
    requires after == if Answered(subs, o, i) then entries + [EntryFor(subs, exposure, resolves, o, i)] else entries
    ensures Classifies(after, subs, exposure, resolves, (o, i + 1))
  {
    hide EntryFor;
    forall o': nat, i': nat | Answered(subs, o', i') && Earlier((o', i'), (o, i + 1))
      ensures EntryFor(subs, exposure, resolves, o', i') in after
    {
      if (o', i') != (o, i) {
        assert Earlier((o', i'), (o, i));
        assert EntryFor(subs, exposure, resolves, o', i') in entries;
      }
    }
    forall e | e in after
      ensures Answered(subs, e.order, e.index) && Earlier(Place(e), (o, i + 1))
      ensures e == EntryFor(subs, exposure, resolves, e.order, e.index)
    {
      EntryIsPlaced(subs, exposure, resolves, o, i);
    }
    EntryIsPlaced(subs, exposure, resolves, o, i);
  }

  lemma EntryIsPlaced(subs: seq<Submission>, exposure: Exposure, resolves: string -> bool, o: nat, i: nat)
    ensures Answered(subs, o, i) ==> Place(EntryFor(subs, exposure, resolves, o, i)) == (o, i)
  {
  }

  lemma NothingClassified(subs: seq<Submission>, exposure: Exposure, resolves: string -> bool)
    ensures Classifies([], subs, exposure, resolves, (0, 0))
  {
  }

  lemma NextSubmission(entries: seq<Entry>, subs: seq<Submission>, exposure: Exposure,
                       resolves: string -> bool, o: nat)
    requires o < |subs| && Classifies(entries, subs, exposure, resolves, (o, |subs[o].answers|))
    ensures Classifies(entries, subs, exposure, resolves, (o + 1, 0))
  {
    hide EntryFor;
  }

  method ClassifyEntries(subs: seq<Submission>, exposure: Exposure, resolves: string -> bool)
    returns (entries: seq<Entry>)
    ensures Classifies(entries, subs, exposure, resolves, (|subs|, 0))
  {
    hide Classifies;
    entries := [];
    NothingClassified(subs, exposure, resolves);
    for order := 0 to |subs|
      invariant Classifies(entries, subs, exposure, resolves, (order, 0))
    {
      var sub := subs[order];
      for index := 0 to |sub.answers|
        invariant Classifies(entries, subs, exposure, resolves, (order, index))
      {
        ghost var was := entries;
        if sub.answers[index].None? {
          ClassifyAnswer(was, subs, exposure, resolves, order, index, entries);
          continue;
        }
        var answer := sub.answers[index].value;
        var outcome;
        if sub.phase !in exposure || answer.ref !in exposure[sub.phase] {
          outcome := Unmatched;
        } else if !AssertsUse(answer.disposition) && !AssertsNonUse(answer.disposition) {
          outcome := Unrecognised;
        } else if !AssertsUse(answer.disposition) {
          outcome := NonUse;
        } else {
          var corroborated := answer.evidence != [] && forall p | p in answer.evidence :: resolves(p);
          outcome := if corroborated then CorroboratedUse else UncorroboratedUse;
        }
        entries := entries + [Entry(sub.phase, sub.role, answer.ref, answer.disposition, outcome, order, index)];
        ClassifyAnswer(was, subs, exposure, resolves, order, index, entries);
      }
      NextSubmission(entries, subs, exposure, resolves, order);
    }
  }

  // ---------------------------------------------------------------- collapsing

  function Precedence(d: Disposition): nat {
    match d
    case StaleOrWrong => 0
    case Irrelevant => 1
    case AlreadyKnown => 2
    case ConfirmedApproach => 3
    case PromptedVerification => 4
    case ChangedDecision => 5
    case Other(_) => 6
  }

  /** The tie-break: disposition first, then role, then place in the submissions. */
  predicate Outranks(a: Entry, b: Entry) {
    var pa, pb := Precedence(a.disposition), Precedence(b.disposition);
    pa < pb || (pa == pb && (StringOrder.Less(a.role, b.role) ||
                             (a.role == b.role && Earlier(Place(a), Place(b)))))
  }

  lemma OutranksIsTransitive(a: Entry, b: Entry, c: Entry)
    requires !Outranks(b, a) && !Outranks(c, b)
    ensures !Outranks(c, a)
  {
    if Precedence(a.disposition) == Precedence(b.disposition) == Precedence(c.disposition) {
      StringOrder.LessTrichotomy(a.role, b.role);
      StringOrder.LessTrichotomy(b.role, c.role);
      StringOrder.LessIsStrict(a.role, c.role);
      if StringOrder.Less(a.role, b.role) && StringOrder.Less(b.role, c.role) {
        StringOrder.LessIsTransitive(a.role, b.role, c.role);
      }
    }
  }

  lemma OutranksIsTotal(a: Entry, b: Entry)
    ensures Outranks(a, b) || Outranks(b, a) ||
            (Precedence(a.disposition) == Precedence(b.disposition) && a.role == b.role && Place(a) == Place(b))
    ensures !Outranks(a, a)
    ensures !(Outranks(a, b) && Outranks(b, a))
  {
    StringOrder.LessTrichotomy(a.role, b.role);
    StringOrder.LessIsStrict(a.role, b.role);
    StringOrder.LessIsStrict(a.role, a.role);
  }

  function KeyOf(e: Entry): Key { (e.phase, e.ref) }

  /** For every key some entry names, the entry of that key no other one outranks. */
  ghost predicate Collapsed(best: map<Key, Entry>, entries: seq<Entry>) {
    && (forall e | e in entries :: KeyOf(e) in best && !Outranks(e, best[KeyOf(e)]))
    && (forall k | k in best :: best[k] in entries && KeyOf(best[k]) == k)
  }

  method Collapse(entries: seq<Entry>) returns (best: map<Key, Entry>)
    ensures Collapsed(best, entries)
  {
    best := map[];
    for i := 0 to |entries|
      invariant Collapsed(best, entries[..i])
    {
      var entry := entries[i];
      var key := (entry.phase, entry.ref);
      ghost var was := best;
      if key !in best || Outranks(entry, best[key]) {
        best := best[key := entry];
      }
      CollapseStep(was, entries[..i], entry, best);
      assert entries[..i + 1] == entries[..i] + [entry];
    }
    assert entries[..|entries|] == entries;
  }

  lemma CollapseStep(was: map<Key, Entry>, entries: seq<Entry>, entry: Entry, best: map<Key, Entry>)
    requires Collapsed(was, entries)
    requires best == if KeyOf(entry) !in was || Outranks(entry, was[KeyOf(entry)])
                     then was[KeyOf(entry) := entry] else was
    ensures Collapsed(best, entries + [entry])
  {
    forall e | e in entries + [entry]
      ensures KeyOf(e) in best && !Outranks(e, best[KeyOf(e)])
    {
      OutranksIsTotal(e, e);
      if e in entries && best != was && KeyOf(e) == KeyOf(entry) {
        OutranksIsTotal(entry, was[KeyOf(e)]);
        OutranksIsTransitive(entry, was[KeyOf(e)], e);
      }
    }
  }

  /** No two entries sit at the same place of the same submission. */
  ghost predicate Placed(entries: seq<Entry>) {
    forall a, b | a in entries && b in entries && Place(a) == Place(b) :: a == b
  }

  /** Listing the same entries in any other order collapses to the same table. */
  lemma CollapseIgnoresOrder(entries: seq<Entry>, shuffled: seq<Entry>, best: map<Key, Entry>, other: map<Key, Entry>)
    requires Placed(entries) && forall e :: e in entries <==> e in shuffled
    requires Collapsed(best, entries) && Collapsed(other, shuffled)
    ensures best == other
  {
    assert forall k | k in best :: best[k] in shuffled && k in other;
    assert forall k | k in other :: other[k] in entries && k in best;
    forall k | k in best
      ensures best[k] == other[k]
    {
      OutranksIsTotal(best[k], other[k]);
    }
  }

  /** The entries are exactly the decided answers, listed in any order. */
  ghost predicate ListsAnswers(entries: seq<Entry>, subs: seq<Submission>, exposure: Exposure, resolves: string -> bool) {
    && (forall e | e in entries ::
          Answered(subs, e.order, e.index) && e == EntryFor(subs, exposure, resolves, e.order, e.index))
    && (forall o: nat, i: nat | Answered(subs, o, i) :: EntryFor(subs, exposure, resolves, o, i) in entries)
  }

  lemma ClassifiedAreListed(entries: seq<Entry>, subs: seq<Submission>, exposure: Exposure, resolves: string -> bool)
    requires Classifies(entries, subs, exposure, resolves, (|subs|, 0))
    ensures ListsAnswers(entries, subs, exposure, resolves)
  {
    hide EntryFor;
    assert forall o: nat, i: nat | Answered(subs, o, i) :: Earlier((o, i), (|subs|, 0));
  }

  lemma ListedArePlaced(entries: seq<Entry>, subs: seq<Submission>, exposure: Exposure, resolves: string -> bool)
    requires ListsAnswers(entries, subs, exposure, resolves)
    ensures Placed(entries)
  {
    hide EntryFor;
  }

  lemma OutcomeFollowsDisposition(
    subs: seq<Submission>, exposure: Exposure, resolves: string -> bool, entries: seq<Entry>, e: Entry)
    requires Classifies(entries, subs, exposure, resolves, (|subs|, 0)) && e in entries
    requires e.phase in exposure && e.ref in exposure[e.phase]
    ensures e.outcome == NonUse <==> AssertsNonUse(e.disposition)
    ensures e.outcome == Unrecognised <==> e.disposition.Other?
    ensures e.outcome in {CorroboratedUse, UncorroboratedUse} <==> AssertsUse(e.disposition)
  {
  }

  /**
   * What the counted entry says about all answers to one claim: it is a non-use exactly
   * when somebody reported a non-use, a use only when nobody did, and unrecognised only
   * when nobody picked a word from the closed set.
   */
  lemma DisagreementNeverBecomesUse(
    subs: seq<Submission>, exposure: Exposure, resolves: string -> bool,
    entries: seq<Entry>, best: map<Key, Entry>, k: Key)
    requires Classifies(entries, subs, exposure, resolves, (|subs|, 0)) && Collapsed(best, entries)
    requires k in best && k.0 in exposure && k.1 in exposure[k.0]
    ensures best[k].outcome == NonUse <==>
            exists e | e in entries :: KeyOf(e) == k && AssertsNonUse(e.disposition)
    ensures best[k].outcome == Unrecognised <==>
            forall e | e in entries && KeyOf(e) == k :: e.disposition.Other?
    ensures best[k].outcome in {CorroboratedUse, UncorroboratedUse} <==>
            && (forall e | e in entries && KeyOf(e) == k :: !AssertsNonUse(e.disposition))
            && (exists e | e in entries :: KeyOf(e) == k && AssertsUse(e.disposition))
  {
    hide Classifies;
    var b := best[k];
    assert b in entries && KeyOf(b) == k;
    OutcomeFollowsDisposition(subs, exposure, resolves, entries, b);
    assert forall e | e in entries && KeyOf(e) == k :: Precedence(b.disposition) <= Precedence(e.disposition);
  }

  // ---------------------------------------------------------------- the report

  ghost function ExposedKeys(exposure: Exposure): set<Key> {
    set p, r | p in exposure && r in exposure[p] :: (p, r)
  }

  predicate KeyLess(a: Key, b: Key) {
    StringOrder.Less(a.0, b.0) || (a.0 == b.0 && StringOrder.Less(a.1, b.1))
  }

  ghost predicate KeysAscend(keys: seq<Key>) {
    forall i, j | 0 <= i < j < |keys| :: KeyLess(keys[i], keys[j])
  }

  /** Injected claims no debrief of their phase named, by phase and then by reference. */
  method Unaddressed(exposure: Exposure, counted: map<Key, Entry>) returns (missing: seq<Key>)
    ensures KeysAscend(missing)
    ensures forall k :: k in missing <==> k in ExposedKeys(exposure) && k !in counted
  {
    var phases := StringOrder.Sorted(exposure.Keys);
    missing := [];
    for i := 0 to |phases|
      invariant KeysAscend(missing)
      invariant forall k :: k in missing <==> k.0 in phases[..i] && k in ExposedKeys(exposure) && k !in counted
    {
      var phase := phases[i];
      var refs := StringOrder.Sorted(exposure[phase].Keys);
      var here := MissingRefs(phase, refs, counted);
      AscendTogether(missing, here);
      missing := missing + here;
    }
  }

  method MissingRefs(phase: string, refs: seq<string>, counted: map<Key, Entry>) returns (missing: seq<Key>)
    requires StringOrder.Ascending(refs)
    ensures KeysAscend(missing)
    ensures forall k :: k in missing <==> k.0 == phase && k.1 in refs && k !in counted
  {
    missing := [];
    for j := 0 to |refs|
      invariant KeysAscend(missing)
      invariant forall k :: k in missing <==> k.0 == phase && k.1 in refs[..j] && k !in counted
    {
      if (phase, refs[j]) !in counted {
        missing := missing + [(phase, refs[j])];
      }
    }
  }

  lemma AscendTogether(s: seq<Key>, t: seq<Key>)
    requires KeysAscend(s) && KeysAscend(t)
    requires forall a, b | a in s && b in t :: StringOrder.Less(a.0, b.0)
    ensures KeysAscend(s + t)
  {
  }

  lemma {:induction false} AscendingIsDistinct(keys: seq<Key>)
    requires KeysAscend(keys)
    ensures Distinct(keys)
  {
    forall i, j | 0 <= i < j < |keys|
      ensures keys[i] != keys[j]
    {
      StringOrder.LessIsStrict(keys[i].0, keys[i].0);
      StringOrder.LessIsStrict(keys[i].1, keys[i].1);
    }
  }

  /** The size of the exposure, phase by phase. */
  method ClaimsInjected(exposure: Exposure) returns (n: nat)
    ensures n == |ExposedKeys(exposure)|
  {
    n := 0;
    var rest := exposure.Keys;
    ghost var seen: set<Key> := {};
    while rest != {}
      invariant rest <= exposure.Keys && n == |seen|
      invariant seen == set k | k in ExposedKeys(exposure) && k.0 !in rest
      decreases |rest|
    {
      var phase :| phase in rest;
      rest := rest - {phase};
      ghost var here := set r | r in exposure[phase] :: (phase, r);
      PairUp(phase, exposure[phase].Keys);
      n := n + |exposure[phase]|;
      seen := seen + here;
    }
    assert seen == ExposedKeys(exposure);
  }

  lemma {:induction false} PairUp(phase: string, refs: set<string>)
    ensures |set r | r in refs :: (phase, r)| == |refs|
    decreases |refs|
  {
    if refs != {} {
      var x :| x in refs;
      PairUp(phase, refs - {x});
      assert (set r | r in refs :: (phase, r)) == (set r | r in refs - {x} :: (phase, r)) + {(phase, x)};
    }
  }

  function Having(counted: map<Key, Entry>, o: Outcome): set<Key> {
    set k | k in counted && counted[k].outcome == o
  }

  function HavingNonUse(counted: map<Key, Entry>, d: Disposition): set<Key> {
    set k | k in counted && counted[k].outcome == NonUse && counted[k].disposition == d
  }

  lemma TwoParts<T>(s: set<T>, a: set<T>, b: set<T>)
    requires s == a + b && a !! b
    ensures |s| == |a| + |b|
  {
  }

  lemma FourParts<T>(s: set<T>, a: set<T>, b: set<T>, c: set<T>, d: set<T>)
    requires s == a + b + c + d && a !! b && (a + b) !! c && (a + b + c) !! d
    ensures |s| == |a| + |b| + |c| + |d|
  {
    TwoParts(a + b, a, b);
    TwoParts(a + b + c, a + b, c);
    TwoParts(s, a + b + c, d);
  }

  /** An answered claim was shown exactly when its counted entry is not an unmatched citation. */
  lemma ShownIffMatched(
    subs: seq<Submission>, exposure: Exposure, resolves: string -> bool,
    entries: seq<Entry>, counted: map<Key, Entry>)
    requires Classifies(entries, subs, exposure, resolves, (|subs|, 0)) && Collapsed(counted, entries)
    ensures forall k | k in counted :: k in ExposedKeys(exposure) <==> counted[k].outcome != Unmatched
    ensures forall k | k in counted :: counted[k].outcome == NonUse ==> AssertsNonUse(counted[k].disposition)
  {
  }

  lemma NonUseSplits(counted: map<Key, Entry>)
    requires forall k | k in counted :: counted[k].outcome == NonUse ==> AssertsNonUse(counted[k].disposition)
    ensures |Having(counted, NonUse)| ==
            |HavingNonUse(counted, ConfirmedApproach)| + |HavingNonUse(counted, AlreadyKnown)| +
            |HavingNonUse(counted, Irrelevant)| + |HavingNonUse(counted, StaleOrWrong)|
  {
    FourParts(Having(counted, NonUse),
              HavingNonUse(counted, ConfirmedApproach), HavingNonUse(counted, AlreadyKnown),
              HavingNonUse(counted, Irrelevant), HavingNonUse(counted, StaleOrWrong));
  }

  /**
   * Conservation. Every injected claim is counted once: as a use, under one of the four
   * non-use names, as unrecognised, or as unaddressed. What is left of the collapsed
   * table are exactly the citations of claims never shown.
   */
  lemma ClaimsAreConserved(
    subs: seq<Submission>, exposure: Exposure, resolves: string -> bool,
    entries: seq<Entry>, counted: map<Key, Entry>, missing: set<Key>)
    requires Classifies(entries, subs, exposure, resolves, (|subs|, 0)) && Collapsed(counted, entries)
    requires missing == ExposedKeys(exposure) - counted.Keys
    ensures |ExposedKeys(exposure)| ==
            |Having(counted, CorroboratedUse)| + |Having(counted, UncorroboratedUse)| +
            |Having(counted, NonUse)| + |Having(counted, Unrecognised)| + |missing|
    ensures |counted| + |missing| == |ExposedKeys(exposure)| + |Having(counted, Unmatched)|
  {
    hide Classifies, Collapsed;
    ShownIffMatched(subs, exposure, resolves, entries, counted);
    SplitByMatch(counted, ExposedKeys(exposure), missing);
    SplitTable(counted);
    SplitByOutcome(counted);
  }

  lemma SplitShown<T>(exposed: set<T>, named: set<T>, unmatched: set<T>)
    requires unmatched <= named && forall k | k in named :: k in exposed <==> k !in unmatched
    ensures |exposed| == |named - unmatched| + |exposed - named|
    ensures unmatched == named - exposed
  {
    TwoParts(exposed, named - unmatched, exposed - named);
  }

  lemma SplitByMatch(counted: map<Key, Entry>, exposed: set<Key>, missing: set<Key>)
    requires forall k | k in counted :: k in exposed <==> counted[k].outcome != Unmatched
    requires missing == exposed - counted.Keys
    ensures |exposed| == |counted.Keys - Having(counted, Unmatched)| + |missing|
    ensures Having(counted, Unmatched) == counted.Keys - exposed
  {
    SplitShown(exposed, counted.Keys, Having(counted, Unmatched));
  }

  lemma SplitTable(counted: map<Key, Entry>)
    ensures |counted| == |counted.Keys - Having(counted, Unmatched)| + |Having(counted, Unmatched)|
  {
    TwoParts(counted.Keys, counted.Keys - Having(counted, Unmatched), Having(counted, Unmatched));
    assert |counted| == |counted.Keys|;
  }

  lemma SplitByOutcome(counted: map<Key, Entry>)
    ensures |counted.Keys - Having(counted, Unmatched)| ==
            |Having(counted, CorroboratedUse)| + |Having(counted, UncorroboratedUse)| +
            |Having(counted, NonUse)| + |Having(counted, Unrecognised)|
  {
    FourParts(counted.Keys - Having(counted, Unmatched),
              Having(counted, CorroboratedUse), Having(counted, UncorroboratedUse),
              Having(counted, NonUse), Having(counted, Unrecognised));
  }

  datatype Counts = Counts(
    injected: nat, corroborated: nat, uncorroborated: nat, unmatched: nat, unrecognised: nat,
    unaddressed: nat, confirmedApproach: nat, alreadyKnown: nat, irrelevant: nat, staleOrWrong: nat)

  datatype Report = Uncomparable | Captured(counted: map<Key, Entry>, missing: seq<Key>, counts: Counts)

  predicate CapturePresent(manifests: seq<Manifest>) {
    forall m | m in manifests :: m.prior.Some? ==> m.prior.value.captured
  }

  /** The phase and reference of every claim the manifests show. */
  ghost function ShownKeys(manifests: seq<Manifest>): set<Key> {
    set x | x in Shown(manifests) :: (x.0, x.1.ref)
  }

  lemma ShownKeysAre(ms: seq<Manifest>, k: Key)
    ensures k in ShownKeys(ms) <==> exists s :: SpotNames(ms, s, k)
  {
    hide UsableAt, ClaimAt, SpotLess, Shown;
    var shown := Shown(ms);
    var spots := ShownSpots(ms, |ms|);
    assert ms[..|ms|] == ms;
    if k in ShownKeys(ms) {
      var i :| 0 <= i < |shown| && (shown[i].0, shown[i].1.ref) == k;
      assert SpotNames(ms, spots[i], k);
    }
    if s :| SpotNames(ms, s, k) {
      var i := SpotIndex(shown, spots, ms, s);
      assert shown[i] in shown;
    }
  }

  /** Answer `i` of submission `o` is about claim `k`. */
  predicate Addresses(subs: seq<Submission>, o: nat, i: nat, k: Key) {
    Answered(subs, o, i) && subs[o].phase == k.0 && subs[o].answers[i].value.ref == k.1
  }

  ghost predicate Addressed(subs: seq<Submission>, k: Key) {
    exists o: nat, i: nat :: Addresses(subs, o, i, k)
  }

  ghost predicate ReportedUnused(subs: seq<Submission>, k: Key) {
    exists o: nat, i: nat ::
      Addresses(subs, o, i, k) && AssertsNonUse(subs[o].answers[i].value.disposition)
  }

  ghost predicate ReportedUsed(subs: seq<Submission>, k: Key) {
    exists o: nat, i: nat ::
      Addresses(subs, o, i, k) && AssertsUse(subs[o].answers[i].value.disposition)
  }

  lemma RecordedIsShown(exposure: Exposure, manifests: seq<Manifest>)
    requires Records(exposure, Shown(manifests))
    ensures ExposedKeys(exposure) == ShownKeys(manifests)
  {
    var shown := Shown(manifests);
    forall k | k in ExposedKeys(exposure)
      ensures k in ShownKeys(manifests)
    {
      var i :| 0 <= i < |shown| && shown[i] == (k.0, exposure[k.0][k.1]) && exposure[k.0][k.1].ref == k.1;
      assert shown[i] in shown;
    }
  }

  /** The entries of a key are the answers that address it. */
  lemma EntriesAreAnswers(
    subs: seq<Submission>, exposure: Exposure, resolves: string -> bool, entries: seq<Entry>, k: Key)
    requires Classifies(entries, subs, exposure, resolves, (|subs|, 0))
    ensures (exists e | e in entries :: KeyOf(e) == k) <==> Addressed(subs, k)
    ensures (exists e | e in entries :: KeyOf(e) == k && AssertsNonUse(e.disposition)) <==> ReportedUnused(subs, k)
    ensures (exists e | e in entries :: KeyOf(e) == k && AssertsUse(e.disposition)) <==> ReportedUsed(subs, k)
  {
    forall e | e in entries && KeyOf(e) == k
      ensures Addresses(subs, e.order, e.index, k)
      ensures subs[e.order].answers[e.index].value.disposition == e.disposition
    {
    }
    forall o: nat, i: nat | Addresses(subs, o, i, k)
      ensures EntryFor(subs, exposure, resolves, o, i) in entries
      ensures KeyOf(EntryFor(subs, exposure, resolves, o, i)) == k
    {
      assert Earlier((o, i), (|subs|, 0));
    }
  }

  ghost predicate Balanced(c: Counts) {
    c.injected == c.corroborated + c.uncorroborated + c.confirmedApproach + c.alreadyKnown
                  + c.irrelevant + c.staleOrWrong + c.unrecognised + c.unaddressed
  }

  function Tally(injected: nat, counted: map<Key, Entry>, missing: seq<Key>): Counts {
    Counts(injected,
           |Having(counted, CorroboratedUse)|, |Having(counted, UncorroboratedUse)|,
           |Having(counted, Unmatched)|, |Having(counted, Unrecognised)|, |missing|,
           |HavingNonUse(counted, ConfirmedApproach)|, |HavingNonUse(counted, AlreadyKnown)|,
           |HavingNonUse(counted, Irrelevant)|, |HavingNonUse(counted, StaleOrWrong)|)
  }

  /** How the counted outcome of a shown claim follows from everything said about it. */
  ghost predicate FaithfulTo(e: Entry, subs: seq<Submission>, k: Key) {
    && (e.outcome == NonUse <==> ReportedUnused(subs, k))
    && (e.outcome in {CorroboratedUse, UncorroboratedUse} <==> !ReportedUnused(subs, k) && ReportedUsed(subs, k))
    && (e.outcome == Unrecognised <==> !ReportedUnused(subs, k) && !ReportedUsed(subs, k))
  }

  lemma CountedIsFaithful(
    subs: seq<Submission>, exposure: Exposure, resolves: string -> bool,
    entries: seq<Entry>, counted: map<Key, Entry>, k: Key)
    requires Classifies(entries, subs, exposure, resolves, (|subs|, 0)) && Collapsed(counted, entries)
    ensures k in counted <==> Addressed(subs, k)
    ensures k in counted && k in ExposedKeys(exposure) ==> FaithfulTo(counted[k], subs, k)
    ensures k in counted && k !in ExposedKeys(exposure) ==> counted[k].outcome == Unmatched
  {
    hide Classifies, Addressed, ReportedUnused, ReportedUsed;
    EntriesAreAnswers(subs, exposure, resolves, entries, k);
    ShownIffMatched(subs, exposure, resolves, entries, counted);
    if k in counted && k in ExposedKeys(exposure) {
      DisagreementNeverBecomesUse(subs, exposure, resolves, entries, counted, k);
    }
  }

  /** The table comes from the claims shown and the answers given, whatever order they are
      listed in when the best of each key is taken. */
  ghost predicate Tabulates(counted: map<Key, Entry>, manifests: seq<Manifest>, subs: seq<Submission>, resolves: string -> bool) {
    exists exposure, entries :: TabulatesFrom(counted, manifests, subs, resolves, exposure, entries)
  }

  ghost predicate TabulatesFrom(counted: map<Key, Entry>, manifests: seq<Manifest>, subs: seq<Submission>,
                                resolves: string -> bool, exposure: Exposure, entries: seq<Entry>)
  {
    && Records(exposure, Shown(manifests)) && ListsAnswers(entries, subs, exposure, resolves)
    && Collapsed(counted, entries)
  }

  /** The table, and with it every count, does not depend on the order of the entries. */
  lemma ReportIgnoresEntryOrder(manifests: seq<Manifest>, subs: seq<Submission>, resolves: string -> bool,
                                counted: map<Key, Entry>, other: map<Key, Entry>)
    requires Tabulates(counted, manifests, subs, resolves) && Tabulates(other, manifests, subs, resolves)
    ensures counted == other
  {
    hide Records, Shown, ListsAnswers, Collapsed, ExposedKeys, Placed;
    var exposure, entries :| TabulatesFrom(counted, manifests, subs, resolves, exposure, entries);
    var exposure', shuffled :| TabulatesFrom(other, manifests, subs, resolves, exposure', shuffled);
    RecordedIsShown(exposure, manifests);
    RecordedIsShown(exposure', manifests);
    ListingsAgree(entries, shuffled, subs, exposure, exposure', resolves);
    ListedArePlaced(entries, subs, exposure, resolves);
    CollapseIgnoresOrder(entries, shuffled, counted, other);
  }

  lemma ListingsAgree(entries: seq<Entry>, shuffled: seq<Entry>, subs: seq<Submission>, exposure: Exposure,
                      exposure': Exposure, resolves: string -> bool)
    requires ListsAnswers(entries, subs, exposure, resolves) && ListsAnswers(shuffled, subs, exposure', resolves)
    requires ExposedKeys(exposure) == ExposedKeys(exposure')
    ensures forall e :: e in entries <==> e in shuffled
  {
    hide EntryFor, ExposedKeys;
    forall o: nat, i: nat | Answered(subs, o, i)
      ensures EntryFor(subs, exposure, resolves, o, i) == EntryFor(subs, exposure', resolves, o, i)
    {
      SameEntry(subs, exposure, exposure', resolves, o, i);
    }
  }

  /** An answer is decided by the keys shown, not by the claims recorded under them. */
  lemma SameEntry(subs: seq<Submission>, exposure: Exposure, exposure': Exposure, resolves: string -> bool, o: nat, i: nat)
    requires Answered(subs, o, i) && ExposedKeys(exposure) == ExposedKeys(exposure')
    ensures EntryFor(subs, exposure, resolves, o, i) == EntryFor(subs, exposure', resolves, o, i)
  {
    var k := (subs[o].phase, subs[o].answers[i].value.ref);
    assert k in ExposedKeys(exposure) <==> k in ExposedKeys(exposure');
  }

  // ----- What each count counts -----

  ghost predicate Said(subs: seq<Submission>, k: Key, d: Disposition) {
    exists o: nat, i: nat :: Addresses(subs, o, i, k) && subs[o].answers[i].value.disposition == d
  }

  /** Of all that was said about the claim, `d` comes first in the order of precedence. */
  ghost predicate StrongestSaid(subs: seq<Submission>, k: Key, d: Disposition) {
    Said(subs, k, d) && forall e | Precedence(e) < Precedence(d) :: !Said(subs, k, e)
  }

  ghost function UnusedAs(manifests: seq<Manifest>, subs: seq<Submission>, d: Disposition): set<Key> {
    set k | k in ShownKeys(manifests) && StrongestSaid(subs, k, d)
  }

  ghost function UsedKeys(manifests: seq<Manifest>, subs: seq<Submission>): set<Key> {
    set k | k in ShownKeys(manifests) && !ReportedUnused(subs, k) && ReportedUsed(subs, k)
  }

  /** Answer (o, i) comes before answer (o', i') in the tie-break. */
  predicate AnswerBefore(subs: seq<Submission>, o: nat, i: nat, o': nat, i': nat)
    requires Answered(subs, o, i) && Answered(subs, o', i')
  {
    var p, p' := Precedence(subs[o].answers[i].value.disposition), Precedence(subs[o'].answers[i'].value.disposition);
    p < p' || (p == p' && (StringOrder.Less(subs[o].role, subs[o'].role) ||
                           (subs[o].role == subs[o'].role && Earlier((o, i), (o', i')))))
  }

  /** Answer (o, i) is the one that counts for claim `k`: no other answer to it comes before. */
  ghost predicate Leads(subs: seq<Submission>, k: Key, o: nat, i: nat) {
    && Addresses(subs, o, i, k)
    && forall o': nat, i': nat | Addresses(subs, o', i', k) :: !AnswerBefore(subs, o', i', o, i)
  }

  function WordOf(subs: seq<Submission>, o: nat, i: nat): Disposition
    requires Answered(subs, o, i)
  {
    subs[o].answers[i].value.disposition
  }

  /** Two answers that weigh the same: one word of the closed set, or any words outside it. */
  predicate SameWeight(d: Disposition, e: Disposition) { d == e || (d.Other? && e.Other?) }

  /**
   * The answer that counts, word by word: stale or wrong if anybody said so, then
   * irrelevant, already known, confirmed, prompted, changed, and any other word last. Of
   * answers of one weight it is the one of the least role, and the earliest of that role.
   */
  ghost predicate LeadIs(subs: seq<Submission>, k: Key, o: nat, i: nat) {
    && Addresses(subs, o, i, k)
    && var d := WordOf(subs, o, i);
    && (Said(subs, k, StaleOrWrong) ==> d == StaleOrWrong)
    && (Said(subs, k, Irrelevant) ==> d in {StaleOrWrong, Irrelevant})
    && (Said(subs, k, AlreadyKnown) ==> d in {StaleOrWrong, Irrelevant, AlreadyKnown})
    && (Said(subs, k, ConfirmedApproach) ==> d in {StaleOrWrong, Irrelevant, AlreadyKnown, ConfirmedApproach})
    && (Said(subs, k, PromptedVerification) ==> !d.ChangedDecision? && !d.Other?)
    && (Said(subs, k, ChangedDecision) ==> !d.Other?)
    && forall o': nat, i': nat | Addresses(subs, o', i', k) && SameWeight(WordOf(subs, o', i'), d) ::
         && !StringOrder.Less(subs[o'].role, subs[o].role)
         && (subs[o'].role == subs[o].role ==> !Earlier((o', i'), (o, i)))
  }

  lemma LeadFollowsRule(subs: seq<Submission>, k: Key, o: nat, i: nat)
    requires Leads(subs, k, o, i)
    ensures LeadIs(subs, k, o, i)
  {
    hide StringOrder.Less;
    var d := WordOf(subs, o, i);
    forall e | Said(subs, k, e) ensures Precedence(d) <= Precedence(e) {
      var o': nat, i': nat :| Addresses(subs, o', i', k) && WordOf(subs, o', i') == e;
      assert !AnswerBefore(subs, o', i', o, i);
    }
    forall o': nat, i': nat | Addresses(subs, o', i', k) && SameWeight(WordOf(subs, o', i'), d)
      ensures !StringOrder.Less(subs[o'].role, subs[o].role)
      ensures subs[o'].role == subs[o].role ==> !Earlier((o', i'), (o, i))
    {
      assert !AnswerBefore(subs, o', i', o, i);
    }
  }

  /** The answer points at evidence, and all of it resolves. */
  predicate Backed(subs: seq<Submission>, o: nat, i: nat, resolves: string -> bool)
    requires Answered(subs, o, i)
  {
    var evidence := subs[o].answers[i].value.evidence;
    evidence != [] && forall p | p in evidence :: resolves(p)
  }

  /** The leading answer of the claim asserts a use, with or without resolving evidence. */
  ghost predicate UsedWith(subs: seq<Submission>, k: Key, resolves: string -> bool, backed: bool) {
    exists o: nat, i: nat :: Leads(subs, k, o, i) && AssertsUse(subs[o].answers[i].value.disposition)
                             && Backed(subs, o, i, resolves) == backed
  }

  ghost function UsesWith(manifests: seq<Manifest>, subs: seq<Submission>, resolves: string -> bool, backed: bool): set<Key> {
    set k | k in ShownKeys(manifests) && UsedWith(subs, k, resolves, backed)
  }

  ghost function UnrecognisedKeys(manifests: seq<Manifest>, subs: seq<Submission>): set<Key> {
    set k | k in ShownKeys(manifests) && Addressed(subs, k) && !ReportedUnused(subs, k) && !ReportedUsed(subs, k)
  }

  ghost function SilentKeys(manifests: seq<Manifest>, subs: seq<Submission>): set<Key> {
    set k | k in ShownKeys(manifests) && !Addressed(subs, k)
  }

  /** Every published count is the number of shown claims of which its statement holds. */
  ghost predicate CountsMean(c: Counts, manifests: seq<Manifest>, subs: seq<Submission>, resolves: string -> bool) {
    && c.injected == |ShownKeys(manifests)|
    && c.staleOrWrong == |UnusedAs(manifests, subs, StaleOrWrong)|
    && c.irrelevant == |UnusedAs(manifests, subs, Irrelevant)|
    && c.alreadyKnown == |UnusedAs(manifests, subs, AlreadyKnown)|
    && c.confirmedApproach == |UnusedAs(manifests, subs, ConfirmedApproach)|
    && c.corroborated == |UsesWith(manifests, subs, resolves, true)|
    && c.uncorroborated == |UsesWith(manifests, subs, resolves, false)|
    && c.corroborated + c.uncorroborated == |UsedKeys(manifests, subs)|
    && c.unrecognised == |UnrecognisedKeys(manifests, subs)|
    && c.unaddressed == |SilentKeys(manifests, subs)|
  }

  /** The counted disposition of a claim is the strongest one anybody gave. */
  lemma CountedIsStrongest(subs: seq<Submission>, exposure: Exposure, resolves: string -> bool,
                           entries: seq<Entry>, counted: map<Key, Entry>, k: Key)
    requires Classifies(entries, subs, exposure, resolves, (|subs|, 0)) && Collapsed(counted, entries) && k in counted
    ensures StrongestSaid(subs, k, counted[k].disposition)
  {
    hide EntryFor, Outranks;
    var b := counted[k];
    assert b in entries && KeyOf(b) == k;
    EntryNames(subs, exposure, resolves, b.order, b.index);
    assert Addresses(subs, b.order, b.index, k);
    forall e | Precedence(e) < Precedence(b.disposition)
      ensures !Said(subs, k, e)
    {
      if Said(subs, k, e) {
        var o: nat, i: nat :| Addresses(subs, o, i, k) && subs[o].answers[i].value.disposition == e;
        var x := EntryFor(subs, exposure, resolves, o, i);
        EntryNames(subs, exposure, resolves, o, i);
        assert Earlier((o, i), (|subs|, 0)) && x in entries;
        LowerPrecedenceOutranks(x, b);
      }
    }
  }

  lemma EntryNames(subs: seq<Submission>, exposure: Exposure, resolves: string -> bool, o: nat, i: nat)
    requires Answered(subs, o, i)
    ensures var e := EntryFor(subs, exposure, resolves, o, i);
      Addresses(subs, o, i, KeyOf(e)) && e.disposition == subs[o].answers[i].value.disposition
  {
  }

  lemma LowerPrecedenceOutranks(a: Entry, b: Entry)
    requires Precedence(a.disposition) < Precedence(b.disposition)
    ensures Outranks(a, b)
  {
  }

  lemma OnlyOneStrongest(subs: seq<Submission>, k: Key, d: Disposition, e: Disposition)
    requires StrongestSaid(subs, k, d) && StrongestSaid(subs, k, e) && AssertsNonUse(e)
    ensures d == e
  {
    hide Said;
    assert Precedence(d) == Precedence(e);
  }

  lemma SaidIsAddressed(subs: seq<Submission>, k: Key, d: Disposition)
    requires Said(subs, k, d)
    ensures Addressed(subs, k)
  {
  }

  /** The keys counted under a non-use name are those it is the strongest answer for. */
  lemma NonUseKeysAre(manifests: seq<Manifest>, subs: seq<Submission>, exposure: Exposure, resolves: string -> bool,
                      entries: seq<Entry>, counted: map<Key, Entry>, d: Disposition)
    requires Classifies(entries, subs, exposure, resolves, (|subs|, 0)) && Collapsed(counted, entries)
    requires ExposedKeys(exposure) == ShownKeys(manifests) && AssertsNonUse(d)
    ensures HavingNonUse(counted, d) == UnusedAs(manifests, subs, d)
  {
    hide Classifies, Collapsed, ExposedKeys, ShownKeys, StrongestSaid, Addressed, FaithfulTo;
    ShownIffMatched(subs, exposure, resolves, entries, counted);
    forall k
      ensures k in HavingNonUse(counted, d) <==> k in UnusedAs(manifests, subs, d)
    {
      CountedIsFaithful(subs, exposure, resolves, entries, counted, k);
      if k in counted {
        CountedIsStrongest(subs, exposure, resolves, entries, counted, k);
        if k in HavingNonUse(counted, d) {
          assert k in UnusedAs(manifests, subs, d);
        }
        if k in UnusedAs(manifests, subs, d) {
          OnlyOneStrongest(subs, k, counted[k].disposition, d);
          NonUseOutcome(subs, exposure, resolves, entries, counted, k);
        }
      } else if StrongestSaid(subs, k, d) {
        StrongestIsAddressed(subs, k, d);
      }
    }
  }

  lemma StrongestIsAddressed(subs: seq<Submission>, k: Key, d: Disposition)
    requires StrongestSaid(subs, k, d)
    ensures Addressed(subs, k)
  {
    SaidIsAddressed(subs, k, d);
  }

  lemma NonUseOutcome(subs: seq<Submission>, exposure: Exposure, resolves: string -> bool,
                      entries: seq<Entry>, counted: map<Key, Entry>, k: Key)
    requires Classifies(entries, subs, exposure, resolves, (|subs|, 0)) && Collapsed(counted, entries)
    requires k in counted && k in ExposedKeys(exposure) && AssertsNonUse(counted[k].disposition)
    ensures counted[k].outcome == NonUse
  {
    hide Classifies;
    OutcomeFollowsDisposition(subs, exposure, resolves, entries, counted[k]);
  }

  /** The keys of the other outcomes, from what was said. */
  lemma OtherKeysAre(manifests: seq<Manifest>, subs: seq<Submission>, exposure: Exposure, resolves: string -> bool,
                     entries: seq<Entry>, counted: map<Key, Entry>)
    requires Classifies(entries, subs, exposure, resolves, (|subs|, 0)) && Collapsed(counted, entries)
    requires ExposedKeys(exposure) == ShownKeys(manifests)
    ensures Having(counted, CorroboratedUse) + Having(counted, UncorroboratedUse) == UsedKeys(manifests, subs)
    ensures Having(counted, Unrecognised) == UnrecognisedKeys(manifests, subs)
    ensures ExposedKeys(exposure) - counted.Keys == SilentKeys(manifests, subs)
  {
    hide Classifies, Collapsed, ExposedKeys, ShownKeys, Addressed, ReportedUnused, ReportedUsed;
    ShownIffMatched(subs, exposure, resolves, entries, counted);
    forall k
      ensures k in Having(counted, CorroboratedUse) + Having(counted, UncorroboratedUse) <==> k in UsedKeys(manifests, subs)
      ensures k in Having(counted, Unrecognised) <==> k in UnrecognisedKeys(manifests, subs)
      ensures k in ExposedKeys(exposure) - counted.Keys <==> k in SilentKeys(manifests, subs)
    {
      CountedIsFaithful(subs, exposure, resolves, entries, counted, k);
      UsedIsAddressed(subs, k);
    }
  }

  /** The counted entry of a claim is its leading answer, and there is only one. */
  lemma CountedLeads(subs: seq<Submission>, exposure: Exposure, resolves: string -> bool,
                     entries: seq<Entry>, counted: map<Key, Entry>, k: Key)
    requires Classifies(entries, subs, exposure, resolves, (|subs|, 0)) && Collapsed(counted, entries) && k in counted
    ensures Leads(subs, k, counted[k].order, counted[k].index)
    ensures forall o: nat, i: nat | Leads(subs, k, o, i) :: (o, i) == Place(counted[k])
  {
    hide EntryFor, Outranks, AnswerBefore;
    var b := counted[k];
    assert b in entries && KeyOf(b) == k;
    EntryNames(subs, exposure, resolves, b.order, b.index);
    forall o: nat, i: nat | Addresses(subs, o, i, k)
      ensures !AnswerBefore(subs, o, i, b.order, b.index)
    {
      var x := EntryFor(subs, exposure, resolves, o, i);
      EntryNames(subs, exposure, resolves, o, i);
      assert Earlier((o, i), (|subs|, 0)) && x in entries;
      BeforeIsOutranking(subs, exposure, resolves, o, i, b.order, b.index);
    }
    forall o: nat, i: nat | Leads(subs, k, o, i)
      ensures (o, i) == Place(b)
    {
      BeforeIsTotal(subs, o, i, b.order, b.index);
    }
  }

  lemma BeforeIsOutranking(subs: seq<Submission>, exposure: Exposure, resolves: string -> bool, o: nat, i: nat, o': nat, i': nat)
    requires Answered(subs, o, i) && Answered(subs, o', i')
    ensures AnswerBefore(subs, o, i, o', i') <==>
            Outranks(EntryFor(subs, exposure, resolves, o, i), EntryFor(subs, exposure, resolves, o', i'))
  {
    hide StringOrder.Less;
  }

  lemma BeforeIsTotal(subs: seq<Submission>, o: nat, i: nat, o': nat, i': nat)
    requires Answered(subs, o, i) && Answered(subs, o', i')
    ensures AnswerBefore(subs, o, i, o', i') || AnswerBefore(subs, o', i', o, i) || (o, i) == (o', i')
  {
    hide StringOrder.Less;
    StringOrder.LessTrichotomy(subs[o].role, subs[o'].role);
  }

  lemma OutcomeByEvidence(subs: seq<Submission>, exposure: Exposure, resolves: string -> bool, entries: seq<Entry>, e: Entry)
    requires Classifies(entries, subs, exposure, resolves, (|subs|, 0)) && e in entries
    requires e.phase in exposure && e.ref in exposure[e.phase]
    ensures Answered(subs, e.order, e.index) && e.disposition == subs[e.order].answers[e.index].value.disposition
    ensures e.outcome == CorroboratedUse <==> AssertsUse(e.disposition) && Backed(subs, e.order, e.index, resolves)
    ensures e.outcome == UncorroboratedUse <==> AssertsUse(e.disposition) && !Backed(subs, e.order, e.index, resolves)
  {
  }

  /** The keys counted as corroborated or uncorroborated uses. */
  lemma UseKeysAre(manifests: seq<Manifest>, subs: seq<Submission>, exposure: Exposure, resolves: string -> bool,
                   entries: seq<Entry>, counted: map<Key, Entry>, backed: bool)
    requires Classifies(entries, subs, exposure, resolves, (|subs|, 0)) && Collapsed(counted, entries)
    requires ExposedKeys(exposure) == ShownKeys(manifests)
    ensures Having(counted, if backed then CorroboratedUse else UncorroboratedUse) == UsesWith(manifests, subs, resolves, backed)
  {
    hide Classifies, Collapsed, ExposedKeys, ShownKeys, Addressed, FaithfulTo, Leads, Backed, UsedWith;
    ShownIffMatched(subs, exposure, resolves, entries, counted);
    forall k
      ensures k in Having(counted, if backed then CorroboratedUse else UncorroboratedUse) <==>
              k in UsesWith(manifests, subs, resolves, backed)
    {
      CountedIsFaithful(subs, exposure, resolves, entries, counted, k);
      if k in ShownKeys(manifests) {
        UsedWithIffCounted(subs, exposure, resolves, entries, counted, k, backed);
      }
    }
  }

  lemma UsedWithIffCounted(subs: seq<Submission>, exposure: Exposure, resolves: string -> bool,
                           entries: seq<Entry>, counted: map<Key, Entry>, k: Key, backed: bool)
    requires Classifies(entries, subs, exposure, resolves, (|subs|, 0)) && Collapsed(counted, entries)
    requires k in ExposedKeys(exposure)
    ensures UsedWith(subs, k, resolves, backed) <==>
            k in counted && counted[k].outcome == if backed then CorroboratedUse else UncorroboratedUse
  {
    hide Classifies, Leads, Backed, Outranks;
    CountedIsFaithful(subs, exposure, resolves, entries, counted, k);
    if k in counted {
      CountedLeads(subs, exposure, resolves, entries, counted, k);
      OutcomeByEvidence(subs, exposure, resolves, entries, counted[k]);
    } else {
      forall o: nat, i: nat
        ensures !Leads(subs, k, o, i)
      {
        LeadingAddresses(subs, k, o, i);
      }
    }
  }

  /**
   * The counted entry of a claim: its leading answer, unmatched for a claim never shown,
   * and otherwise decided by the answer's own word and evidence.
   */
  ghost predicate CountedIs(e: Entry, manifests: seq<Manifest>, subs: seq<Submission>, resolves: string -> bool, k: Key) {
    && LeadIs(subs, k, e.order, e.index)
    && e.phase == k.0 && e.ref == k.1 && e.role == subs[e.order].role && e.disposition == WordOf(subs, e.order, e.index)
    && var used := e.disposition == ChangedDecision || e.disposition == PromptedVerification;
    && (e.outcome == Unmatched <==> k !in ShownKeys(manifests))
    && (e.outcome == CorroboratedUse <==>
          k in ShownKeys(manifests) && used && Backed(subs, e.order, e.index, resolves))
    && (e.outcome == UncorroboratedUse <==>
          k in ShownKeys(manifests) && used && !Backed(subs, e.order, e.index, resolves))
    && (e.outcome == Unrecognised <==> k in ShownKeys(manifests) && e.disposition.Other?)
  }

  lemma CountedFollowsRule(manifests: seq<Manifest>, subs: seq<Submission>, exposure: Exposure, resolves: string -> bool,
                           entries: seq<Entry>, counted: map<Key, Entry>, k: Key)
    requires Classifies(entries, subs, exposure, resolves, (|subs|, 0)) && Collapsed(counted, entries) && k in counted
    requires ExposedKeys(exposure) == ShownKeys(manifests)
    ensures CountedIs(counted[k], manifests, subs, resolves, k)
  {
    hide ShownKeys, Leads, LeadIs, Outranks, Precedence;
    CountedLeads(subs, exposure, resolves, entries, counted, k);
    var e := counted[k];
    LeadFollowsRule(subs, k, e.order, e.index);
    assert e in entries && KeyOf(e) == k;
    assert k in ExposedKeys(exposure) <==> k.0 in exposure && k.1 in exposure[k.0];
  }

  lemma LeadingAddresses(subs: seq<Submission>, k: Key, o: nat, i: nat)
    ensures Leads(subs, k, o, i) ==> Addressed(subs, k)
  {
  }

  lemma UsedIsAddressed(subs: seq<Submission>, k: Key)
    ensures ReportedUsed(subs, k) ==> Addressed(subs, k)
  {
  }

  /**
   * The whole report. A run with an uncaptured manifest gets none; any other report is
   * balanced, lists exactly the shown claims nobody addressed, counts each addressed claim
   * under what was said about it, and publishes the counts of its own table.
   */
  method BuildReport(manifests: seq<Manifest>, subs: seq<Submission>, resolves: string -> bool)
    returns (report: Report)
    ensures report.Uncomparable? <==> !CapturePresent(manifests)
    ensures report.Captured? ==>
      && Tabulates(report.counted, manifests, subs, resolves)
      && report.counts == Tally(|ShownKeys(manifests)|, report.counted, report.missing)
      && CountsMean(report.counts, manifests, subs, resolves) && Balanced(report.counts)
      && report.counts.unmatched == |report.counted.Keys - ShownKeys(manifests)|
      && KeysAscend(report.missing)
      && (forall k :: k in report.missing <==> k in ShownKeys(manifests) && !Addressed(subs, k))
      && (forall k :: k in report.counted <==> Addressed(subs, k))
      && (forall k | k in report.counted && k in ShownKeys(manifests) :: FaithfulTo(report.counted[k], subs, k))
      && (forall k | k in report.counted :: CountedIs(report.counted[k], manifests, subs, resolves, k))
  {
    hide Records, Exposes, CountedIs, Shown, Classifies, Collapsed, FaithfulTo, Addressed, CapturePresent, ExposedKeys, ShownKeys, KeysAscend, Having, HavingNonUse, Balanced, CountsMean, ListsAnswers;
    if !CapturePresent(manifests) {
      return Uncomparable;
    }
    var exposure := ExposureByPhase(manifests);
    var entries := ClassifyEntries(subs, exposure, resolves);
    var counted := Collapse(entries);
    var missing := Unaddressed(exposure, counted);
    var injected := ClaimsInjected(exposure);
    report := Captured(counted, missing, Tally(injected, counted, missing));
    RecordedIsShown(exposure, manifests);
    ClassifiedAreListed(entries, subs, exposure, resolves);
    assert TabulatesFrom(counted, manifests, subs, resolves, exposure, entries);
    TallyBalances(subs, exposure, resolves, entries, counted, missing);
    TallyMeans(manifests, subs, exposure, resolves, entries, counted, missing);
    forall k
      ensures k in counted <==> Addressed(subs, k)
      ensures k in counted && k in ShownKeys(manifests) ==> FaithfulTo(counted[k], subs, k)
      ensures k in counted ==> CountedIs(counted[k], manifests, subs, resolves, k)
    {
      CountedIsFaithful(subs, exposure, resolves, entries, counted, k);
      if k in counted {
        CountedFollowsRule(manifests, subs, exposure, resolves, entries, counted, k);
      }
    }
  }

  lemma TallyMeans(manifests: seq<Manifest>, subs: seq<Submission>, exposure: Exposure, resolves: string -> bool,
                   entries: seq<Entry>, counted: map<Key, Entry>, missing: seq<Key>)
    requires Classifies(entries, subs, exposure, resolves, (|subs|, 0)) && Collapsed(counted, entries)
    requires ExposedKeys(exposure) == ShownKeys(manifests)
    requires KeysAscend(missing) && forall k :: k in missing <==> k in ExposedKeys(exposure) && k !in counted
    ensures CountsMean(Tally(|ShownKeys(manifests)|, counted, missing), manifests, subs, resolves)
  {
    hide Classifies, Collapsed, KeysAscend, ExposedKeys, ShownKeys, Having, HavingNonUse, UnusedAs, UsedKeys, UsesWith, UnrecognisedKeys, SilentKeys;
    UseKeysAre(manifests, subs, exposure, resolves, entries, counted, true);
    UseKeysAre(manifests, subs, exposure, resolves, entries, counted, false);
    NonUseKeysAre(manifests, subs, exposure, resolves, entries, counted, StaleOrWrong);
    NonUseKeysAre(manifests, subs, exposure, resolves, entries, counted, Irrelevant);
    NonUseKeysAre(manifests, subs, exposure, resolves, entries, counted, AlreadyKnown);
    NonUseKeysAre(manifests, subs, exposure, resolves, entries, counted, ConfirmedApproach);
    OtherKeysAre(manifests, subs, exposure, resolves, entries, counted);
    OutcomesAreApart(counted);
    TwoParts(UsedKeys(manifests, subs), Having(counted, CorroboratedUse), Having(counted, UncorroboratedUse));
    AscendingIsDistinct(missing);
    DistinctCard(missing);
    assert ExposedKeys(exposure) - counted.Keys == set k | k in missing;
  }

  lemma OutcomesAreApart(counted: map<Key, Entry>)
    ensures Having(counted, CorroboratedUse) !! Having(counted, UncorroboratedUse)
  {
  }

  lemma TallyBalances(
    subs: seq<Submission>, exposure: Exposure, resolves: string -> bool,
    entries: seq<Entry>, counted: map<Key, Entry>, missing: seq<Key>)
    requires Classifies(entries, subs, exposure, resolves, (|subs|, 0)) && Collapsed(counted, entries)
    requires KeysAscend(missing) && forall k :: k in missing <==> k in ExposedKeys(exposure) && k !in counted
    ensures Balanced(Tally(|ExposedKeys(exposure)|, counted, missing))
    ensures |Having(counted, Unmatched)| == |counted.Keys - ExposedKeys(exposure)|
  {
    hide Classifies, Collapsed, KeysAscend, ExposedKeys, Having, HavingNonUse;
    var missed := ExposedKeys(exposure) - counted.Keys;
    AscendingIsDistinct(missing);
    DistinctCard(missing);
    assert missed == set k | k in missing;
    ShownIffMatched(subs, exposure, resolves, entries, counted);
    NonUseSplits(counted);
    ClaimsAreConserved(subs, exposure, resolves, entries, counted, missed);
    SplitByMatch(counted, ExposedKeys(exposure), missed);
  }
}
